# style_parser core, modelled in Dafny

style_parser grades C/C++ source files for style. It finds the functions of a
file, measures the length and the brace-nesting depth of each body, and turns
the measures into two scores against a length limit and a depth limit. This
project models that core and proves properties of it:

- `signature.dfy` (module `Signatures`): the `Signature` and `Parameter`
  records, signature equality, the text forms, `extract_signature`,
  `generate_parameter_from_pair` and `get_full_string`.
- `locator.dfy` (module `Locator`): the declaration pattern, the first loop of
  `get_function_decls`, the loop that keeps the first occurrence of each
  signature, and `find_definitions`. A `Variant` says which checker is meant:
  `Plain` is `check_length.py`, `CommentAware` is `check_length_nesting.py`.
- `brace_walk.dfy` (module `BraceWalk`): the search for a body's opening line
  and the line-by-line brace walk behind `parse_length` and `parse_depth`. A
  `Rule` says how a line holding a block-comment opener is treated.
- `scoring.dfy` (module `Scoring`): the score formulas.
- `check_length_nesting.dfy` (module `CheckLengthNesting`) and
  `check_length.dfy` (module `CheckLength`): the two checkers' own functions,
  as methods with loops, each proved equal to the function that specifies it.
- `printers.dfy` (module `Printers`): `get_function_sig` and `extract_filename`.
- `multifile_helpers.dfy` (module `MultifileHelpers`): `pair_files`.
- `py_text.dfy` (module `PyText`) and `outcome.dfy` (module `Outcome`): the
  Python string operations the code relies on (`split`, `join`, `strip`,
  `count`, `replace`, `in`) and the `Result` type.

A Python exception is an `Err` of `Outcome.Failure`:

- `NoTerminator`: the signature scan runs past the last line.
- `NoNameToken`: the split signature has fewer than two pieces.
- `EmptyParameter`: an argument segment has no words (`parts[0]` of an empty list).
- `EmptyMax`: `max()` of an empty list.
- `NoBodyBrace`: no opening line is found.
- `NoFunctions`: the score divides by zero.
- `SignaturePastEnd`: `get_function_sig` reads past the last line.

What the code does, and the model with it:

- Comments are recognised line by line. The code counts `/*` and `*/` on
  each line and skips a line whose squashed text starts with `//`. String and
  character literals are not tracked.
- An empty function list makes `count / total` divide by zero
  (`NoFunctions`).
- `parse_depth` returns the maximum recorded nesting.
- A body that is never closed is measured up to the last line of the file.
- A malformed candidate line raises (`NoNameToken` or `EmptyParameter`), and
  the error ends the whole analysis.
- `Signature.__eq__` compares parameter types only as far as the shorter
  list goes, so it is not transitive (`SameSignatureNotTransitive`).

## Model

| member | source | states |
|---|---|---|
| Signatures.Equals | signature.py:22-31 | the fold returns true exactly when return types and names are equal and the parameter types agree at every position both lists have |
| Signatures.SameSignatureReflexive | signature.py:22-31 | every signature equals itself |
| Signatures.SameSignatureSymmetric | signature.py:22-31 | equality does not depend on the order of the operands |
| Signatures.ParameterNamesIgnored | signature.py:28-29 | renaming every parameter leaves a signature equal to the original |
| Signatures.PrefixParametersEqual | signature.py:28-31 | because `zip` stops at the shorter list, appending parameters leaves a signature equal to the original |
| Signatures.SameSignatureNotTransitive | signature.py:28-31 | there are signatures a, b, c with a == b and b == c but a != c |
| Signatures.Repr | signature.py:10-20 | the appended text is `type name(` followed by the `type name` texts joined by `, `, then `)` |
| Signatures.ParameterTextInjective | signature.py:39-40 | two parameters whose types hold no comma have the same text form exactly when they are equal |
| Signatures.GenerateParameterFromPair | signature.py:69-93 | the loops compute the parameter that the star-and-bracket scan defines |
| Signatures.PointerStarsMoved | signature.py:74-91 | the leading stars of the name and every bracket after them go to the end of the type; the name keeps no bracket, and a bracket-free name only loses its leading stars |
| Signatures.ScanFromBrackets | signature.py:81-90 | the scan collects exactly the brackets of the text, in order, and adds no bracket to the name |
| Signatures.BracketedTextDropped | signature.py:81-90 | text between `[` and `]` is dropped from the name and the type gains `[]` |
| Signatures.ArrayNameExample | signature.py:69-93 | `int` with `arr[10]` gives the parameter `int[] arr` |
| Signatures.ScanSubscripts | signature.py:81-90 | from nesting 0, any run of subscripts leaves the name unchanged and adds one `[]` per subscript to the type |
| Signatures.ArrayDimensions | signature.py:81-90 | a bracket-free name followed by any number of subscripts keeps that name, and the type gains one `[]` per subscript |
| Signatures.SubscriptedParameter | signature.py:69-93 | a parameter whose name is a word not starting with `*` followed by any number of subscripts keeps that word as its name, and its type gains one `[]` per subscript |
| Signatures.TwoDimensionalArrayExample | signature.py:69-93 | `int` with `arr[3][4]` gives the parameter `int[][] arr` |
| Signatures.PlainParam | signature.py:60-64 | a segment `t n` with a plain name gives the parameter with type t and name n |
| Signatures.GetFullString | signature.py:96-105 | the result is the lines from start up to end joined by single spaces, or empty when the range is empty |
| Signatures.TerminatorFrom | signature.py:48-50 | the scan stops at the first line holding `{` or `;`, and finds none exactly when no later line holds one |
| Signatures.ExtractSignature | signature.py:43-66 | the loop and the parsing compute the signature that the specification function defines |
| Signatures.ReadSignatureText | signature.py:54-66 | the parsing of the gathered text matches its specification |
| Signatures.CleanArgs | signature.py:59-64 | the loop over argument segments builds the parameter list, or fails at the first empty segment |
| Signatures.ParamsOfEach | signature.py:57-64 | the argument list succeeds exactly when every segment holds a word, then has one parameter per segment in order; otherwise it fails with `EmptyParameter` |
| Signatures.SplitSpaceOrParenTokens | signature.py:54 | every piece of the split holds no whitespace and no `(` |
| Signatures.ExtractedSignatureShape | signature.py:54-57 | the return type and name of an extracted signature are tokens, and it has at least one parameter |
| Signatures.SignatureOfErrors | signature.py:48-64 | extraction fails only with `NoTerminator`, `NoNameToken` or `EmptyParameter` |
| Signatures.ExtractSignatureFailures | signature.py:48-50 | extraction fails with `NoTerminator` exactly when no line from the start on holds `{` or `;` |
| Signatures.SignatureOfOneLine | signature.py:48-66 | at any index of any file, a line that holds its own terminator gives the signature from that line's split alone |
| Signatures.EmptyParameterListRaises | signature.py:57-64 | `int f() {` raises: the empty argument list yields one empty segment |
| Locator.MatchesDeclShape | check_length_nesting.py:100 | the hand-written scan accepts exactly the lines the pattern `([^\s]+) \w*[(]` matches at their start |
| Locator.GuardedCounts | check_length_nesting.py:94-97 | the two guarded updates change the comment level by the count of `/*` minus the count of `*/` |
| Locator.LevelAfterNext | check_length_nesting.py:93-97 | the comment level after a line is the level before it plus that line's change |
| Locator.FoundExactly | check_length_nesting.py:93-103 | a line is recorded exactly when it is a candidate and no earlier line stopped the scan at `int main(` |
| Locator.FoundFromShape | check_length_nesting.py:93-103 | the recorded lines are candidates, in strictly increasing order |
| Locator.KeepFirstOccurrences | check_length_nesting.py:105-108 | the loop builds the entry list that the specification function defines |
| Locator.DeclsOfProperties | check_length_nesting.py:87-110 | the entries lie on candidate lines in increasing order, carry their own line's signature, no entry equals an earlier one, and every recorded line is covered by an equal entry at or before it |
| Locator.DeclsOfFails | check_length_nesting.py:105-106 | the declarations fail exactly when some recorded line has no signature |
| Locator.MaxLine | check_length_nesting.py:119 | the result is the largest line number of the entries |
| Locator.MatchingExactly | check_length_nesting.py:123 | a line is returned exactly when a rescanned entry on it has a signature equal to a declared one |
| Locator.DefinitionsEmptyMax | check_length_nesting.py:119 | `find_definitions` fails with `EmptyMax` exactly when there are no declarations |
| Locator.DefinitionsSound | check_length_nesting.py:117-123 | each returned line lies at or after the rescan start, is a candidate, and has a declared signature |
| Locator.DefinitionsErrors | check_length_nesting.py:117-123 | `find_definitions` fails only with `EmptyMax` or an extraction error |
| Locator.RescanFinds | check_length_nesting.py:119-121 | a line recorded by the first scan is recorded again by the rescan from the line before it |
| Locator.DefinitionsNonEmpty | check_length_nesting.py:117-123 | when the declarations come from the file itself and are not empty, at least one definition is found |
| BraceWalk.AddBraces | check_length_nesting.py:148-152 | the character loop changes the nesting by the line's brace balance |
| BraceWalk.BraceDeltaCounts | check_length_nesting.py:148-152 | the brace balance is the count of `{` minus the count of `}` |
| BraceWalk.FindBodyStart | check_length_nesting.py:128-132 | the loop finds the opening line that the specification function defines, or none when the lines run out |
| BraceWalk.BodyStartFirst | check_length_nesting.py:128-132 | the opening line is the first line from the start whose squashed text ends in `{`, and there is none exactly when no such line exists |
| BraceWalk.FirstStopFirst | check_length_nesting.py:138-154 | the walk ends at the first counted line that brings the nesting back to 0, and runs to the end exactly when there is no such line |
| BraceWalk.BodyLength | check_length_nesting.py:126-156 | the length fails with `NoBodyBrace` exactly when no opening line exists, and lies between -1 and the remaining line count minus 2 |
| BraceWalk.BodyLengthFrom | check_length_nesting.py:126-156 | the length is the number of lines walked from the opening line, minus 2 |
| BraceWalk.DepthIsMax | check_length_nesting.py:166-187 | the depth is at least every recorded nesting and is 0 or one of them |
| BraceWalk.BodyDepth | check_length_nesting.py:159-189 | the depth fails with `NoBodyBrace` exactly when no opening line exists, and is never negative |
| BraceWalk.BodyDepthFrom | check_length_nesting.py:159-189 | the depth is the maximum recorded nesting of the walk from the opening line |
| BraceWalk.OpenerLineIgnored | check_length_nesting.py:171-173 | a line holding a block-comment opener only raises the comment level: its braces do not count and it never ends the walk |
| BraceWalk.RulesAgree | check_length.py:136-140 | on lines without comment markers, the two ways of treating comment markers give the same counters, with the comment level at 0 |
| BraceWalk.LengthVersionsAgree | check_length.py:121-154 | on lines without comment markers, both checkers measure the same length |
| BraceWalk.StepPlain | check_length_nesting.py:146-152 | a plain line read outside comments adds its brace balance |
| BraceWalk.FlatBodyMeasures | check_length_nesting.py:126-189 | a body without inner blocks, from line s to line e, has length e - s - 1 in both checkers and depth 1 |
| Scoring.OverCountIsCardinality | check_length_nesting.py:55-58 | the count is the number of positions whose measure is above the limit |
| Scoring.NoneOver | check_length_nesting.py:55-58 | the count is 0 exactly when no measure is above the limit, and exactly when the excess is 0 |
| Scoring.AtLimitNeutral | check_length_nesting.py:56 | a measure equal to the limit changes neither the count nor the excess |
| Scoring.OverCountConcat | check_length_nesting.py:55-58 | the count of two lists together is the sum of their counts |
| Scoring.ExcessConcat | check_length_nesting.py:55-58 | the excess of two lists together is the sum of their excesses |
| Scoring.LengthScorePerfect | check_length_nesting.py:60-64 | the length score is at most 100 and is 100 exactly when no function is too long |
| Scoring.DepthScorePerfect | check_length_nesting.py:78-82 | the depth score is at most 100 and is 100 exactly when no function is too deep |
| Scoring.ShareScoreBounds | check_length_nesting.py:63 | the share part lies between 0 and 100 and is 100 exactly when the count is 0 |
| Scoring.LengthScoreNegative | check_length_nesting.py:62-64 | the score is not clamped: one 131-line function against a limit of 30 scores -0.5 |
| CheckLengthNesting.CalculateLineScore | check_length_nesting.py:51-66 | the loop returns the count and the length score of the specification, or fails on an empty list |
| CheckLengthNesting.CalculateDeepScore | check_length_nesting.py:69-84 | the loop returns the count and the depth score of the specification, or fails on an empty list |
| CheckLengthNesting.ScanCandidates | check_length_nesting.py:93-103 | the loop records the lines of the comment-aware scan |
| CheckLengthNesting.GetFunctionDecls | check_length_nesting.py:87-110 | the function returns the comment-aware declarations of the specification |
| CheckLengthNesting.FindDefinitions | check_length_nesting.py:117-123 | the function returns the comment-aware definitions of the specification |
| CheckLengthNesting.TrackComments | check_length_nesting.py:94-97 | the updates change the comment level by the line's comment balance |
| CheckLengthNesting.WalkLength | check_length_nesting.py:134-156 | the loop counts the lines of the walk from the opening line |
| CheckLengthNesting.ParseLength | check_length_nesting.py:126-156 | the function returns the body length of the specification |
| CheckLengthNesting.DepthLine | check_length_nesting.py:171-185 | one pass of the loop updates the counters as the walk's step does, says whether the line was skipped, and says whether it ends the walk |
| CheckLengthNesting.WalkDepth | check_length_nesting.py:166-189 | the loop returns the maximum recorded nesting of the walk |
| CheckLengthNesting.ParseDepth | check_length_nesting.py:159-189 | the function returns the body depth of the specification |
| CheckLengthNesting.RecordAtMeasures | check_length_nesting.py:32-35 | a definition is measured exactly when it has an opening line, and then its record has its length and depth |
| CheckLengthNesting.MeasureRecords | check_length_nesting.py:30-35 | measuring fails with `NoBodyBrace` exactly when some definition has no opening line; otherwise there is one record per definition, in order |
| CheckLengthNesting.Analyze | check_length_nesting.py:26-38 | locating, measuring and scoring compute the report of the specification |
| CheckLengthNesting.AnalyzeNeverEmptyScores | check_length_nesting.py:26-38 | the report never fails by dividing by zero: an empty declaration list fails earlier, in `max()` |
| CheckLength.CalculateScore | check_length.py:72-87 | the loop returns the function count, the count over the limit and the length score of the specification, or fails on an empty list |
| CheckLength.ScanCandidates | check_length.py:94-98 | the loop records the lines of the scan that ignores comments |
| CheckLength.GetFunctionDecls | check_length.py:89-105 | the function returns the declarations of the scan that ignores comments |
| CheckLength.FindDefinitions | check_length.py:112-118 | the function returns the definitions of the scan that ignores comments |
| CheckLength.LengthLine | check_length.py:136-150 | one pass of the loop updates the counters as the walk's step does, and says whether the line ends the walk |
| CheckLength.WalkLength | check_length.py:133-150 | the loop counts the lines of the walk from the opening line, block-comment opener lines included |
| CheckLength.ParseLength | check_length.py:121-154 | the function returns the body length of the specification |
| Printers.GetFunctionSig | printers.py:141-161 | the loop and the cleanup compute the signature text of the specification |
| Printers.FirstLineEnough | printers.py:148-153 | when the entry's own stripped text ends in `;` or `{`, the result does not depend on the file's lines |
| Printers.FunctionSigFails | printers.py:151-156 | reading fails exactly when neither the entry's text nor any later stripped line ends in `;` or `{` |
| Printers.FunctionSigReadsTo | printers.py:151-159 | when line k is the first later line that ends a signature, the result is the cleaned text of the entry and the stripped lines up to k, joined by spaces |
| Printers.GatheredOk | printers.py:151-156 | a successful read ends in `;` or `{` and extends the entry's text |
| Printers.CleanShape | printers.py:159 | the cleaned text holds no `{`, no `//` and no outer whitespace, and occurs in the text it came from |
| Printers.FunctionSigShape | printers.py:159 | the returned signature holds no `{`, no `//` and no outer whitespace |
| Printers.ExtractFilenameParts | printers.py:164-167 | the parts of the short name are the last two `/`-separated parts of the full name |
| Printers.ExtractFilenameOneSlash | printers.py:164-167 | the short name holds at most one `/` |
| Printers.ExtractFilenameSuffix | printers.py:164-167 | the short name is a suffix of the full name |
| Printers.ExtractFilenamePlain | printers.py:164-167 | a name without `/` is returned unchanged |
| Printers.ExtractFilenameIdempotent | printers.py:164-167 | shortening a short name changes nothing |
| MultifileHelpers.PairFiles | multifile_helpers.py:4-22 | the two loops return the pairs and the single sources of the specification |
| MultifileHelpers.SplitFiles | multifile_helpers.py:7-11 | every file lands in exactly one of the two lists |
| MultifileHelpers.SplitMembers | multifile_helpers.py:7-11 | the first list holds exactly the files ending in `.h`, the second exactly the others |
| MultifileHelpers.PlaceSources | multifile_helpers.py:15-20 | every source is placed once; it is paired with its header exactly when that header was given, and is single otherwise |
| MultifileHelpers.PairFilesPartition | multifile_helpers.py:4-22 | pairs, singles and headers account for every file; a pair joins a non-header with the given header of its name; a file is single exactly when it is not a header and its header was not given |
| MultifileHelpers.NonCppAlone | multifile_helpers.py:16-20 | a file that is not a header and does not contain `.cpp` is always single |
| PyText.SquashWhitespaceSquashed | check_length_nesting.py:113-114 | the squashed text has only single spaces, each between two non-space characters |
| PyText.SquashIdempotent | check_length_nesting.py:113-114 | squashing twice is squashing once |

## Left out

- `driver.py` is not part of this model. It walks the directory named by its first argument for `.cpp` files and prints the last field of `check_length.py`'s `generate_report(file, 30)` for each one.
- The report formatting of `printers.py`, other than `get_function_sig` and `extract_filename`, is left out. It is presentation only.
- File reading is left out. A file is given as its sequence of lines.
- `main`, `generate_report` and `print_results` of `check_length.py` are left out. They read files and print.
- `generate_report` of `check_length_nesting.py` is modelled only between reading the file and returning the tuple. The `lines` and `filename` it echoes back are not part of `Report`.
- Scores are exact `real` numbers. Python's floating-point rounding is not modelled.
- Whitespace and word characters are taken in their ASCII meanings. This applies to `\s` and `\w` in the regular expressions, and to the whitespace that `str.split()`, `str.strip()`, `str.rstrip()` and `squash_whitespace` work on. Python's Unicode classes are wider: for example, it also splits and strips at `\x85` and `\xa0`.
- `extract_signature` keeps an unused `height` counter. It is dropped.
- The `first` parameter of `check_length.py`'s `parse_length` is unused. It is dropped.
- The `line.rstrip()` text stored with each recorded line is never read again. Only the line index is kept.
- The per-line work of the brace walks is split into helper methods (`AddBraces`, `TrackComments`, `DepthLine`, `LengthLine`). `FindBodyStart` is shared by both checkers. The order and effect of every update are kept.
- CheckLengthNesting.Analyze: when `parse_depth` fails on a line where `parse_length` has just succeeded, the method asserts that this cannot happen instead of returning an error. Both search for the same opening line, so the branch is unreachable.
