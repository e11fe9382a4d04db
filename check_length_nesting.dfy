/**
 * `check_length_nesting.py`: locate the function definitions of a file, measure
 * the length and the brace depth of each body, and score the file against a
 * length and a depth limit. Block comments and `//` lines hide declarations and
 * braces.
 */
module CheckLengthNesting {
  import opened Outcome
  import opened PyText
  import opened Signatures
  import opened Locator
  import opened BraceWalk
  import opened Scoring

  /** One entry of `functions`: `(p_len, p_depth, i, d)`. */
  datatype FunctionRecord = FunctionRecord(length: int, depth: int, line: nat, text: string)

  function Lengths(fs: seq<FunctionRecord>): (xs: seq<int>)
    ensures |xs| == |fs| && forall i :: 0 <= i < |fs| ==> xs[i] == fs[i].length
  {
    seq(|fs|, i requires 0 <= i < |fs| => fs[i].length)
  }

  function Depths(fs: seq<FunctionRecord>): (xs: seq<int>)
    ensures |xs| == |fs| && forall i :: 0 <= i < |fs| ==> xs[i] == fs[i].depth
  {
    seq(|fs|, i requires 0 <= i < |fs| => fs[i].depth)
  }

  /* ---------------------------------------------------------------- scores */

  /** `calculate_line_score`: count and excess of the lengths above `maxLen`, then the score. */
  method CalculateLineScore(functions: seq<FunctionRecord>, maxLen: int) returns (r: Result<(nat, real)>)
    ensures r == LineReport(Lengths(functions), maxLen)
  {
    var linesOver := 0;
    var count: nat := 0;
    ghost var xs := Lengths(functions);
    for i := 0 to |functions|
      invariant linesOver == Excess(xs[..i], maxLen)
      invariant count == OverCount(xs[..i], maxLen)
    {
      assert xs[..i + 1][..i] == xs[..i];
      if functions[i].length > maxLen {
        linesOver := linesOver + functions[i].length - maxLen;
        count := count + 1;
      }
    }
    assert xs[..|functions|] == xs;
    var total := |functions|;
    var s1 := (100 - linesOver) as real;
    if total == 0 {
      return Err(NoFunctions);
    }
    var s2 := (1.0 - count as real / total as real) * 100.0;
    r := Ok((count, 0.5 * (s1 + s2)));
  }

  /** `calculate_deep_score`: count and excess of the depths above `maxDepth`, then the score. */
  method CalculateDeepScore(functions: seq<FunctionRecord>, maxDepth: int) returns (r: Result<(nat, real)>)
    ensures r == DeepReport(Depths(functions), maxDepth)
  {
    var count: nat := 0;
    var linesDeep := 0;
    ghost var xs := Depths(functions);
    for i := 0 to |functions|
      invariant linesDeep == Excess(xs[..i], maxDepth)
      invariant count == OverCount(xs[..i], maxDepth)
    {
      assert xs[..i + 1][..i] == xs[..i];
      if functions[i].depth > maxDepth {
        count := count + 1;
        linesDeep := linesDeep + functions[i].depth - maxDepth;
      }
    }
    assert xs[..|functions|] == xs;
    var total := |functions|;
    var s1 := ((50 - linesDeep) * 2) as real;
    if total == 0 {
      return Err(NoFunctions);
    }
    var s2 := (1.0 - count as real / total as real) * 100.0;
    r := Ok((count, 0.5 * (s1 + s2)));
  }

  /* ---------------------------------------------------------------- locating */

  /** The first loop of `get_function_decls`: candidate lines outside comments, up to `int main(`. */
  method ScanCandidates(lines: seq<string>, start: int) returns (found: seq<nat>)
    ensures found == FoundFrom(CommentAware, lines, start, 0)
  {
    found := [];
    var commentLevel := 0;
    for i := 0 to |lines|
      invariant commentLevel == LevelAfter(lines[..i])
      invariant found + FoundFrom(CommentAware, lines, start, i) == FoundFrom(CommentAware, lines, start, 0)
    {
      var line := lines[i];
      assert LevelAfter(lines[..i + 1]) == commentLevel + CommentDelta(line) by {
        LevelAfterNext(lines, i);
      }
      commentLevel := TrackComments(line, commentLevel);
      if commentLevel == 0 && !StartsWith(SquashWhitespace(line), "//") {
        if i >= start && MatchesDecl(line) {
          assert IsCandidate(CommentAware, lines, start, i);
          AppendShift(found, i, FoundFrom(CommentAware, lines, start, i + 1));
          found := found + [i];
          if start == 0 && StartsWith(line, "int main(") {
            assert found == FoundFrom(CommentAware, lines, start, 0);
            break;
          }
        }
      }
    }
  }

  /** `get_function_decls`: the candidates, then one entry per distinct signature. */
  method GetFunctionDecls(lines: seq<string>, start: int) returns (r: Result<seq<Decl>>)
    ensures r == DeclsOf(CommentAware, lines, start)
  {
    var found := ScanCandidates(lines, start);
    r := KeepFirstOccurrences(lines, found);
  }

  /** `find_definitions`: rescan from the last declaration's line minus one, keep the matches. */
  method FindDefinitions(lines: seq<string>, funcs: seq<Decl>) returns (r: Result<seq<nat>>)
    ensures r == Definitions(CommentAware, lines, funcs)
  {
    if funcs == [] {
      return Err(EmptyMax);
    }
    var offset := RescanFrom(funcs);
    var defs := GetFunctionDecls(lines, offset);
    if defs.Err? {
      return Err(defs.error);
    }
    r := Ok(Matching(defs.value, funcs));
  }

  /* ---------------------------------------------------------------- measuring */

  /** The comment-level updates that open each loop: both counts, each behind its `in` test. */
  method TrackComments(line: string, level: int) returns (l: int)
    ensures l == level + CommentDelta(line)
  {
    l := level;
    if Contains(line, "/*") {
      l := l + Count(line, "/*");
    }
    if Contains(line, "*/") {
      l := l - Count(line, "*/");
    }
    GuardedCounts(line);
  }

  /** The second loop of `parse_length`: the lines read from the opening line `start` on. */
  method WalkLength(allLines: seq<string>, start: nat) returns (functionLen: int)
    requires start <= |allLines|
    ensures functionLen == WalkEnd(CountBoth, allLines, start) - start
  {
    var nesting := 0;
    var commentLevel := 0;
    functionLen := 0;
    for k := start to |allLines|
      invariant Run(CountBoth, allLines[start..k]) == Scan(nesting, commentLevel)
      invariant functionLen == k - start
      invariant FirstStop(CountBoth, allLines, start, start) == FirstStop(CountBoth, allLines, start, k)
    {
      var line := allLines[k];
      ghost var before := Scan(nesting, commentLevel);
      assert Run(CountBoth, allLines[start..k + 1]) == Step(CountBoth, before, line) by {
        RunNext(CountBoth, allLines, start, k);
      }
      functionLen := functionLen + 1;
      commentLevel := TrackComments(line, commentLevel);
      if commentLevel == 0 && !StartsWith(SquashWhitespace(line), "//") {
        nesting := AddBraces(line, nesting);
        if nesting == 0 {
          assert FirstStop(CountBoth, allLines, start, k) == Some(k) by {
            assert StopsAt(CountBoth, allLines, start, k);
            FirstStopAt(CountBoth, allLines, start, k, k);
          }
          break;
        }
      }
      assert !StopsAt(CountBoth, allLines, start, k);
      FirstStopNext(CountBoth, allLines, start, k);
    }
  }

  /** `parse_length`: lines read from the opening line until the nesting returns to 0, minus two. */
  method ParseLength(home: nat, allLines: seq<string>) returns (r: Result<int>)
    ensures r == BodyLength(CountBoth, allLines, home)
  {
    var opening := FindBodyStart(home, allLines);
    if opening.None? {
      return Err(NoBodyBrace);
    }
    var functionLen := WalkLength(allLines, opening.value);
    BodyLengthFrom(CountBoth, allLines, home, opening.value);
    return Ok(functionLen - 2);
  }

  /**
   * One pass of the second loop of `parse_depth`: the counters after `line`,
   * whether the block-comment opener test skipped the rest of the pass, and
   * whether the pass breaks out of the loop.
   */
  method DepthLine(line: string, nesting: int, commentLevel: int)
      returns (n: int, level: int, skipped: bool, stops: bool)
    ensures Scan(n, level) == Step(SkipOpenerLines, Scan(nesting, commentLevel), line)
    ensures skipped <==> Contains(line, "/*")
    ensures stops <==> Counted(SkipOpenerLines, Scan(nesting, commentLevel), line) && n == 0
  {
    n, level, skipped, stops := nesting, commentLevel, false, false;
    if Contains(line, "/*") {
      level := level + Count(line, "/*");
      skipped := true;
      return;
    }
    if Contains(line, "*/") {
      level := level - Count(line, "*/");
    } else {
      CountAbsent(line, "*/");
    }
    if level == 0 && !StartsWith(SquashWhitespace(line), "//") {
      n := AddBraces(line, n);
      stops := n == 0;
    }
  }

  /** The second loop of `parse_depth`: the largest nesting recorded from the opening line `start` on. */
  method WalkDepth(allLines: seq<string>, start: nat) returns (maxNesting: int)
    requires start <= |allLines|
    ensures maxNesting == Depth(allLines, start, DepthEnd(allLines, start))
  {
    var nesting := 0;
    var commentLevel := 0;
    maxNesting := 0;
    for k := start to |allLines|
      invariant Run(SkipOpenerLines, allLines[start..k]) == Scan(nesting, commentLevel)
      invariant maxNesting == Depth(allLines, start, k)
      invariant FirstStop(SkipOpenerLines, allLines, start, start) == FirstStop(SkipOpenerLines, allLines, start, k)
    {
      var line := allLines[k];
      ghost var before := Scan(nesting, commentLevel);
      assert Run(SkipOpenerLines, allLines[start..k + 1]) == Step(SkipOpenerLines, before, line) by {
        RunNext(SkipOpenerLines, allLines, start, k);
      }
      DepthNext(allLines, start, k);
      var skipped, stops;
      nesting, commentLevel, skipped, stops := DepthLine(line, nesting, commentLevel);
      if skipped {
        FirstStopNext(SkipOpenerLines, allLines, start, k);
        continue;
      }
      if stops {
        assert FirstStop(SkipOpenerLines, allLines, start, k) == Some(k) by {
          assert StopsAt(SkipOpenerLines, allLines, start, k);
          FirstStopAt(SkipOpenerLines, allLines, start, k, k);
        }
        break;
      }
      assert !StopsAt(SkipOpenerLines, allLines, start, k);
      FirstStopNext(SkipOpenerLines, allLines, start, k);
      maxNesting := Max(maxNesting, nesting);
    }
  }

  /** `parse_depth`: the largest nesting after each line read before the walk breaks. */
  method ParseDepth(home: nat, allLines: seq<string>) returns (r: Result<int>)
    ensures r == BodyDepth(allLines, home)
  {
    var opening := FindBodyStart(home, allLines);
    if opening.None? {
      return Err(NoBodyBrace);
    }
    var maxNesting := WalkDepth(allLines, opening.value);
    BodyDepthFrom(allLines, home, opening.value);
    return Ok(maxNesting);
  }

  /* ---------------------------------------------------------------- the report */

  /** The numbers `generate_report` returns besides its inputs. */
  datatype Report = Report(linesLong: nat, linesScore: real, linesDeep: nat, nestedScore: real,
                           functions: seq<FunctionRecord>)

  /** `f` is the record `generate_report` builds for the definition on line `k`. */
  predicate Measured(lines: seq<string>, k: nat, f: FunctionRecord) {
    && f.line == k
    && BodyLength(CountBoth, lines, k) == Ok(f.length)
    && BodyDepth(lines, k) == Ok(f.depth)
  }

  /** The function starting at line `k` has an opening line. */
  predicate HasBody(lines: seq<string>, k: nat) {
    BodyStart(lines, k).Some?
  }

  /** The record of the function whose declaration is on line `k`. */
  function RecordAt(lines: seq<string>, k: nat): (r: Result<FunctionRecord>)
    ensures r.Err? ==> r.error == NoBodyBrace
  {
    match BodyLength(CountBoth, lines, k)
    case Err(e) => Err(e)
    case Ok(len) =>
      match BodyDepth(lines, k)
      case Err(e) => Err(e)
      case Ok(d) => Ok(FunctionRecord(len, d, k, lines[k]))
  }

  /** The record exists exactly when the function has an opening line, and holds its measures. */
  lemma RecordAtMeasures(lines: seq<string>, k: nat)
    ensures RecordAt(lines, k).Ok? <==> HasBody(lines, k)
    ensures RecordAt(lines, k).Ok? ==> Measured(lines, k, RecordAt(lines, k).value)
  {
  }

  /** The record of each definition, in order. */
  function Records(lines: seq<string>, defs: seq<nat>): (rs: seq<Result<FunctionRecord>>)
    ensures |rs| == |defs| && forall i :: 0 <= i < |defs| ==> rs[i] == RecordAt(lines, defs[i])
  {
    seq(|defs|, i requires 0 <= i < |defs| => RecordAt(lines, defs[i]))
  }

  /** The `functions` list: the records of all definitions, or the first failure. */
  function Measure(lines: seq<string>, defs: seq<nat>): Result<seq<FunctionRecord>> {
    AllOk(Records(lines, defs))
  }

  /**
   * Measuring fails exactly when some definition has no opening line, and then
   * with `NoBodyBrace`; otherwise the list has one record per definition, in
   * order, with that function's length and depth.
   */
  lemma MeasureRecords(lines: seq<string>, defs: seq<nat>)
    ensures Measure(lines, defs).Ok? <==> forall i :: 0 <= i < |defs| ==> HasBody(lines, defs[i])
    ensures Measure(lines, defs).Err? ==> Measure(lines, defs).error == NoBodyBrace
    ensures Measure(lines, defs).Ok? ==> |Measure(lines, defs).value| == |defs|
    ensures Measure(lines, defs).Ok? ==>
              forall i :: 0 <= i < |defs| ==> Measured(lines, defs[i], Measure(lines, defs).value[i])
  {
    var rs := Records(lines, defs);
    AllOkEach(rs);
    forall i | 0 <= i < |defs|
      ensures rs[i].Ok? <==> HasBody(lines, defs[i])
      ensures rs[i].Ok? ==> Measured(lines, defs[i], rs[i].value)
    {
      RecordAtMeasures(lines, defs[i]);
    }
  }

  /** Lines 26-38 of `generate_report` on the lines of a file. */
  function AnalyzeSpec(lines: seq<string>, maxLen: int, maxDepth: int): Result<Report> {
    match DeclsOf(CommentAware, lines, 0)
    case Err(e) => Err(e)
    case Ok(decls) =>
      match Definitions(CommentAware, lines, decls)
      case Err(e) => Err(e)
      case Ok(defs) =>
        match Measure(lines, defs)
        case Err(e) => Err(e)
        case Ok(fs) =>
          match LineReport(Lengths(fs), maxLen)
          case Err(e) => Err(e)
          case Ok(ls) =>
            match DeepReport(Depths(fs), maxDepth)
            case Err(e) => Err(e)
            case Ok(ds) => Ok(Report(ls.0, ls.1, ds.0, ds.1, fs))
  }

  /** The pure part of `generate_report`: locate, measure, score. */
  method Analyze(lines: seq<string>, maxLen: int, maxDepth: int) returns (r: Result<Report>)
    ensures r == AnalyzeSpec(lines, maxLen, maxDepth)
  {
    var decls := GetFunctionDecls(lines, 0);
    if decls.Err? {
      return Err(decls.error);
    }
    var defs := FindDefinitions(lines, decls.value);
    if defs.Err? {
      return Err(defs.error);
    }
    var ds := defs.value;
    ghost var rs := Records(lines, ds);
    var functions: seq<FunctionRecord> := [];
    for i := 0 to |ds|
      invariant AllOk(rs[..i]) == Ok(functions)
    {
      AllOkNext(rs, i);
      var pLen := ParseLength(ds[i], lines);
      if pLen.Err? {
        AllOkErrExtends(rs, i + 1);
        return Err(pLen.error);
      }
      var pDepth := ParseDepth(ds[i], lines);
      if pDepth.Err? {
        // parse_depth looks for the same opening line parse_length has just found
        assert false;
      }
      functions := functions + [FunctionRecord(pLen.value, pDepth.value, ds[i], lines[ds[i]])];
    }
    assert rs[..|ds|] == rs;
    var lineScore := CalculateLineScore(functions, maxLen);
    if lineScore.Err? {
      return Err(lineScore.error);
    }
    var deepScore := CalculateDeepScore(functions, maxDepth);
    if deepScore.Err? {
      return Err(deepScore.error);
    }
    r := Ok(Report(lineScore.value.0, lineScore.value.1, deepScore.value.0, deepScore.value.1, functions));
  }

  /**
   * The scores never divide by zero: when declarations are found, each has its
   * own definition, so the measured list is never empty; when none are found,
   * `max()` raises first.
   */
  lemma AnalyzeNeverEmptyScores(lines: seq<string>, maxLen: int, maxDepth: int)
    ensures AnalyzeSpec(lines, maxLen, maxDepth) != Err(NoFunctions)
  {
    var decls := DeclsOf(CommentAware, lines, 0);
    if decls.Err? {
      DedupErrors(lines, FoundFrom(CommentAware, lines, 0, 0), []);
    } else {
      var defs := Definitions(CommentAware, lines, decls.value);
      if defs.Err? {
        DefinitionsErrors(CommentAware, lines, decls.value);
      } else {
        assert defs.value != [] by {
          DefinitionsEmptyMax(CommentAware, lines, decls.value);
          DefinitionsNonEmpty(CommentAware, lines, decls.value);
        }
        MeasureRecords(lines, defs.value);
      }
    }
  }
}
