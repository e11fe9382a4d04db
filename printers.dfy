/**
 * The two text helpers of `printers.py` the reports rely on: the full
 * signature text of a function as it stands in the file, and the short form
 * of a file name.
 */
module Printers {
  import opened Outcome
  import opened PyText

  /* ---------------------------------------------------------------- get_function_sig */

  /** The text ends a signature: it ends with `;` or with `{`. */
  predicate Ends(s: string) {
    EndsWith(s, ";") || EndsWith(s, "{")
  }

  /**
   * The signature text gathered from `sig`, which was read up to line `idx`:
   * the stripped following lines are appended, each after a space, until the
   * text ends a signature. Reading past the last line is an `IndexError`.
   */
  function Gathered(sig: string, lines: seq<string>, idx: nat): Result<string>
    decreases |lines| - idx
  {
    if Ends(sig) then Ok(sig)
    else if idx + 1 >= |lines| then Err(SignaturePastEnd)
    else Gathered(sig + " " + Strip(lines[idx + 1]), lines, idx + 1)
  }

  /** The cleanup: cut at the first `{`, then at the first `//`, then strip. */
  function Clean(s: string): string {
    Strip(SplitOn(SplitOn(s, "{")[0], "//")[0])
  }

  /** `get_function_sig` for the entry whose text is `text` on line `pos`. */
  function FunctionSig(text: string, pos: nat, lines: seq<string>): Result<string> {
    match Gathered(Strip(text), lines, pos)
    case Err(e) => Err(e)
    case Ok(sig) => Ok(Clean(sig))
  }

  /** `get_function_sig`. */
  method GetFunctionSig(text: string, pos: nat, allLines: seq<string>) returns (r: Result<string>)
    ensures r == FunctionSig(text, pos, allLines)
  {
    var sig := Strip(text);
    if !Ends(sig) {
      var idx := pos;
      while !Ends(sig)
        invariant Gathered(sig, allLines, idx) == Gathered(Strip(text), allLines, pos)
        decreases |allLines| - idx
      {
        if idx + 1 >= |allLines| {
          return Err(SignaturePastEnd);
        }
        idx := idx + 1;
        sig := sig + " " + Strip(allLines[idx]);
      }
    }
    r := Ok(Clean(sig));
  }

  /** The lines appended for lines `a` up to `b`, each stripped and after a space. */
  function Continuation(lines: seq<string>, a: nat, b: nat): string
    requires a <= b <= |lines|
    decreases b - a
  {
    if a == b then "" else " " + Strip(lines[a]) + Continuation(lines, a + 1, b)
  }

  /** Whether a text ends a signature depends only on what is appended last. */
  lemma EndsAppend(sig: string, t: string)
    ensures Ends(sig + " " + t) <==> Ends(t)
  {
    var s := sig + " " + t;
    if t == [] {
      assert s[|s| - 1..] == " ";
    } else {
      assert s[|s| - 1..] == t[|t| - 1..];
    }
  }

  /** No stripped line after `idx` ends a signature. */
  predicate NoLaterEnd(lines: seq<string>, idx: nat) {
    forall k :: idx < k < |lines| ==> !Ends(Strip(lines[k]))
  }

  /** `NoLaterEnd` seen one line at a time. */
  lemma NoLaterEndNext(lines: seq<string>, idx: nat)
    requires idx + 1 < |lines|
    ensures NoLaterEnd(lines, idx) <==> !Ends(Strip(lines[idx + 1])) && NoLaterEnd(lines, idx + 1)
  {
    if !Ends(Strip(lines[idx + 1])) && NoLaterEnd(lines, idx + 1) {
      forall k | idx < k < |lines|
        ensures !Ends(Strip(lines[k]))
      {
        if k > idx + 1 {
          assert idx + 1 < k < |lines|;
        }
      }
    }
  }

  /** Gathering fails exactly when neither the text nor any later stripped line ends a signature. */
  lemma {:induction false} GatheredFails(sig: string, lines: seq<string>, idx: nat)
    ensures Gathered(sig, lines, idx).Err? <==> !Ends(sig) && NoLaterEnd(lines, idx)
    decreases |lines| - idx
  {
    if !Ends(sig) && idx + 1 < |lines| {
      var t := Strip(lines[idx + 1]);
      var sig' := sig + " " + t;
      EndsAppend(sig, t);
      assert Gathered(sig, lines, idx) == Gathered(sig', lines, idx + 1);
      GatheredFails(sig', lines, idx + 1);
      NoLaterEndNext(lines, idx);
    }
  }

  /**
   * When line `k` is the first line after `idx` whose stripped text ends a
   * signature, gathering appends exactly the lines after `idx` up to `k`.
   */
  lemma {:induction false} GatheredStops(sig: string, lines: seq<string>, idx: nat, k: nat)
    requires idx < k < |lines| && !Ends(sig)
    requires Ends(Strip(lines[k]))
    requires forall m :: idx < m < k ==> !Ends(Strip(lines[m]))
    ensures Gathered(sig, lines, idx) == Ok(sig + Continuation(lines, idx + 1, k + 1))
    decreases k - idx
  {
    var t := Strip(lines[idx + 1]);
    var sig' := sig + " " + t;
    EndsAppend(sig, t);
    assert Gathered(sig, lines, idx) == Gathered(sig', lines, idx + 1);
    if k == idx + 1 {
      assert Gathered(sig', lines, idx + 1) == Ok(sig');
      assert Continuation(lines, idx + 1, k + 1) == " " + t;
      assert sig' == sig + Continuation(lines, idx + 1, k + 1);
    } else {
      GatheredStops(sig', lines, idx + 1, k);
      var rest := Continuation(lines, idx + 2, k + 1);
      assert Continuation(lines, idx + 1, k + 1) == " " + t + rest;
      Regroup(sig, " ", t, rest);
    }
  }

  /** Regrouping a concatenation of four texts. */
  lemma Regroup(a: string, b: string, c: string, d: string)
    ensures a + b + c + d == a + (b + c + d)
  {
  }

  /** A successful gathering ends a signature and extends the text it started from. */
  lemma {:induction false} GatheredOk(sig: string, lines: seq<string>, idx: nat)
    requires Gathered(sig, lines, idx).Ok?
    ensures Ends(Gathered(sig, lines, idx).value) && sig <= Gathered(sig, lines, idx).value
    decreases |lines| - idx
  {
    if !Ends(sig) {
      var sig' := sig + " " + Strip(lines[idx + 1]);
      GatheredOk(sig', lines, idx + 1);
      assert sig <= sig';
    }
  }

  /** The cleaned text holds no `{`, no `//`, no outer whitespace, and occurs in the input. */
  lemma CleanShape(s: string)
    ensures var r := Clean(s);
      && '{' !in r && !Contains(r, "//")
      && (r == [] || (!IsSpace(r[0]) && !IsSpace(r[|r| - 1])))
      && Contains(s, r)
  {
    var head := SplitOn(s, "{")[0];
    var piece := SplitOn(head, "//")[0];
    var r := Strip(piece);
    SplitOnCharPieces(s, '{');
    assert '{' !in head;
    assert '{' !in piece by {
      forall k | 0 <= k < |piece|
        ensures piece[k] != '{'
      {
        assert piece[k] == head[k];
      }
    }
    CharNotInContained(piece, r, '{');
    SplitOnHeadFree(head, "//");
    if Contains(r, "//") {
      ContainsTrans(piece, r, "//");
    }
    ContainsInPrefix(piece, head, r);
    ContainsInPrefix(head, s, r);
  }

  /** Usually the entry's own text is enough: then no line of the file is read. */
  lemma FirstLineEnough(text: string, pos: nat, lines: seq<string>, other: seq<string>)
    requires Ends(Strip(text))
    ensures FunctionSig(text, pos, lines) == FunctionSig(text, pos, other)
    ensures FunctionSig(text, pos, lines).Ok?
  {
  }

  /** `get_function_sig` raises exactly when no line from the entry's on ends a signature. */
  lemma FunctionSigFails(text: string, pos: nat, lines: seq<string>)
    ensures FunctionSig(text, pos, lines).Err? <==> !Ends(Strip(text)) && NoLaterEnd(lines, pos)
  {
    GatheredFails(Strip(text), lines, pos);
  }

  /**
   * When line `k` is the first later line that ends a signature, the result is
   * the cleaned text of the entry and the lines up to `k`, joined by spaces.
   */
  lemma FunctionSigReadsTo(text: string, pos: nat, lines: seq<string>, k: nat)
    requires pos < k < |lines| && !Ends(Strip(text))
    requires Ends(Strip(lines[k]))
    requires forall m :: pos < m < k ==> !Ends(Strip(lines[m]))
    ensures FunctionSig(text, pos, lines) == Ok(Clean(Strip(text) + Continuation(lines, pos + 1, k + 1)))
  {
    GatheredStops(Strip(text), lines, pos, k);
  }

  /** What `get_function_sig` returns holds no `{`, no `//` and no outer whitespace. */
  lemma FunctionSigShape(text: string, pos: nat, lines: seq<string>)
    requires FunctionSig(text, pos, lines).Ok?
    ensures var r := FunctionSig(text, pos, lines).value;
      '{' !in r && !Contains(r, "//") && (r == [] || (!IsSpace(r[0]) && !IsSpace(r[|r| - 1])))
  {
    CleanShape(Gathered(Strip(text), lines, pos).value);
  }

  /* ---------------------------------------------------------------- extract_filename */

  /** `xs[-2:]` */
  function LastTwo<T>(xs: seq<T>): (r: seq<T>)
    ensures |r| <= 2 && |r| <= |xs| && r == xs[|xs| - |r|..]
  {
    if |xs| <= 2 then xs else xs[|xs| - 2..]
  }

  /** `extract_filename`: the last two `/`-separated parts of the name, rejoined. */
  function ExtractFilename(raw: string): string {
    Join("/", LastTwo(SplitOn(raw, "/")))
  }

  /** The parts of the short name are the last two parts of the full name. */
  lemma ExtractFilenameParts(raw: string)
    ensures SplitOn(ExtractFilename(raw), "/") == LastTwo(SplitOn(raw, "/"))
  {
    var parts := SplitOn(raw, "/");
    var b := LastTwo(parts);
    SplitOnCharPieces(raw, '/');
    assert forall k :: 0 <= k < |b| ==> '/' !in b[k] by {
      forall k | 0 <= k < |b| ensures '/' !in b[k] {
        assert b[k] == parts[|parts| - |b| + k];
      }
    }
    if |b| == 1 {
      JoinOne("/", b[0]);
      SplitOnWhole(b[0], "/");
    } else {
      assert |b| == 2;
      JoinFront("/", b);
      JoinOne("/", b[1]);
      assert b[1..] == [b[1]];
      SplitOnPiece(b[0], "/", b[1]);
      SplitOnWhole(b[1], "/");
    }
  }

  /** The short name holds at most one `/`. */
  lemma ExtractFilenameOneSlash(raw: string)
    ensures Count(ExtractFilename(raw), "/") <= 1
  {
    ExtractFilenameParts(raw);
    SplitOnLength(ExtractFilename(raw), "/");
  }

  /** The short name is a suffix of the full name. */
  lemma ExtractFilenameSuffix(raw: string)
    ensures EndsWith(raw, ExtractFilename(raw))
  {
    var parts := SplitOn(raw, "/");
    JoinSplitOn(raw, "/");
    if |parts| > 2 {
      var a := parts[..|parts| - 2];
      assert parts == a + LastTwo(parts);
      JoinAppend("/", a, LastTwo(parts));
    }
  }

  /** A name without `/` is kept as it is. */
  lemma ExtractFilenamePlain(raw: string)
    requires '/' !in raw
    ensures ExtractFilename(raw) == raw
  {
    SplitOnWhole(raw, "/");
    JoinOne("/", raw);
  }

  /** Shortening a short name changes nothing. */
  lemma ExtractFilenameIdempotent(raw: string)
    ensures ExtractFilename(ExtractFilename(raw)) == ExtractFilename(raw)
  {
    ExtractFilenameParts(raw);
  }
}
