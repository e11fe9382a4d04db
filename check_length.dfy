/**
 * `check_length.py`, the length-only checker: locate the function definitions
 * of a file without regard to comments, measure the length of each body, and
 * score the file against a length limit.
 */
module CheckLength {
  import opened Outcome
  import opened PyText
  import opened Locator
  import opened BraceWalk
  import opened Scoring

  /** One entry of `functions`: `(p_len, i, d)`. */
  datatype LengthRecord = LengthRecord(length: int, line: nat, text: string)

  function Lengths(fs: seq<LengthRecord>): (xs: seq<int>)
    ensures |xs| == |fs| && forall i :: 0 <= i < |fs| ==> xs[i] == fs[i].length
  {
    seq(|fs|, i requires 0 <= i < |fs| => fs[i].length)
  }

  /* ---------------------------------------------------------------- score */

  /** `calculate_score`: the number of functions, how many are too long, and the score. */
  method CalculateScore(functions: seq<LengthRecord>, max: int) returns (r: Result<(nat, nat, real)>)
    ensures r == TotalReport(Lengths(functions), max)
  {
    var linesOver := 0;
    var count: nat := 0;
    ghost var xs := Lengths(functions);
    for i := 0 to |functions|
      invariant linesOver == Excess(xs[..i], max)
      invariant count == OverCount(xs[..i], max)
    {
      assert xs[..i + 1][..i] == xs[..i];
      if functions[i].length > max {
        linesOver := linesOver + functions[i].length - max;
        count := count + 1;
      }
    }
    assert xs[..|functions|] == xs;
    var total := |functions|;
    var s1 := (100 - linesOver) as real;
    if total == 0 {
      return Err(NoFunctions);
    }
    var s2 := (1.0 - count as real / total as real) * 100.0;
    r := Ok((total, count, 0.5 * (s1 + s2)));
  }

  /* ---------------------------------------------------------------- locating */

  /** The first loop of `get_function_decls`: every candidate line, up to `int main(`. */
  method ScanCandidates(lines: seq<string>, start: int) returns (found: seq<nat>)
    ensures found == FoundFrom(Plain, lines, start, 0)
  {
    found := [];
    for i := 0 to |lines|
      invariant found + FoundFrom(Plain, lines, start, i) == FoundFrom(Plain, lines, start, 0)
    {
      var line := lines[i];
      if i >= start && MatchesDecl(line) {
        assert IsCandidate(Plain, lines, start, i);
        AppendShift(found, i, FoundFrom(Plain, lines, start, i + 1));
        found := found + [i];
        if start == 0 && StartsWith(line, "int main(") {
          assert found == FoundFrom(Plain, lines, start, 0);
          break;
        }
      }
    }
  }

  /** `get_function_decls`: the candidates, then one entry per distinct signature. */
  method GetFunctionDecls(lines: seq<string>, start: int) returns (r: Result<seq<Decl>>)
    ensures r == DeclsOf(Plain, lines, start)
  {
    var found := ScanCandidates(lines, start);
    r := KeepFirstOccurrences(lines, found);
  }

  /** `find_definitions`: rescan from the last declaration's line minus one, keep the matches. */
  method FindDefinitions(lines: seq<string>, funcs: seq<Decl>) returns (r: Result<seq<nat>>)
    ensures r == Definitions(Plain, lines, funcs)
  {
    if funcs == [] {
      return Err(EmptyMax);
    }
    var offset := RescanFrom(funcs);
    var defs := GetFunctionDecls(lines, offset);
    if defs.Err? {
      return Err(defs.error);
    }
    r := Ok(Matching(defs.value, funcs));
  }

  /* ---------------------------------------------------------------- measuring */

  /**
   * One pass of the second loop of `parse_length`: the counters after `line`
   * and whether the pass breaks out of the loop. A line holding a
   * block-comment opener only raises the comment level.
   */
  method LengthLine(line: string, nesting: int, commentLevel: int) returns (n: int, level: int, stops: bool)
    ensures Scan(n, level) == Step(SkipOpenerLines, Scan(nesting, commentLevel), line)
    ensures stops <==> Counted(SkipOpenerLines, Scan(nesting, commentLevel), line) && n == 0
  {
    n, level, stops := nesting, commentLevel, false;
    if Contains(line, "/*") {
      level := level + Count(line, "/*");
      return;
    }
    if Contains(line, "*/") {
      level := level - Count(line, "*/");
    } else {
      CountAbsent(line, "*/");
    }
    if level == 0 && !StartsWith(SquashWhitespace(line), "//") {
      n := AddBraces(line, n);
      stops := n == 0;
    }
  }

  /** The second loop of `parse_length`: the lines read from the opening line `start` on. */
  method WalkLength(allLines: seq<string>, start: nat) returns (functionLen: int)
    requires start <= |allLines|
    ensures functionLen == WalkEnd(SkipOpenerLines, allLines, start) - start
  {
    var nesting := 0;
    var commentLevel := 0;
    functionLen := 0;
    for k := start to |allLines|
      invariant Run(SkipOpenerLines, allLines[start..k]) == Scan(nesting, commentLevel)
      invariant functionLen == k - start
      invariant FirstStop(SkipOpenerLines, allLines, start, start) == FirstStop(SkipOpenerLines, allLines, start, k)
    {
      var line := allLines[k];
      ghost var before := Scan(nesting, commentLevel);
      assert Run(SkipOpenerLines, allLines[start..k + 1]) == Step(SkipOpenerLines, before, line) by {
        RunNext(SkipOpenerLines, allLines, start, k);
      }
      functionLen := functionLen + 1;
      var stops;
      nesting, commentLevel, stops := LengthLine(line, nesting, commentLevel);
      if stops {
        assert FirstStop(SkipOpenerLines, allLines, start, k) == Some(k) by {
          assert StopsAt(SkipOpenerLines, allLines, start, k);
          FirstStopAt(SkipOpenerLines, allLines, start, k, k);
        }
        break;
      }
      assert !StopsAt(SkipOpenerLines, allLines, start, k);
      FirstStopNext(SkipOpenerLines, allLines, start, k);
    }
  }

  /** `parse_length`: lines read from the opening line until the nesting returns to 0, minus two. */
  method ParseLength(home: nat, allLines: seq<string>) returns (r: Result<int>)
    ensures r == BodyLength(SkipOpenerLines, allLines, home)
  {
    var opening := FindBodyStart(home, allLines);
    if opening.None? {
      return Err(NoBodyBrace);
    }
    var functionLen := WalkLength(allLines, opening.value);
    BodyLengthFrom(SkipOpenerLines, allLines, home, opening.value);
    return Ok(functionLen - 2);
  }
}
