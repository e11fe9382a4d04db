/**
 * The walk over a function body that `parse_length` and `parse_depth` share:
 * find the line that opens the body, then read lines, keeping a comment level
 * and a brace nesting, until a counted line brings the nesting back to zero.
 */
module BraceWalk {
  import opened Outcome
  import opened PyText
  import opened Locator

  /** What one character does to the nesting: `{` opens, `}` closes. */
  function CharDelta(c: char): int {
    if c == '{' then 1 else if c == '}' then -1 else 0
  }

  /** The net nesting change of a line, read left to right. */
  function BraceDelta(line: string): int
    decreases |line|
  {
    if line == [] then 0 else BraceDelta(line[..|line| - 1]) + CharDelta(line[|line| - 1])
  }

  /** The inner `for char in line` loop of every body walk. */
  method AddBraces(line: string, nesting: int) returns (n: int)
    ensures n == nesting + BraceDelta(line)
  {
    n := nesting;
    for c := 0 to |line|
      invariant n == nesting + BraceDelta(line[..c])
    {
      assert line[..c + 1][..c] == line[..c];
      if line[c] == '{' {
        n := n + 1;
      } else if line[c] == '}' {
        n := n - 1;
      }
    }
    assert line[..|line|] == line;
  }

  /** `BraceDelta` is the number of `{` minus the number of `}`. */
  lemma {:induction false} BraceDeltaCounts(line: string)
    ensures BraceDelta(line) == Count(line, "{") - Count(line, "}")
    decreases |line|
  {
    if line != [] {
      var init, last := line[..|line| - 1], line[|line| - 1];
      assert line == init + [last];
      BraceDeltaCounts(init);
      CountCharConcat(init, [last], '{');
      CountCharConcat(init, [last], '}');
      assert [last][1..] == [];
    }
  }

  /* ---------------------------------------------------------------- the opening line */

  /** The squashed line ends in `{`: the function body opens on it. */
  predicate OpensBody(line: string) {
    EndsWith(SquashWhitespace(line), "{")
  }

  /** The first index at or after `i` whose squashed line ends in `{`. */
  function BodyStart(lines: seq<string>, i: nat): (r: Option<nat>)
    ensures r.Some? ==> i <= r.value < |lines|
    decreases |lines| - i
  {
    if i >= |lines| then None
    else if OpensBody(lines[i]) then Some(i)
    else BodyStart(lines, i + 1)
  }

  /** `BodyStart` finds the first opening line, and finds none only when there is none. */
  lemma {:induction false} BodyStartFirst(lines: seq<string>, i: nat)
    ensures BodyStart(lines, i).Some? ==> OpensBody(lines[BodyStart(lines, i).value])
    ensures BodyStart(lines, i).Some? ==> forall k :: i <= k < BodyStart(lines, i).value ==> !OpensBody(lines[k])
    ensures BodyStart(lines, i).None? <==> forall k :: i <= k < |lines| ==> !OpensBody(lines[k])
    decreases |lines| - i
  {
    if i < |lines| && !OpensBody(lines[i]) {
      BodyStartFirst(lines, i + 1);
    }
  }

  /** The `while True` loop of both walks: advance to the first line whose squashed text ends in `{`. */
  method FindBodyStart(home: nat, allLines: seq<string>) returns (r: Option<nat>)
    ensures r == BodyStart(allLines, home)
  {
    var start := home;
    while true
      invariant home <= start
      invariant BodyStart(allLines, home) == BodyStart(allLines, start)
      decreases |allLines| - start
    {
      if start >= |allLines| {
        return None;
      }
      if EndsWith(SquashWhitespace(allLines[start]), "{") {
        break;
      }
      start := start + 1;
    }
    r := Some(start);
  }

  /* ---------------------------------------------------------------- one line at a time */

  /**
   * `CountBoth` is `parse_length` of `check_length_nesting.py`, which applies both
   * comment counts on every line; `SkipOpenerLines` is `parse_depth` and the
   * `parse_length` of `check_length.py`, which, on a line that opens a block
   * comment, add the opener count and skip the rest of that line's processing.
   */
  datatype Rule = CountBoth | SkipOpenerLines

  /** The counters the walk keeps between lines. */
  datatype Scan = Scan(nesting: int, level: int)

  /** The line is skipped right after its block-comment openers are counted. */
  predicate Skipped(rule: Rule, line: string) {
    rule == SkipOpenerLines && Contains(line, "/*")
  }

  /** The comment level after the line. */
  function LevelStep(rule: Rule, level: int, line: string): int {
    if Skipped(rule, line) then level + Count(line, "/*")
    else if rule == SkipOpenerLines then level - Count(line, "*/")
    else level + CommentDelta(line)
  }

  /** The line's braces are counted: not skipped, comment level 0, not a `//` line. */
  predicate Counted(rule: Rule, st: Scan, line: string) {
    !Skipped(rule, line) && LevelStep(rule, st.level, line) == 0 && !IsLineComment(line)
  }

  /** The counters after one line. */
  function Step(rule: Rule, st: Scan, line: string): Scan {
    Scan(if Counted(rule, st, line) then st.nesting + BraceDelta(line) else st.nesting,
         LevelStep(rule, st.level, line))
  }

  /** The counters after reading `ls`, starting from zero. */
  function Run(rule: Rule, ls: seq<string>): Scan
    decreases |ls|
  {
    if ls == [] then Scan(0, 0) else Step(rule, Run(rule, ls[..|ls| - 1]), ls[|ls| - 1])
  }

  /** Reading line `k` after `lines[s..k]`. */
  lemma RunNext(rule: Rule, lines: seq<string>, s: nat, k: nat)
    requires s <= k < |lines|
    ensures Run(rule, lines[s..k + 1]) == Step(rule, Run(rule, lines[s..k]), lines[k])
  {
    assert lines[s..k + 1][..k - s] == lines[s..k];
  }

  /** The walk from `s` breaks at line `k`: it is counted and leaves the nesting at zero. */
  predicate StopsAt(rule: Rule, lines: seq<string>, s: nat, k: nat)
    requires s <= k < |lines|
  {
    var st := Run(rule, lines[s..k]);
    Counted(rule, st, lines[k]) && Step(rule, st, lines[k]).nesting == 0
  }

  /** The first line at or after `j` where the walk from `s` breaks. */
  function FirstStop(rule: Rule, lines: seq<string>, s: nat, j: nat): (r: Option<nat>)
    requires s <= j <= |lines|
    ensures r.Some? ==> j <= r.value < |lines|
    decreases |lines| - j
  {
    if j == |lines| then None
    else if StopsAt(rule, lines, s, j) then Some(j)
    else FirstStop(rule, lines, s, j + 1)
  }

  /** `FirstStop` finds the first line the walk breaks on, and none only when it never breaks. */
  lemma FirstStopFirst(rule: Rule, lines: seq<string>, s: nat, j: nat)
    requires s <= j <= |lines|
    ensures FirstStop(rule, lines, s, j).Some? ==> StopsAt(rule, lines, s, FirstStop(rule, lines, s, j).value)
    ensures FirstStop(rule, lines, s, j).Some? ==>
              forall k :: j <= k < FirstStop(rule, lines, s, j).value ==> !StopsAt(rule, lines, s, k)
    ensures FirstStop(rule, lines, s, j).None? <==> forall k :: j <= k < |lines| ==> !StopsAt(rule, lines, s, k)
  {
    FirstStopStops(rule, lines, s, j);
    forall k | j <= k < |lines| && (FirstStop(rule, lines, s, j).None? || k < FirstStop(rule, lines, s, j).value)
      ensures !StopsAt(rule, lines, s, k)
    {
      FirstStopBefore(rule, lines, s, j, k);
    }
  }

  /** The line `FirstStop` finds is one the walk breaks on. */
  lemma {:induction false} FirstStopStops(rule: Rule, lines: seq<string>, s: nat, j: nat)
    requires s <= j <= |lines|
    ensures FirstStop(rule, lines, s, j).Some? ==> StopsAt(rule, lines, s, FirstStop(rule, lines, s, j).value)
    decreases |lines| - j
  {
    if j < |lines| && !StopsAt(rule, lines, s, j) {
      FirstStopStops(rule, lines, s, j + 1);
    }
  }

  /** The walk does not break on a line before the one `FirstStop` finds. */
  lemma {:induction false} FirstStopBefore(rule: Rule, lines: seq<string>, s: nat, j: nat, k: nat)
    requires s <= j <= k < |lines|
    requires FirstStop(rule, lines, s, j).None? || k < FirstStop(rule, lines, s, j).value
    ensures !StopsAt(rule, lines, s, k)
    decreases k - j
  {
    if j < k {
      FirstStopBefore(rule, lines, s, j + 1, k);
    }
  }

  /** The walk from `s` first breaks at `e` when it breaks there and nowhere from `j` before. */
  lemma {:induction false} FirstStopAt(rule: Rule, lines: seq<string>, s: nat, j: nat, e: nat)
    requires s <= j <= e < |lines| && StopsAt(rule, lines, s, e)
    requires forall k :: j <= k < e ==> !StopsAt(rule, lines, s, k)
    ensures FirstStop(rule, lines, s, j) == Some(e)
    decreases e - j
  {
    if j < e {
      FirstStopAt(rule, lines, s, j + 1, e);
    }
  }

  /** A line the walk does not break on leaves the first stop where it was. */
  lemma FirstStopNext(rule: Rule, lines: seq<string>, s: nat, k: nat)
    requires s <= k < |lines| && !StopsAt(rule, lines, s, k)
    ensures FirstStop(rule, lines, s, k) == FirstStop(rule, lines, s, k + 1)
  {
  }

  /** One past the last line the walk from `s` reads. */
  function WalkEnd(rule: Rule, lines: seq<string>, s: nat): (e: nat)
    requires s <= |lines|
    ensures s <= e <= |lines|
  {
    match FirstStop(rule, lines, s, s)
    case Some(k) => k + 1
    case None => |lines|
  }

  /* ---------------------------------------------------------------- length */

  /**
   * `parse_length`: the lines read from the opening line on, minus two. At
   * least the opening line is read, so the result is at least -1.
   */
  function BodyLength(rule: Rule, lines: seq<string>, home: nat): (r: Result<int>)
    ensures r.Err? <==> BodyStart(lines, home).None?
    ensures r.Err? ==> r.error == NoBodyBrace
    ensures r.Ok? ==> -1 <= r.value <= |lines| - home - 2
  {
    match BodyStart(lines, home)
    case None => Err(NoBodyBrace)
    case Some(s) => Ok(WalkEnd(rule, lines, s) - s - 2)
  }

  /** The length once the opening line is known. */
  lemma BodyLengthFrom(rule: Rule, lines: seq<string>, home: nat, s: nat)
    requires BodyStart(lines, home) == Some(s)
    ensures BodyLength(rule, lines, home) == Ok(WalkEnd(rule, lines, s) - s - 2)
  {
  }

  /* ---------------------------------------------------------------- depth */

  function Max(a: int, b: int): int {
    if a >= b then a else b
  }

  /** `parse_depth` updates its maximum after line `k`: it opens no block comment. */
  predicate Recorded(lines: seq<string>, k: nat)
    requires k < |lines|
  {
    !Contains(lines[k], "/*")
  }

  /** The nesting once line `k` of the walk from `s` has been read. */
  function NestingAfter(rule: Rule, lines: seq<string>, s: nat, k: nat): int
    requires s <= k < |lines|
  {
    Run(rule, lines[s..k + 1]).nesting
  }

  /** The largest nesting recorded after the lines `s..j`, and at least 0. */
  function Depth(lines: seq<string>, s: nat, j: nat): (d: int)
    requires s <= j <= |lines|
    ensures d >= 0
    decreases j
  {
    if j == s then 0
    else
      var d := Depth(lines, s, j - 1);
      if Recorded(lines, j - 1) then Max(d, NestingAfter(SkipOpenerLines, lines, s, j - 1)) else d
  }

  /** `Depth` is the maximum: no recorded nesting exceeds it, and it is 0 or one of them. */
  lemma {:induction false} DepthIsMax(lines: seq<string>, s: nat, j: nat)
    requires s <= j <= |lines|
    ensures forall k :: s <= k < j && Recorded(lines, k) ==> NestingAfter(SkipOpenerLines, lines, s, k) <= Depth(lines, s, j)
    ensures Depth(lines, s, j) == 0
         || exists k :: s <= k < j && Recorded(lines, k) && NestingAfter(SkipOpenerLines, lines, s, k) == Depth(lines, s, j)
    decreases j
  {
    if j > s {
      DepthIsMax(lines, s, j - 1);
    }
  }

  /** Reading line `k` records its nesting unless it opens a block comment. */
  lemma DepthNext(lines: seq<string>, s: nat, k: nat)
    requires s <= k < |lines|
    ensures Depth(lines, s, k + 1)
         == if Recorded(lines, k) then Max(Depth(lines, s, k), NestingAfter(SkipOpenerLines, lines, s, k))
            else Depth(lines, s, k)
  {
  }

  /** The line the walk of `parse_depth` breaks on (it is not recorded), or the end. */
  function DepthEnd(lines: seq<string>, s: nat): (e: nat)
    requires s <= |lines|
    ensures s <= e <= |lines|
  {
    match FirstStop(SkipOpenerLines, lines, s, s)
    case Some(k) => k
    case None => |lines|
  }

  /** `parse_depth`: the largest nesting recorded before the walk breaks. */
  function BodyDepth(lines: seq<string>, home: nat): (r: Result<int>)
    ensures r.Err? <==> BodyStart(lines, home).None?
    ensures r.Err? ==> r.error == NoBodyBrace
    ensures r.Ok? ==> r.value >= 0
  {
    match BodyStart(lines, home)
    case None => Err(NoBodyBrace)
    case Some(s) => Ok(Depth(lines, s, DepthEnd(lines, s)))
  }

  /** The depth once the opening line is known. */
  lemma BodyDepthFrom(lines: seq<string>, home: nat, s: nat)
    requires BodyStart(lines, home) == Some(s)
    ensures BodyDepth(lines, home) == Ok(Depth(lines, s, DepthEnd(lines, s)))
  {
  }

  /* ---------------------------------------------------------------- properties */

  /** A line without block-comment openers or closers. */
  predicate NoCommentMarks(line: string) {
    !Contains(line, "/*") && !Contains(line, "*/")
  }

  /** A line that opens a block comment keeps the nesting of the `SkipOpenerLines` walk and never ends it. */
  lemma OpenerLineIgnored(st: Scan, line: string)
    requires Contains(line, "/*")
    ensures Step(SkipOpenerLines, st, line).nesting == st.nesting
    ensures !Counted(SkipOpenerLines, st, line)
    ensures Step(SkipOpenerLines, st, line).level == st.level + Count(line, "/*")
  {
  }

  /** Without comment marks the two rules keep the same counters, and the level stays 0. */
  lemma {:induction false} RulesAgree(ls: seq<string>)
    requires forall k :: 0 <= k < |ls| ==> NoCommentMarks(ls[k])
    ensures Run(CountBoth, ls) == Run(SkipOpenerLines, ls)
    ensures Run(CountBoth, ls).level == 0
    decreases |ls|
  {
    if ls != [] {
      var last := ls[|ls| - 1];
      RulesAgree(ls[..|ls| - 1]);
      CountAbsent(last, "/*");
      CountAbsent(last, "*/");
    }
  }

  /** Without comment marks both rules break on the same lines. */
  lemma {:induction false} FirstStopAgree(lines: seq<string>, s: nat, j: nat)
    requires s <= j <= |lines|
    requires forall k :: s <= k < |lines| ==> NoCommentMarks(lines[k])
    ensures FirstStop(CountBoth, lines, s, j) == FirstStop(SkipOpenerLines, lines, s, j)
    decreases |lines| - j
  {
    if j < |lines| {
      RulesAgree(lines[s..j]);
      CountAbsent(lines[j], "/*");
      CountAbsent(lines[j], "*/");
      assert StopsAt(CountBoth, lines, s, j) == StopsAt(SkipOpenerLines, lines, s, j);
      FirstStopAgree(lines, s, j + 1);
    }
  }

  /**
   * On a file without comment marks from `home` on, the two versions of
   * `parse_length` agree.
   */
  lemma LengthVersionsAgree(lines: seq<string>, home: nat)
    requires forall k :: home <= k < |lines| ==> NoCommentMarks(lines[k])
    ensures BodyLength(CountBoth, lines, home) == BodyLength(SkipOpenerLines, lines, home)
  {
    if BodyStart(lines, home).Some? {
      var s := BodyStart(lines, home).value;
      assert WalkEnd(CountBoth, lines, s) == WalkEnd(SkipOpenerLines, lines, s) by {
        FirstStopAgree(lines, s, s);
      }
    }
  }

  /** A line the walk counts as it is: no comment marks and not a `//` line. */
  predicate Plain(line: string) {
    NoCommentMarks(line) && !IsLineComment(line)
  }

  /**
   * The body shape of a function without inner blocks: the opening line adds one
   * level, the lines inside change nothing, and line `e` closes the level.
   */
  predicate FlatBody(lines: seq<string>, s: nat, e: nat) {
    && s < e < |lines|
    && (forall k {:trigger Plain(lines[k])} :: s <= k <= e ==> Plain(lines[k]))
    && BraceDelta(lines[s]) == 1
    && (forall k {:trigger BraceDelta(lines[k])} :: s < k < e ==> BraceDelta(lines[k]) == 0)
    && BraceDelta(lines[e]) == -1
  }

  /** A plain line read at comment level 0 adds its braces and leaves the level at 0. */
  lemma StepPlain(rule: Rule, st: Scan, line: string)
    requires Plain(line) && st.level == 0
    ensures Step(rule, st, line) == Scan(st.nesting + BraceDelta(line), 0)
    ensures Counted(rule, st, line)
  {
    CountAbsent(line, "/*");
    CountAbsent(line, "*/");
  }

  /** Inside a flat body, the nesting is one and the comment level zero. */
  lemma {:induction false} FlatBodyRun(rule: Rule, lines: seq<string>, s: nat, e: nat, k: nat)
    requires FlatBody(lines, s, e) && s < k <= e
    ensures Run(rule, lines[s..k]) == Scan(1, 0)
    decreases k
  {
    if k == s + 1 {
      FlatBodyOpen(rule, lines, s, e);
    } else {
      FlatBodyRun(rule, lines, s, e, k - 1);
      FlatBodyInner(rule, lines, s, e, k - 1);
    }
  }

  /** The opening line of a flat body leaves nesting one. */
  lemma FlatBodyOpen(rule: Rule, lines: seq<string>, s: nat, e: nat)
    requires FlatBody(lines, s, e)
    ensures Run(rule, lines[s..s + 1]) == Scan(1, 0)
  {
    assert lines[s..s] == [];
    RunNext(rule, lines, s, s);
    assert Plain(lines[s]);
    StepPlain(rule, Scan(0, 0), lines[s]);
  }

  /** An inner line of a flat body keeps nesting one. */
  lemma FlatBodyInner(rule: Rule, lines: seq<string>, s: nat, e: nat, k: nat)
    requires FlatBody(lines, s, e) && s < k < e
    requires Run(rule, lines[s..k]) == Scan(1, 0)
    ensures Run(rule, lines[s..k + 1]) == Scan(1, 0)
  {
    RunNext(rule, lines, s, k);
    assert Plain(lines[k]) && BraceDelta(lines[k]) == 0;
    StepPlain(rule, Scan(1, 0), lines[k]);
  }

  /** No line before the closing one ends the walk over a flat body. */
  lemma FlatBodyOpenLine(rule: Rule, lines: seq<string>, s: nat, e: nat, k: nat)
    requires FlatBody(lines, s, e) && s <= k < e
    ensures NestingAfter(rule, lines, s, k) == 1 && !StopsAt(rule, lines, s, k)
  {
    FlatBodyRun(rule, lines, s, e, k + 1);
    RunNext(rule, lines, s, k);
  }

  /** The closing line ends the walk over a flat body. */
  lemma FlatBodyCloses(rule: Rule, lines: seq<string>, s: nat, e: nat)
    requires FlatBody(lines, s, e)
    ensures StopsAt(rule, lines, s, e)
  {
    FlatBodyRun(rule, lines, s, e, e);
    assert Plain(lines[e]);
    StepPlain(rule, Scan(1, 0), lines[e]);
  }

  /** The walk over a flat body breaks exactly on its closing line. */
  lemma FlatBodyStops(rule: Rule, lines: seq<string>, s: nat, e: nat)
    requires FlatBody(lines, s, e)
    ensures FirstStop(rule, lines, s, s) == Some(e)
    ensures forall k :: s <= k < e ==> NestingAfter(rule, lines, s, k) == 1
  {
    forall k | s <= k < e
      ensures NestingAfter(rule, lines, s, k) == 1 && !StopsAt(rule, lines, s, k)
    {
      FlatBodyOpenLine(rule, lines, s, e, k);
    }
    FlatBodyCloses(rule, lines, s, e);
    FirstStopAt(rule, lines, s, s, e);
  }

  /**
   * A function without inner blocks: the length is the number of lines strictly
   * between the opening and the closing line, and the depth is 1 (the body's own
   * braces are not discounted).
   */
  lemma FlatBodyMeasures(lines: seq<string>, home: nat, s: nat, e: nat)
    requires BodyStart(lines, home) == Some(s) && FlatBody(lines, s, e)
    ensures BodyLength(CountBoth, lines, home) == Ok(e - s - 1)
    ensures BodyLength(SkipOpenerLines, lines, home) == Ok(e - s - 1)
    ensures BodyDepth(lines, home) == Ok(1)
  {
    FlatBodyStops(CountBoth, lines, s, e);
    FlatBodyStops(SkipOpenerLines, lines, s, e);
    assert DepthEnd(lines, s) == e;
    DepthIsMax(lines, s, e);
    var d := Depth(lines, s, e);
    assert Plain(lines[s]);
    assert Recorded(lines, s) && NestingAfter(SkipOpenerLines, lines, s, s) == 1;
    assert forall k :: s <= k < e ==> NestingAfter(SkipOpenerLines, lines, s, k) == 1;
  }
}
