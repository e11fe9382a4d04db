/**
 * Finding function declarations in a file held as a list of lines, as both
 * versions of `get_function_decls` and `find_definitions` do it. The two
 * versions differ only in whether block and line comments hide a line; the
 * `Variant` flag says which one is meant.
 */
module Locator {
  import opened Outcome
  import opened PyText
  import opened Signatures

  /* ---------------------------------------------------------------- the pattern */

  /**
   * `re.match("([^\s]+) \w*[(]", line)`: the run of non-whitespace at the start
   * of the line is non-empty and ends at a plain space, and after the word
   * characters that follow the space comes `(`.
   */
  predicate MatchesDecl(line: string) {
    var k := SkipToken(line, 0);
    && 0 < k < |line|
    && line[k] == ' '
    && var m := SkipWord(line, k + 1);
    m < |line| && line[m] == '('
  }

  /** One way the regular expression can match: the group ends at `k`, the `(` is at `m`. */
  predicate DeclShape(line: string, k: int, m: int) {
    && 0 < k < m < |line|
    && NoSpace(line[..k])
    && line[k] == ' '
    && (forall j :: k < j < m ==> IsWordChar(line[j]))
    && line[m] == '('
  }

  /** The hand-written scan accepts exactly the lines the regular expression matches. */
  lemma MatchesDeclShape(line: string)
    ensures MatchesDecl(line) <==> exists k, m :: DeclShape(line, k, m)
  {
    var k := SkipToken(line, 0);
    if 0 < k < |line| {
      assert line[..k] == line[0..k];
      var m := SkipWord(line, k + 1);
      if line[k] == ' ' && m < |line| && line[m] == '(' {
        assert DeclShape(line, k, m);
      }
    }
    forall k', m' | DeclShape(line, k', m')
      ensures MatchesDecl(line)
    {
      assert forall j :: 0 <= j < k' ==> !IsSpace(line[..k'][j]);
      assert forall j :: 0 <= j < k' ==> !IsSpace(line[j]);
      assert IsSpace(line[k']);
      assert k == k';
      var m := SkipWord(line, k + 1);
      assert !IsWordChar(line[m']);
      assert m == m';
    }
  }

  /* ---------------------------------------------------------------- comment level */

  /** How one line moves the comment level: `+count("/*")`, then `-count("*/")`. */
  function CommentDelta(line: string): int {
    Count(line, "/*") - Count(line, "*/")
  }

  /** The comment level once all of `ls` has been read. */
  function LevelAfter(ls: seq<string>): int
    decreases |ls|
  {
    if ls == [] then 0 else LevelAfter(ls[..|ls| - 1]) + CommentDelta(ls[|ls| - 1])
  }

  /** Reading one more line adds its delta. */
  lemma LevelAfterNext(lines: seq<string>, i: nat)
    requires i < |lines|
    ensures LevelAfter(lines[..i + 1]) == LevelAfter(lines[..i]) + CommentDelta(lines[i])
  {
    assert lines[..i + 1][..i] == lines[..i];
  }

  /** The method's two guarded updates amount to adding `CommentDelta`. */
  lemma GuardedCounts(line: string)
    ensures (if Contains(line, "/*") then Count(line, "/*") else 0)
          - (if Contains(line, "*/") then Count(line, "*/") else 0) == CommentDelta(line)
  {
    if !Contains(line, "/*") { CountAbsent(line, "/*"); }
    if !Contains(line, "*/") { CountAbsent(line, "*/"); }
  }

  /** A line whose squashed text starts with `//`. */
  predicate IsLineComment(line: string) {
    StartsWith(SquashWhitespace(line), "//")
  }

  /* ---------------------------------------------------------------- candidates */

  /** `Plain` is `check_length.py`; `CommentAware` is `check_length_nesting.py`. */
  datatype Variant = Plain | CommentAware

  /** Line `i` is recorded by the first loop of `get_function_decls` (if the loop gets there). */
  predicate IsCandidate(v: Variant, lines: seq<string>, start: int, i: nat)
    requires i < |lines|
  {
    && (v == CommentAware ==> LevelAfter(lines[..i + 1]) == 0 && !IsLineComment(lines[i]))
    && i >= start
    && MatchesDecl(lines[i])
  }

  /** `line.startswith("int main(")` */
  predicate IsMainLine(line: string) {
    StartsWith(line, "int main(")
  }

  /** The loop records line `i` and then breaks. */
  predicate StopsScan(v: Variant, lines: seq<string>, start: int, i: nat)
    requires i < |lines|
  {
    IsCandidate(v, lines, start, i) && start == 0 && IsMainLine(lines[i])
  }

  /** Moving one element across a concatenation. */
  lemma AppendShift<T>(a: seq<T>, x: T, b: seq<T>)
    ensures (a + [x]) + b == a + ([x] + b)
  {
  }

  /** The indices the first loop records from line `i` on. */
  function FoundFrom(v: Variant, lines: seq<string>, start: int, i: nat): (r: seq<nat>)
    requires i <= |lines|
    ensures |r| <= |lines| - i
    decreases |lines| - i
  {
    if i == |lines| then []
    else if IsCandidate(v, lines, start, i) then
      if StopsScan(v, lines, start, i) then [i] else [i] + FoundFrom(v, lines, start, i + 1)
    else FoundFrom(v, lines, start, i + 1)
  }

  /** The recorded lines are candidates from line `i` on, in increasing order. */
  lemma {:induction false} FoundFromShape(v: Variant, lines: seq<string>, start: int, i: nat)
    requires i <= |lines|
    ensures var r := FoundFrom(v, lines, start, i);
      && (forall x :: x in r ==> i <= x < |lines| && IsCandidate(v, lines, start, x))
      && Increasing(r)
    decreases |lines| - i
  {
    if i < |lines| {
      FoundFromShape(v, lines, start, i + 1);
      var t := FoundFrom(v, lines, start, i + 1);
      if !IsCandidate(v, lines, start, i) {
        assert FoundFrom(v, lines, start, i) == t;
      } else if StopsScan(v, lines, start, i) {
        assert FoundFrom(v, lines, start, i) == [i];
      } else {
        assert FoundFrom(v, lines, start, i) == [i] + t;
        IncreasingCons(i, t);
      }
    }
  }

  /** Putting a smaller element in front of an increasing sequence. */
  lemma IncreasingCons(x: nat, t: seq<nat>)
    requires Increasing(t) && forall y :: y in t ==> x < y
    ensures Increasing([x] + t)
  {
    var r := [x] + t;
    forall a, b | 0 <= a < b < |r|
      ensures r[a] < r[b]
    {
      assert r[b] == t[b - 1] && r[b] in t;
      if a > 0 {
        assert r[a] == t[a - 1];
      }
    }
  }

  /**
   * A line is recorded exactly when it is a candidate and no earlier `int main(`
   * candidate ended the scan (which only happens when scanning from 0).
   */
  lemma {:induction false} FoundFromExactly(v: Variant, lines: seq<string>, start: int, i: nat, x: nat)
    requires i <= |lines|
    ensures x in FoundFrom(v, lines, start, i)
        <==> i <= x < |lines| && IsCandidate(v, lines, start, x)
             && forall k :: i <= k < x ==> !StopsScan(v, lines, start, k)
    decreases |lines| - i
  {
    if i < |lines| {
      FoundFromExactly(v, lines, start, i + 1, x);
    }
  }

  /** `FoundFromExactly` for the whole scan. */
  lemma FoundExactly(v: Variant, lines: seq<string>, start: int, x: nat)
    ensures x in FoundFrom(v, lines, start, 0)
        <==> x < |lines| && IsCandidate(v, lines, start, x)
             && forall k :: 0 <= k < x ==> !StopsScan(v, lines, start, k)
  {
    FoundFromExactly(v, lines, start, 0, x);
  }

  /* ---------------------------------------------------------------- de-duplication */

  /** A recorded declaration: the line it starts on and its signature. */
  datatype Decl = Decl(line: nat, sig: Signature)

  /** `tag in [sig[1] for sig in kept]`, comparing with `Signature.__eq__`. */
  predicate Seen(kept: seq<Decl>, tag: Signature) {
    exists j :: 0 <= j < |kept| && SameSignature(kept[j].sig, tag)
  }

  /** The second loop: extract each recorded signature, keep it unless already seen. */
  function Dedup(lines: seq<string>, found: seq<nat>, kept: seq<Decl>): Result<seq<Decl>>
    decreases |found|
  {
    if found == [] then Ok(kept)
    else match SignatureOf(lines, found[0])
      case Err(e) => Err(e)
      case Ok(tag) =>
        Dedup(lines, found[1..], if Seen(kept, tag) then kept else kept + [Decl(found[0], tag)])
  }

  /** The result of `get_function_decls(lines, start)`. */
  function DeclsOf(v: Variant, lines: seq<string>, start: int): Result<seq<Decl>> {
    Dedup(lines, FoundFrom(v, lines, start, 0), [])
  }

  /** `xs` is strictly increasing. */
  predicate Increasing(xs: seq<nat>) {
    forall a, b :: 0 <= a < b < |xs| ==> xs[a] < xs[b]
  }

  /** The line `x` has a signature and a kept entry at or before `x` equals it. */
  predicate Covered(lines: seq<string>, kept: seq<Decl>, x: nat) {
    && SignatureOf(lines, x).Ok?
    && exists j :: 0 <= j < |kept| && kept[j].line <= x && SameSignature(kept[j].sig, SignatureOf(lines, x).value)
  }

  /**
   * What the second loop keeps once it has read `found`: the kept entries come
   * from `found` in increasing order, carry their own line's signature, no entry
   * equals an earlier one, and every line read is covered by a kept entry.
   */
  predicate KeptFrom(lines: seq<string>, found: seq<nat>, kept: seq<Decl>) {
    && KeptEntries(lines, found, kept)
    && (forall k :: 0 <= k < |found| ==> Covered(lines, kept, found[k]))
  }

  /** Every line already read lies below the next one. */
  lemma DoneBelow(done: seq<nat>, x: nat)
    requires Increasing(done + [x])
    ensures forall y :: y in done ==> y < x
  {
    forall y | y in done
      ensures y < x
    {
      var k :| 0 <= k < |done| && done[k] == y;
      assert (done + [x])[k] == y && (done + [x])[|done|] == x;
    }
  }

  /** Entries that are ordered, pairwise different and read from `found`. */
  predicate KeptEntries(lines: seq<string>, found: seq<nat>, kept: seq<Decl>) {
    && (forall a, b :: 0 <= a < b < |kept| ==> kept[a].line < kept[b].line)
    && (forall a, b :: 0 <= a < b < |kept| ==> !SameSignature(kept[a].sig, kept[b].sig))
    && (forall j :: 0 <= j < |kept| ==>
          kept[j].line in found && SignatureOf(lines, kept[j].line) == Ok(kept[j].sig))
  }

  /** Appending an unseen signature from a later line keeps `KeptEntries`. */
  lemma KeptEntriesAppend(lines: seq<string>, done: seq<nat>, x: nat, kept: seq<Decl>, tag: Signature)
    requires KeptEntries(lines, done, kept)
    requires forall j :: 0 <= j < |kept| ==> kept[j].line < x
    requires !Seen(kept, tag) && SignatureOf(lines, x) == Ok(tag)
    ensures KeptEntries(lines, done + [x], kept + [Decl(x, tag)])
  {
    var kept' := kept + [Decl(x, tag)];
    forall j | 0 <= j < |kept'|
      ensures kept'[j].line in done + [x] && SignatureOf(lines, kept'[j].line) == Ok(kept'[j].sig)
    {
      if j < |kept| {
        assert kept'[j] == kept[j];
        assert kept[j].line in done;
      } else {
        assert kept'[j] == Decl(x, tag);
        assert (done + [x])[|done|] == x;
      }
    }
    forall a, b | 0 <= a < b < |kept'|
      ensures kept'[a].line < kept'[b].line && !SameSignature(kept'[a].sig, kept'[b].sig)
    {
      assert kept'[a] == kept[a];
      if b == |kept| {
        assert kept'[b] == Decl(x, tag);
      } else {
        assert kept'[b] == kept[b];
      }
    }
  }

  /** Reading a line without keeping it keeps `KeptEntries`. */
  lemma KeptEntriesGrow(lines: seq<string>, done: seq<nat>, x: nat, kept: seq<Decl>)
    requires KeptEntries(lines, done, kept)
    ensures KeptEntries(lines, done + [x], kept)
  {
    assert forall y :: y in done ==> y in done + [x];
  }

  /** Reading one more line keeps `KeptEntries`. */
  lemma KeptEntriesStep(lines: seq<string>, done: seq<nat>, x: nat, kept: seq<Decl>)
    requires Increasing(done + [x])
    requires KeptEntries(lines, done, kept)
    requires SignatureOf(lines, x).Ok?
    ensures var tag := SignatureOf(lines, x).value;
            KeptEntries(lines, done + [x], if Seen(kept, tag) then kept else kept + [Decl(x, tag)])
  {
    var tag := SignatureOf(lines, x).value;
    if Seen(kept, tag) {
      KeptEntriesGrow(lines, done, x, kept);
    } else {
      DoneBelow(done, x);
      KeptEntriesAppend(lines, done, x, kept, tag);
    }
  }

  /** One step of the second loop keeps every line read covered. */
  lemma KeptCoverStep(lines: seq<string>, done: seq<nat>, x: nat, kept: seq<Decl>)
    requires forall k :: 0 <= k < |done| ==> Covered(lines, kept, done[k])
    requires forall j :: 0 <= j < |kept| ==> kept[j].line <= x
    requires SignatureOf(lines, x).Ok?
    ensures var tag := SignatureOf(lines, x).value;
            var kept' := if Seen(kept, tag) then kept else kept + [Decl(x, tag)];
            forall k :: 0 <= k < |done + [x]| ==> Covered(lines, kept', (done + [x])[k])
  {
    var tag := SignatureOf(lines, x).value;
    var kept' := if Seen(kept, tag) then kept else kept + [Decl(x, tag)];
    var found' := done + [x];
    forall k | 0 <= k < |found'|
      ensures Covered(lines, kept', found'[k])
    {
      if k < |done| {
        assert found'[k] == done[k];
        assert Covered(lines, kept, done[k]);
        var j :| 0 <= j < |kept| && kept[j].line <= done[k]
                 && SameSignature(kept[j].sig, SignatureOf(lines, done[k]).value);
        assert kept'[j] == kept[j];
      } else {
        assert found'[k] == x;
        if Seen(kept, tag) {
          var j :| 0 <= j < |kept| && SameSignature(kept[j].sig, tag);
          assert kept[j].line <= x;
        } else {
          SameSignatureReflexive(tag);
          assert kept'[|kept|] == Decl(x, tag);
        }
      }
    }
  }

  /** One step of the second loop keeps `KeptFrom`. */
  lemma KeptFromStep(lines: seq<string>, done: seq<nat>, x: nat, kept: seq<Decl>)
    requires Increasing(done + [x])
    requires KeptFrom(lines, done, kept)
    requires SignatureOf(lines, x).Ok?
    ensures var tag := SignatureOf(lines, x).value;
            KeptFrom(lines, done + [x], if Seen(kept, tag) then kept else kept + [Decl(x, tag)])
  {
    KeptEntriesStep(lines, done, x, kept);
    DoneBelow(done, x);
    KeptCoverStep(lines, done, x, kept);
  }

  /** A prefix of an increasing sequence is increasing. */
  lemma IncreasingPrefix(xs: seq<nat>, ys: seq<nat>)
    requires Increasing(xs + ys)
    ensures Increasing(xs)
  {
    assert forall k :: 0 <= k < |xs| ==> xs[k] == (xs + ys)[k];
  }

  /** `KeptFrom` holds for everything `Dedup` keeps. */
  lemma {:induction false} DedupKept(lines: seq<string>, done: seq<nat>, rest: seq<nat>, kept: seq<Decl>)
    requires Increasing(done + rest)
    requires KeptFrom(lines, done, kept)
    requires Dedup(lines, rest, kept).Ok?
    ensures KeptFrom(lines, done + rest, Dedup(lines, rest, kept).value)
    decreases |rest|
  {
    if rest == [] {
      assert done + rest == done;
    } else {
      var x := rest[0];
      var tag := SignatureOf(lines, x).value;
      var kept' := if Seen(kept, tag) then kept else kept + [Decl(x, tag)];
      assert (done + [x]) + rest[1..] == done + rest by {
        HeadThenTail(rest);
        AppendShift(done, x, rest[1..]);
      }
      IncreasingPrefix(done + [x], rest[1..]);
      KeptFromStep(lines, done, x, kept);
      DedupKept(lines, done + [x], rest[1..], kept');
    }
  }

  /** The second loop fails exactly when some recorded line has no signature. */
  lemma {:induction false} DedupFails(lines: seq<string>, rest: seq<nat>, kept: seq<Decl>)
    ensures Dedup(lines, rest, kept).Err?
        <==> exists k :: 0 <= k < |rest| && SignatureOf(lines, rest[k]).Err?
    decreases |rest|
  {
    if rest != [] {
      match SignatureOf(lines, rest[0])
      case Err(_) =>
        assert SignatureOf(lines, rest[0]).Err?;
      case Ok(tag) =>
        var kept' := if Seen(kept, tag) then kept else kept + [Decl(rest[0], tag)];
        assert Dedup(lines, rest, kept) == Dedup(lines, rest[1..], kept');
        DedupFails(lines, rest[1..], kept');
        if exists k :: 0 <= k < |rest| && SignatureOf(lines, rest[k]).Err? {
          var k :| 0 <= k < |rest| && SignatureOf(lines, rest[k]).Err?;
          assert k != 0 && rest[1..][k - 1] == rest[k];
        }
        if exists k :: 0 <= k < |rest[1..]| && SignatureOf(lines, rest[1..][k]).Err? {
          var k :| 0 <= k < |rest[1..]| && SignatureOf(lines, rest[1..][k]).Err?;
          assert rest[k + 1] == rest[1..][k];
        }
    }
  }

  /**
   * What `get_function_decls` returns: entries on candidate lines, in increasing
   * line order, each carrying its line's signature, no entry equal to an earlier
   * one, and every recorded line covered by an entry at or before it.
   */
  lemma DeclsOfProperties(v: Variant, lines: seq<string>, start: int)
    requires DeclsOf(v, lines, start).Ok?
    ensures var decls := DeclsOf(v, lines, start).value;
      && (forall a, b :: 0 <= a < b < |decls| ==> decls[a].line < decls[b].line)
      && (forall a, b :: 0 <= a < b < |decls| ==> !SameSignature(decls[a].sig, decls[b].sig))
      && (forall j :: 0 <= j < |decls| ==>
            decls[j].line < |lines| && IsCandidate(v, lines, start, decls[j].line)
            && SignatureOf(lines, decls[j].line) == Ok(decls[j].sig))
      && (forall x :: x in FoundFrom(v, lines, start, 0) ==> Covered(lines, decls, x))
  {
    var found := FoundFrom(v, lines, start, 0);
    FoundFromShape(v, lines, start, 0);
    assert [] + found == found;
    DedupKept(lines, [], found, []);
  }

  /** `get_function_decls` fails exactly when a recorded line has no signature. */
  lemma DeclsOfFails(v: Variant, lines: seq<string>, start: int)
    ensures DeclsOf(v, lines, start).Err?
        <==> exists x :: x in FoundFrom(v, lines, start, 0) && SignatureOf(lines, x).Err?
  {
    DedupFails(lines, FoundFrom(v, lines, start, 0), []);
  }

  /** The second loop of `get_function_decls`, the same in both versions. */
  method KeepFirstOccurrences(lines: seq<string>, found: seq<nat>) returns (r: Result<seq<Decl>>)
    ensures r == Dedup(lines, found, [])
  {
    var output: seq<Decl> := [];
    var i := 0;
    while i < |found|
      invariant 0 <= i <= |found|
      invariant Dedup(lines, found[i..], output) == Dedup(lines, found, [])
    {
      assert found[i..][0] == found[i] && found[i..][1..] == found[i + 1..];
      var tag := ExtractSignature(lines, found[i]);
      if tag.Err? {
        return Err(tag.error);
      }
      if !Seen(output, tag.value) {
        output := output + [Decl(found[i], tag.value)];
      }
      i := i + 1;
    }
    assert found[i..] == [];
    return Ok(output);
  }

  /* ---------------------------------------------------------------- definitions */

  /** `max([decl[0] for decl in decls])` */
  function MaxLine(decls: seq<Decl>): (m: nat)
    requires decls != []
    ensures forall j :: 0 <= j < |decls| ==> decls[j].line <= m
    ensures exists j :: 0 <= j < |decls| && decls[j].line == m
    decreases |decls|
  {
    if |decls| == 1 then decls[0].line
    else
      var rest := MaxLine(decls[1..]);
      assert forall j :: 1 <= j < |decls| ==> decls[j] == decls[1..][j - 1];
      if decls[0].line >= rest then decls[0].line else rest
  }

  /** `offset` of `find_definitions`: the last declaration's line minus one. */
  function RescanFrom(decls: seq<Decl>): (offset: int)
    requires decls != []
    ensures offset >= -1
  {
    MaxLine(decls) as int - 1
  }

  /** `sig in [f[1] for f in decls]` */
  predicate Declared(decls: seq<Decl>, sig: Signature) {
    exists j :: 0 <= j < |decls| && SameSignature(decls[j].sig, sig)
  }

  /** `[d[0] for d in defs if d[1] in [f[1] for f in decls]]` */
  function Matching(defs: seq<Decl>, decls: seq<Decl>): seq<nat>
    decreases |defs|
  {
    if defs == [] then []
    else
      var rest := Matching(defs[1..], decls);
      if Declared(decls, defs[0].sig) then [defs[0].line] + rest else rest
  }

  /** Line `x` carries an entry of `defs` whose signature is declared. */
  predicate MatchedAt(defs: seq<Decl>, decls: seq<Decl>, x: nat) {
    exists j :: 0 <= j < |defs| && defs[j].line == x && Declared(decls, defs[j].sig)
  }

  /** `Matching` keeps exactly the lines of the entries whose signature is declared. */
  lemma {:induction false} MatchingExactly(defs: seq<Decl>, decls: seq<Decl>)
    ensures forall x :: x in Matching(defs, decls) <==> MatchedAt(defs, decls, x)
    decreases |defs|
  {
    if defs != [] {
      MatchingExactly(defs[1..], decls);
      forall x
        ensures MatchedAt(defs, decls, x)
            <==> (defs[0].line == x && Declared(decls, defs[0].sig)) || MatchedAt(defs[1..], decls, x)
      {
        MatchedAtCons(defs, decls, x);
      }
    }
  }

  /** `MatchedAt` on a list split into its head and tail. */
  lemma MatchedAtCons(defs: seq<Decl>, decls: seq<Decl>, x: nat)
    requires defs != []
    ensures MatchedAt(defs, decls, x)
        <==> (defs[0].line == x && Declared(decls, defs[0].sig)) || MatchedAt(defs[1..], decls, x)
  {
    if MatchedAt(defs[1..], decls, x) {
      var j :| 0 <= j < |defs[1..]| && defs[1..][j].line == x && Declared(decls, defs[1..][j].sig);
      assert defs[j + 1] == defs[1..][j];
    }
    if MatchedAt(defs, decls, x) {
      var j :| 0 <= j < |defs| && defs[j].line == x && Declared(decls, defs[j].sig);
      if j > 0 {
        assert defs[1..][j - 1] == defs[j];
      }
    }
  }

  /** `find_definitions(lines, decls)`: rescan from the last declaration's line minus one. */
  function Definitions(v: Variant, lines: seq<string>, decls: seq<Decl>): Result<seq<nat>> {
    if decls == [] then Err(EmptyMax)
    else match DeclsOf(v, lines, RescanFrom(decls))
      case Err(e) => Err(e)
      case Ok(defs) => Ok(Matching(defs, decls))
  }

  /** `find_definitions` fails with `EmptyMax` exactly when there are no declarations. */
  lemma DefinitionsEmptyMax(v: Variant, lines: seq<string>, decls: seq<Decl>)
    ensures Definitions(v, lines, decls) == Err(EmptyMax) <==> decls == []
  {
    if decls != [] {
      DedupErrors(lines, FoundFrom(v, lines, RescanFrom(decls), 0), []);
    }
  }

  /**
   * Every index `find_definitions` returns lies at or after the last declaration's
   * line minus one, is a candidate line of the rescan, and has a signature equal
   * to some declaration's.
   */
  lemma DefinitionsSound(v: Variant, lines: seq<string>, decls: seq<Decl>)
    requires Definitions(v, lines, decls).Ok?
    ensures var ixs := Definitions(v, lines, decls).value;
      forall k :: 0 <= k < |ixs| ==>
        && ixs[k] >= RescanFrom(decls)
        && ixs[k] < |lines|
        && IsCandidate(v, lines, RescanFrom(decls), ixs[k])
        && SignatureOf(lines, ixs[k]).Ok?
        && Declared(decls, SignatureOf(lines, ixs[k]).value)
  {
    var start := RescanFrom(decls);
    var defs := DeclsOf(v, lines, start).value;
    var ixs := Definitions(v, lines, decls).value;
    assert ixs == Matching(defs, decls);
    DeclsOfProperties(v, lines, start);
    MatchingExactly(defs, decls);
    forall k | 0 <= k < |ixs|
      ensures && ixs[k] >= start && ixs[k] < |lines| && IsCandidate(v, lines, start, ixs[k])
              && SignatureOf(lines, ixs[k]).Ok? && Declared(decls, SignatureOf(lines, ixs[k]).value)
    {
      assert MatchedAt(defs, decls, ixs[k]);
      var j :| 0 <= j < |defs| && defs[j].line == ixs[k] && Declared(decls, defs[j].sig);
      assert SignatureOf(lines, defs[j].line) == Ok(defs[j].sig);
    }
  }

  /** The errors `Dedup` can report are those of `extract_signature`. */
  lemma {:induction false} DedupErrors(lines: seq<string>, rest: seq<nat>, kept: seq<Decl>)
    ensures Dedup(lines, rest, kept).Err? ==>
              Dedup(lines, rest, kept).error in {NoTerminator, NoNameToken, EmptyParameter}
    decreases |rest|
  {
    if rest != [] {
      match SignatureOf(lines, rest[0])
      case Err(_) =>
        SignatureOfErrors(lines, rest[0]);
      case Ok(tag) =>
        DedupErrors(lines, rest[1..], if Seen(kept, tag) then kept else kept + [Decl(rest[0], tag)]);
    }
  }

  /** `find_definitions` fails only through `max()` or `extract_signature`. */
  lemma DefinitionsErrors(v: Variant, lines: seq<string>, decls: seq<Decl>)
    ensures Definitions(v, lines, decls).Err? ==>
              Definitions(v, lines, decls).error in {EmptyMax, NoTerminator, NoNameToken, EmptyParameter}
  {
    if decls != [] {
      DedupErrors(lines, FoundFrom(v, lines, RescanFrom(decls), 0), []);
    }
  }

  /** A line recorded by the scan from 0 is recorded again by a scan from the line before it. */
  lemma RescanFinds(v: Variant, lines: seq<string>, m: nat)
    requires m in FoundFrom(v, lines, 0, 0)
    ensures m in FoundFrom(v, lines, m as int - 1, 0)
  {
    FoundExactly(v, lines, 0, m);
    FoundExactly(v, lines, m as int - 1, m);
  }

  /** A successful `find_definitions` is the matching lines of a successful rescan. */
  lemma DefinitionsOk(v: Variant, lines: seq<string>, decls: seq<Decl>)
    requires decls != [] && Definitions(v, lines, decls).Ok?
    ensures DeclsOf(v, lines, RescanFrom(decls)).Ok?
    ensures Definitions(v, lines, decls).value == Matching(DeclsOf(v, lines, RescanFrom(decls)).value, decls)
  {
  }

  /** A kept declaration sits on a recorded line and carries that line's signature. */
  lemma DeclFromFound(v: Variant, lines: seq<string>, start: int, decls: seq<Decl>, j: nat)
    requires DeclsOf(v, lines, start) == Ok(decls) && j < |decls|
    ensures decls[j].line in FoundFrom(v, lines, start, 0)
    ensures SignatureOf(lines, decls[j].line) == Ok(decls[j].sig)
  {
    var found := FoundFrom(v, lines, start, 0);
    FoundFromShape(v, lines, start, 0);
    assert [] + found == found;
    DedupKept(lines, [], found, []);
  }

  /** Every recorded line is covered by a kept declaration at or before it. */
  lemma FoundCovered(v: Variant, lines: seq<string>, start: int, decls: seq<Decl>, x: nat)
    requires DeclsOf(v, lines, start) == Ok(decls) && x in FoundFrom(v, lines, start, 0)
    ensures Covered(lines, decls, x)
  {
    var found := FoundFrom(v, lines, start, 0);
    FoundFromShape(v, lines, start, 0);
    assert [] + found == found;
    DedupKept(lines, [], found, []);
  }

  /**
   * Scanning from 0, the rescan of `find_definitions` finds the last declaration
   * again, so a file with declarations always yields at least one definition.
   */
  lemma DefinitionsNonEmpty(v: Variant, lines: seq<string>, decls: seq<Decl>)
    requires DeclsOf(v, lines, 0) == Ok(decls) && decls != []
    requires Definitions(v, lines, decls).Ok?
    ensures Definitions(v, lines, decls).value != []
  {
    var m := MaxLine(decls);
    var j :| 0 <= j < |decls| && decls[j].line == m;
    var start := RescanFrom(decls);
    assert m in FoundFrom(v, lines, start, 0) && SignatureOf(lines, m) == Ok(decls[j].sig) by {
      DeclFromFound(v, lines, 0, decls, j);
      RescanFinds(v, lines, m);
    }
    DefinitionsOk(v, lines, decls);
    RescanMatches(v, lines, decls, start, m, j);
  }

  /** A rescan that records the line of a declaration yields a match. */
  lemma RescanMatches(v: Variant, lines: seq<string>, decls: seq<Decl>, start: int, m: nat, i: nat)
    requires DeclsOf(v, lines, start).Ok? && m in FoundFrom(v, lines, start, 0)
    requires i < |decls| && SignatureOf(lines, m) == Ok(decls[i].sig)
    ensures Matching(DeclsOf(v, lines, start).value, decls) != []
  {
    var defs := DeclsOf(v, lines, start).value;
    FoundCovered(v, lines, start, defs, m);
    var j :| 0 <= j < |defs| && defs[j].line <= m && SameSignature(defs[j].sig, decls[i].sig);
    SameSignatureSymmetric(defs[j].sig, decls[i].sig);
    assert Declared(decls, defs[j].sig);
    assert MatchedAt(defs, decls, defs[j].line);
    MatchingExactly(defs, decls);
  }
}
