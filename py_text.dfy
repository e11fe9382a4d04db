/**
 * The Python `str` operations the checker relies on, with the semantics
 * CPython gives them, restricted to ASCII character classes.
 */
module PyText {

  /**
   * `str.isspace()`, on ASCII: the regex class `\s` and the whitespace that
   * `split()`, `strip()` and `rstrip()` with no argument work on.
   */
  predicate IsSpace(c: char) {
    c == ' ' || c == '\t' || c == '\n' || c == '\r' || c == '\U{B}' || c == '\U{C}'
    || ('\U{1C}' <= c <= '\U{1F}')
  }

  /** The regex class `\w`, on ASCII. */
  predicate IsWordChar(c: char) {
    ('a' <= c <= 'z') || ('A' <= c <= 'Z') || ('0' <= c <= '9') || c == '_'
  }

  predicate NoSpace(s: string) {
    forall k :: 0 <= k < |s| ==> !IsSpace(s[k])
  }

  /** `s.startswith(p)` */
  predicate StartsWith(s: string, p: string) {
    p <= s
  }

  /** `s.endswith(p)` */
  predicate EndsWith(s: string, p: string) {
    |p| <= |s| && s[|s| - |p|..] == p
  }

  /** `p` occurs in `s` starting at index `i`. */
  predicate OccursAt(s: string, p: string, i: int) {
    0 <= i <= |s| - |p| && s[i..i + |p|] == p
  }

  /** `p in s` for strings: `p` occurs somewhere in `s`. */
  predicate Contains(s: string, p: string) {
    exists i | 0 <= i <= |s| - |p| :: OccursAt(s, p, i)
  }

  /** `s.count(p)`: occurrences found scanning left to right without overlap. */
  function Count(s: string, p: string): nat
    requires |p| > 0
    decreases |s|
  {
    if |s| < |p| then 0
    else if p <= s then 1 + Count(s[|p|..], p)
    else Count(s[1..], p)
  }

  /** Counting a single character distributes over concatenation. */
  lemma {:induction false} CountCharConcat(x: string, y: string, c: char)
    ensures Count(x + y, [c]) == Count(x, [c]) + Count(y, [c])
    decreases |x|
  {
    if x != [] {
      assert (x + y)[1..] == x[1..] + y;
      CountCharConcat(x[1..], y, c);
    } else {
      assert x + y == y;
    }
  }

  /** A character that does not occur is counted zero times. */
  lemma {:induction false} CountCharAbsent(s: string, c: char)
    requires c !in s
    ensures Count(s, [c]) == 0
    decreases |s|
  {
    if s != [] {
      assert s[0] != c;
      CountCharAbsent(s[1..], c);
    }
  }

  /** A text that does not occur is counted zero times. */
  lemma {:induction false} CountAbsent(s: string, p: string)
    requires |p| > 0 && !Contains(s, p)
    ensures Count(s, p) == 0
    decreases |s|
  {
    if |s| >= |p| {
      assert !OccursAt(s, p, 0);
      assert s[0..|p|] == s[..|p|];
      forall i | 0 <= i <= |s[1..]| - |p|
        ensures !OccursAt(s[1..], p, i)
      {
        assert !OccursAt(s, p, i + 1);
        assert s[1..][i..i + |p|] == s[i + 1..i + 1 + |p|];
      }
      CountAbsent(s[1..], p);
    }
  }

  /** Index of the first non-whitespace character at or after `i`, or `|s|`. */
  function SkipSpace(s: string, i: nat): (j: nat)
    requires i <= |s|
    ensures i <= j <= |s|
    ensures forall k :: i <= k < j ==> IsSpace(s[k])
    ensures j < |s| ==> !IsSpace(s[j])
    decreases |s| - i
  {
    if i == |s| || !IsSpace(s[i]) then i else SkipSpace(s, i + 1)
  }

  /** Index of the first whitespace character at or after `i`, or `|s|`. */
  function SkipToken(s: string, i: nat): (j: nat)
    requires i <= |s|
    ensures i <= j <= |s|
    ensures forall k :: i <= k < j ==> !IsSpace(s[k])
    ensures j < |s| ==> IsSpace(s[j])
    decreases |s| - i
  {
    if i == |s| || IsSpace(s[i]) then i else SkipToken(s, i + 1)
  }

  /** Index of the first character at or after `i` outside `\w`, or `|s|`. */
  function SkipWord(s: string, i: nat): (j: nat)
    requires i <= |s|
    ensures i <= j <= |s|
    ensures forall k :: i <= k < j ==> IsWordChar(s[k])
    ensures j < |s| ==> !IsWordChar(s[j])
    decreases |s| - i
  {
    if i == |s| || !IsWordChar(s[i]) then i else SkipWord(s, i + 1)
  }

  /** `s.split()`: the maximal runs of non-whitespace characters, in order. */
  function Words(s: string): seq<string>
    decreases |s|
  {
    var t := s[SkipSpace(s, 0)..];
    if t == [] then []
    else
      var b := SkipToken(t, 0);
      [t[..b]] + Words(t[b..])
  }

  /** Every word is non-empty and free of whitespace. */
  lemma {:induction false} WordsAreWords(s: string)
    ensures forall k :: 0 <= k < |Words(s)| ==> Words(s)[k] != [] && NoSpace(Words(s)[k])
    decreases |s|
  {
    var t := s[SkipSpace(s, 0)..];
    if t != [] {
      var b := SkipToken(t, 0);
      WordsAreWords(t[b..]);
    }
  }

  /** `sep.join(parts)` */
  function Join(sep: string, parts: seq<string>): string
    decreases |parts|
  {
    if |parts| == 0 then ""
    else if |parts| == 1 then parts[0]
    else Join(sep, parts[..|parts| - 1]) + sep + parts[|parts| - 1]
  }

  /** `Join` seen from the front. */
  lemma {:induction false} JoinFront(sep: string, parts: seq<string>)
    requires |parts| >= 2
    ensures Join(sep, parts) == parts[0] + sep + Join(sep, parts[1..])
    decreases |parts|
  {
    if |parts| > 2 {
      var init := parts[..|parts| - 1];
      JoinFront(sep, init);
      assert init[1..] == parts[1..][..|parts[1..]| - 1];
    } else {
      assert parts[1..] == [parts[1]];
    }
  }

  /** Joining two non-empty lists of pieces puts one separator between them. */
  lemma {:induction false} JoinAppend(sep: string, a: seq<string>, b: seq<string>)
    requires a != [] && b != []
    ensures Join(sep, a + b) == Join(sep, a) + sep + Join(sep, b)
    decreases |b|
  {
    if |b| == 1 {
      assert (a + b)[..|a + b| - 1] == a;
    } else {
      var b' := b[..|b| - 1];
      assert (a + b)[..|a + b| - 1] == a + b';
      JoinAppend(sep, a, b');
    }
  }

  /** Leading whitespace does not change the words. */
  lemma WordsSkipsLeadingSpace(s: string, k: nat)
    requires k <= |s| && forall i :: 0 <= i < k ==> IsSpace(s[i])
    ensures Words(s) == Words(s[k..])
  {
    SkipSpaceDrop(s, k);
    DropDrop(s, k, SkipSpace(s[k..], 0));
    WordsAfterSpace(s, s[k..]);
  }

  /** Scanning past leading whitespace of length `k` is scanning the rest. */
  lemma SkipSpaceDrop(s: string, k: nat)
    requires k <= |s| && forall i :: 0 <= i < k ==> IsSpace(s[i])
    ensures SkipSpace(s, 0) == k + SkipSpace(s[k..], 0)
  {
    SkipSpaceSkips(s, 0, k);
    SkipSpaceShift(s, k, 0);
  }

  /** Dropping twice is dropping once. */
  lemma DropDrop<T>(s: seq<T>, k: nat, m: nat)
    requires k + m <= |s|
    ensures s[k + m..] == s[k..][m..]
  {
  }

  /** `Words` depends only on the text after the leading whitespace. */
  lemma WordsAfterSpace(s: string, t: string)
    requires s[SkipSpace(s, 0)..] == t[SkipSpace(t, 0)..]
    ensures Words(s) == Words(t)
  {
  }

  /** Scanning from `i` over whitespace up to `k` ends where scanning from `k` ends. */
  lemma {:induction false} SkipSpaceSkips(s: string, i: nat, k: nat)
    requires i <= k <= |s| && forall m :: i <= m < k ==> IsSpace(s[m])
    ensures SkipSpace(s, i) == SkipSpace(s, k)
    decreases k - i
  {
    if i < k {
      SkipSpaceSkips(s, i + 1, k);
    }
  }

  /** Scanning a suffix is scanning the whole text from the suffix's start. */
  lemma {:induction false} SkipSpaceShift(s: string, k: nat, i: nat)
    requires k + i <= |s|
    ensures k + SkipSpace(s[k..], i) == SkipSpace(s, k + i)
    decreases |s| - k - i
  {
    if k + i < |s| && IsSpace(s[k + i]) {
      SkipSpaceShift(s, k, i + 1);
    }
  }

  /** Splitting one word followed by a space and more text yields that word first. */
  lemma WordsCons(w: string, rest: string)
    requires w != [] && NoSpace(w)
    ensures Words(w + " " + rest) == [w] + Words(rest)
  {
    var s := w + " " + rest;
    assert SkipSpace(s, 0) == 0;
    assert s[0..] == s;
    assert s[|w|] == ' ';
    assert forall k :: 0 <= k < |w| ==> s[k] == w[k];
    assert SkipToken(s, 0) == |w|;
    assert s[..|w|] == w;
    assert s[|w|..] == " " + rest;
    WordsSkipsLeadingSpace(" " + rest, 1);
    assert (" " + rest)[1..] == rest;
  }

  /** `Words` undoes a single-space `Join` of non-empty words. */
  lemma {:induction false} WordsOfJoin(ws: seq<string>)
    requires forall k :: 0 <= k < |ws| ==> ws[k] != [] && NoSpace(ws[k])
    ensures Words(Join(" ", ws)) == ws
    decreases |ws|
  {
    if |ws| == 1 {
      var w := ws[0];
      assert SkipSpace(w, 0) == 0;
      assert w[0..] == w;
      assert SkipToken(w, 0) == |w|;
      assert w[..|w|] == w && w[|w|..] == [];
    } else if |ws| >= 2 {
      JoinFront(" ", ws);
      WordsCons(ws[0], Join(" ", ws[1..]));
      WordsOfJoin(ws[1..]);
      assert ws == [ws[0]] + ws[1..];
    }
  }

  /**
   * The shape of `" ".join(s.split())`: the only whitespace is single spaces,
   * each between two non-whitespace characters.
   */
  predicate Squashed(s: string) {
    forall i :: 0 <= i < |s| && IsSpace(s[i]) ==> s[i] == ' ' && 0 < i < |s| - 1 && !IsSpace(s[i + 1])
  }

  lemma {:induction false} JoinWordsSquashed(ws: seq<string>)
    requires forall k :: 0 <= k < |ws| ==> ws[k] != [] && NoSpace(ws[k])
    ensures Squashed(Join(" ", ws))
    ensures ws != [] ==> |Join(" ", ws)| > 0
    decreases |ws|
  {
    if |ws| >= 2 {
      var init := ws[..|ws| - 1];
      JoinWordsSquashed(init);
      var j := Join(" ", init);
      var last := ws[|ws| - 1];
      var s := Join(" ", ws);
      assert s == j + " " + last;
      forall i | 0 <= i < |s| && IsSpace(s[i])
        ensures s[i] == ' ' && 0 < i < |s| - 1 && !IsSpace(s[i + 1])
      {
        if i < |j| {
          assert s[i] == j[i];
          if i + 1 < |j| { assert s[i + 1] == j[i + 1]; }
        } else if i == |j| {
          assert s[i + 1] == last[0];
        }
      }
    }
  }

  /** `squash_whitespace(s)`, i.e. `" ".join(s.split())`. */
  function SquashWhitespace(s: string): string {
    Join(" ", Words(s))
  }

  /** The squashed text has no whitespace but single spaces between words. */
  lemma SquashWhitespaceSquashed(s: string)
    ensures Squashed(SquashWhitespace(s))
  {
    WordsAreWords(s);
    JoinWordsSquashed(Words(s));
  }

  /** Squashing twice is the same as squashing once. */
  lemma SquashIdempotent(s: string)
    ensures SquashWhitespace(SquashWhitespace(s)) == SquashWhitespace(s)
  {
    WordsAreWords(s);
    WordsOfJoin(Words(s));
  }

  /** `s.rstrip()` */
  function TrimEnd(s: string): (r: string)
    ensures r <= s
    ensures r == [] || !IsSpace(r[|r| - 1])
    ensures forall k :: |r| <= k < |s| ==> IsSpace(s[k])
    decreases |s|
  {
    if s != [] && IsSpace(s[|s| - 1]) then TrimEnd(s[..|s| - 1]) else s
  }

  /** `s.strip()` */
  function Strip(s: string): (r: string)
    ensures r == [] || (!IsSpace(r[0]) && !IsSpace(r[|r| - 1]))
    ensures Contains(s, r)
  {
    var a := SkipSpace(s, 0);
    var r := TrimEnd(s[a..]);
    assert OccursAt(s, r, a);
    r
  }

  /** `s.rstrip(chars)`: drop trailing characters that occur in `chars`. */
  function RStripChars(s: string, chars: string): (r: string)
    ensures r <= s
    ensures r == [] || r[|r| - 1] !in chars
    decreases |s|
  {
    if s != [] && s[|s| - 1] in chars then RStripChars(s[..|s| - 1], chars) else s
  }

  /** `s.split(sep)` for a non-empty separator: leftmost, non-overlapping cuts. */
  function SplitOn(s: string, sep: string): (r: seq<string>)
    requires |sep| > 0
    ensures |r| >= 1 && r[0] <= s
    decreases |s|
  {
    if |sep| <= |s| && sep <= s then [""] + SplitOn(s[|sep|..], sep)
    else if s == [] then [""]
    else
      var rest := SplitOn(s[1..], sep);
      [[s[0]] + rest[0]] + rest[1..]
  }

  /** Joining the pieces of `s.split(sep)` with `sep` gives `s` back. */
  lemma {:induction false} JoinSplitOn(s: string, sep: string)
    requires |sep| > 0
    ensures Join(sep, SplitOn(s, sep)) == s
    decreases |s|
  {
    if |sep| <= |s| && sep <= s {
      JoinSplitOn(s[|sep|..], sep);
      JoinSplitOnAtSep(s, sep);
    } else if s != [] {
      JoinSplitOn(s[1..], sep);
      JoinSplitOnAtChar(s, sep);
    }
  }

  /** The step of `JoinSplitOn` where `s` starts with the separator. */
  lemma JoinSplitOnAtSep(s: string, sep: string)
    requires 0 < |sep| <= |s| && sep <= s
    requires Join(sep, SplitOn(s[|sep|..], sep)) == s[|sep|..]
    ensures Join(sep, SplitOn(s, sep)) == s
  {
    var t := s[|sep|..];
    var parts := SplitOn(s, sep);
    SplitOnAtSep(s, sep);
    JoinEmptyFirst(sep, parts[1..]);
    assert parts == [""] + parts[1..];
    PrefixThenRest(sep, s);
  }

  /** Where `s` starts with the separator, the first piece is empty. */
  lemma SplitOnAtSep(s: string, sep: string)
    requires 0 < |sep| <= |s| && sep <= s
    ensures SplitOn(s, sep) == [""] + SplitOn(s[|sep|..], sep)
  {
  }

  /** An empty first piece contributes only its separator. */
  lemma JoinEmptyFirst(sep: string, rest: seq<string>)
    requires rest != []
    ensures Join(sep, [""] + rest) == sep + Join(sep, rest)
  {
    calc {
      Join(sep, [""] + rest);
      { JoinAppend(sep, [""], rest); }
      Join(sep, [""]) + sep + Join(sep, rest);
      { JoinOne(sep, ""); }
      "" + sep + Join(sep, rest);
      { EmptyThen(sep); }
      sep + Join(sep, rest);
    }
  }

  /** The step of `JoinSplitOn` where `s` does not start with the separator. */
  lemma JoinSplitOnAtChar(s: string, sep: string)
    requires |sep| > 0 && s != [] && !(|sep| <= |s| && sep <= s)
    requires Join(sep, SplitOn(s[1..], sep)) == s[1..]
    ensures Join(sep, SplitOn(s, sep)) == s
  {
    var rest := SplitOn(s[1..], sep);
    SplitOnUnfold(s, sep);
    JoinGlueFirst(sep, [s[0]], rest);
    HeadThenTail(s);
  }

  /** Joining a single piece gives that piece. */
  lemma JoinOne(sep: string, x: string)
    ensures Join(sep, [x]) == x
  {
  }

  /** The empty sequence in front changes nothing. */
  lemma EmptyThen<T>(s: seq<T>)
    ensures [] + s == s
  {
  }

  /** A prefix followed by the rest is the whole sequence. */
  lemma PrefixThenRest<T>(p: seq<T>, s: seq<T>)
    requires p <= s
    ensures p + s[|p|..] == s
  {
  }

  /** The first element followed by the tail is the whole sequence. */
  lemma HeadThenTail<T>(s: seq<T>)
    requires s != []
    ensures [s[0]] + s[1..] == s
  {
  }

  /** Gluing a prefix onto the first piece glues it onto the joined text. */
  lemma JoinGlueFirst(sep: string, x: string, rest: seq<string>)
    requires |rest| >= 1
    ensures Join(sep, [x + rest[0]] + rest[1..]) == x + Join(sep, rest)
  {
    var r := [x + rest[0]] + rest[1..];
    if |rest| > 1 {
      JoinFront(sep, rest);
      JoinFront(sep, r);
      assert r[1..] == rest[1..];
    }
  }

  /** One step of `SplitOn` when `s` does not start with the separator. */
  lemma SplitOnUnfold(s: string, sep: string)
    requires |sep| > 0 && s != [] && !(|sep| <= |s| && sep <= s)
    ensures SplitOn(s, sep) == [[s[0]] + SplitOn(s[1..], sep)[0]] + SplitOn(s[1..], sep)[1..]
  {
  }

  /** `s.split(sep)` has one more piece than `s.count(sep)`. */
  lemma {:induction false} SplitOnLength(s: string, sep: string)
    requires |sep| > 0
    ensures |SplitOn(s, sep)| == 1 + Count(s, sep)
    decreases |s|
  {
    if |sep| <= |s| && sep <= s {
      SplitOnLength(s[|sep|..], sep);
    } else if s != [] {
      SplitOnLength(s[1..], sep);
    }
  }

  /** With a one-character separator no piece holds that character. */
  lemma {:induction false} SplitOnCharPieces(s: string, c: char)
    ensures forall k :: 0 <= k < |SplitOn(s, [c])| ==> c !in SplitOn(s, [c])[k]
    decreases |s|
  {
    if s != [] {
      SplitOnCharPieces(s[1..], c);
    }
  }

  /** The first piece of `s.split(sep)` never contains `sep`. */
  lemma {:induction false} SplitOnHeadFree(s: string, sep: string)
    requires |sep| > 0
    ensures !Contains(SplitOn(s, sep)[0], sep)
    decreases |s|
  {
    if !(|sep| <= |s| && sep <= s) && s != [] {
      var rest := SplitOn(s[1..], sep);
      SplitOnHeadFree(s[1..], sep);
      var h := [s[0]] + rest[0];
      assert SplitOn(s, sep)[0] == h;
      assert !OccursAt(h, sep, 0) by {
        if OccursAt(h, sep, 0) {
          StartsOfPrefix(h, s, sep);
        }
      }
      ContainsCons(s[0], rest[0], sep);
    }
  }

  /** A sequence that starts a prefix of `s` starts `s`. */
  lemma StartsOfPrefix(h: string, s: string, p: string)
    requires h <= s && OccursAt(h, p, 0)
    ensures |p| <= |s| && p <= s
  {
    assert h[..|p|] == s[..|p|];
  }

  /** An occurrence in `[c] + t` is at its start or an occurrence in `t`. */
  lemma ContainsCons(c: char, t: string, p: string)
    requires |p| > 0 && !Contains(t, p) && !OccursAt([c] + t, p, 0)
    ensures !Contains([c] + t, p)
  {
    var h := [c] + t;
    forall i | 0 < i <= |h| - |p|
      ensures !OccursAt(h, p, i)
    {
      assert h[i..i + |p|] == t[i - 1..i - 1 + |p|];
      assert !OccursAt(t, p, i - 1);
    }
  }

  /** `re.split("\s|\(", s)`: cut at every whitespace character and every `(`. */
  function SplitSpaceOrParen(s: string): (r: seq<string>)
    ensures |r| >= 1
    decreases |s|
  {
    if s == [] then [""]
    else
      var rest := SplitSpaceOrParen(s[1..]);
      if IsSpace(s[0]) || s[0] == '(' then [""] + rest
      else [[s[0]] + rest[0]] + rest[1..]
  }

  /** `s.replace(pat, repl)`: every non-overlapping occurrence, left to right. */
  function Replace(s: string, pat: string, repl: string): string
    requires |pat| > 0
    decreases |s|
  {
    if |pat| <= |s| && pat <= s then repl + Replace(s[|pat|..], pat, repl)
    else if s == [] then []
    else [s[0]] + Replace(s[1..], pat, repl)
  }

  /** Replacing a text that does not occur changes nothing. */
  lemma {:induction false} ReplaceAbsent(s: string, pat: string, repl: string)
    requires |pat| > 0 && !Contains(s, pat)
    ensures Replace(s, pat, repl) == s
    decreases |s|
  {
    if s != [] {
      ContainsAtStart(s, pat);
      ContainsInTail(s, pat);
      ReplaceAbsent(s[1..], pat, repl);
      assert [s[0]] + s[1..] == s;
    }
  }

  /** A text that `s` starts with occurs in `s`. */
  lemma ContainsAtStart(s: string, p: string)
    ensures |p| <= |s| && p <= s ==> Contains(s, p)
  {
    if |p| <= |s| && p <= s {
      assert OccursAt(s, p, 0);
    }
  }

  /** A text that occurs in the tail of `s` occurs in `s`. */
  lemma ContainsInTail(s: string, p: string)
    requires s != []
    ensures Contains(s[1..], p) ==> Contains(s, p)
  {
    if Contains(s[1..], p) {
      var i :| 0 <= i <= |s[1..]| - |p| && OccursAt(s[1..], p, i);
      assert s[1..][i..i + |p|] == s[i + 1..i + 1 + |p|];
      assert OccursAt(s, p, i + 1);
    }
  }

  /** A text inside a prefix of `s` is inside `s`. */
  lemma ContainsInPrefix(h: string, s: string, p: string)
    requires h <= s && Contains(h, p)
    ensures Contains(s, p)
  {
    var i :| 0 <= i <= |h| - |p| && OccursAt(h, p, i);
    assert s[i..i + |p|] == h[i..i + |p|];
    assert OccursAt(s, p, i);
  }

  /** Containment is transitive. */
  lemma ContainsTrans(a: string, b: string, c: string)
    requires Contains(a, b) && Contains(b, c)
    ensures Contains(a, c)
  {
    var i :| 0 <= i <= |a| - |b| && OccursAt(a, b, i);
    var j :| 0 <= j <= |b| - |c| && OccursAt(b, c, j);
    forall m | 0 <= m < |c|
      ensures a[i + j + m] == c[m]
    {
      assert c[m] == b[j..j + |c|][m] == b[j + m];
      assert b[j + m] == a[i..i + |b|][j + m] == a[i + j + m];
    }
    assert a[i + j..i + j + |c|] == c;
    assert OccursAt(a, c, i + j);
  }

  /** A character missing from `s` is missing from every text inside `s`. */
  lemma CharNotInContained(s: string, p: string, c: char)
    requires Contains(s, p) && c !in s
    ensures c !in p
  {
    var i :| 0 <= i <= |s| - |p| && OccursAt(s, p, i);
    forall k | 0 <= k < |p|
      ensures p[k] != c
    {
      assert p[k] == s[i..i + |p|][k] == s[i + k];
    }
  }

  /** A piece free of the separator's first character is cut off whole. */
  lemma {:induction false} SplitOnPiece(w: string, sep: string, rest: string)
    requires |sep| > 0 && sep[0] !in w
    ensures SplitOn(w + sep + rest, sep) == [w] + SplitOn(rest, sep)
    decreases |w|
  {
    var s := w + sep + rest;
    if w == [] {
      assert s == sep + rest;
      assert s[|sep|..] == rest;
    } else {
      assert s[0] == w[0] != sep[0];
      assert s[1..] == w[1..] + sep + rest;
      SplitOnPiece(w[1..], sep, rest);
      assert [w[0]] + w[1..] == w;
    }
  }

  /** A text free of the separator's first character is a single piece. */
  lemma {:induction false} SplitOnWhole(w: string, sep: string)
    requires |sep| > 0 && sep[0] !in w
    ensures SplitOn(w, sep) == [w]
    decreases |w|
  {
    if w != [] {
      assert w[0] != sep[0];
      SplitOnWhole(w[1..], sep);
      assert [w[0]] + w[1..] == w;
    }
  }
}
