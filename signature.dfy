/**
 * Function signatures as the checker reads them from source lines:
 * the records, their structural equality, the text form, pointer and
 * array normalisation of parameters, and the multi-line extraction.
 */
module Signatures {
  import opened Outcome
  import opened PyText

  /** A parameter: its type (pointer stars and array brackets included) and its name. */
  datatype Parameter = Parameter(pType: string, pName: string)

  /** A function signature; never changed after it is built. */
  datatype Signature = Signature(returnType: string, name: string, params: seq<Parameter>)

  /* ---------------------------------------------------------------- equality */

  /**
   * `Signature.__eq__`: same return type, same name, and the same parameter
   * types at every position both lists have (Python's `zip` stops at the
   * shorter list); parameter names are not compared.
   */
  predicate SameSignature(a: Signature, b: Signature) {
    && a.returnType == b.returnType
    && a.name == b.name
    && forall i :: 0 <= i < |a.params| && i < |b.params| ==> a.params[i].pType == b.params[i].pType
  }

  /** The `same &= ...` fold of `__eq__`, one parameter pair at a time. */
  method Equals(a: Signature, b: Signature) returns (same: bool)
    ensures same <==> SameSignature(a, b)
  {
    same := true;
    same := same && a.returnType == b.returnType;
    same := same && a.name == b.name;
    var n := if |a.params| < |b.params| then |a.params| else |b.params|;
    for i := 0 to n
      invariant same <==> (&& a.returnType == b.returnType
                           && a.name == b.name
                           && forall k :: 0 <= k < i ==> a.params[k].pType == b.params[k].pType)
    {
      same := same && a.params[i].pType == b.params[i].pType;
    }
  }

  lemma SameSignatureReflexive(a: Signature)
    ensures SameSignature(a, a)
  {
  }

  lemma SameSignatureSymmetric(a: Signature, b: Signature)
    ensures SameSignature(a, b) <==> SameSignature(b, a)
  {
  }

  /** Renaming parameters never changes equality. */
  lemma ParameterNamesIgnored(a: Signature, names: seq<string>)
    requires |names| == |a.params|
    ensures SameSignature(a, a.(params := seq(|a.params|, i requires 0 <= i < |a.params| => Parameter(a.params[i].pType, names[i]))))
  {
  }

  /** A signature equals any signature whose parameter types extend its own. */
  lemma PrefixParametersEqual(a: Signature, extra: seq<Parameter>)
    ensures SameSignature(a, a.(params := a.params + extra))
  {
  }

  /**
   * Because `zip` truncates, equality is not transitive: a parameterless
   * signature sits between two that disagree on their first parameter type.
   */
  lemma SameSignatureNotTransitive()
    ensures var a := Signature("int", "f", [Parameter("int", "x")]);
            var b := Signature("int", "f", []);
            var c := Signature("int", "f", [Parameter("long", "x")]);
            SameSignature(a, b) && SameSignature(b, c) && !SameSignature(a, c)
  {
    var a := Signature("int", "f", [Parameter("int", "x")]);
    var c := Signature("int", "f", [Parameter("long", "x")]);
    assert a.params[0].pType != c.params[0].pType;
  }

  /* ---------------------------------------------------------------- text form */

  /** The `"<type> <name>"` text of each parameter. */
  function ParamTexts(ps: seq<Parameter>): (ts: seq<string>)
    ensures |ts| == |ps|
    ensures forall i :: 0 <= i < |ps| ==> ts[i] == ps[i].pType + " " + ps[i].pName
  {
    seq(|ps|, i requires 0 <= i < |ps| => ps[i].pType + " " + ps[i].pName)
  }

  /** `Signature.__repr__`: `<type> <name>(<t1> <n1>, <t2> <n2>)`. */
  function SignatureText(sig: Signature): string {
    sig.returnType + " " + sig.name + "(" + Join(", ", ParamTexts(sig.params)) + ")"
  }

  /** `Signature.__repr__`, built by appending as the source does. */
  method Repr(sig: Signature) returns (s: string)
    ensures s == SignatureText(sig)
    ensures StartsWith(s, sig.returnType + " " + sig.name + "(") && EndsWith(s, ")")
  {
    var head := sig.returnType + " " + sig.name + "(";
    var body := "";
    for i := 0 to |sig.params|
      invariant body == Join(", ", ParamTexts(sig.params[..i]))
    {
      var texts := ParamTexts(sig.params[..i + 1]);
      assert texts[..i] == ParamTexts(sig.params[..i]);
      if i != 0 {
        body := body + ", ";
      }
      body := body + sig.params[i].pType + " " + sig.params[i].pName;
    }
    assert sig.params[..|sig.params|] == sig.params;
    s := head + body + ")";
    assert s == head + (body + ")");
  }

  /** `Parameter.__repr__`: `(<type>, <name>)`. */
  function ParameterText(p: Parameter): string {
    "(" + p.pType + ", " + p.pName + ")"
  }

  /** The text form tells parameters apart as long as their types hold no comma. */
  lemma ParameterTextInjective(p: Parameter, q: Parameter)
    requires ',' !in p.pType && ',' !in q.pType
    ensures ParameterText(p) == ParameterText(q) <==> p == q
  {
    var s, t := ParameterText(p), ParameterText(q);
    FirstComma(p);
    FirstComma(q);
    if s == t {
      var a := |p.pType|;
      assert a == |q.pType|;
      assert p.pType == s[1..1 + a] == t[1..1 + a] == q.pType;
      assert p.pName == s[3 + a..|s| - 1] == t[3 + a..|t| - 1] == q.pName;
    }
  }

  /** In the text form of a parameter whose type holds no comma, the first comma follows the type. */
  lemma FirstComma(p: Parameter)
    requires ',' !in p.pType
    ensures var s := ParameterText(p);
      && |s| > 1 + |p.pType| && s[1 + |p.pType|] == ','
      && forall k :: 0 <= k < 1 + |p.pType| ==> s[k] != ','
  {
    var s := ParameterText(p);
    forall k | 1 <= k < 1 + |p.pType|
      ensures s[k] != ','
    {
      assert s[k] == p.pType[k - 1];
    }
  }

  /* ---------------------------------------------------------------- parameters */

  /** Number of `*` characters at the front of `s`. */
  function LeadingStars(s: string): (n: nat)
    ensures n <= |s|
    ensures forall k :: 0 <= k < n ==> s[k] == '*'
    ensures n < |s| ==> s[n] != '*'
    decreases |s|
  {
    if s != [] && s[0] == '*' then 1 + LeadingStars(s[1..]) else 0
  }

  function Stars(n: nat): (s: string)
    ensures |s| == n && forall k :: 0 <= k < n ==> s[k] == '*'
  {
    seq(n, _ => '*')
  }

  /** State of the name scan in `generate_parameter_from_pair`. */
  datatype NameScan = NameScan(name: string, brackets: string, depth: int)

  /** One character of the name scan: brackets go to the type, the rest is kept only at depth 0. */
  function ScanStep(st: NameScan, c: char): NameScan {
    if c == '[' then NameScan(st.name, st.brackets + [c], st.depth + 1)
    else if c == ']' then NameScan(st.name, st.brackets + [c], st.depth - 1)
    else if st.depth == 0 then NameScan(st.name + [c], st.brackets, st.depth)
    else st
  }

  /** The name scan over `s`, left to right from state `st`. */
  function ScanFrom(st: NameScan, s: string): NameScan
    decreases |s|
  {
    if s == [] then st else ScanFrom(ScanStep(st, s[0]), s[1..])
  }

  /** The bracket characters of `s`, in order: an independent reading of what the type gains. */
  function BracketsOf(s: string): string
    decreases |s|
  {
    if s == [] then ""
    else if s[0] == '[' || s[0] == ']' then [s[0]] + BracketsOf(s[1..])
    else BracketsOf(s[1..])
  }

  predicate NoBrackets(s: string) {
    '[' !in s && ']' !in s
  }

  /** `generate_parameter_from_pair` as a value. */
  function ParameterFromPair(typeIsh: string, nameIsh: string): Parameter {
    var k := LeadingStars(nameIsh);
    var sc := ScanFrom(NameScan("", "", 0), nameIsh[k..]);
    Parameter(typeIsh + Stars(k) + sc.brackets, sc.name)
  }

  /** `generate_parameter_from_pair`: move leading `*` and every bracket from the name to the type. */
  method GenerateParameterFromPair(typeIsh: string, nameIsh: string) returns (p: Parameter)
    ensures p == ParameterFromPair(typeIsh, nameIsh)
  {
    var workingType := typeIsh;
    var workingName := nameIsh;
    while StartsWith(workingName, "*")
      invariant |workingName| <= |nameIsh|
      invariant workingName == nameIsh[|nameIsh| - |workingName|..]
      invariant |nameIsh| - |workingName| <= LeadingStars(nameIsh)
      invariant workingType == typeIsh + Stars(|nameIsh| - |workingName|)
      decreases |workingName|
    {
      workingType := workingType + "*";
      workingName := workingName[1..];
    }
    assert |nameIsh| - |workingName| == LeadingStars(nameIsh);
    var st := NameScan("", "", 0);
    for j := 0 to |workingName|
      invariant ScanFrom(st, workingName[j..]) == ScanFrom(NameScan("", "", 0), workingName)
    {
      assert workingName[j..][1..] == workingName[j + 1..];
      var c := workingName[j];
      if c == '[' {
        st := NameScan(st.name, st.brackets + [c], st.depth + 1);
      } else if c == ']' {
        st := NameScan(st.name, st.brackets + [c], st.depth - 1);
      } else if st.depth == 0 {
        st := NameScan(st.name + [c], st.brackets, st.depth);
      }
    }
    p := Parameter(workingType + st.brackets, st.name);
  }

  /** Scanning a concatenation is scanning the second part from where the first left off. */
  lemma {:induction false} ScanFromConcat(st: NameScan, x: string, y: string)
    ensures ScanFrom(st, x + y) == ScanFrom(ScanFrom(st, x), y)
    decreases |x|
  {
    if x != [] {
      assert (x + y)[1..] == x[1..] + y;
      ScanFromConcat(ScanStep(st, x[0]), x[1..], y);
    } else {
      assert x + y == y;
    }
  }

  /**
   * The name scan never keeps a bracket in the name, appends exactly the
   * bracket characters of its input to the type, and keeps every other
   * character only while the depth is 0.
   */
  lemma {:induction false} ScanFromBrackets(st: NameScan, s: string)
    ensures var r := ScanFrom(st, s);
            && r.brackets == st.brackets + BracketsOf(s)
            && (NoBrackets(st.name) ==> NoBrackets(r.name))
            && |r.name| + |r.brackets| <= |st.name| + |st.brackets| + |s|
    decreases |s|
  {
    if s != [] {
      ScanFromBrackets(ScanStep(st, s[0]), s[1..]);
      assert st.brackets + [s[0]] + BracketsOf(s[1..]) == st.brackets + ([s[0]] + BracketsOf(s[1..]));
    }
  }

  /** Over a bracket-free text the depth stays put: at 0 the text is kept, elsewhere dropped. */
  lemma {:induction false} ScanFromPlain(st: NameScan, s: string)
    requires NoBrackets(s)
    ensures ScanFrom(st, s) == if st.depth == 0 then st.(name := st.name + s) else st
    decreases |s|
  {
    if s != [] {
      assert s[0] != '[' && s[0] != ']';
      assert NoBrackets(s[1..]) by {
        assert forall k :: 0 <= k < |s[1..]| ==> s[1..][k] == s[k + 1];
      }
      ScanFromPlain(ScanStep(st, s[0]), s[1..]);
      assert st.name + [s[0]] + s[1..] == st.name + s;
    } else {
      assert st.name + s == st.name;
    }
  }

  /** Stars move from the name to the type one for one, and a plain name is kept whole. */
  lemma PointerStarsMoved(typeIsh: string, nameIsh: string)
    ensures var p := ParameterFromPair(typeIsh, nameIsh);
            var k := LeadingStars(nameIsh);
            && p.pType == typeIsh + Stars(k) + BracketsOf(nameIsh[k..])
            && NoBrackets(p.pName)
            && (NoBrackets(nameIsh) ==> p.pName == nameIsh[k..])
  {
    var k := LeadingStars(nameIsh);
    var init := NameScan("", "", 0);
    ScanFromBrackets(init, nameIsh[k..]);
    if NoBrackets(nameIsh) {
      assert NoBrackets(nameIsh[k..]) by {
        assert forall i :: 0 <= i < |nameIsh[k..]| ==> nameIsh[k..][i] == nameIsh[k + i];
      }
      ScanFromPlain(init, nameIsh[k..]);
    }
  }

  /**
   * The array example: `arr[10]` keeps the name `arr` and adds `[]` to the
   * type; what is inside the brackets is dropped.
   */
  lemma ArrayNameExample()
    ensures ParameterFromPair("int", "arr[10]") == Parameter("int[]", "arr")
  {
    var name := "arr" + Subscripts(["10"]);
    assert Subscripts(["10"]) == "[10]";
    assert name == "arr[10]";
    assert NoBrackets(["10"][0]);
    SubscriptedParameter("int", "arr", ["10"]);
    assert "int" + EmptyPairs(1) == "int[]";
    assert ParameterFromPair("int", name) == Parameter("int[]", "arr");
  }

  /** From just after an opening `[`: the bracketed text is dropped, the rest kept. */
  lemma ScanAfterOpen(pre: string, inner: string, post: string)
    requires NoBrackets(inner) && NoBrackets(post)
    ensures ScanFrom(NameScan(pre, "[", 1), inner + ("]" + post)) == NameScan(pre + post, "[]", 0)
  {
    var b := NameScan(pre, "[", 1);
    ScanFromConcat(b, inner, "]" + post);
    ScanFromPlain(b, inner);
    var t := "]" + post;
    assert t[0] == ']' && t[1..] == post;
    assert ScanStep(b, ']') == NameScan(pre, "[]", 0);
    assert ScanFrom(b, t) == ScanFrom(NameScan(pre, "[]", 0), post);
    ScanFromPlain(NameScan(pre, "[]", 0), post);
  }

  /** Characters between a matched pair of brackets never reach the name. */
  lemma BracketedTextDropped(pre: string, inner: string, post: string)
    requires NoBrackets(pre) && NoBrackets(inner) && NoBrackets(post)
    ensures var st := ScanFrom(NameScan("", "", 0), pre + "[" + inner + "]" + post);
            st.name == pre + post && st.brackets == "[]" && st.depth == 0
  {
    var init := NameScan("", "", 0);
    var r1 := "[" + (inner + ("]" + post));
    assert pre + "[" + inner + "]" + post == pre + r1;
    ScanFromConcat(init, pre, r1);
    ScanFromPlain(init, pre);
    assert "" + pre == pre;
    assert r1[0] == '[' && r1[1..] == inner + ("]" + post);
    assert ScanStep(NameScan(pre, "", 0), '[') == NameScan(pre, "[", 1);
    assert ScanFrom(NameScan(pre, "", 0), r1) == ScanFrom(NameScan(pre, "[", 1), inner + ("]" + post));
    ScanAfterOpen(pre, inner, post);
  }

  /** Array subscripts `[i0][i1]...`, one per entry of `inners`. */
  function Subscripts(inners: seq<string>): string
    decreases |inners|
  {
    if inners == [] then "" else "[" + inners[0] + "]" + Subscripts(inners[1..])
  }

  /** `n` empty bracket pairs. */
  function EmptyPairs(n: nat): string {
    if n == 0 then "" else "[]" + EmptyPairs(n - 1)
  }

  /**
   * From depth 0, a run of subscripts leaves the name as it is and adds one
   * `[]` to the type per subscript; what is inside each is dropped.
   */
  lemma {:induction false} ScanSubscripts(st: NameScan, inners: seq<string>)
    requires st.depth == 0
    requires forall k :: 0 <= k < |inners| ==> NoBrackets(inners[k])
    ensures ScanFrom(st, Subscripts(inners)) == st.(brackets := st.brackets + EmptyPairs(|inners|))
    decreases |inners|
  {
    if inners == [] {
      assert st.brackets + "" == st.brackets;
    } else {
      var inner := inners[0];
      var rest := Subscripts(inners[1..]);
      assert Subscripts(inners) == "[" + (inner + ("]" + rest));
      var b := NameScan(st.name, st.brackets + "[", 1);
      assert ScanFrom(st, "[" + (inner + ("]" + rest))) == ScanFrom(b, inner + ("]" + rest));
      ScanFromConcat(b, inner, "]" + rest);
      ScanFromPlain(b, inner);
      var c := NameScan(st.name, st.brackets + "[]", 0);
      var t := "]" + rest;
      assert t[0] == ']' && t[1..] == rest;
      assert st.brackets + "[" + [']'] == st.brackets + "[]";
      assert ScanStep(b, ']') == c;
      assert ScanFrom(b, t) == ScanFrom(c, rest);
      ScanSubscripts(c, inners[1..]);
      assert st.brackets + "[]" + EmptyPairs(|inners| - 1) == st.brackets + EmptyPairs(|inners|);
    }
  }

  /** A name followed by any number of subscripts keeps the name; the type gains one `[]` each. */
  lemma ArrayDimensions(pre: string, inners: seq<string>)
    requires NoBrackets(pre)
    requires forall k :: 0 <= k < |inners| ==> NoBrackets(inners[k])
    ensures ScanFrom(NameScan("", "", 0), pre + Subscripts(inners)) == NameScan(pre, EmptyPairs(|inners|), 0)
  {
    var init := NameScan("", "", 0);
    ScanFromConcat(init, pre, Subscripts(inners));
    ScanFromPlain(init, pre);
    assert "" + pre == pre;
    ScanSubscripts(NameScan(pre, "", 0), inners);
    assert "" + EmptyPairs(|inners|) == EmptyPairs(|inners|);
  }

  /** A parameter whose name is a plain word followed by subscripts: one `[]` per subscript. */
  lemma SubscriptedParameter(t: string, pre: string, inners: seq<string>)
    requires NoBrackets(pre) && (pre == [] || pre[0] != '*')
    requires forall k :: 0 <= k < |inners| ==> NoBrackets(inners[k])
    ensures ParameterFromPair(t, pre + Subscripts(inners)) == Parameter(t + EmptyPairs(|inners|), pre)
  {
    var name := pre + Subscripts(inners);
    assert LeadingStars(name) == 0 by {
      if pre != [] {
        assert name[0] == pre[0];
      } else if inners != [] {
        var open := "[" + inners[0];
        assert Subscripts(inners) == open + "]" + Subscripts(inners[1..]);
        assert name == Subscripts(inners) && open[0] == '[';
      }
    }
    assert name[0..] == name;
    ArrayDimensions(pre, inners);
    assert t + Stars(0) == t;
  }

  lemma SubscriptsThreeFour()
    ensures Subscripts(["3", "4"]) == "[3][4]"
  {
    assert ["3", "4"][1..] == ["4"];
    assert Subscripts(["4"]) == "[4]";
  }

  /** The two-dimensional example: `int` with `arr[3][4]` gives `int[][] arr`. */
  lemma TwoDimensionalArrayExample()
    ensures ParameterFromPair("int", "arr[3][4]") == Parameter("int[][]", "arr")
  {
    var inners := ["3", "4"];
    var name := "arr" + Subscripts(inners);
    SubscriptsThreeFour();
    assert name == "arr[3][4]";
    assert NoBrackets(inners[0]) && NoBrackets(inners[1]);
    SubscriptedParameter("int", "arr", inners);
    assert "int" + EmptyPairs(2) == "int[][]";
    assert ParameterFromPair("int", name) == Parameter("int[][]", "arr");
  }

  /* ---------------------------------------------------------------- extraction */

  /** `get_full_string`: the lines of `range(start, end)` joined by single spaces. */
  method GetFullString(lines: seq<string>, start: nat, end: nat) returns (s: string)
    requires end <= |lines|
    ensures s == Join(" ", if start < end then lines[start..end] else [])
  {
    var wanted: seq<string> := [];
    if start < end {
      for i := start to end
        invariant wanted == lines[start..i]
      {
        wanted := wanted + [lines[i]];
      }
    }
    s := Join(" ", wanted);
  }

  /** A line that ends a signature: it contains `{` or `;`. */
  predicate EndsSignature(line: string) {
    '{' in line || ';' in line
  }

  /** The first index at or after `i` whose line ends a signature. */
  function TerminatorFrom(lines: seq<string>, i: nat): (r: Option<nat>)
    ensures r.Some? ==> i <= r.value < |lines| && EndsSignature(lines[r.value])
    ensures r.Some? ==> forall k :: i <= k < r.value ==> !EndsSignature(lines[k])
    ensures r.None? <==> forall k :: i <= k < |lines| ==> !EndsSignature(lines[k])
    decreases |lines| - i
  {
    if i >= |lines| then None
    else if EndsSignature(lines[i]) then Some(i)
    else TerminatorFrom(lines, i + 1)
  }

  /** The argument segments: `" ".join(splitted[2:]).rstrip("); {").split(", ")`. */
  function RawArgs(splitted: seq<string>): (args: seq<string>)
    requires |splitted| >= 2
    ensures |args| >= 1
  {
    SplitOn(RStripChars(Join(" ", splitted[2..]), "); {"), ", ")
  }

  /** `" ".join(parts[1:]).strip()`: the words after the type. */
  function NameText(parts: seq<string>): string
    requires parts != []
  {
    Strip(Join(" ", parts[1..]))
  }

  /** One argument segment: first word is the type, the remaining words the name. */
  function ParamOf(arg: string): Parameter
    requires Words(arg) != []
  {
    var parts := Words(arg);
    ParameterFromPair(parts[0], NameText(parts))
  }

  /** One segment's parameter; a segment without a word makes `parts[0]` raise. */
  function ParamResult(arg: string): Result<Parameter> {
    if Words(arg) == [] then Err(EmptyParameter) else Ok(ParamOf(arg))
  }

  /** `ParamResult` of each segment, in order. */
  function ParamResults(args: seq<string>): (rs: seq<Result<Parameter>>)
    ensures |rs| == |args|
    decreases |args|
  {
    if args == [] then [] else ParamResults(args[..|args| - 1]) + [ParamResult(args[|args| - 1])]
  }

  lemma {:induction false} ParamResultsEach(args: seq<string>)
    ensures forall k :: 0 <= k < |args| ==> ParamResults(args)[k] == ParamResult(args[k])
    decreases |args|
  {
    if args != [] {
      var n := |args| - 1;
      ParamResultsEach(args[..n]);
      assert forall k :: 0 <= k < n ==> args[..n][k] == args[k];
    }
  }

  /** The parameter of each segment in turn, or the failure of the first blank one. */
  function ParamsOf(args: seq<string>): Result<seq<Parameter>> {
    AllOk(ParamResults(args))
  }

  /**
   * The argument list succeeds exactly when every segment holds a word, and
   * then has one parameter per segment, in order; otherwise it fails with
   * `EmptyParameter`.
   */
  lemma ParamsOfEach(args: seq<string>)
    ensures ParamsOf(args).Ok? <==> forall k :: 0 <= k < |args| ==> Words(args[k]) != []
    ensures ParamsOf(args).Ok? ==> |ParamsOf(args).value| == |args|
    ensures ParamsOf(args).Ok? ==>
              forall k :: 0 <= k < |args| ==> ParamsOf(args).value[k] == ParamOf(args[k])
    ensures ParamsOf(args).Err? ==> ParamsOf(args).error == EmptyParameter
  {
    AllOkEach(ParamResults(args));
    ParamResultsEach(args);
  }

  /** The part of `extract_signature` that reads the gathered text `d`. */
  function SignatureFromText(d: string): Result<Signature> {
    var splitted := SplitSpaceOrParen(d);
    if |splitted| < 2 then Err(NoNameToken)
    else match ParamsOf(RawArgs(splitted))
      case Err(e) => Err(e)
      case Ok(ps) => Ok(Signature(splitted[0], splitted[1], ps))
  }

  /** `extract_signature` as a value. */
  function SignatureOf(lines: seq<string>, idx: nat): Result<Signature> {
    match TerminatorFrom(lines, idx)
    case None => Err(NoTerminator)
    case Some(i) => SignatureFromText(Gather(lines, idx, i))
  }

  /** The lines `idx` through `i` joined by single spaces (`get_full_string(idx, i + 1)`). */
  function Gather(lines: seq<string>, idx: nat, i: nat): string
    requires idx <= i < |lines|
  {
    Join(" ", lines[idx..i + 1])
  }

  /**
   * `extract_signature`: gather lines from `idx` through the first one holding
   * `{` or `;`, split at whitespace and `(`, and read type, name and parameters.
   */
  method ExtractSignature(lines: seq<string>, idx: nat) returns (r: Result<Signature>)
    ensures r == SignatureOf(lines, idx)
  {
    var i := idx;
    while i < |lines| && !EndsSignature(lines[i])
      invariant idx <= i && (i > idx ==> i <= |lines|)
      invariant TerminatorFrom(lines, idx) == TerminatorFrom(lines, i)
      decreases |lines| - i
    {
      i := i + 1;
    }
    if i >= |lines| {
      assert TerminatorFrom(lines, idx).None?;
      return Err(NoTerminator);
    }
    var d := GetFullString(lines, idx, i + 1);
    assert TerminatorFrom(lines, idx) == Some(i);
    assert d == Gather(lines, idx, i);
    SignatureOfAt(lines, idx, i);
    r := ReadSignatureText(d);
  }

  /** Once the terminator is known, `extract_signature` reads the gathered lines. */
  lemma SignatureOfAt(lines: seq<string>, idx: nat, i: nat)
    requires TerminatorFrom(lines, idx) == Some(i)
    ensures SignatureOf(lines, idx) == SignatureFromText(Gather(lines, idx, i))
  {
  }

  /** The rest of `extract_signature`, once the lines are gathered into `d`. */
  method ReadSignatureText(d: string) returns (r: Result<Signature>)
    ensures r == SignatureFromText(d)
  {
    var splitted := SplitSpaceOrParen(d);
    if |splitted| < 2 {
      return Err(NoNameToken);
    }
    var rawArgs := SplitOn(RStripChars(Join(" ", splitted[2..]), "); {"), ", ");
    assert rawArgs == RawArgs(splitted);
    var cleaned := CleanArgs(rawArgs);
    match cleaned
    case Err(e) => r := Err(e);
    case Ok(ps) => r := Ok(Signature(splitted[0], splitted[1], ps));
  }

  /** The argument loop of `extract_signature`: one parameter per segment. */
  method CleanArgs(rawArgs: seq<string>) returns (r: Result<seq<Parameter>>)
    ensures r == ParamsOf(rawArgs)
  {
    ghost var rs := ParamResults(rawArgs);
    ParamResultsEach(rawArgs);
    var cleaned: seq<Parameter> := [];
    for k := 0 to |rawArgs|
      invariant AllOk(rs[..k]) == Ok(cleaned)
    {
      AllOkNext(rs, k);
      var parts := Words(rawArgs[k]);
      if |parts| == 0 {
        AllOkErrExtends(rs, k + 1);
        return Err(EmptyParameter);
      }
      var partialType := parts[0];
      var partialName := NameText(parts);
      var param := GenerateParameterFromPair(partialType, partialName);
      cleaned := cleaned + [param];
    }
    assert rs[..|rawArgs|] == rs;
    r := Ok(cleaned);
  }

  /** A token of `re.split("\s|\(", ...)`: no whitespace and no `(`. */
  predicate IsToken(t: string) {
    forall j :: 0 <= j < |t| ==> !IsSpace(t[j]) && t[j] != '('
  }

  lemma {:induction false} SplitSpaceOrParenTokens(s: string)
    ensures forall k :: 0 <= k < |SplitSpaceOrParen(s)| ==> IsToken(SplitSpaceOrParen(s)[k])
    decreases |s|
  {
    if s != [] {
      SplitSpaceOrParenTokens(s[1..]);
    }
  }

  /**
   * What an extracted signature looks like: the return type and the name
   * are tokens without whitespace or `(`, and there is always at least one
   * parameter (an empty list cannot come back: `f()` raises instead).
   */
  lemma ExtractedSignatureShape(lines: seq<string>, idx: nat)
    requires SignatureOf(lines, idx).Ok?
    ensures var sig := SignatureOf(lines, idx).value;
            IsToken(sig.returnType) && IsToken(sig.name) && |sig.params| >= 1
  {
    var i := TerminatorFrom(lines, idx).value;
    var splitted := SplitSpaceOrParen(Gather(lines, idx, i));
    SplitSpaceOrParenTokens(Gather(lines, idx, i));
    ParamsOfEach(RawArgs(splitted));
  }

  /** `extract_signature` raises only at its three indexing sites. */
  lemma SignatureOfErrors(lines: seq<string>, idx: nat)
    ensures SignatureOf(lines, idx).Err? ==>
              SignatureOf(lines, idx).error in {NoTerminator, NoNameToken, EmptyParameter}
  {
    if TerminatorFrom(lines, idx).Some? {
      var i := TerminatorFrom(lines, idx).value;
      SignatureFromTextErrors(Gather(lines, idx, i));
    }
  }

  /** Reading the gathered text fails only for want of a name or of a parameter. */
  lemma SignatureFromTextErrors(d: string)
    ensures SignatureFromText(d).Err? ==> SignatureFromText(d).error in {NoNameToken, EmptyParameter}
  {
    var splitted := SplitSpaceOrParen(d);
    if |splitted| >= 2 {
      ParamsOfEach(RawArgs(splitted));
    }
  }

  /**
   * The failure cases: no terminator at or after `idx`, exactly when no such
   * line contains `{` or `;`; and a blank parameter list always raises.
   */
  lemma ExtractSignatureFailures(lines: seq<string>, idx: nat)
    ensures SignatureOf(lines, idx) == Err(NoTerminator)
            <==> forall k :: idx <= k < |lines| ==> !EndsSignature(lines[k])
  {
    SignatureOfErrors(lines, idx);
    if TerminatorFrom(lines, idx).Some? {
      var i := TerminatorFrom(lines, idx).value;
      SignatureFromTextErrors(Gather(lines, idx, i));
    }
  }

  /** A token followed by one separator character is cut off as the first piece. */
  lemma {:induction false} SplitAfterToken(w: string, c: char, rest: string)
    requires IsToken(w) && (IsSpace(c) || c == '(')
    ensures SplitSpaceOrParen(w + [c] + rest) == [w] + SplitSpaceOrParen(rest)
    decreases |w|
  {
    if w == [] {
      assert w + [c] + rest == [c] + rest;
      assert ([c] + rest)[1..] == rest;
    } else {
      var s := w + [c] + rest;
      assert s[1..] == w[1..] + [c] + rest;
      SplitAfterToken(w[1..], c, rest);
      assert [w[0]] + w[1..] == w;
    }
  }

  /** A lone token is one piece. */
  lemma {:induction false} SplitWholeToken(w: string)
    requires IsToken(w)
    ensures SplitSpaceOrParen(w) == [w]
    decreases |w|
  {
    if w != [] {
      SplitWholeToken(w[1..]);
      assert [w[0]] + w[1..] == w;
    }
  }

  /**
   * `extract_signature` at a line that holds its own terminator: the signature
   * comes from that line's split alone, whatever the other lines hold.
   */
  lemma SignatureOfOneLine(lines: seq<string>, idx: nat, splitted: seq<string>)
    requires idx < |lines| && EndsSignature(lines[idx])
    requires SplitSpaceOrParen(lines[idx]) == splitted && |splitted| >= 2
    ensures SignatureOf(lines, idx) == match ParamsOf(RawArgs(splitted))
      case Err(e) => Err(e)
      case Ok(ps) => Ok(Signature(splitted[0], splitted[1], ps))
  {
    assert TerminatorFrom(lines, idx) == Some(idx);
    SignatureOfAt(lines, idx, idx);
    assert lines[idx..idx + 1] == [lines[idx]];
    JoinOne(" ", lines[idx]);
  }

  lemma EmptyParameterListSplit()
    ensures SplitSpaceOrParen("int f() {") == ["int", "f", ")", "{"]
  {
    SplitNameParen();
    assert "int f() {" == "int" + [' '] + "f() {";
    SplitAfterToken("int", ' ', "f() {");
  }

  /** The split of `f() {`. */
  lemma SplitNameParen()
    ensures SplitSpaceOrParen("f() {") == ["f", ")", "{"]
  {
    SplitCloseBrace();
    assert "f() {" == "f" + ['('] + ") {";
    SplitAfterToken("f", '(', ") {");
  }

  /** The split of `) {`. */
  lemma SplitCloseBrace()
    ensures SplitSpaceOrParen(") {") == [")", "{"]
  {
    assert ") {" == ")" + [' '] + "{";
    SplitAfterToken(")", ' ', "{");
    SplitWholeToken("{");
  }

  /** `int f() {` raises: the empty parameter list leaves one blank segment. */
  lemma EmptyParameterListRaises()
    ensures SignatureOf(["int f() {"], 0) == Err(EmptyParameter)
  {
    var line := "int f() {";
    var splitted := ["int", "f", ")", "{"];
    assert line[8] == '{';
    EmptyParameterListSplit();
    SignatureOfOneLine([line], 0, splitted);
    EmptyParameterListArgs();
    assert Words("") == [];
    ParamsOfEach([""]);
  }

  /** The argument segments of `int f() {`: one blank segment. */
  lemma EmptyParameterListArgs()
    ensures RawArgs(["int", "f", ")", "{"]) == [""]
  {
    var splitted := ["int", "f", ")", "{"];
    assert splitted[2..] == [")", "{"];
    assert Join(" ", [")", "{"]) == ") {";
    assert RStripChars(") {", "); {") == "";
  }

  /** One parameter `<type> <name>` with a plain name. */
  lemma PlainParam(t: string, n: string)
    requires t != [] && NoSpace(t) && n != [] && NoSpace(n) && NoBrackets(n) && n[0] != '*'
    ensures Words(t + " " + n) != [] && ParamOf(t + " " + n) == Parameter(t, n)
  {
    WordsOfPair(t, n);
    NameOfPair(t, n);
    PlainName(t, n);
  }

  /** Two words joined by a space split back into the two words. */
  lemma WordsOfPair(t: string, n: string)
    requires t != [] && NoSpace(t) && n != [] && NoSpace(n)
    ensures Words(t + " " + n) == [t, n]
  {
    assert Join(" ", [t, n]) == t + " " + n;
    WordsOfJoin([t, n]);
  }

  /** The words after the type of a pair are the second word. */
  lemma NameOfPair(t: string, n: string)
    requires n != [] && NoSpace(n)
    ensures NameText([t, n]) == n
  {
    assert [t, n][1..] == [n];
    JoinOne(" ", n);
    StripNoSpace(n);
  }

  /** A word without whitespace is its own `strip()`. */
  lemma StripNoSpace(w: string)
    requires w != [] && NoSpace(w)
    ensures Strip(w) == w
  {
    assert SkipSpace(w, 0) == 0;
    assert w[0..] == w;
  }

  /** A name without stars or brackets is kept whole and the type is unchanged. */
  lemma PlainName(t: string, n: string)
    requires NoBrackets(n) && (n == [] || n[0] != '*')
    ensures ParameterFromPair(t, n) == Parameter(t, n)
  {
    assert LeadingStars(n) == 0;
    assert n[0..] == n;
    ScanFromPlain(NameScan("", "", 0), n);
    assert "" + n == n;
    assert t + Stars(0) + "" == t;
  }
}
