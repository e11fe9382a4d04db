/** The exceptions the modelled Python code can raise, as values. */
module Outcome {

  /** One constructor per place where the checker's code raises. */
  datatype Failure =
    | NoTerminator      // extract_signature: `lines[i]` runs past the end looking for `{` or `;` (IndexError)
    | NoNameToken       // extract_signature: `splitted[1]` when the text has no separator (IndexError)
    | EmptyParameter    // extract_signature: `parts[0]` on a blank argument, as in `f()` (IndexError)
    | EmptyMax          // find_definitions: `max()` of an empty declaration list (ValueError)
    | NoBodyBrace       // parse_length / parse_depth: no line ending in `{` from the start (IndexError)
    | NoFunctions       // calculate_*score: `count / total` with `total == 0` (ZeroDivisionError)
    | SignaturePastEnd  // get_function_sig: `all_lines[idx]` past the end (IndexError)

  datatype Result<T> = Ok(value: T) | Err(error: Failure)

  datatype Option<T> = None | Some(value: T)

  /**
   * The values of a list of computations run in order, or the failure of the
   * first one that fails (a Python list comprehension whose element raises).
   */
  function AllOk<T>(rs: seq<Result<T>>): (r: Result<seq<T>>)
    decreases |rs|
  {
    if rs == [] then Ok([])
    else
      match AllOk(rs[..|rs| - 1])
      case Err(e) => Err(e)
      case Ok(xs) =>
        match rs[|rs| - 1]
        case Err(e) => Err(e)
        case Ok(x) => Ok(xs + [x])
  }

  /** `AllOk` succeeds exactly when every element does, and then keeps each value in place. */
  lemma {:induction false} AllOkEach<T>(rs: seq<Result<T>>)
    ensures AllOk(rs).Ok? <==> forall i :: 0 <= i < |rs| ==> rs[i].Ok?
    ensures AllOk(rs).Ok? ==> |AllOk(rs).value| == |rs|
    ensures AllOk(rs).Ok? ==> forall i :: 0 <= i < |rs| ==> rs[i] == Ok(AllOk(rs).value[i])
    ensures AllOk(rs).Err? ==> exists i :: 0 <= i < |rs| && rs[i] == Err(AllOk(rs).error)
    decreases |rs|
  {
    if rs != [] {
      var n := |rs| - 1;
      AllOkEach(rs[..n]);
      assert forall i :: 0 <= i < n ==> rs[..n][i] == rs[i];
    }
  }

  /** `AllOk` fails with the failure of the first element that fails. */
  lemma {:induction false} AllOkFirstFailure<T>(rs: seq<Result<T>>, j: nat)
    requires j < |rs| && rs[j].Err? && forall i :: 0 <= i < j ==> rs[i].Ok?
    ensures AllOk(rs) == Err(rs[j].error)
    decreases |rs|
  {
    var n := |rs| - 1;
    assert forall i :: 0 <= i < n ==> rs[..n][i] == rs[i];
    if j < n {
      AllOkFirstFailure(rs[..n], j);
    } else {
      AllOkEach(rs[..n]);
    }
  }

  /** Once a prefix has failed, the whole list fails the same way. */
  lemma {:induction false} AllOkErrExtends<T>(rs: seq<Result<T>>, i: nat)
    requires i <= |rs| && AllOk(rs[..i]).Err?
    ensures AllOk(rs) == AllOk(rs[..i])
    decreases |rs| - i
  {
    if i == |rs| {
      assert rs[..i] == rs;
    } else {
      assert rs[..i + 1][..i] == rs[..i];
      AllOkErrExtends(rs, i + 1);
    }
  }

  /** Adding a value to a prefix that succeeded. */
  lemma AllOkNext<T>(rs: seq<Result<T>>, i: nat)
    requires i < |rs|
    ensures AllOk(rs[..i + 1]) == match AllOk(rs[..i])
                                  case Err(e) => Err(e)
                                  case Ok(xs) => match rs[i] case Err(e) => Err(e) case Ok(x) => Ok(xs + [x])
  {
    assert rs[..i + 1][..i] == rs[..i];
  }
}
