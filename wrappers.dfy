/** Option and Result: the model's stand-ins for Rust's `Option` and for a panic or `Err`. */
module Wrappers {
  datatype Option<+T> = None | Some(value: T)

  datatype Result<+T, +E> = Ok(value: T) | Err(error: E)

  /**
   * Rust's `collect` of per-element outcomes, where a failing element ends
   * the run: the values in order, or the error of the first failing element.
   */
  function Collect<T(==), E(==)>(rs: seq<Result<T, E>>): (r: Result<seq<T>, E>)
    ensures r.Ok? <==> forall i :: 0 <= i < |rs| ==> rs[i].Ok?
    ensures r.Ok? ==> (|r.value| == |rs| && forall i :: 0 <= i < |rs| ==> rs[i] == Ok(r.value[i]))
    ensures r.Err? ==> exists i :: (0 <= i < |rs| && rs[i] == Err(r.error)
      && forall j :: 0 <= j < i ==> rs[j].Ok?)
  {
    if rs == [] then Ok([])
    else
      var n := |rs| - 1;
      var prefix := rs[..n];
      assert forall j :: 0 <= j < n ==> prefix[j] == rs[j];
      match Collect(prefix)
      case Err(e) =>
        var i :| 0 <= i < n && prefix[i] == Err(e) && forall j :: 0 <= j < i ==> prefix[j].Ok?;
        assert rs[i] == Err(e) && forall j :: 0 <= j < i ==> rs[j].Ok?;
        Err(e)
      case Ok(vs) =>
        assert forall j :: 0 <= j < n ==> rs[j] == Ok(vs[j]);
        match rs[n]
        case Err(e) =>
          assert forall j :: 0 <= j < n ==> rs[j].Ok?;
          Err(e)
        case Ok(v) =>
          var r := vs + [v];
          assert forall i :: 0 <= i < n ==> r[i] == vs[i];
          Ok(r)
  }
}
