/** Failure-carrying values shared by the experiment scorer and the example-file writer. */
module Results {

  /** A value that may be missing: a Python step that raised is `None`. */
  datatype Option<+T> = None | Some(value: T)

  /** A value or the reason it could not be computed. */
  datatype Result<+T, +E> = Ok(value: T) | Err(error: E)

  /**
   * A Python list comprehension over a step that may raise: the list is
   * produced only if every step succeeds, and then it holds the steps'
   * values in order.
   */
  function AllSome<T>(xs: seq<Option<T>>): (r: Option<seq<T>>)
    ensures r.Some? <==> forall k :: 0 <= k < |xs| ==> xs[k].Some?
    ensures r.Some? ==> |r.value| == |xs| && forall k :: 0 <= k < |xs| ==> r.value[k] == xs[k].value
  {
    if |xs| == 0 then Some([])
    else match xs[0]
      case None => None
      case Some(x) =>
        match AllSome(xs[1..])
        case None => assert forall k :: 0 <= k < |xs| - 1 ==> xs[1..][k] == xs[k + 1]; None
        case Some(rest) => Some([x] + rest)
  }

  /** One more step: the list grows by its value if this step and all before it succeed. */
  lemma AllSomeSnoc<T>(xs: seq<Option<T>>, x: Option<T>)
    ensures AllSome(xs + [x]) ==
      (if AllSome(xs).Some? && x.Some? then Some(AllSome(xs).value + [x.value]) else None)
  {
    var ys := xs + [x];
    assert forall k :: 0 <= k < |xs| ==> ys[k] == xs[k];
    assert ys[|xs|] == x;
    if AllSome(xs).Some? && x.Some? {
      assert AllSome(ys).value == AllSome(xs).value + [x.value];
    }
  }
}
