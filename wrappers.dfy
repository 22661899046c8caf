/** Optional values: an absent subscription, a null return, a field never set. */
module Wrappers {
  datatype Option<+T> = None | Some(value: T)

  /** The values `f` yields over `xs`, in order, skipping the elements it yields none for. */
  function Present<T, U>(xs: seq<T>, f: T -> Option<U>): (ys: seq<U>)
    ensures |ys| <= |xs|
    decreases |xs|
  {
    if xs == [] then []
    else
      var y := f(xs[|xs| - 1]);
      Present(xs[..|xs| - 1], f) + if y.Some? then [y.value] else []
  }

  /** When `f` yields a value for every element, the j-th value is the j-th element's. */
  lemma {:induction false} PresentAt<T, U>(xs: seq<T>, f: T -> Option<U>, j: nat)
    requires forall i :: 0 <= i < |xs| ==> f(xs[i]).Some?
    requires j < |xs|
    ensures |Present(xs, f)| == |xs| && Some(Present(xs, f)[j]) == f(xs[j])
    decreases |xs|
  {
    var n: nat := |xs| - 1;
    var init := xs[..n];
    assert f(xs[n]).Some?;
    if j < n {
      PresentAt(init, f, j);
      assert init[j] == xs[j];
    } else if n > 0 {
      PresentAt(init, f, 0);
    }
  }
}
