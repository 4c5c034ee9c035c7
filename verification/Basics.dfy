/** Small datatypes and set facts shared by every module. */
module Basics {

  datatype Option<+T> = None | Some(value: T)

  datatype Result<+T, +E> = Ok(value: T) | Err(error: E)

  /** A subset is no larger, and a proper one is smaller. */
  lemma SubsetSize<T>(a: set<T>, b: set<T>)
    requires a <= b
    ensures |a| <= |b|
    ensures a != b ==> |a| < |b|
  {
    assert b == a + (b - a);
    assert |b| == |a| + |b - a|;
    assert b - a == {} ==> b <= a;
  }

  lemma MutualSubset<T>(a: set<T>, b: set<T>)
    requires a <= b && b <= a
    ensures a == b
  {
  }

  /** Joining two lists without repeats and with nothing in common gives one without repeats. */
  lemma DistinctJoin(a: seq<nat>, b: seq<nat>)
    requires forall k, l :: 0 <= k < l < |a| ==> a[k] != a[l]
    requires forall k, l :: 0 <= k < l < |b| ==> b[k] != b[l]
    requires forall i :: !(i in a && i in b)
    ensures forall k, l :: 0 <= k < l < |a + b| ==> (a + b)[k] != (a + b)[l]
  {
    forall k, l | 0 <= k < l < |a + b|
      ensures (a + b)[k] != (a + b)[l]
    {
      if k < |a| <= l {
        assert a[k] in a && b[l - |a|] in b;
      }
    }
  }
}
