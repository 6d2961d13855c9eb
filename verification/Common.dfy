/** Small shared definitions. */
module Common {

  datatype Option<T> = None | Some(value: T)

  /** The first n elements, or all if there are fewer. */
  function Take<T>(s: seq<T>, n: nat): (out: seq<T>)
    ensures |out| == if |s| < n then |s| else n
  {
    if |s| <= n then s else s[..n]
  }

  lemma SubsetSize<T>(a: set<T>, b: set<T>)
    requires a <= b
    ensures |a| <= |b|
  {
    assert b == a + (b - a);
  }
}
