/** Small shared vocabulary: the nullable results Java returns, and bytes. */
module Common {

  /** A Java reference that may be null. */
  datatype Option<+T> = None | Some(value: T)

  /** The outcome of a Java method that returns normally or throws. */
  datatype Outcome<+E> = Pass | Fail(error: E)

  /** A Java `byte`, held as its unsigned bit pattern. */
  type Byte = b: int | 0 <= b < 256

  /** The range of a Java `int`. */
  const IntMin: int := -0x8000_0000
  const IntLimit: int := 0x8000_0000

  predicate IsJavaInt(n: int) {
    IntMin <= n < IntLimit
  }

  function Min(a: int, b: int): int {
    if a <= b then a else b
  }

  /** `HashMap.get(key)`: the stored value, or null when the key is absent. */
  function MapGet(entries: map<string, int>, key: string): Option<int> {
    if key in entries then Some(entries[key]) else None
  }

  /** Some element of a non-empty set. */
  lemma Pick<T>(s: set<T>) returns (x: T)
    requires s != {}
    ensures x in s
  {
    x :| x in s;
  }

  /** The elements of a sequence, as a set. */
  function Elems<T>(s: seq<T>): set<T> {
    set x | x in s
  }

  /** Extending a prefix by one element adds that element. */
  lemma ElemsPrefixStep<T>(s: seq<T>, i: int)
    requires 0 <= i < |s|
    ensures Elems(s[..i + 1]) == Elems(s[..i]) + {s[i]}
  {
    assert s[..i + 1] == s[..i] + [s[i]];
  }

  /**
   * The order in which a loop over a Java `Set` visits its elements: each
   * element exactly once, in an order left open.
   */
  method IterationOrder<T>(s: set<T>) returns (w: seq<T>)
    ensures Elems(w) == s && |w| == |s|
  {
    w := [];
    var remaining := s;
    while remaining != {}
      invariant remaining <= s
      invariant Elems(w) == s - remaining && |w| + |remaining| == |s|
      decreases |remaining|
    {
      ghost var _ := Pick(remaining);
      var x :| x in remaining;
      assert Elems(w + [x]) == Elems(w) + {x};
      w := w + [x];
      remaining := remaining - {x};
    }
  }
}
