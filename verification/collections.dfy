/** Small facts about finite sets and maps used throughout the model. */
module Collections {

  /** Some element of a non-empty set. */
  lemma Pick<T>(s: set<T>) returns (x: T)
    requires s != {}
    ensures x in s
  {
    x :| x in s;
  }

  /** A key under which a map stores the given value. */
  lemma PickKey<K, V>(m: map<K, V>, v: V) returns (k: K)
    requires v in m.Values
    ensures k in m && m[k] == v
  {
    k :| k in m && m[k] == v;
  }

  /** A set of size one has an element, and any two of its elements are equal. */
  lemma Singleton<T>(s: set<T>)
    requires |s| == 1
    ensures exists a :: a in s
    ensures forall a, b :: a in s && b in s ==> a == b
  {
    var x := Pick(s);
    assert |s - {x}| == 0;
    assert s - {x} == {};
  }

  /** Two distinct elements of a set with more than one. */
  lemma PickTwo<T>(s: set<T>) returns (x: T, y: T)
    requires |s| > 1
    ensures x in s && y in s && x != y
  {
    x := Pick(s);
    assert |s - {x}| == |s| - 1;
    y := Pick(s - {x});
  }

  /** A subset is no larger than its superset. */
  lemma SubsetCard<T>(a: set<T>, b: set<T>)
    requires a <= b
    ensures |a| <= |b|
  {
    assert b == a + (b - a);
  }

  /** A non-empty set of integers has a least element. */
  lemma {:induction false} MinExists(s: set<int>)
    requires s != {}
    ensures exists m :: m in s && forall x :: x in s ==> m <= x
    decreases |s|
  {
    var x := Pick(s);
    var rest := s - {x};
    if rest == {} {
      assert s == {x};
      assert x in s && forall y :: y in s ==> x <= y;
    } else {
      MinExists(rest);
      var m :| m in rest && forall y :: y in rest ==> m <= y;
      assert forall y :: y in s ==> y == x || y in rest;
      if x < m {
        assert x in s && forall y :: y in s ==> x <= y;
      } else {
        assert m in s && forall y :: y in s ==> m <= y;
      }
    }
  }

  /** The least element of a non-empty set of integers. */
  function Min(s: set<int>): (m: int)
    requires s != {}
    ensures m in s && forall x :: x in s ==> m <= x
  {
    MinExists(s);
    var m :| m in s && forall x :: x in s ==> m <= x;
    m
  }
}
