/** Facts about sequences, sets and maps that several modules use. */
module Collections {
  lemma Regroup<T>(a: seq<T>, b: seq<T>, c: seq<T>)
    ensures a + b + c == a + (b + c)
  {
  }

  /** A proper subset has fewer elements. */
  lemma Smaller<T>(s: set<T>, t: set<T>)
    requires s < t
    ensures |s| < |t|
  {
    var x :| x in t && x !in s;
    assert t == s + (t - s) && x in t - s;
  }

  /** A map without one of its keys has one item less. */
  lemma WithoutKey<K, V>(m: map<K, V>, k: K)
    requires k in m
    ensures |m - {k}| == |m| - 1
  {
    assert (m - {k}).Keys == m.Keys - {k};
    assert |m.Keys| == |m| && |(m - {k}).Keys| == |m - {k}|;
  }

  ghost predicate IsLeast<T(!new)>(s: set<T>, before: (T, T) -> bool, x: T) {
    x in s && forall y :: y in s ==> y == x || before(x, y)
  }

  /** Under a total order every nonempty set has a least element. */
  lemma {:induction false} LeastExists<T(!new)>(s: set<T>, before: (T, T) -> bool)
    requires s != {}
    requires forall a, b :: a == b || before(a, b) || before(b, a)
    requires forall a, b, c :: before(a, b) && before(b, c) ==> before(a, c)
    ensures exists x :: IsLeast(s, before, x)
    decreases |s|
  {
    var one :| one in s;
    var rest := s - {one};
    if rest == {} {
      assert s == {one};
      assert IsLeast(s, before, one);
    } else {
      LeastExists(rest, before);
      var least :| IsLeast(rest, before, least);
      if before(one, least) {
        forall y | y in s ensures y == one || before(one, y) {
          assert y == one || y == least || before(least, y);
        }
        assert IsLeast(s, before, one);
      } else {
        assert before(least, one) || one == least;
        assert IsLeast(s, before, least);
      }
    }
  }
}
