/** The contract of Go's `sort.Slice`: a permutation in which no later element is
    less than an earlier one.  The order of ties is left open, as the library does. */
module SliceSort {

  ghost predicate StrictWeakOrder<T(!new)>(less: (T, T) -> bool) {
    && (forall a, b :: less(a, b) ==> !less(b, a))
    && (forall a, b, c :: !less(b, a) && !less(c, b) ==> !less(c, a))
  }

  ghost predicate Ordered<T>(s: seq<T>, less: (T, T) -> bool) {
    forall i, j :: 0 <= i < j < |s| ==> !less(s[j], s[i])
  }

  /** Puts `x` behind every leading element it is not less than. */
  function Insert<T>(x: T, s: seq<T>, less: (T, T) -> bool): seq<T> {
    if s == [] || less(x, s[0]) then [x] + s else [s[0]] + Insert(x, s[1..], less)
  }

  lemma {:induction false} InsertPermutes<T>(x: T, s: seq<T>, less: (T, T) -> bool)
    ensures multiset(Insert(x, s, less)) == multiset(s) + multiset{x}
    ensures forall y :: y in Insert(x, s, less) ==> y == x || y in s
  {
    if s != [] && !less(x, s[0]) {
      InsertPermutes(x, s[1..], less);
      assert s == [s[0]] + s[1..];
    }
  }

  lemma OrderedCons<T>(h: T, t: seq<T>, less: (T, T) -> bool)
    requires Ordered(t, less) && forall y :: y in t ==> !less(y, h)
    ensures Ordered([h] + t, less)
  {
    var r := [h] + t;
    forall i, j | 0 <= i < j < |r| ensures !less(r[j], r[i]) {
      assert r[j] == t[j - 1] && t[j - 1] in t;
      if i > 0 { assert r[i] == t[i - 1]; }
    }
  }

  lemma {:induction false} InsertKeepsOrder<T(!new)>(x: T, s: seq<T>, less: (T, T) -> bool)
    requires StrictWeakOrder(less) && Ordered(s, less)
    ensures Ordered(Insert(x, s, less), less)
  {
    if s == [] {
    } else if less(x, s[0]) {
      forall y | y in s ensures !less(y, x) {
        var k :| 0 <= k < |s| && s[k] == y;
        assert !less(s[0], x);
        if k > 0 { assert !less(s[k], s[0]); }
      }
      OrderedCons(x, s, less);
    } else {
      InsertKeepsOrder(x, s[1..], less);
      InsertPermutes(x, s[1..], less);
      OrderedCons(s[0], Insert(x, s[1..], less), less);
    }
  }

  method Sort<T(!new)>(s: seq<T>, less: (T, T) -> bool) returns (r: seq<T>)
    requires StrictWeakOrder(less)
    ensures multiset(r) == multiset(s)
    ensures Ordered(r, less)
  {
    r := [];
    for i := 0 to |s|
      invariant multiset(r) == multiset(s[..i])
      invariant Ordered(r, less)
    {
      InsertKeepsOrder(s[i], r, less);
      InsertPermutes(s[i], r, less);
      assert s[..i + 1] == s[..i] + [s[i]];
      r := Insert(s[i], r, less);
    }
    assert s[..|s|] == s;
  }
}
