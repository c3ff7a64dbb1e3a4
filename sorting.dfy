/**
 * Python's `list.sort(key=..., reverse=True)` and `sorted(..., reverse=True)`
 * are stable: elements whose keys compare equal keep the order they had.
 * Both uses in the modelled code sort "largest key first", so the sort is
 * modelled once, generically, as a stable insertion sort driven by a
 * "goes no later than" relation `ge` (key(a) >= key(b)).
 */
module Sorting {

  /** `ge` is total and transitive: a key comparison. */
  ghost predicate TotalPreorder<T(!new)>(ge: (T, T) -> bool)
  {
    && (forall a, b :: ge(a, b) || ge(b, a))
    && (forall a, b, c :: ge(a, b) && ge(b, c) ==> ge(a, c))
  }

  /** Every element's key is at least that of every later element. */
  predicate SortedBy<T>(s: seq<T>, ge: (T, T) -> bool)
  {
    forall i, j :: 0 <= i < j < |s| ==> ge(s[i], s[j])
  }

  /** `a` and `b` have equal keys. */
  predicate Tie<T>(ge: (T, T) -> bool, a: T, b: T)
  {
    ge(a, b) && ge(b, a)
  }

  /** The elements of `s` whose key equals that of `x`, in their order in `s`. */
  function Tied<T>(s: seq<T>, ge: (T, T) -> bool, x: T): seq<T>
  {
    if s == [] then []
    else (if Tie(ge, s[0], x) then [s[0]] else []) + Tied(s[1..], ge, x)
  }

  /** Places `x` in front of the first element whose key is not larger than its own. */
  function Insert<T>(x: T, s: seq<T>, ge: (T, T) -> bool): seq<T>
  {
    if s == [] then [x]
    else if ge(x, s[0]) then [x] + s
    else [s[0]] + Insert(x, s[1..], ge)
  }

  /** Stable sort, largest key first. */
  function SortBy<T>(s: seq<T>, ge: (T, T) -> bool): seq<T>
  {
    if s == [] then [] else Insert(s[0], SortBy(s[1..], ge), ge)
  }

  lemma {:induction false} InsertPermutes<T>(x: T, s: seq<T>, ge: (T, T) -> bool)
    ensures multiset(Insert(x, s, ge)) == multiset(s) + multiset{x}
  {
    if s != [] && !ge(x, s[0]) {
      InsertPermutes(x, s[1..], ge);
      assert s == [s[0]] + s[1..];
    }
  }

  /** The sort neither loses nor invents elements. */
  lemma {:induction false} SortPermutes<T>(s: seq<T>, ge: (T, T) -> bool)
    ensures multiset(SortBy(s, ge)) == multiset(s)
    ensures |SortBy(s, ge)| == |s|
  {
    if s != [] {
      SortPermutes(s[1..], ge);
      InsertPermutes(s[0], SortBy(s[1..], ge), ge);
      assert s == [s[0]] + s[1..];
    }
    assert |multiset(SortBy(s, ge))| == |SortBy(s, ge)|;
  }

  lemma {:induction false} InsertSorted<T(!new)>(x: T, s: seq<T>, ge: (T, T) -> bool)
    requires TotalPreorder(ge)
    requires SortedBy(s, ge)
    ensures SortedBy(Insert(x, s, ge), ge)
  {
    if s != [] && !ge(x, s[0]) {
      InsertSorted(x, s[1..], ge);
      InsertPermutes(x, s[1..], ge);
      var r := Insert(x, s[1..], ge);
      forall k | 0 <= k < |r| ensures ge(s[0], r[k]) {
        assert r[k] in multiset(r);
        if r[k] == x {
          assert ge(s[0], x);
        } else {
          assert r[k] in multiset(s[1..]);
          var m :| 0 <= m < |s[1..]| && s[1..][m] == r[k];
          assert s[1 + m] == r[k];
        }
      }
    }
  }

  /** The result is ordered largest key first. */
  lemma {:induction false} SortSorted<T(!new)>(s: seq<T>, ge: (T, T) -> bool)
    requires TotalPreorder(ge)
    ensures SortedBy(SortBy(s, ge), ge)
  {
    if s != [] {
      SortSorted(s[1..], ge);
      InsertSorted(s[0], SortBy(s[1..], ge), ge);
    }
  }

  lemma {:induction false} TiedAppend<T>(a: seq<T>, b: seq<T>, ge: (T, T) -> bool, x: T)
    ensures Tied(a + b, ge, x) == Tied(a, ge, x) + Tied(b, ge, x)
  {
    if a != [] {
      TiedAppend(a[1..], b, ge, x);
      assert (a + b)[1..] == a[1..] + b;
    } else {
      assert a + b == b;
    }
  }

  lemma TiedCons<T>(a: T, s: seq<T>, ge: (T, T) -> bool, x: T)
    ensures Tied([a] + s, ge, x) == (if Tie(ge, a, x) then [a] else []) + Tied(s, ge, x)
  {
    assert ([a] + s)[0] == a && ([a] + s)[1..] == s;
  }

  /** An element strictly ahead of `y` cannot share a key with it. */
  lemma AheadNotTied<T(!new)>(y: T, h: T, ge: (T, T) -> bool, x: T)
    requires TotalPreorder(ge)
    requires !ge(y, h)
    ensures !(Tie(ge, y, x) && Tie(ge, h, x))
  {
  }

  lemma {:induction false} InsertTied<T(!new)>(y: T, s: seq<T>, ge: (T, T) -> bool, x: T)
    requires TotalPreorder(ge)
    ensures Tied(Insert(y, s, ge), ge, x) == (if Tie(ge, y, x) then [y] else []) + Tied(s, ge, x)
  {
    var ys := if Tie(ge, y, x) then [y] else [];
    if s == [] {
      TiedCons(y, [], ge, x);
      assert [y] + [] == [y];
    } else if ge(y, s[0]) {
      TiedCons(y, s, ge, x);
    } else {
      var h, t := s[0], s[1..];
      assert s == [h] + t;
      var r := Insert(y, t, ge);
      InsertTied(y, t, ge, x);
      TiedCons(h, r, ge, x);
      TiedCons(h, t, ge, x);
      AheadNotTied(y, h, ge, x);
      var hs := if Tie(ge, h, x) then [h] else [];
      assert hs == [] || ys == [];
      assert hs + (ys + Tied(t, ge, x)) == ys + (hs + Tied(t, ge, x));
    }
  }

  /** Stability: elements with equal keys keep their relative order. */
  lemma {:induction false} SortStable<T(!new)>(s: seq<T>, ge: (T, T) -> bool, x: T)
    requires TotalPreorder(ge)
    ensures Tied(SortBy(s, ge), ge, x) == Tied(s, ge, x)
  {
    if s != [] {
      SortStable(s[1..], ge, x);
      InsertTied(s[0], SortBy(s[1..], ge), ge, x);
    }
  }

  /** A sorted list is left as it is. */
  lemma {:induction false} SortOfSorted<T>(s: seq<T>, ge: (T, T) -> bool)
    requires SortedBy(s, ge)
    ensures SortBy(s, ge) == s
  {
    if s != [] {
      assert SortedBy(s[1..], ge);
      SortOfSorted(s[1..], ge);
      if |s| > 1 {
        assert ge(s[0], s[1]);
      }
    }
  }
}
