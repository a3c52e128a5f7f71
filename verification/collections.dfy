/**
 * Sequence helpers shared by the components: the optional value that stands
 * for JavaScript's `null`/`undefined`, `Array.prototype.filter`, and the
 * `[...new Set(xs)]` idiom that removes duplicates in first-seen order.
 */
module Collections {

  datatype Option<T> = None | Some(value: T)

  /** The elements of `s` that satisfy `p`, in their original order. */
  function Filter<T>(s: seq<T>, p: T -> bool): (r: seq<T>)
    ensures |r| <= |s|
    ensures forall i :: 0 <= i < |r| ==> p(r[i])
  {
    if s == [] then []
    else (if p(s[0]) then [s[0]] else []) + Filter(s[1..], p)
  }

  /** An element survives the filter exactly when it was there and passes. */
  lemma {:induction false} FilterMembers<T>(s: seq<T>, p: T -> bool, x: T)
    ensures x in Filter(s, p) <==> x in s && p(x)
  {
    if s != [] {
      FilterMembers(s[1..], p, x);
      assert s == [s[0]] + s[1..];
    }
  }

  /** Each passing element keeps its multiplicity; each failing one is gone. */
  lemma {:induction false} FilterCount<T>(s: seq<T>, p: T -> bool, x: T)
    ensures multiset(Filter(s, p))[x] == if p(x) then multiset(s)[x] else 0
  {
    if s != [] {
      FilterCount(s[1..], p, x);
      assert s == [s[0]] + s[1..];
      assert multiset(s) == multiset([s[0]]) + multiset(s[1..]);
    }
  }

  /** Filtering distributes over concatenation: relative order is kept. */
  lemma {:induction false} FilterConcat<T>(a: seq<T>, b: seq<T>, p: T -> bool)
    ensures Filter(a + b, p) == Filter(a, p) + Filter(b, p)
  {
    if a == [] {
      assert a + b == b;
    } else {
      FilterConcat(a[1..], b, p);
      assert (a + b)[1..] == a[1..] + b;
    }
  }

  /** A filter that every element passes changes nothing. */
  lemma {:induction false} FilterAll<T>(s: seq<T>, p: T -> bool)
    requires forall i :: 0 <= i < |s| ==> p(s[i])
    ensures Filter(s, p) == s
  {
    if s != [] {
      FilterAll(s[1..], p);
    }
  }

  /** Filtering twice with the same predicate is filtering once. */
  lemma FilterIdempotent<T>(s: seq<T>, p: T -> bool)
    ensures Filter(Filter(s, p), p) == Filter(s, p)
  {
    FilterAll(Filter(s, p), p);
  }

  /**
   * Two passing elements at positions i < j of `s` appear in the filtered
   * sequence in the same order.
   */
  lemma FilterKeepsOrder<T>(s: seq<T>, p: T -> bool, i: nat, j: nat)
    requires i < j < |s| && p(s[i]) && p(s[j])
    ensures exists i', j' :: 0 <= i' < j' < |Filter(s, p)|
                             && Filter(s, p)[i'] == s[i] && Filter(s, p)[j'] == s[j]
  {
    var a, b, c := s[..i], s[i+1..j], s[j+1..];
    assert s == a + [s[i]] + b + [s[j]] + c;
    FilterConcat(a + [s[i]] + b + [s[j]], c, p);
    FilterConcat(a + [s[i]] + b, [s[j]], p);
    FilterConcat(a + [s[i]], b, p);
    FilterConcat(a, [s[i]], p);
    var r := Filter(s, p);
    var i', j' := |Filter(a, p)|, |Filter(a, p)| + 1 + |Filter(b, p)|;
    assert r == Filter(a, p) + [s[i]] + Filter(b, p) + [s[j]] + Filter(c, p);
    assert r[i'] == s[i] && r[j'] == s[j];
  }

  /** No value occurs twice. */
  predicate NoDuplicates<T(==)>(s: seq<T>)
  {
    forall i, j :: 0 <= i < j < |s| ==> s[i] != s[j]
  }

  /** The position of the first occurrence of `x` in `s`. */
  function FirstIndex<T(==)>(s: seq<T>, x: T): (k: nat)
    requires x in s
    ensures k < |s| && s[k] == x
    ensures forall m :: 0 <= m < k ==> s[m] != x
  {
    if s[0] == x then 0 else 1 + FirstIndex(s[1..], x)
  }

  /** A position whose value does not occur earlier is that value's first index. */
  lemma FirstIndexAt<T>(s: seq<T>, k: nat)
    requires k < |s| && forall m :: 0 <= m < k ==> s[m] != s[k]
    ensures FirstIndex(s, s[k]) == k
  {
    var f := FirstIndex(s, s[k]);
    assert f <= k;
  }

  /**
   * The distinct values of `s` in the order they are first seen, as a
   * JavaScript `Set` built from `s` and spread back into an array.
   */
  function Distinct<T(==)>(s: seq<T>): (r: seq<T>)
    ensures forall i :: 0 <= i < |r| ==> r[i] in s
    ensures forall i :: 0 <= i < |s| ==> s[i] in r
    ensures NoDuplicates(r)
  {
    if s == [] then []
    else
      var d := Distinct(s[..|s| - 1]);
      if s[|s| - 1] in d then d else d + [s[|s| - 1]]
  }

  /** Appending a value does not move the first occurrence of an earlier one. */
  lemma FirstIndexExtend<T>(s: seq<T>, y: T, x: T)
    requires x in s
    ensures FirstIndex(s + [y], x) == FirstIndex(s, x)
  {
    assert forall m :: 0 <= m < |s| ==> (s + [y])[m] == s[m];
  }

  /** The distinct values are listed by increasing position of first occurrence. */
  lemma {:induction false} DistinctFirstSeenOrder<T>(s: seq<T>)
    ensures forall i, j :: 0 <= i < j < |Distinct(s)| ==>
              FirstIndex(s, Distinct(s)[i]) < FirstIndex(s, Distinct(s)[j])
  {
    if s != [] {
      var init, last := s[..|s| - 1], s[|s| - 1];
      assert s == init + [last];
      DistinctFirstSeenOrder(init);
      var d := Distinct(init);
      forall x | x in d
        ensures FirstIndex(s, x) == FirstIndex(init, x)
      {
        FirstIndexExtend(init, last, x);
      }
      if last !in d {
        assert last !in init;
        assert forall m :: 0 <= m < |s| - 1 ==> s[m] == init[m];
        forall i | 0 <= i < |d|
          ensures FirstIndex(s, d[i]) < |s| - 1
        {
          assert d[i] in d;
        }
      }
    }
  }

  /** `r` lists values of `s` by strictly increasing position of first occurrence. */
  predicate InFirstSeenOrder<T(==)>(s: seq<T>, r: seq<T>)
  {
    && (forall i :: 0 <= i < |r| ==> r[i] in s)
    && (forall i, j :: 0 <= i < j < |r| ==> r[i] in s && r[j] in s && FirstIndex(s, r[i]) < FirstIndex(s, r[j]))
  }

  /** Dropping the head of a first-seen listing leaves one, without the head. */
  lemma FirstSeenTail<T>(s: seq<T>, r: seq<T>)
    requires InFirstSeenOrder(s, r) && r != []
    ensures InFirstSeenOrder(s, r[1..])
    ensures r[0] !in r[1..]
  {
    forall k | 0 <= k < |r| - 1
      ensures r[1..][k] != r[0]
    {
      assert FirstIndex(s, r[0]) < FirstIndex(s, r[k + 1]);
    }
  }

  /** Two first-seen listings of the same values start with the same value. */
  lemma FirstSeenHeads<T>(s: seq<T>, r: seq<T>, d: seq<T>)
    requires InFirstSeenOrder(s, r) && InFirstSeenOrder(s, d)
    requires r != [] && d != [] && r[0] in d && d[0] in r
    ensures r[0] == d[0]
  {
    var i :| 0 <= i < |r| && r[i] == d[0];
    var j :| 0 <= j < |d| && d[j] == r[0];
    assert FirstIndex(s, r[0]) <= FirstIndex(s, r[i]);
    assert FirstIndex(s, d[0]) <= FirstIndex(s, d[j]);
  }

  /** A listing whose first-occurrence positions are given by an increasing `keys` is in first-seen order. */
  lemma FirstSeenByKeys<T>(s: seq<T>, r: seq<T>, keys: seq<nat>)
    requires |keys| == |r|
    requires forall i :: 0 <= i < |r| ==> r[i] in s && FirstIndex(s, r[i]) == keys[i]
    requires forall i, j :: 0 <= i < j < |keys| ==> keys[i] < keys[j]
    ensures InFirstSeenOrder(s, r)
  {
  }

  /** Two listings in first-seen order of the same values are the same listing. */
  lemma {:induction false} FirstSeenListingsEqual<T>(s: seq<T>, r: seq<T>, d: seq<T>)
    requires InFirstSeenOrder(s, r) && InFirstSeenOrder(s, d)
    requires forall x :: x in r <==> x in d
    ensures r == d
  {
    assert r != [] ==> r[0] in d;
    assert d != [] ==> d[0] in r;
    if r != [] && d != [] {
      FirstSeenHeads(s, r, d);
      FirstSeenTail(s, r);
      FirstSeenTail(s, d);
      assert forall x :: x in r[1..] <==> x in r && x != r[0] by {
        assert r == [r[0]] + r[1..];
      }
      assert forall x :: x in d[1..] <==> x in d && x != d[0] by {
        assert d == [d[0]] + d[1..];
      }
      FirstSeenListingsEqual(s, r[1..], d[1..]);
      assert r == [r[0]] + r[1..] && d == [d[0]] + d[1..];
    }
  }

  /**
   * `Distinct(s)` is the only listing of the values of `s` in first-seen
   * order: any sequence that lists exactly those values that way equals it.
   */
  lemma DistinctUnique<T>(s: seq<T>, r: seq<T>)
    requires InFirstSeenOrder(s, r)
    requires forall i :: 0 <= i < |s| ==> s[i] in r
    ensures r == Distinct(s)
  {
    var d := Distinct(s);
    DistinctFirstSeenOrder(s);
    assert forall x :: x in r <==> x in d by {
      forall x
        ensures x in r <==> x in d
      {
        if x in d {
          var k :| 0 <= k < |d| && d[k] == x;
          assert d[k] in s;
          var m := FirstIndex(s, x);
          assert s[m] in r;
        }
        if x in r {
          var k :| 0 <= k < |r| && r[k] == x;
          assert r[k] in s;
          var m := FirstIndex(s, x);
          assert s[m] in d;
        }
      }
    }
    FirstSeenListingsEqual(s, r, d);
  }
}
