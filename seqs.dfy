/**
 * Generic sequence operations that stand for the Ruby Enumerable methods the
 * core relies on: `select`/`reject`/`partition` (Filter), `find` (FindFirst)
 * and `Array#index` (FirstIndexOf).
 */
module Seqs {
  import opened Wrappers

  /** The elements of `s` that satisfy `p`, in their original order. */
  function Filter<T>(s: seq<T>, p: T -> bool): (r: seq<T>)
    ensures |r| <= |s|
    ensures forall k :: 0 <= k < |r| ==> p(r[k])
  {
    if |s| == 0 then [] else (if p(s[0]) then [s[0]] else []) + Filter(s[1..], p)
  }

  /** Filter keeps exactly the elements that satisfy `p`. */
  lemma {:induction false} FilterMembers<T>(s: seq<T>, p: T -> bool)
    ensures forall k :: 0 <= k < |Filter(s, p)| ==> Filter(s, p)[k] in s
    ensures forall k :: 0 <= k < |s| && p(s[k]) ==> s[k] in Filter(s, p)
  {
    if |s| > 0 {
      FilterMembers(s[1..], p);
      var rest := Filter(s[1..], p);
      assert forall k :: 0 <= k < |rest| ==> rest[k] in s by {
        forall k | 0 <= k < |rest| ensures rest[k] in s {
          assert rest[k] in s[1..];
        }
      }
      forall k | 1 <= k < |s| && p(s[k]) ensures s[k] in Filter(s, p) {
        assert s[k] == s[1..][k - 1];
      }
    }
  }

  /** The complement of a predicate. */
  function Not<T>(p: T -> bool): T -> bool
  {
    x => !p(x)
  }

  /** Filtering distributes over concatenation, so it keeps relative order. */
  lemma {:induction false} FilterConcat<T>(a: seq<T>, b: seq<T>, p: T -> bool)
    ensures Filter(a + b, p) == Filter(a, p) + Filter(b, p)
  {
    if |a| == 0 {
      assert a + b == b;
    } else {
      assert (a + b)[1..] == a[1..] + b;
      FilterConcat(a[1..], b, p);
    }
  }

  /** A predicate and its complement split a sequence into two parts that together hold every element once. */
  lemma {:induction false} FilterSplits<T>(s: seq<T>, p: T -> bool)
    ensures multiset(Filter(s, Not(p))) + multiset(Filter(s, p)) == multiset(s)
    ensures |Filter(s, Not(p))| + |Filter(s, p)| == |s|
  {
    if |s| > 0 {
      FilterSplits(s[1..], p);
      AddToEitherPart(s, Filter(s[1..], Not(p)), Filter(s[1..], p));
      if p(s[0]) {
        assert Filter(s, p) == [s[0]] + Filter(s[1..], p);
      } else {
        assert Filter(s, Not(p)) == [s[0]] + Filter(s[1..], Not(p));
      }
    }
  }

  /** Adding the head to either part of a split of the tail splits the whole. */
  lemma AddToEitherPart<T>(s: seq<T>, a: seq<T>, b: seq<T>)
    requires |s| > 0
    requires multiset(a) + multiset(b) == multiset(s[1..])
    ensures multiset(a) + multiset([s[0]] + b) == multiset(s)
    ensures multiset([s[0]] + a) + multiset(b) == multiset(s)
  {
    assert s == [s[0]] + s[1..];
    assert multiset([s[0]] + b) == multiset([s[0]]) + multiset(b);
    assert multiset([s[0]] + a) == multiset([s[0]]) + multiset(a);
  }

  /** Filtering with a predicate every element meets changes nothing. */
  lemma {:induction false} FilterKeepsAll<T>(s: seq<T>, p: T -> bool)
    requires forall k :: 0 <= k < |s| ==> p(s[k])
    ensures Filter(s, p) == s
  {
    if |s| > 0 {
      FilterKeepsAll(s[1..], p);
    }
  }

  /** Filtering with a predicate no element meets leaves nothing. */
  lemma {:induction false} FilterDropsAll<T>(s: seq<T>, p: T -> bool)
    requires forall k :: 0 <= k < |s| ==> !p(s[k])
    ensures Filter(s, p) == []
  {
    if |s| > 0 {
      FilterDropsAll(s[1..], p);
    }
  }

  /** Filtering out the one element that fails `p` removes that position and keeps the rest in order. */
  lemma {:induction false} FilterRemovesOne<T>(s: seq<T>, k: nat, p: T -> bool)
    requires k < |s| && !p(s[k])
    requires forall i :: 0 <= i < |s| && i != k ==> p(s[i])
    ensures Filter(s, p) == s[..k] + s[k + 1..]
  {
    if k == 0 {
      FilterKeepsAll(s[1..], p);
    } else {
      FilterRemovesOne(s[1..], k - 1, p);
      assert s[..k] == [s[0]] + s[1..][..k - 1];
      assert s[k + 1..] == s[1..][k..];
    }
  }

  /** Filtering a single updated position: the filtered lengths differ only by that position's contribution. */
  lemma FilterUpdateLength<T>(s: seq<T>, j: nat, x: T, p: T -> bool)
    requires j < |s|
    ensures |Filter(s[j := x], p)| + (if p(s[j]) then 1 else 0) == |Filter(s, p)| + (if p(x) then 1 else 0)
  {
    var t := s[j := x];
    assert s == s[..j] + [s[j]] + s[j + 1..];
    assert t == s[..j] + [x] + s[j + 1..];
    FilterConcat(s[..j] + [s[j]], s[j + 1..], p);
    FilterConcat(s[..j], [s[j]], p);
    FilterConcat(s[..j] + [x], s[j + 1..], p);
    FilterConcat(s[..j], [x], p);
  }

  /** The position of the first element satisfying `p` (Ruby's `find`, by position), or None. */
  function FindFirst<T>(s: seq<T>, p: T -> bool): (r: Option<nat>)
    ensures r.Some? ==> r.value < |s| && p(s[r.value]) && forall j :: 0 <= j < r.value ==> !p(s[j])
    ensures r.None? <==> forall k :: 0 <= k < |s| ==> !p(s[k])
  {
    if |s| == 0 then None
    else if p(s[0]) then Some(0)
    else match FindFirst(s[1..], p)
      case None => None
      case Some(k) => Some(k + 1)
  }

  /** The first position holding an element equal to `x` (Ruby's `Array#index`, which compares with `==`). */
  function FirstIndexOf<T(==)>(s: seq<T>, x: T): (i: nat)
    requires x in s
    ensures i < |s| && s[i] == x
    ensures forall j :: 0 <= j < i ==> s[j] != x
  {
    if s[0] == x then 0 else 1 + FirstIndexOf(s[1..], x)
  }
}
