/** The array operations the components use on copies: `filter` and
    `slice().reverse()`. */
module Seqs {
  import opened Wrappers

  /** `s.filter(p)`: the elements satisfying p, in their original order. */
  function Filter<T>(s: seq<T>, p: T -> bool): (r: seq<T>)
    ensures |r| <= |s|
    ensures forall i :: 0 <= i < |r| ==> r[i] in s && p(r[i])
    ensures forall i :: 0 <= i < |s| && p(s[i]) ==> s[i] in r
  {
    if s == [] then [] else (if p(s[0]) then [s[0]] else []) + Filter(s[1..], p)
  }

  /** `s.findIndex(p)` as an option: the first position whose element
      satisfies p, or none when no element does. */
  function FindFirst<T>(s: seq<T>, p: T -> bool): (r: Option<nat>)
    ensures r.Some? ==> r.value < |s| && p(s[r.value])
    ensures r.Some? ==> forall i :: 0 <= i < r.value ==> !p(s[i])
    ensures r.None? <==> forall i :: 0 <= i < |s| ==> !p(s[i])
  {
    if s == [] then None
    else if p(s[0]) then Some(0)
    else match FindFirst(s[1..], p)
      case None => None
      case Some(i) => Some(i + 1)
  }

  /** Filtering distributes over concatenation: relative order is kept. */
  lemma {:induction false} FilterConcat<T>(a: seq<T>, b: seq<T>, p: T -> bool)
    ensures Filter(a + b, p) == Filter(a, p) + Filter(b, p)
  {
    if a == [] {
      assert a + b == b;
    } else {
      assert (a + b)[1..] == a[1..] + b;
      FilterConcat(a[1..], b, p);
    }
  }

  /** Filtering keeps a sequence whole when every element satisfies p. */
  lemma {:induction false} FilterKeepsAll<T>(s: seq<T>, p: T -> bool)
    requires forall i :: 0 <= i < |s| ==> p(s[i])
    ensures Filter(s, p) == s
  {
    if s != [] {
      FilterKeepsAll(s[1..], p);
    }
  }

  lemma SplitThree<T>(s: seq<T>, lo: nat, hi: nat)
    requires lo <= hi <= |s|
    ensures s == s[..lo] + s[lo..hi] + s[hi..]
  {
    assert s[..hi] == s[..lo] + s[lo..hi];
  }

  /** Filtering keeps nothing when no element satisfies p. */
  lemma {:induction false} FilterNone<T>(s: seq<T>, p: T -> bool)
    requires forall i :: 0 <= i < |s| ==> !p(s[i])
    ensures Filter(s, p) == []
  {
    if s != [] {
      FilterNone(s[1..], p);
    }
  }

  /** Filtering keeps exactly s[lo..hi] when the elements satisfying p are
      those at positions lo to hi - 1. */
  lemma FilterWindow<T>(s: seq<T>, p: T -> bool, lo: nat, hi: nat)
    requires lo <= hi <= |s|
    requires forall i :: 0 <= i < |s| ==> (p(s[i]) <==> lo <= i < hi)
    ensures Filter(s, p) == s[lo..hi]
  {
    FilterSplitThree(s, p, lo, hi);
    FilterOutside(s, p, lo, hi);
    FilterInside(s, p, lo, hi);
  }

  lemma FilterSplitThree<T>(s: seq<T>, p: T -> bool, lo: nat, hi: nat)
    requires lo <= hi <= |s|
    ensures Filter(s, p) == Filter(s[..lo], p) + Filter(s[lo..hi], p) + Filter(s[hi..], p)
  {
    SplitThree(s, lo, hi);
    FilterConcat(s[..lo] + s[lo..hi], s[hi..], p);
    FilterConcat(s[..lo], s[lo..hi], p);
  }

  lemma FilterOutside<T>(s: seq<T>, p: T -> bool, lo: nat, hi: nat)
    requires lo <= hi <= |s|
    requires forall i :: 0 <= i < |s| ==> (p(s[i]) <==> lo <= i < hi)
    ensures Filter(s[..lo], p) == [] && Filter(s[hi..], p) == []
  {
    forall i | 0 <= i < lo
      ensures !p(s[..lo][i])
    {
      assert s[..lo][i] == s[i];
    }
    forall i | 0 <= i < |s| - hi
      ensures !p(s[hi..][i])
    {
      assert s[hi..][i] == s[hi + i];
    }
    FilterNone(s[..lo], p);
    FilterNone(s[hi..], p);
  }

  lemma FilterInside<T>(s: seq<T>, p: T -> bool, lo: nat, hi: nat)
    requires lo <= hi <= |s|
    requires forall i :: 0 <= i < |s| ==> (p(s[i]) <==> lo <= i < hi)
    ensures Filter(s[lo..hi], p) == s[lo..hi]
  {
    forall i | 0 <= i < hi - lo
      ensures p(s[lo..hi][i])
    {
      assert s[lo..hi][i] == s[lo + i];
    }
    FilterKeepsAll(s[lo..hi], p);
  }

  /** Filtering twice is filtering once by both conditions; `both` is any
      predicate that holds exactly where p and q do. */
  lemma {:induction false} FilterFilter<T>(s: seq<T>, p: T -> bool, q: T -> bool, both: T -> bool)
    requires forall x :: both(x) == (p(x) && q(x))
    ensures Filter(Filter(s, p), q) == Filter(s, both)
  {
    if s != [] {
      FilterFilter(s[1..], p, q, both);
      FilterConcat(if p(s[0]) then [s[0]] else [], Filter(s[1..], p), q);
      if p(s[0]) {
        assert [s[0]][1..] == [];
      }
    }
  }

  /** Every element that satisfies p is kept as many times as it occurs; the
      others are dropped. */
  lemma {:induction false} FilterMultiset<T>(s: seq<T>, p: T -> bool, x: T)
    ensures multiset(Filter(s, p))[x] == if p(x) then multiset(s)[x] else 0
  {
    if s != [] {
      assert s == [s[0]] + s[1..];
      FilterMultiset(s[1..], p, x);
    }
  }

  /** FilterMultiset for every element at once. */
  lemma FilterCounts<T>(s: seq<T>, p: T -> bool)
    ensures forall x :: multiset(Filter(s, p))[x] == if p(x) then multiset(s)[x] else 0
  {
    forall x
      ensures multiset(Filter(s, p))[x] == if p(x) then multiset(s)[x] else 0
    {
      FilterMultiset(s, p, x);
    }
  }

  /** `s.slice().reverse()`. */
  function Reverse<T>(s: seq<T>): (r: seq<T>)
    ensures |r| == |s|
    ensures forall i :: 0 <= i < |s| ==> r[i] == s[|s| - 1 - i]
  {
    if s == [] then [] else Reverse(s[1..]) + [s[0]]
  }

  /** The element appended last comes first once reversed. */
  lemma ReverseAppend<T>(s: seq<T>, x: T)
    ensures Reverse(s + [x]) == [x] + Reverse(s)
  {
    var r := Reverse(s + [x]);
    assert forall i :: 0 <= i < |r| ==> r[i] == ([x] + Reverse(s))[i];
  }

  /** Reversing keeps every element with its multiplicity. */
  lemma ReversePermutes<T>(s: seq<T>)
    ensures multiset(Reverse(s)) == multiset(s)
  {
    if s != [] {
      assert s == [s[0]] + s[1..];
      ReversePermutes(s[1..]);
    }
  }

  /** Appending the next element of `all` to a prefix of it gives a longer prefix. */
  lemma PrefixExtend<T>(prefix: seq<T>, all: seq<T>, x: T)
    requires prefix <= all && |prefix| < |all| && all[|prefix|] == x
    ensures prefix + [x] <= all
  {
    assert all[..|prefix| + 1] == all[..|prefix|] + [x];
  }
}
