/** Sequence operations behind the document-store updates (`$addToSet`, `$pull`, array
    `filter`) and the sorted, capped queries (`sort` + `limit`). */
module Seqs {
  import opened Wrappers

  /** Index of the first element meeting `p`: what `findOne` and `Array.prototype.find` locate. */
  function FindFirst<T>(s: seq<T>, p: T -> bool): (r: Option<nat>)
    ensures r.Some? ==> r.value < |s| && p(s[r.value])
    ensures r.Some? ==> forall k :: 0 <= k < r.value ==> !p(s[k])
    ensures r.None? ==> forall k :: 0 <= k < |s| ==> !p(s[k])
  {
    if s == [] then None
    else if p(s[0]) then Some(0)
    else match FindFirst(s[1..], p)
      case None => None
      case Some(k) => Some(k + 1)
  }

  predicate NoDup<T(==,!new)>(s: seq<T>)
  {
    forall i, j :: 0 <= i < j < |s| ==> s[i] != s[j]
  }

  /** `r` can be obtained from `s` by deleting elements: same relative order. */
  predicate IsSubsequence<T(==,!new)>(r: seq<T>, s: seq<T>)
    decreases |s|
  {
    if |r| == 0 then true
    else if |s| == 0 then false
    else if r[0] == s[0] then IsSubsequence(r[1..], s[1..])
    else IsSubsequence(r, s[1..])
  }

  lemma {:induction false} SubsequenceCons<T(!new)>(r: seq<T>, x: T, s: seq<T>)
    requires IsSubsequence(r, s)
    ensures IsSubsequence(r, [x] + s)
    decreases |s|, 1
  {
    assert ([x] + s)[1..] == s;
    if |r| > 0 && r[0] == x {
      SubsequenceDropFirst(r, s);
    }
  }

  lemma {:induction false} SubsequenceDropFirst<T(!new)>(r: seq<T>, s: seq<T>)
    requires |r| > 0 && IsSubsequence(r, s)
    ensures IsSubsequence(r[1..], s)
    decreases |s|, 0
  {
    assert s == [s[0]] + s[1..];
    if r[0] == s[0] {
      SubsequenceCons(r[1..], s[0], s[1..]);
    } else {
      SubsequenceDropFirst(r, s[1..]);
      SubsequenceCons(r[1..], s[0], s[1..]);
    }
  }

  /** `Array.prototype.filter`, and the shape of a query that keeps the documents matching `p`. */
  function Filter<T(==,!new)>(s: seq<T>, p: T -> bool): (r: seq<T>)
    ensures |r| <= |s|
    ensures forall x :: x in r <==> x in s && p(x)
    ensures multiset(r) <= multiset(s)
  {
    if s == [] then []
    else
      assert s == [s[0]] + s[1..];
      (if p(s[0]) then [s[0]] else []) + Filter(s[1..], p)
  }

  /** Filtering keeps the survivors in their original order. */
  lemma {:induction false} FilterIsSubsequence<T(!new)>(s: seq<T>, p: T -> bool)
    ensures IsSubsequence(Filter(s, p), s)
  {
    if s != [] {
      FilterIsSubsequence(s[1..], p);
      var rest := Filter(s[1..], p);
      if p(s[0]) {
        assert Filter(s, p) == [s[0]] + rest;
        assert ([s[0]] + rest)[1..] == rest;
      } else {
        assert Filter(s, p) == rest;
        SubsequenceCons(rest, s[0], s[1..]);
        assert [s[0]] + s[1..] == s;
      }
    }
  }

  lemma {:induction false} FilterConcat<T(!new)>(a: seq<T>, b: seq<T>, p: T -> bool)
    ensures Filter(a + b, p) == Filter(a, p) + Filter(b, p)
  {
    if a != [] {
      assert (a + b)[1..] == a[1..] + b;
      FilterConcat(a[1..], b, p);
    } else {
      assert a + b == b;
    }
  }

  lemma {:induction false} FilterNoDup<T(!new)>(s: seq<T>, p: T -> bool)
    requires NoDup(s)
    ensures NoDup(Filter(s, p))
  {
    if s != [] {
      assert s[0] !in s[1..];
      FilterNoDup(s[1..], p);
    }
  }

  /** Filtering with a predicate every element meets changes nothing. */
  lemma {:induction false} FilterAll<T(!new)>(s: seq<T>, p: T -> bool)
    requires forall i :: 0 <= i < |s| ==> p(s[i])
    ensures Filter(s, p) == s
  {
    if s != [] {
      FilterAll(s[1..], p);
      assert [s[0]] + s[1..] == s;
    }
  }

  /** Filtering with a predicate no element meets leaves nothing. */
  lemma {:induction false} FilterNone<T(!new)>(s: seq<T>, p: T -> bool)
    requires forall i :: 0 <= i < |s| ==> !p(s[i])
    ensures Filter(s, p) == []
  {
    if s != [] {
      FilterNone(s[1..], p);
    }
  }

  /** Appending the only element that meets `p` makes it the whole of the filter. */
  lemma FilterOnlyLast<T(!new)>(s: seq<T>, x: T, p: T -> bool)
    requires forall i :: 0 <= i < |s| ==> !p(s[i])
    requires p(x)
    ensures Filter(s + [x], p) == [x]
  {
    FilterConcat(s, [x], p);
    FilterNone(s, p);
    assert Filter([x], p) == [x] + Filter([x][1..], p);
  }

  /** Counting by cases: when `p` holds exactly where one of two exclusive predicates does, its
      matches are the matches of the two added up. */
  lemma {:induction false} FilterSplit<T(!new)>(s: seq<T>, p: T -> bool, a: T -> bool, b: T -> bool)
    requires forall x :: p(x) <==> a(x) || b(x)
    requires forall x :: !(a(x) && b(x))
    ensures |Filter(s, p)| == |Filter(s, a)| + |Filter(s, b)|
  {
    if s != [] {
      FilterSplit(s[1..], p, a, b);
    }
  }

  /** A stronger condition matches no more elements. */
  lemma {:induction false} FilterMono<T(!new)>(s: seq<T>, a: T -> bool, p: T -> bool)
    requires forall x :: a(x) ==> p(x)
    ensures |Filter(s, a)| <= |Filter(s, p)|
  {
    if s != [] {
      FilterMono(s[1..], a, p);
    }
  }

  /** `$addToSet`: set-union of one element onto an array, appending only when absent. */
  function AddToSet<T(==,!new)>(s: seq<T>, x: T): (r: seq<T>)
    ensures x in r
    ensures forall y :: y in r <==> y in s || y == x
    ensures |s| <= |r| && r[..|s|] == s
    ensures NoDup(s) ==> NoDup(r)
  {
    if x in s then s else s + [x]
  }

  /** `$pull`, and `filter(y => y !== x)`: every occurrence of `x` goes, the rest stay in order. */
  function RemoveAll<T(==,!new)>(s: seq<T>, x: T): (r: seq<T>)
    ensures x !in r
    ensures forall y :: y in r <==> y in s && y != x
    ensures IsSubsequence(r, s)
    ensures NoDup(s) ==> NoDup(r)
  {
    var p := (y: T) => y != x;
    FilterIsSubsequence(s, p);
    assert NoDup(s) ==> NoDup(Filter(s, p)) by {
      if NoDup(s) {
        FilterNoDup(s, p);
      }
    }
    Filter(s, p)
  }

  /** In a duplicate-free array, pulling a present element shortens it by exactly one. */
  lemma {:induction false} RemoveAllLength<T(!new)>(s: seq<T>, x: T)
    requires NoDup(s) && x in s
    ensures |RemoveAll(s, x)| == |s| - 1
  {
    assert s == [s[0]] + s[1..];
    if s[0] == x {
      assert x !in s[1..];
      FilterAll(s[1..], y => y != x);
    } else {
      RemoveAllLength(s[1..], x);
    }
  }

  /** `limit(n)`. */
  function Take<T(==,!new)>(s: seq<T>, n: nat): (r: seq<T>)
    ensures |r| == if |s| <= n then |s| else n
    ensures r <= s
    ensures multiset(r) <= multiset(s)
  {
    if |s| <= n then s
    else
      assert s == s[..n] + s[n..];
      s[..n]
  }

  predicate SortedDesc<T(==,!new)>(s: seq<T>, key: T -> int)
  {
    forall i, j :: 0 <= i < j < |s| ==> key(s[i]) >= key(s[j])
  }

  function InsertDesc<T(==,!new)>(x: T, s: seq<T>, key: T -> int): (r: seq<T>)
    requires SortedDesc(s, key)
    ensures SortedDesc(r, key)
    ensures multiset(r) == multiset(s) + multiset{x}
    ensures |r| == |s| + 1
  {
    if s == [] || key(x) >= key(s[0]) then [x] + s
    else
      var rest := InsertDesc(x, s[1..], key);
      ConsAboveInsert(x, s, rest, key);
      [s[0]] + rest
  }

  /** Putting the head back in front of the tail with `x` inserted keeps the order, since the
      head's key is above `x`'s and above every key in the tail. */
  lemma ConsAboveInsert<T(!new)>(x: T, s: seq<T>, rest: seq<T>, key: T -> int)
    requires s != [] && SortedDesc(s, key) && key(x) < key(s[0])
    requires SortedDesc(rest, key) && multiset(rest) == multiset(s[1..]) + multiset{x}
    ensures SortedDesc([s[0]] + rest, key)
    ensures multiset([s[0]] + rest) == multiset(s) + multiset{x}
  {
    assert s == [s[0]] + s[1..];
    forall k | 0 <= k < |rest|
      ensures key(s[0]) >= key(rest[k])
    {
      var y := rest[k];
      assert y in multiset(rest);
      if y != x {
        assert y in multiset(s[1..]);
        assert y in s[1..];
      }
    }
    var r := [s[0]] + rest;
    forall i, j | 0 <= i < j < |r| ensures key(r[i]) >= key(r[j]) {
      if i > 0 {
        assert r[i] == rest[i - 1] && r[j] == rest[j - 1];
      } else {
        assert r[j] == rest[j - 1];
      }
    }
  }

  /** A stable sort on a descending integer key (`sort({ key: -1 })`, or a comparator `b - a`):
      the result is a permutation of the input in non-increasing key order. */
  function SortDesc<T(==,!new)>(s: seq<T>, key: T -> int): (r: seq<T>)
    ensures SortedDesc(r, key)
    ensures multiset(r) == multiset(s)
    ensures |r| == |s|
  {
    if s == [] then []
    else
      assert s == [s[0]] + s[1..];
      InsertDesc(s[0], SortDesc(s[1..], key), key)
  }

  /** The keys of `s` are pairwise distinct. */
  predicate DistinctKeys<T>(s: seq<T>, key: T -> int)
  {
    forall i, j :: 0 <= i < j < |s| ==> key(s[i]) != key(s[j])
  }

  /** With pairwise distinct keys there is only one sorted order: two sorted permutations of the
      same elements are equal, whichever way a sort breaks ties. */
  lemma {:induction false} SortedOrderUnique<T(!new)>(s: seq<T>, t: seq<T>, key: T -> int)
    requires multiset(s) == multiset(t)
    requires SortedDesc(s, key) && SortedDesc(t, key)
    requires DistinctKeys(s, key)
    ensures s == t
  {
    assert |s| == |multiset(s)| == |multiset(t)| == |t|;
    if s != [] {
      SortedHeadsAgree(s, t, key);
      TailMultisets(s, t);
      SortedOrderUnique(s[1..], t[1..], key);
      assert s == [s[0]] + s[1..] && t == [t[0]] + t[1..];
    }
  }

  /** Both sorted orders start with the element of largest key, which distinct keys make unique. */
  lemma SortedHeadsAgree<T(!new)>(s: seq<T>, t: seq<T>, key: T -> int)
    requires s != [] && multiset(s) == multiset(t)
    requires SortedDesc(s, key) && SortedDesc(t, key)
    requires DistinctKeys(s, key)
    ensures t != [] && s[0] == t[0]
  {
    var x := s[0];
    assert x in multiset(t);
    var y := t[0];
    assert y in multiset(s);
    var j :| 0 <= j < |t| && t[j] == x;
    var i :| 0 <= i < |s| && s[i] == y;
    assert key(y) >= key(x) by { assert key(t[0]) >= key(t[j]); }
    assert key(x) >= key(y) by { assert key(s[0]) >= key(s[i]); }
    assert i == 0;
  }

  /** Removing the same first element from two permutations leaves two permutations. */
  lemma TailMultisets<T>(s: seq<T>, t: seq<T>)
    requires s != [] && t != [] && s[0] == t[0] && multiset(s) == multiset(t)
    ensures multiset(s[1..]) == multiset(t[1..])
  {
    assert s == [s[0]] + s[1..] && t == [t[0]] + t[1..];
    forall z ensures multiset(s[1..])[z] == multiset(t[1..])[z] {
      assert multiset(s)[z] == multiset{s[0]}[z] + multiset(s[1..])[z];
      assert multiset(t)[z] == multiset{s[0]}[z] + multiset(t[1..])[z];
    }
  }

  /** `f` applied to every element, in order. */
  function Map<T, U>(s: seq<T>, f: T -> U): (r: seq<U>)
    ensures |r| == |s|
    ensures forall k :: 0 <= k < |r| ==> r[k] == f(s[k])
  {
    seq(|s|, k requires 0 <= k < |s| => f(s[k]))
  }

  /** Mapping keeps multiset inclusion: a selection of the elements, mapped, is a selection of the
      mapped elements. */
  lemma {:induction false} MapSubMultiset<T, U>(a: seq<T>, b: seq<T>, f: T -> U)
    requires multiset(a) <= multiset(b)
    ensures multiset(Map(a, f)) <= multiset(Map(b, f))
    decreases |a|
  {
    if a != [] {
      assert a[0] in multiset(b);
      var i :| 0 <= i < |b| && b[i] == a[0];
      SubMultisetWithout(a, b, i);
      MapSubMultiset(a[1..], b[..i] + b[i + 1..], f);
      MapCons(a, f);
      MapAround(b[..i], a[0], b[i + 1..], f);
    }
  }

  lemma MapCons<T, U>(a: seq<T>, f: T -> U)
    requires a != []
    ensures multiset(Map(a, f)) == multiset(Map(a[1..], f)) + multiset{f(a[0])}
  {
    assert Map(a, f) == [f(a[0])] + Map(a[1..], f);
  }

  lemma MapAround<T, U>(pre: seq<T>, x: T, post: seq<T>, f: T -> U)
    ensures multiset(Map(pre + [x] + post, f)) == multiset(Map(pre + post, f)) + multiset{f(x)}
  {
    assert Map(pre + [x] + post, f) == Map(pre, f) + [f(x)] + Map(post, f);
    assert Map(pre + post, f) == Map(pre, f) + Map(post, f);
  }

  /** Taking one copy of `a`'s first element out of `b` keeps the rest of `a` inside what is left. */
  lemma SubMultisetWithout<T>(a: seq<T>, b: seq<T>, i: nat)
    requires multiset(a) <= multiset(b) && a != [] && i < |b| && b[i] == a[0]
    ensures b == b[..i] + [a[0]] + b[i + 1..]
    ensures multiset(a[1..]) <= multiset(b[..i] + b[i + 1..])
  {
    var rest := b[..i] + b[i + 1..];
    assert b == b[..i] + [b[i]] + b[i + 1..];
    assert multiset(b) == multiset(rest) + multiset{a[0]};
    assert a == [a[0]] + a[1..];
    assert multiset(a) == multiset(a[1..]) + multiset{a[0]};
    forall z ensures multiset(a[1..])[z] <= multiset(rest)[z] {
      assert multiset(a)[z] <= multiset(b)[z];
    }
  }

  /** `sort({ key: -1 }).limit(n)`: at most `n` elements of `s`, largest keys first, and nothing
      left out has a larger key than anything kept. */
  function TopByKey<T(==,!new)>(s: seq<T>, n: nat, key: T -> int): (r: seq<T>)
    ensures |r| == if |s| <= n then |s| else n
    ensures SortedDesc(r, key)
    ensures forall x :: x in r ==> x in s
    ensures forall q, x :: q in r && x in s && x !in r ==> key(x) <= key(q)
    ensures multiset(r) <= multiset(s)
    ensures |s| <= n ==> multiset(r) == multiset(s)
  {
    var sorted := SortDesc(s, key);
    assert forall x :: x in sorted <==> x in s by {
      forall x ensures x in sorted <==> x in s {
        assert x in sorted <==> x in multiset(sorted);
        assert x in s <==> x in multiset(s);
      }
    }
    TakeSortedIsTop(sorted, n, key);
    Take(sorted, n)
  }

  /** The first `n` of a list sorted this way are its `n` largest keys: everything left
      out has a key no larger than anything kept. */
  lemma {:induction false} TakeSortedIsTop<T(!new)>(s: seq<T>, n: nat, key: T -> int)
    requires SortedDesc(s, key)
    ensures SortedDesc(Take(s, n), key)
    ensures forall q, x :: q in Take(s, n) && x in s && x !in Take(s, n) ==> key(x) <= key(q)
  {
    var r := Take(s, n);
    assert forall j :: 0 <= j < |r| ==> s[j] in r by {
      forall j | 0 <= j < |r| ensures s[j] in r {
        assert r[j] == s[j];
      }
    }
    forall q, x | q in r && x in s && x !in r
      ensures key(x) <= key(q)
    {
      var j :| 0 <= j < |s| && s[j] == x;
      var i :| 0 <= i < |r| && r[i] == q;
      assert s[i] == q;
    }
  }
}
