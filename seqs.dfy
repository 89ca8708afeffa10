/** Sequence operations the source takes from the JavaScript array library
    (`filter`, `findIndex`/`find`, a shuffling `sort`, `slice`), written once
    here with the facts the rest of the model relies on. */
module Seqs {
  import opened Model

  /** `a` is obtained from `b` by dropping elements, keeping their order. */
  ghost predicate IsSubsequence<T>(a: seq<T>, b: seq<T>)
    decreases |b|
  {
    |a| == 0 ||
    (|b| > 0 && if a[0] == b[0] then IsSubsequence(a[1..], b[1..]) else IsSubsequence(a, b[1..]))
  }

  /** No element occurs twice. */
  ghost predicate NoDuplicates<T>(s: seq<T>) {
    forall i, j :: 0 <= i < j < |s| ==> s[i] != s[j]
  }

  /** `Array.prototype.filter`: the elements that satisfy `keep`, in order. */
  function Filter<T(!new)>(s: seq<T>, keep: T -> bool): (r: seq<T>)
    ensures |r| <= |s|
    ensures forall x :: x in r <==> x in s && keep(x)
    ensures (forall i :: 0 <= i < |s| ==> keep(s[i])) ==> r == s
  {
    if |s| == 0 then []
    else if keep(s[0]) then [s[0]] + Filter(s[1..], keep)
    else Filter(s[1..], keep)
  }

  /** Filtering only drops elements: what is kept stays in its order. */
  lemma {:induction false} FilterIsSubsequence<T(!new)>(s: seq<T>, keep: T -> bool)
    ensures IsSubsequence(Filter(s, keep), s)
  {
    if |s| > 0 {
      FilterIsSubsequence(s[1..], keep);
      var rest := Filter(s[1..], keep);
      if !keep(s[0]) {
        assert |rest| > 0 ==> rest[0] in rest && rest[0] != s[0];
      }
    }
  }

  /** Filtering sees each element on its own: it distributes over concatenation. */
  lemma {:induction false} FilterAppend<T(!new)>(a: seq<T>, b: seq<T>, keep: T -> bool)
    ensures Filter(a + b, keep) == Filter(a, keep) + Filter(b, keep)
  {
    if |a| > 0 {
      assert (a + b)[0] == a[0];
      assert (a + b)[1..] == a[1..] + b;
      FilterAppend(a[1..], b, keep);
    } else {
      assert a + b == b;
    }
  }

  /** A kept element keeps its multiplicity; a dropped one is gone. */
  lemma {:induction false} FilterMultiplicity<T(!new)>(s: seq<T>, keep: T -> bool, x: T)
    ensures multiset(Filter(s, keep))[x] == if keep(x) then multiset(s)[x] else 0
  {
    if |s| > 0 {
      FilterMultiplicity(s[1..], keep, x);
      assert s == [s[0]] + s[1..];
    }
  }

  /** `FilterIsSubsequence` for every filter at once. */
  lemma FilterSubsequences<T(!new)>(s: seq<T>)
    ensures forall keep: T -> bool :: IsSubsequence(Filter(s, keep), s)
  {
    forall keep: T -> bool
      ensures IsSubsequence(Filter(s, keep), s)
    {
      FilterIsSubsequence(s, keep);
    }
  }

  /** `FilterMultiplicity` for every filter and every element at once. */
  lemma FilterMultiplicities<T(!new)>(s: seq<T>)
    ensures forall keep: T -> bool, x :: multiset(Filter(s, keep))[x] == if keep(x) then multiset(s)[x] else 0
  {
    forall keep: T -> bool, x: T
      ensures multiset(Filter(s, keep))[x] == if keep(x) then multiset(s)[x] else 0
    {
      FilterMultiplicity(s, keep, x);
    }
  }

  /** `FilterIgnoresDroppedUpdate` for every filter that drops both elements. */
  lemma FiltersIgnoreDroppedUpdate<T(!new)>(s: seq<T>, i: nat, x: T)
    requires i < |s|
    ensures forall keep: T -> bool :: !keep(s[i]) && !keep(x) ==> Filter(s[i := x], keep) == Filter(s, keep)
  {
    forall keep: T -> bool | !keep(s[i]) && !keep(x)
      ensures Filter(s[i := x], keep) == Filter(s, keep)
    {
      FilterIgnoresDroppedUpdate(s, keep, i, x);
    }
  }

  /** Filtering what a filter kept keeps all of it. */
  lemma FilterTwice<T(!new)>(s: seq<T>, keep: T -> bool)
    ensures Filter(Filter(s, keep), keep) == Filter(s, keep)
  {
    var f := Filter(s, keep);
    forall k | 0 <= k < |f|
      ensures keep(f[k])
    {
      assert f[k] in f;
    }
  }

  /** Two complementary filters split a sequence: their lengths add up to its length. */
  lemma {:induction false} FilterComplement<T(!new)>(s: seq<T>, p: T -> bool, q: T -> bool)
    requires forall x :: q(x) == !p(x)
    ensures |Filter(s, p)| + |Filter(s, q)| == |s|
  {
    if |s| > 0 {
      FilterComplement(s[1..], p, q);
    }
  }

  /** Changing an element that the filter drops into another dropped element
      does not change what the filter keeps. */
  lemma {:induction false} FilterIgnoresDroppedUpdate<T(!new)>(s: seq<T>, keep: T -> bool, i: nat, x: T)
    requires i < |s| && !keep(s[i]) && !keep(x)
    ensures Filter(s[i := x], keep) == Filter(s, keep)
  {
    var t := s[i := x];
    if i == 0 {
      assert t[1..] == s[1..];
    } else {
      assert t[1..] == s[1..][i - 1 := x];
      FilterIgnoresDroppedUpdate(s[1..], keep, i - 1, x);
    }
  }

  /** `Array.prototype.findIndex`: the index of the first element that satisfies `p`. */
  function FirstIndex<T>(s: seq<T>, p: T -> bool): (r: Option<nat>)
    ensures r.Some? ==> r.value < |s| && p(s[r.value]) && forall j :: 0 <= j < r.value ==> !p(s[j])
    ensures r.None? <==> forall j :: 0 <= j < |s| ==> !p(s[j])
  {
    if |s| == 0 then None
    else if p(s[0]) then Some(0)
    else match FirstIndex(s[1..], p)
      case None => None
      case Some(k) => Some(k + 1)
  }

  /** `s` without its element at index `k`. */
  function RemoveAt<T>(s: seq<T>, k: nat): (r: seq<T>)
    requires k < |s|
    ensures |r| == |s| - 1
  {
    s[..k] + s[k + 1..]
  }

  lemma RemoveAtMultiset<T>(s: seq<T>, k: nat)
    requires k < |s|
    ensures multiset(s) == multiset(RemoveAt(s, k)) + multiset{s[k]}
  {
    assert s == s[..k] + [s[k]] + s[k + 1..];
  }

  /** The shuffle: repeatedly take the element that the next pick points at
      (the first one when the pick is out of range) and put it next. `picks`
      stands for the random draws; the model only relies on the result being
      a permutation. */
  function Shuffle<T>(s: seq<T>, picks: seq<nat>): (r: seq<T>)
    ensures |r| == |s|
    decreases |s|
  {
    if |s| == 0 then []
    else
      var k := if |picks| > 0 && picks[0] < |s| then picks[0] else 0;
      [s[k]] + Shuffle(RemoveAt(s, k), if |picks| > 0 then picks[1..] else [])
  }

  /** Whatever the draws, the shuffle only reorders: the result is a
      permutation of its input. */
  lemma {:induction false} ShuffleIsPermutation<T>(s: seq<T>, picks: seq<nat>)
    ensures multiset(Shuffle(s, picks)) == multiset(s)
    decreases |s|
  {
    if |s| > 0 {
      var k := if |picks| > 0 && picks[0] < |s| then picks[0] else 0;
      var more := if |picks| > 0 then picks[1..] else [];
      RemoveAtMultiset(s, k);
      ShuffleIsPermutation(RemoveAt(s, k), more);
      assert Shuffle(s, picks) == [s[k]] + Shuffle(RemoveAt(s, k), more);
    }
  }

  /** A first draw that picks `t[0]`, followed by draws that shuffle the rest
      into `t[1..]`, shuffles `s` into `t`. */
  lemma ShuffleFirstPick<T>(s: seq<T>, t: seq<T>, k: nat, more: seq<nat>)
    requires k < |s| && |t| > 0 && s[k] == t[0]
    requires Shuffle(RemoveAt(s, k), more) == t[1..]
    ensures Shuffle(s, [k] + more) == t
  {
    var picks := [k] + more;
    assert picks[0] == k && picks[1..] == more;
    assert t == [t[0]] + t[1..];
  }

  /** Taking the same first element out of two permutations of each other
      leaves permutations of each other. */
  lemma RemainderIsPermutation<T>(s: seq<T>, t: seq<T>, k: nat)
    requires multiset(s) == multiset(t) && |t| > 0
    requires k < |s| && s[k] == t[0]
    ensures multiset(RemoveAt(s, k)) == multiset(t[1..])
  {
    RemoveAtMultiset(s, k);
    assert t == [t[0]] + t[1..];
    assert multiset(t) == multiset{t[0]} + multiset(t[1..]);
    forall x
      ensures multiset(RemoveAt(s, k))[x] == multiset(t[1..])[x]
    {
      assert multiset(s)[x] == multiset(RemoveAt(s, k))[x] + multiset{t[0]}[x];
    }
  }

  /** No permutation is out of reach of the shuffle: the model does not narrow
      which orders the random draws can produce. */
  lemma {:induction false} ShuffleReachesEveryPermutation<T>(s: seq<T>, t: seq<T>)
    requires multiset(s) == multiset(t)
    ensures exists picks :: Shuffle(s, picks) == t
  {
    if |t| == 0 {
      assert |multiset(s)| == 0;
      assert Shuffle(s, []) == t;
    } else {
      assert t[0] in multiset(t);
      var k :| 0 <= k < |s| && s[k] == t[0];
      RemainderIsPermutation(s, t, k);
      ShuffleReachesEveryPermutation(RemoveAt(s, k), t[1..]);
      var more :| Shuffle(RemoveAt(s, k), more) == t[1..];
      ShuffleFirstPick(s, t, k, more);
    }
  }

  /** A sequence without duplicates has every multiplicity at most one. */
  lemma {:induction false} NoDuplicatesMultiplicity<T>(s: seq<T>, x: T)
    requires NoDuplicates(s)
    ensures multiset(s)[x] <= 1
  {
    if |s| > 0 {
      assert s == [s[0]] + s[1..];
      NoDuplicatesMultiplicity(s[1..], x);
      if s[0] == x {
        assert x !in s[1..];
      }
    }
  }

  /** Taking a sub-multiset of a duplicate-free sequence cannot create duplicates. */
  lemma SubMultisetNoDuplicates<T>(r: seq<T>, s: seq<T>)
    requires multiset(r) <= multiset(s)
    requires NoDuplicates(s)
    ensures NoDuplicates(r)
  {
    forall i, j | 0 <= i < j < |r|
      ensures r[i] != r[j]
    {
      if r[i] == r[j] {
        var x := r[i];
        assert r == r[..j] + r[j..];
        assert x in r[..j] && x in r[j..];
        assert multiset(r)[x] == multiset(r[..j])[x] + multiset(r[j..])[x];
        NoDuplicatesMultiplicity(s, x);
        assert false;
      }
    }
  }
}
