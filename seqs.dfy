/** Sequence operations shared by the query models: filtering (a queryset `.filter`),
    first-occurrence de-duplication (`.distinct()` and Python's `dict.fromkeys`),
    ordering by a descending key (`order_by('-created_at')`) and a seeded shuffle
    standing for the database's random order (`order_by('?')`). */
module Seqs {

  predicate NoDup<T(==)>(s: seq<T>)
  {
    forall i, j :: 0 <= i < j < |s| ==> s[i] != s[j]
  }

  lemma NoDupCons<T>(x: T, s: seq<T>)
    requires x !in s && NoDup(s)
    ensures NoDup([x] + s)
  {
    var t := [x] + s;
    forall i, j | 0 <= i < j < |t| ensures t[i] != t[j] {
      if i == 0 {
        assert t[j] == s[j - 1];
      } else {
        assert t[i] == s[i - 1] && t[j] == s[j - 1];
      }
    }
  }

  lemma {:induction false} NoDupCount<T>(s: seq<T>, x: T)
    requires NoDup(s)
    ensures multiset(s)[x] <= 1
  {
    if s != [] {
      assert s == [s[0]] + s[1..];
      assert NoDup(s[1..]) by {
        forall i, j | 0 <= i < j < |s| - 1 ensures s[1..][i] != s[1..][j] {
          assert s[1..][i] == s[i + 1] && s[1..][j] == s[j + 1];
        }
      }
      NoDupCount(s[1..], x);
      if x == s[0] {
        assert x !in s[1..] by {
          forall k | 0 <= k < |s| - 1 ensures s[1..][k] != x { assert s[1..][k] == s[k + 1]; }
        }
      }
    }
  }

  /** The set of the elements of `s` (Python's `set(s)`). */
  function Elems<T>(s: seq<T>): set<T>
  {
    set x | x in s
  }

  /** A duplicate-free sequence has as many elements as the set of its elements. */
  lemma {:induction false} NoDupCard<T>(s: seq<T>, elems: set<T>)
    requires NoDup(s) && forall x :: x in elems <==> x in s
    ensures |elems| == |s|
  {
    if s != [] {
      var init := s[..|s| - 1];
      var last := s[|s| - 1];
      assert NoDup(init) by {
        forall i, j | 0 <= i < j < |init| ensures init[i] != init[j] {
          assert init[i] == s[i] && init[j] == s[j];
        }
      }
      assert last !in init by {
        forall k | 0 <= k < |init| ensures init[k] != last { assert init[k] == s[k]; }
      }
      assert s == init + [last];
      NoDupCard(init, elems - {last});
    }
  }

  lemma CountTwo<T>(s: seq<T>, i: nat, j: nat)
    requires i < j < |s| && s[i] == s[j]
    ensures multiset(s)[s[i]] >= 2
  {
    assert s == s[..j] + s[j..];
    assert s[i] == s[..j][i];
    assert s[j] == s[j..][0];
  }

  /** A rearrangement of a duplicate-free sequence is duplicate-free. */
  lemma {:induction false} PermutationKeepsNoDup<T>(a: seq<T>, b: seq<T>)
    requires multiset(a) == multiset(b) && NoDup(a)
    ensures NoDup(b)
  {
    forall i, j | 0 <= i < j < |b| ensures b[i] != b[j] {
      if b[i] == b[j] {
        CountTwo(b, i, j);
        NoDupCount(a, b[i]);
      }
    }
  }

  /** The elements of `s` that `keep` accepts, in their order. */
  function Filter<T(==,!new)>(s: seq<T>, keep: T -> bool): (r: seq<T>)
    ensures |r| <= |s|
    ensures forall x :: x in r <==> x in s && keep(x)
    ensures NoDup(s) ==> NoDup(r)
  {
    if s == [] then []
    else
      var rest := Filter(s[1..], keep);
      assert NoDup(s) ==> s[0] !in s[1..] && NoDup(s[1..]) by {
        if NoDup(s) {
          forall k | 0 <= k < |s| - 1 ensures s[1..][k] != s[0] { assert s[1..][k] == s[k + 1]; }
        }
      }
      if keep(s[0]) then
        (if NoDup(s) then NoDupCons(s[0], rest); [s[0]] + rest else [s[0]] + rest)
      else rest
  }

  /** The first occurrence of every element of `s`, in order of first occurrence. */
  function Distinct<T(==,!new)>(s: seq<T>): (r: seq<T>)
    ensures NoDup(r)
    ensures |r| <= |s|
    ensures forall x :: x in r <==> x in s
  {
    if s == [] then []
    else
      var init := s[..|s| - 1];
      var x := s[|s| - 1];
      assert s == init + [x];
      var p := Distinct(init);
      if x in p then p else p + [x]
  }

  lemma {:induction false} DistinctOfNoDup<T(!new)>(s: seq<T>)
    requires NoDup(s)
    ensures Distinct(s) == s
  {
    if s != [] {
      var init := s[..|s| - 1];
      assert NoDup(init);
      DistinctOfNoDup(init);
      assert s[|s| - 1] !in init;
      assert s == init + [s[|s| - 1]];
    }
  }

  /** De-duplicating a concatenation keeps the de-duplicated first part as a prefix. */
  lemma {:induction false} DistinctAppend<T(!new)>(a: seq<T>, b: seq<T>)
    ensures |Distinct(a)| <= |Distinct(a + b)|
    ensures Distinct(a + b)[..|Distinct(a)|] == Distinct(a)
    decreases |b|
  {
    if b == [] {
      assert a + b == a;
    } else {
      var b' := b[..|b| - 1];
      DistinctAppend(a, b');
      assert (a + b)[..|a + b| - 1] == a + b';
    }
  }

  /** The position of the first `x` in `s` (Python's `s.index(x)`). */
  function IndexOf<T(==)>(s: seq<T>, x: T): (i: nat)
    requires x in s
    ensures i < |s| && s[i] == x
    ensures forall k :: 0 <= k < i ==> s[k] != x
  {
    if s[0] == x then 0
    else
      var i := 1 + IndexOf(s[1..], x);
      assert forall k :: 1 <= k < i ==> s[k] == s[1..][k - 1];
      i
  }

  lemma IndexOfUnique<T>(s: seq<T>, x: T, i: nat)
    requires i < |s| && s[i] == x && forall k :: 0 <= k < i ==> s[k] != x
    ensures IndexOf(s, x) == i
  {
  }

  lemma IndexOfTail<T>(s: seq<T>, x: T)
    requires x in s && s[0] != x
    ensures x in s[1..] && IndexOf(s, x) == 1 + IndexOf(s[1..], x)
  {
  }

  /** `Distinct` lists the elements in the order of their first occurrence. */
  lemma {:induction false} DistinctInOrder<T(!new)>(s: seq<T>)
    ensures forall i, j :: 0 <= i < j < |Distinct(s)| ==> IndexOf(s, Distinct(s)[i]) < IndexOf(s, Distinct(s)[j])
  {
    if s != [] {
      var init := s[..|s| - 1];
      var x := s[|s| - 1];
      assert s == init + [x];
      DistinctInOrder(init);
      var p := Distinct(init);
      var d := Distinct(s);
      assert d == if x in p then p else p + [x];
      forall y | y in init ensures IndexOf(s, y) == IndexOf(init, y) {
        IndexOfUnique(s, y, IndexOf(init, y));
      }
      forall i, j | 0 <= i < j < |d| ensures IndexOf(s, d[i]) < IndexOf(s, d[j]) {
        assert d[i] == p[i];
        if j < |p| {
          assert d[j] == p[j];
        } else {
          assert d[j] == x && x !in init;
          IndexOfUnique(s, x, |init|);
        }
      }
    }
  }

  /** Filtering keeps the order in which the kept elements first occur. */
  lemma {:induction false} FilterInOrder<T(!new)>(s: seq<T>, keep: T -> bool, x: T, y: T)
    requires x in Filter(s, keep) && y in Filter(s, keep)
    requires IndexOf(Filter(s, keep), x) < IndexOf(Filter(s, keep), y)
    ensures IndexOf(s, x) < IndexOf(s, y)
  {
    var f := Filter(s, keep);
    assert x != y;
    assert s != [] && keep(x) && keep(y);
    var rest := Filter(s[1..], keep);
    if s[0] == x {
      IndexOfUnique(s, x, 0);
    } else if s[0] == y {
      assert false;
    } else {
      IndexOfTail(s, x);
      IndexOfTail(s, y);
      if keep(s[0]) {
        assert f[1..] == rest;
        IndexOfTail(f, x);
        IndexOfTail(f, y);
      } else {
        assert f == rest;
      }
      FilterInOrder(s[1..], keep, x, y);
    }
  }

  /** At most the first `n` elements (Python's `s[:n]`). */
  function Take<T>(s: seq<T>, n: nat): (r: seq<T>)
    ensures |r| <= n && |r| <= |s|
    ensures |s| <= n ==> r == s
    ensures r == s[..|r|]
  {
    if |s| <= n then s else s[..n]
  }

  /** The first `n` distinct elements keep the order of first occurrence. */
  lemma {:induction false} TakeDistinctInOrder<T(!new)>(s: seq<T>, n: nat)
    ensures var r := Take(Distinct(s), n);
      forall i, j :: 0 <= i < j < |r| ==> IndexOf(s, r[i]) < IndexOf(s, r[j])
  {
    var d := Distinct(s);
    var r := Take(d, n);
    DistinctInOrder(s);
    forall i, j | 0 <= i < j < |r| ensures IndexOf(s, r[i]) < IndexOf(s, r[j]) {
      assert r[i] == d[i] && r[j] == d[j];
    }
  }

  /** An element is left out of the first `n` distinct ones only when `n` were
      taken, each occurring before it. */
  lemma {:induction false} TakeDistinctFirst<T(!new)>(s: seq<T>, n: nat)
    ensures var r := Take(Distinct(s), n);
      forall w :: w in s && w !in r ==>
        |r| == n && forall i :: 0 <= i < |r| ==> IndexOf(s, r[i]) < IndexOf(s, w)
  {
    var d := Distinct(s);
    var r := Take(d, n);
    DistinctInOrder(s);
    forall w | w in s && w !in r
      ensures |r| == n && forall i :: 0 <= i < |r| ==> IndexOf(s, r[i]) < IndexOf(s, w)
    {
      assert w in d;
      var m :| 0 <= m < |d| && d[m] == w;
      assert forall k :: 0 <= k < |r| ==> r[k] == d[k] && d[k] != w;
      forall i | 0 <= i < |r| ensures IndexOf(s, r[i]) < IndexOf(s, w) {
        assert r[i] == d[i];
      }
    }
  }

  predicate SortedDesc<T>(s: seq<T>, key: T -> int)
  {
    forall i, j :: 0 <= i < j < |s| ==> key(s[i]) >= key(s[j])
  }

  function InsertDesc<T(==)>(x: T, s: seq<T>, key: T -> int): (r: seq<T>)
    ensures multiset(r) == multiset(s) + multiset{x}
  {
    if s == [] then [x]
    else if key(x) >= key(s[0]) then [x] + s
    else
      assert s == [s[0]] + s[1..];
      [s[0]] + InsertDesc(x, s[1..], key)
  }

  /** Inserting an element no larger than `b` into a sequence whose elements are
      no larger than `b` keeps them all no larger than `b`. */
  lemma {:induction false} InsertDescBelow<T>(x: T, s: seq<T>, key: T -> int, b: int)
    requires key(x) <= b && forall k :: 0 <= k < |s| ==> key(s[k]) <= b
    ensures forall k :: 0 <= k < |InsertDesc(x, s, key)| ==> key(InsertDesc(x, s, key)[k]) <= b
  {
    if s != [] && key(x) < key(s[0]) {
      InsertDescBelow(x, s[1..], key, b);
    }
  }

  lemma {:induction false} InsertDescSorted<T>(x: T, s: seq<T>, key: T -> int)
    requires SortedDesc(s, key)
    ensures SortedDesc(InsertDesc(x, s, key), key)
  {
    if s != [] && key(x) < key(s[0]) {
      var rest := InsertDesc(x, s[1..], key);
      InsertDescSorted(x, s[1..], key);
      InsertDescBelow(x, s[1..], key, key(s[0]));
      SortedDescCons(s[0], rest, key);
    } else if s != [] {
      SortedDescCons(x, s, key);
    }
  }

  /** An element at least as large as all of a sorted sequence can go first. */
  lemma SortedDescCons<T>(h: T, s: seq<T>, key: T -> int)
    requires SortedDesc(s, key) && forall k :: 0 <= k < |s| ==> key(s[k]) <= key(h)
    ensures SortedDesc([h] + s, key)
  {
    var r := [h] + s;
    forall i, j | 0 <= i < j < |r| ensures key(r[i]) >= key(r[j]) {
      assert r[j] == s[j - 1];
      if i > 0 {
        assert r[i] == s[i - 1];
      }
    }
  }

  /** The elements of `s` from the largest key to the smallest. */
  function SortDesc<T(==)>(s: seq<T>, key: T -> int): (r: seq<T>)
    ensures multiset(r) == multiset(s)
    ensures SortedDesc(r, key)
  {
    if s == [] then []
    else
      assert s == [s[0]] + s[1..];
      var rest := SortDesc(s[1..], key);
      InsertDescSorted(s[0], rest, key);
      InsertDesc(s[0], rest, key)
  }

  /** A random order: the seed picks, step by step, which remaining element comes next. */
  function Shuffle<T(==)>(s: seq<T>, seed: seq<nat>): (r: seq<T>)
    ensures multiset(r) == multiset(s)
    decreases |s|
  {
    if s == [] then []
    else
      var i := if seed == [] then 0 else seed[0] % |s|;
      assert s == s[..i] + [s[i]] + s[i + 1..];
      [s[i]] + Shuffle(s[..i] + s[i + 1..], if seed == [] then [] else seed[1..])
  }

  lemma RemoveAt<T>(s: seq<T>, i: nat)
    requires i < |s|
    ensures multiset(s[..i] + s[i + 1..]) == multiset(s) - multiset{s[i]}
  {
    assert s == s[..i] + [s[i]] + s[i + 1..];
  }

  lemma RestAgrees<T>(s: seq<T>, r: seq<T>, i: nat)
    requires multiset(r) == multiset(s) && i < |s| && r != [] && s[i] == r[0]
    ensures multiset(r[1..]) == multiset(s[..i] + s[i + 1..])
  {
    RemoveAt(s, i);
    assert r == [r[0]] + r[1..];
  }

  lemma ShuffleFirst<T>(s: seq<T>, i: nat, seed: seq<nat>)
    requires i < |s|
    ensures Shuffle(s, [i] + seed) == [s[i]] + Shuffle(s[..i] + s[i + 1..], seed)
  {
    ModSmall(i, |s|);
    assert ([i] + seed)[1..] == seed;
  }

  lemma ModSmall(i: nat, n: nat)
    requires i < n
    ensures i % n == i
  {
  }

  /** Every rearrangement of `s` is the shuffle of `s` under some seed, so `Shuffle`
      stands for an arbitrary permutation and nothing more. */
  lemma {:induction false} ShuffleReaches<T>(s: seq<T>, r: seq<T>) returns (seed: seq<nat>)
    requires multiset(r) == multiset(s)
    ensures Shuffle(s, seed) == r
    decreases |s|
  {
    if s == [] {
      assert |r| == |multiset(r)| == 0;
      seed := [];
    } else {
      assert |r| == |multiset(r)| == |s|;
      assert r[0] in multiset(r);
      var i :| 0 <= i < |s| && s[i] == r[0];
      assert r == [r[0]] + r[1..];
      var rest := s[..i] + s[i + 1..];
      RestAgrees(s, r, i);
      var seed' := ShuffleReaches(rest, r[1..]);
      seed := [i] + seed';
      ShuffleFirst(s, i, seed');
    }
  }
}
