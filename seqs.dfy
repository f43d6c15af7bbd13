/**
 * Generic operations on tables held as sequences of rows: filtering, counting,
 * reordering by a permutation of positions, and a stable sort on a string key.
 * These stand for the dataset library's `filter`, `shuffle` and `sort`.
 */
module Seqs {
  import opened Text

  /** How many elements of `s` satisfy `p`. */
  function Count<T>(p: T -> bool, s: seq<T>): nat
  {
    if s == [] then 0 else (if p(s[0]) then 1 else 0) + Count(p, s[1..])
  }

  /**
   * A sequence whose first `split` elements satisfy `p` and not `q`, and whose
   * other elements satisfy `q` and not `p`, counts `split` elements for `p` and
   * the rest for `q`.
   */
  lemma {:induction false} CountSplit<T>(p: T -> bool, q: T -> bool, s: seq<T>, split: nat)
    requires split <= |s|
    requires forall i :: 0 <= i < |s| ==> if i < split then p(s[i]) && !q(s[i]) else q(s[i]) && !p(s[i])
    ensures Count(p, s) == split
    ensures Count(q, s) == |s| - split
    decreases |s|
  {
    if s != [] {
      var split' := if split > 0 then split - 1 else 0;
      assert forall i :: 0 <= i < |s| - 1 ==> s[1..][i] == s[i + 1];
      CountSplit(p, q, s[1..], split');
    }
  }

  /** The elements of `s` that satisfy `p`, in their original order. */
  function Filter<T(!new)>(p: T -> bool, s: seq<T>): (r: seq<T>)
    ensures |r| == Count(p, s)
    ensures forall i :: 0 <= i < |r| ==> p(r[i])
  {
    if s == [] then []
    else
      assert s == [s[0]] + s[1..];
      (if p(s[0]) then [s[0]] else []) + Filter(p, s[1..])
  }

  /** The filtered sequence holds every passing element as often as `s` does, and nothing else. */
  lemma {:induction false} FilterMultiset<T(!new)>(p: T -> bool, s: seq<T>)
    ensures forall x :: multiset(Filter(p, s))[x] == if p(x) then multiset(s)[x] else 0
    decreases |s|
  {
    if s != [] {
      FilterMultiset(p, s[1..]);
      assert s == [s[0]] + s[1..];
    }
  }

  /** Filtering commutes with concatenation, so relative order is kept. */
  lemma {:induction false} FilterConcat<T(!new)>(p: T -> bool, a: seq<T>, b: seq<T>)
    ensures Filter(p, a + b) == Filter(p, a) + Filter(p, b)
    decreases |a|
  {
    if a == [] {
      assert a + b == b;
    } else {
      assert (a + b)[1..] == a[1..] + b;
      FilterConcat(p, a[1..], b);
    }
  }

  /** Filtering keeps a sequence unchanged exactly when all of it passes. */
  lemma {:induction false} FilterAll<T(!new)>(p: T -> bool, s: seq<T>)
    requires forall i :: 0 <= i < |s| ==> p(s[i])
    ensures Filter(p, s) == s
    decreases |s|
  {
    if s != [] {
      FilterAll(p, s[1..]);
      assert [s[0]] + s[1..] == s;
    }
  }

  /** Counting does not depend on the order of the elements. */
  lemma CountPermutation<T(!new)>(p: T -> bool, a: seq<T>, b: seq<T>)
    requires multiset(a) == multiset(b)
    ensures Count(p, a) == Count(p, b)
  {
    var fa, fb := Filter(p, a), Filter(p, b);
    FilterMultiset(p, a);
    FilterMultiset(p, b);
    assert multiset(fa) == multiset(fb) by {
      forall x ensures multiset(fa)[x] == multiset(fb)[x] { }
    }
    assert |multiset(fa)| == |fa| && |multiset(fb)| == |fb|;
  }

  /** Applies `f` to every element. */
  function MapSeq<T, U>(f: T -> U, s: seq<T>): (r: seq<U>)
    ensures |r| == |s| && forall i :: 0 <= i < |s| ==> r[i] == f(s[i])
  {
    seq(|s|, i requires 0 <= i < |s| => f(s[i]))
  }

  /** Taking the same element out of two orderings of the same elements leaves two orderings. */
  lemma RemoveMatching<T>(a: seq<T>, b: seq<T>, i: nat)
    requires multiset(a) == multiset(b) && a != [] && i < |b| && b[i] == a[0]
    ensures multiset(a[1..]) == multiset(b[..i] + b[i + 1..])
  {
    assert b == b[..i] + [b[i]] + b[i + 1..];
    assert a == [a[0]] + a[1..];
    calc {
      multiset(a[1..]);
      multiset(a) - multiset{a[0]};
      multiset(b) - multiset{a[0]};
      multiset(b[..i] + b[i + 1..]);
    }
  }

  /** The images of a sequence are the images without position `i` plus the image at `i`. */
  lemma MapRemoveAt<T, U>(f: T -> U, s: seq<T>, i: nat)
    requires i < |s|
    ensures multiset(MapSeq(f, s)) == multiset(MapSeq(f, s[..i] + s[i + 1..])) + multiset{f(s[i])}
  {
    var front, back := MapSeq(f, s[..i]), MapSeq(f, s[i + 1..]);
    assert MapSeq(f, s) == front + [f(s[i])] + back;
    assert MapSeq(f, s[..i] + s[i + 1..]) == front + back;
  }

  /** The images of a non-empty sequence are the images of its tail plus the image of its head. */
  lemma MapRemoveFirst<T, U>(f: T -> U, s: seq<T>)
    requires s != []
    ensures multiset(MapSeq(f, s)) == multiset(MapSeq(f, s[1..])) + multiset{f(s[0])}
  {
    assert MapSeq(f, s) == [f(s[0])] + MapSeq(f, s[1..]);
  }

  /** Mapping two orderings of the same elements gives two orderings of the same images. */
  lemma {:induction false} MapPermutation<T, U>(f: T -> U, a: seq<T>, b: seq<T>)
    requires multiset(a) == multiset(b)
    ensures multiset(MapSeq(f, a)) == multiset(MapSeq(f, b))
    decreases |a|
  {
    if a == [] {
      assert b == [];
    } else {
      assert a[0] in multiset(b);
      var i :| 0 <= i < |b| && b[i] == a[0];
      RemoveMatching(a, b, i);
      MapPermutation(f, a[1..], b[..i] + b[i + 1..]);
      MapRemoveFirst(f, a);
      MapRemoveAt(f, b, i);
      var rest := multiset(MapSeq(f, a[1..]));
      assert multiset(MapSeq(f, a)) == rest + multiset{f(a[0])};
      assert multiset(MapSeq(f, b)) == rest + multiset{f(a[0])};
    }
  }

  // ---------------------------------------------------------------- permutations

  /** `perm` lists every position 0..n-1 exactly once: the order a shuffle produces. */
  predicate IsIndexPermutation(perm: seq<nat>, n: nat) {
    |perm| == n
    && (forall i :: 0 <= i < n ==> perm[i] < n)
    && (forall i, j :: 0 <= i < j < n ==> perm[i] != perm[j])
    && (forall v :: 0 <= v < n ==> v in perm)
  }

  /** Every position `p` names is below `m`. */
  predicate AllBelow(p: seq<nat>, m: nat) {
    forall i :: 0 <= i < |p| ==> p[i] < m
  }

  /** The rows of `s` in the order `perm` names them. */
  function Permute<T>(s: seq<T>, perm: seq<nat>): (r: seq<T>)
    requires AllBelow(perm, |s|)
    ensures |r| == |perm| && forall i :: 0 <= i < |perm| ==> r[i] == s[perm[i]]
  {
    seq(|perm|, i requires 0 <= i < |perm| => s[perm[i]])
  }

  /** Following two orders one after the other follows their concatenation. */
  lemma PermuteConcat<T>(s: seq<T>, p: seq<nat>, q: seq<nat>)
    requires AllBelow(p, |s|) && AllBelow(q, |s|)
    ensures AllBelow(p + q, |s|)
    ensures Permute(s, p + q) == Permute(s, p) + Permute(s, q)
  {
  }

  /** An order that names only rows of a prefix picks the same rows from the prefix. */
  lemma PermutePrefix<T>(s: seq<T>, m: nat, p: seq<nat>)
    requires m <= |s| && AllBelow(p, m)
    ensures Permute(s[..m], p) == Permute(s, p)
  {
  }

  /** The last row sits at position `j` of the order; every other position names an earlier row. */
  lemma PermuteAroundLast<T>(s: seq<T>, perm: seq<nat>, j: nat)
    requires |s| > 0 && j < |perm| && perm[j] == |s| - 1
    requires forall i :: 0 <= i < |perm| && i != j ==> perm[i] < |s| - 1
    ensures AllBelow(perm[..j] + perm[j + 1..], |s| - 1)
    ensures multiset(Permute(s, perm))
         == multiset(Permute(s[..|s| - 1], perm[..j] + perm[j + 1..])) + multiset{s[|s| - 1]}
  {
    var n := |s|;
    var front, back := perm[..j], perm[j + 1..];
    assert AllBelow(front, n - 1) by {
      forall i | 0 <= i < |front| ensures front[i] < n - 1 { assert front[i] == perm[i]; }
    }
    assert AllBelow(back, n - 1) by {
      forall i | 0 <= i < |back| ensures back[i] < n - 1 { assert back[i] == perm[j + 1 + i]; }
    }
    assert perm == front + [n - 1] + back;
    PermuteConcat(s, front, [n - 1]);
    PermuteConcat(s, front + [n - 1], back);
    PermuteConcat(s[..n - 1], front, back);
    PermutePrefix(s, n - 1, front);
    PermutePrefix(s, n - 1, back);
  }

  /** Taking the largest position out of a permutation leaves a permutation of the rest. */
  lemma RemoveLargest(perm: seq<nat>, n: nat, j: nat)
    requires n > 0 && IsIndexPermutation(perm, n) && j < n && perm[j] == n - 1
    ensures forall i :: 0 <= i < n && i != j ==> perm[i] < n - 1
    ensures IsIndexPermutation(perm[..j] + perm[j + 1..], n - 1)
  {
    forall i | 0 <= i < n && i != j ensures perm[i] < n - 1 {
      if i < j { assert perm[i] != perm[j]; } else { assert perm[j] != perm[i]; }
    }
    var perm' := perm[..j] + perm[j + 1..];
    assert forall i :: 0 <= i < n - 1 ==> perm'[i] == (if i < j then perm[i] else perm[i + 1]);
    forall v | 0 <= v < n - 1 ensures v in perm' {
      assert v in perm;
      var i :| 0 <= i < n && perm[i] == v;
      if i < j { assert perm'[i] == v; } else { assert perm'[i - 1] == v; }
    }
  }

  /** A non-empty sequence holds its front and its last element. */
  lemma MultisetOfLast<T>(s: seq<T>)
    requires s != []
    ensures multiset(s) == multiset(s[..|s| - 1]) + multiset{s[|s| - 1]}
  {
    assert s == s[..|s| - 1] + [s[|s| - 1]];
  }

  /** A shuffle keeps every row exactly as often as it was there. */
  lemma {:induction false} PermuteKeepsRows<T>(s: seq<T>, perm: seq<nat>)
    requires IsIndexPermutation(perm, |s|)
    ensures multiset(Permute(s, perm)) == multiset(s)
    decreases |s|
  {
    var n := |s|;
    if n > 0 {
      assert n - 1 in perm;
      var j :| 0 <= j < n && perm[j] == n - 1;
      RemoveLargest(perm, n, j);
      var s', perm' := s[..n - 1], perm[..j] + perm[j + 1..];
      PermuteKeepsRows(s', perm');
      PermuteAroundLast(s, perm, j);
      MultisetOfLast(s);
    }
  }

  // ---------------------------------------------------------------- sorting

  /** Every row's key is at most every later row's key. */
  predicate SortedBy<T>(key: T -> string, s: seq<T>) {
    forall i, j :: 0 <= i < j < |s| ==> LexLe(key(s[i]), key(s[j]))
  }

  /** Every row's key is at least `k`. */
  predicate AllAtLeast<T>(key: T -> string, k: string, s: seq<T>) {
    forall j :: 0 <= j < |s| ==> LexLe(k, key(s[j]))
  }

  /** A row whose key is at most every key of a sorted sequence can go in front of it. */
  lemma SortedCons<T>(key: T -> string, x: T, s: seq<T>)
    requires SortedBy(key, s) && AllAtLeast(key, key(x), s)
    ensures SortedBy(key, [x] + s)
  {
    var r := [x] + s;
    forall i, j | 0 <= i < j < |r| ensures LexLe(key(r[i]), key(r[j])) {
      if i == 0 { assert r[j] == s[j - 1]; } else { assert r[i] == s[i - 1] && r[j] == s[j - 1]; }
    }
  }

  /** A key at most the first key of a sorted sequence is at most all of them. */
  lemma BelowSorted<T>(key: T -> string, k: string, s: seq<T>)
    requires SortedBy(key, s) && s != [] && LexLe(k, key(s[0]))
    ensures AllAtLeast(key, k, s)
  {
    forall j | 0 < j < |s| ensures LexLe(k, key(s[j])) {
      LexLeTransitive(k, key(s[0]), key(s[j]));
    }
  }

  /** A bound on the keys of `s` and on `x` bounds the keys of any ordering of `s` with `x` added. */
  lemma AtLeastOfMultiset<T>(key: T -> string, k: string, s: seq<T>, x: T, r: seq<T>)
    requires AllAtLeast(key, k, s) && LexLe(k, key(x)) && multiset(r) == multiset(s) + multiset{x}
    ensures AllAtLeast(key, k, r)
  {
    forall j | 0 <= j < |r| ensures LexLe(k, key(r[j])) {
      assert r[j] in multiset(r);
      if r[j] != x {
        assert r[j] in multiset(s);
        var m :| 0 <= m < |s| && s[m] == r[j];
      }
    }
  }

  /** Puts `x` in front of the first row whose key is not below its own. */
  function InsertBy<T>(key: T -> string, x: T, s: seq<T>): (r: seq<T>)
    requires SortedBy(key, s)
    ensures SortedBy(key, r)
    ensures |r| == |s| + 1 && multiset(r) == multiset(s) + multiset{x}
    decreases |s|
  {
    if s == [] then [x]
    else if LexLe(key(x), key(s[0])) then
      BelowSorted(key, key(x), s);
      SortedCons(key, x, s);
      [x] + s
    else
      assert s == [s[0]] + s[1..];
      assert SortedBy(key, s[1..]) by {
        forall i, j | 0 <= i < j < |s[1..]| ensures LexLe(key(s[1..][i]), key(s[1..][j])) {
          assert s[1..][i] == s[i + 1] && s[1..][j] == s[j + 1];
        }
      }
      var rest := InsertBy(key, x, s[1..]);
      LexLeTotal(key(x), key(s[0]));
      assert AllAtLeast(key, key(s[0]), s[1..]) by {
        forall j | 0 <= j < |s[1..]| ensures LexLe(key(s[0]), key(s[1..][j])) {
          assert s[1..][j] == s[j + 1];
        }
      }
      AtLeastOfMultiset(key, key(s[0]), s[1..], x, rest);
      SortedCons(key, s[0], rest);
      [s[0]] + rest
  }

  /**
   * A stable sort by a string key (insertion sort; equal keys keep their order):
   * the result is sorted and holds exactly the rows of `s`.
   */
  function SortBy<T>(key: T -> string, s: seq<T>): (r: seq<T>)
    ensures SortedBy(key, r)
    ensures |r| == |s| && multiset(r) == multiset(s)
    decreases |s|
  {
    if s == [] then []
    else
      assert s == [s[0]] + s[1..];
      InsertBy(key, s[0], SortBy(key, s[1..]))
  }
}
