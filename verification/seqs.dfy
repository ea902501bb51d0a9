/** Sequence and map facts shared by the result parsers: order-preserving
    filtering (the source's `for ... { if ... { out = append(out, x) } }`
    loops) and "last write wins" map construction (the source's
    `for ... { m[k] = v }` loops). */
module Seqs {
  import opened Wrappers

  /** `r` can be obtained from `s` by deleting elements; the kept ones stay
      in their original order. */
  predicate IsSubseq<T(==)>(r: seq<T>, s: seq<T>)
    decreases |s|
  {
    |r| == 0 || (|s| > 0 && ((r[0] == s[0] && IsSubseq(r[1..], s[1..])) || IsSubseq(r, s[1..])))
  }

  /** The elements of `s` that satisfy `p`, in order and with their
      multiplicities. */
  function Filter<T(==,!new)>(p: T -> bool, s: seq<T>): (r: seq<T>)
    ensures forall x :: x in r <==> x in s && p(x)
    ensures forall x :: multiset(r)[x] == if p(x) then multiset(s)[x] else 0
    ensures IsSubseq(r, s)
    decreases |s|
  {
    if |s| == 0 then []
    else
      var rest := Filter(p, s[1..]);
      assert s == [s[0]] + s[1..];
      if p(s[0]) then [s[0]] + rest else rest
  }

  /** `f` applied to every element of `s`, in order. */
  function Map<A, B>(f: A -> B, s: seq<A>): (r: seq<B>)
    ensures |r| == |s|
  {
    seq(|s|, i requires 0 <= i < |s| => f(s[i]))
  }

  lemma MapAppend<A, B>(f: A -> B, a: seq<A>, b: seq<A>)
    ensures Map(f, a + b) == Map(f, a) + Map(f, b)
  {
  }

  /** Mapping one more element of a prefix appends its image. */
  lemma MapSnoc<A, B>(f: A -> B, s: seq<A>, i: int)
    requires 0 <= i < |s|
    ensures Map(f, s[..i + 1]) == Map(f, s[..i]) + [f(s[i])]
  {
    assert forall k :: 0 <= k < i ==> s[..i + 1][k] == s[..i][k];
  }

  /** Reordering the input only reorders the output: sequences with the same
      elements (counted with multiplicity) are mapped to sequences with the
      same elements. */
  lemma {:induction false} MapPermutation<A, B>(f: A -> B, a: seq<A>, b: seq<A>)
    requires multiset(a) == multiset(b)
    ensures multiset(Map(f, a)) == multiset(Map(f, b))
    decreases |a|
  {
    if |a| == 0 {
      assert |b| == |multiset(b)| == 0;
    } else {
      var x := a[0];
      assert x in multiset(b);
      var j :| 0 <= j < |b| && b[j] == x;
      var b' := b[..j] + b[j + 1..];
      assert b == b[..j] + [x] + b[j + 1..];
      assert a == [x] + a[1..];
      assert multiset(b) == multiset(b[..j]) + multiset([x]) + multiset(b[j + 1..]);
      assert multiset(b') == multiset(b[..j]) + multiset(b[j + 1..]);
      assert multiset(a) == multiset([x]) + multiset(a[1..]);
      assert multiset(a[1..]) == multiset(a) - multiset([x]);
      assert multiset(b') == multiset(b) - multiset([x]);
      MapPermutation(f, a[1..], b');
      MapAppend(f, b[..j] + [x], b[j + 1..]);
      MapAppend(f, b[..j], [x]);
      MapAppend(f, b[..j], b[j + 1..]);
      MapAppend(f, [x], a[1..]);
    }
  }

  /** A sequence without repetitions holds each of its elements once. */
  lemma {:induction false} NoDupMultiset<T>(s: seq<T>)
    requires forall i, j :: 0 <= i < j < |s| ==> s[i] != s[j]
    ensures forall x :: multiset(s)[x] == if x in s then 1 else 0
    decreases |s|
  {
    if |s| > 0 {
      NoDupMultiset(s[1..]);
      assert s == [s[0]] + s[1..];
      assert s[0] !in s[1..];
    }
  }

  /** No key occurs at a later position of `pairs`. */
  ghost predicate LastOccurrence<K, V>(pairs: seq<(K, V)>, i: int)
    requires 0 <= i < |pairs|
  {
    forall j :: i < j < |pairs| ==> pairs[j].0 != pairs[i].0
  }

  /** The map obtained by storing the pairs one after the other (a later
      pair overwrites an earlier one with the same key). */
  function LastWins<K, V>(pairs: seq<(K, V)>): map<K, V>
    decreases |pairs|
  {
    if |pairs| == 0 then map[]
    else LastWins(pairs[..|pairs| - 1])[pairs[|pairs| - 1].0 := pairs[|pairs| - 1].1]
  }

  /** The keys of `LastWins(pairs)` are exactly the keys that occur in
      `pairs`, and each is bound to the value of its last occurrence. */
  lemma {:induction false} LastWinsSpec<K, V>(pairs: seq<(K, V)>)
    ensures forall k :: k in LastWins(pairs) <==> exists i :: 0 <= i < |pairs| && pairs[i].0 == k
    ensures forall i :: 0 <= i < |pairs| && LastOccurrence(pairs, i) ==>
      pairs[i].0 in LastWins(pairs) && LastWins(pairs)[pairs[i].0] == pairs[i].1
    decreases |pairs|
  {
    if |pairs| > 0 {
      var n := |pairs| - 1;
      var prefix := pairs[..n];
      LastWinsSpec(prefix);
      assert forall i :: 0 <= i < n ==> prefix[i] == pairs[i];
      var m := LastWins(pairs);
      assert m == LastWins(prefix)[pairs[n].0 := pairs[n].1];
      forall k
        ensures k in m <==> exists i :: 0 <= i < |pairs| && pairs[i].0 == k
      {
        if k in m && k != pairs[n].0 {
          var i :| 0 <= i < n && prefix[i].0 == k;
          assert pairs[i].0 == k;
        }
      }
      forall i | 0 <= i < |pairs| && LastOccurrence(pairs, i)
        ensures pairs[i].0 in m && m[pairs[i].0] == pairs[i].1
      {
        if i < n {
          assert pairs[n].0 != pairs[i].0;
          assert LastOccurrence(prefix, i);
        }
      }
    }
  }

  /** When every pair with key `k` carries `v`, the map binds `k` to `v`. */
  lemma {:induction false} LastWinsAgreeing<K, V>(pairs: seq<(K, V)>, k: K, v: V)
    requires exists i :: 0 <= i < |pairs| && pairs[i].0 == k
    requires forall i :: 0 <= i < |pairs| && pairs[i].0 == k ==> pairs[i].1 == v
    ensures k in LastWins(pairs) && LastWins(pairs)[k] == v
    decreases |pairs|
  {
    var n := |pairs| - 1;
    if pairs[n].0 != k {
      var i :| 0 <= i < |pairs| && pairs[i].0 == k;
      assert pairs[..n][i] == pairs[i];
      assert forall j :: 0 <= j < n ==> pairs[..n][j] == pairs[j];
      LastWinsAgreeing(pairs[..n], k, v);
    }
  }

  /** The pairs `f` extracts from `xs`, in order (elements for which `f`
      gives None are skipped). */
  function Collect<T, K, V>(f: T -> Option<(K, V)>, xs: seq<T>): seq<(K, V)>
    decreases |xs|
  {
    if |xs| == 0 then []
    else
      var rest := Collect(f, xs[..|xs| - 1]);
      var e := f(xs[|xs| - 1]);
      if e.Some? then rest + [e.value] else rest
  }

  /** One more element extends the extracted pairs by its own, if any. */
  lemma CollectSnoc<T, K, V>(f: T -> Option<(K, V)>, xs: seq<T>, i: int)
    requires 0 <= i < |xs|
    ensures Collect(f, xs[..i + 1]) == Collect(f, xs[..i]) + (if f(xs[i]).Some? then [f(xs[i]).value] else [])
  {
    assert xs[..i + 1][..i] == xs[..i];
  }

  /** The source's loops of the form `for _, x := range xs { if k, v, ok :=
      f(x); ok { m[k] = v } }`. */
  method StoreAll<T, K, V>(f: T -> Option<(K, V)>, xs: seq<T>) returns (m: map<K, V>)
    ensures m == LastWins(Collect(f, xs))
  {
    m := map[];
    var i := 0;
    while i < |xs|
      invariant 0 <= i <= |xs|
      invariant m == LastWins(Collect(f, xs[..i]))
    {
      CollectSnoc(f, xs, i);
      var e := f(xs[i]);
      if e.Some? {
        ghost var p := Collect(f, xs[..i]);
        assert (p + [e.value])[..|p|] == p;
        assert LastWins(p + [e.value]) == LastWins(p)[e.value.0 := e.value.1];
        m := m[e.value.0 := e.value.1];
        assert Collect(f, xs[..i + 1]) == p + [e.value];
      } else {
        assert Collect(f, xs[..i + 1]) == Collect(f, xs[..i]);
      }
      i := i + 1;
    }
    assert xs[..|xs|] == xs;
  }

  /** Position `i` yields a pair whose key no later position yields. */
  ghost predicate LastCollected<T, K, V>(f: T -> Option<(K, V)>, xs: seq<T>, i: int)
    requires 0 <= i < |xs|
  {
    f(xs[i]).Some? && forall j :: i < j < |xs| && f(xs[j]).Some? ==> f(xs[j]).value.0 != f(xs[i]).value.0
  }

  /** Storing the extracted pairs one after the other binds exactly the
      extracted keys, each to the value extracted last for it. */
  lemma {:induction false} CollectLastWins<T, K, V>(f: T -> Option<(K, V)>, xs: seq<T>)
    ensures forall k :: k in LastWins(Collect(f, xs)) <==>
      exists i :: 0 <= i < |xs| && f(xs[i]).Some? && f(xs[i]).value.0 == k
    ensures forall i :: 0 <= i < |xs| && LastCollected(f, xs, i) ==>
      f(xs[i]).value.0 in LastWins(Collect(f, xs)) && LastWins(Collect(f, xs))[f(xs[i]).value.0] == f(xs[i]).value.1
    decreases |xs|
  {
    if |xs| > 0 {
      var n := |xs| - 1;
      var prefix := xs[..n];
      CollectLastWins(f, prefix);
      assert forall i :: 0 <= i < n ==> prefix[i] == xs[i];
      var p := Collect(f, prefix);
      var m := LastWins(Collect(f, xs));
      if f(xs[n]).Some? {
        assert (p + [f(xs[n]).value])[..|p|] == p;
        assert m == LastWins(p)[f(xs[n]).value.0 := f(xs[n]).value.1];
      } else {
        assert m == LastWins(p);
      }
      forall k
        ensures k in m <==> exists i :: 0 <= i < |xs| && f(xs[i]).Some? && f(xs[i]).value.0 == k
      {
        if k in m && !(f(xs[n]).Some? && f(xs[n]).value.0 == k) {
          var i :| 0 <= i < n && f(prefix[i]).Some? && f(prefix[i]).value.0 == k;
          assert xs[i] == prefix[i];
        }
      }
      forall i | 0 <= i < |xs| && LastCollected(f, xs, i)
        ensures f(xs[i]).value.0 in m && m[f(xs[i]).value.0] == f(xs[i]).value.1
      {
        if i < n {
          assert LastCollected(f, prefix, i);
        }
      }
    }
  }
}
