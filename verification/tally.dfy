/**
 Vote tallies: the `sum` and `allEqual` helpers of the coordinator, their
 functional reference definitions, and the counting facts the quorum decisions
 rest on. Sequences are built from the back, as the source builds its tallies
 with `append`.
 */
module Tally {

  /** Number of `true` entries of a vote sequence. */
  function CountTrue(votes: seq<bool>): (n: nat)
    ensures n <= |votes|
  {
    if |votes| == 0 then 0
    else CountTrue(votes[..|votes| - 1]) + (if votes[|votes| - 1] then 1 else 0)
  }

  /** The source's `sum`: a counting loop over the votes. */
  method Sum(iter: seq<bool>) returns (num: nat)
    ensures num == CountTrue(iter)
    ensures num == multiset(iter)[true]
  {
    num := 0;
    var i := 0;
    while i < |iter|
      invariant 0 <= i <= |iter|
      invariant num == CountTrue(iter[..i])
    {
      assert iter[..i + 1][..i] == iter[..i];
      if iter[i] {
        num := num + 1;
      }
      i := i + 1;
    }
    assert iter[..|iter|] == iter;
    CountIsMultiplicity(iter);
  }

  /** All elements are pairwise equal (vacuous for fewer than two elements). */
  predicate Uniform<T(==)>(xs: seq<T>) {
    forall i, j :: 0 <= i < |xs| && 0 <= j < |xs| ==> xs[i] == xs[j]
  }

  /** The source's `allEqual` as a function: every element after the first
      equals the first. */
  function AllEqualSeq(iter: seq<int>): bool {
    |iter| <= 1 || (iter[|iter| - 1] == iter[0] && AllEqualSeq(iter[..|iter| - 1]))
  }

  /** Comparing with the first element decides pairwise agreement. */
  lemma {:induction false} AllEqualSeqIsUniform(iter: seq<int>)
    ensures AllEqualSeq(iter) <==> Uniform(iter)
  {
    if |iter| > 1 {
      var init := iter[..|iter| - 1];
      AllEqualSeqIsUniform(init);
      assert forall k :: 0 <= k < |init| ==> init[k] == iter[k];
      if AllEqualSeq(iter) {
        assert forall k :: 0 <= k < |iter| ==> iter[k] == iter[0];
      }
    }
  }

  /** The source's `allEqual`: the loop comparing every element with the first one. */
  method AllEqual(iter: seq<int>) returns (eq: bool)
    ensures eq <==> Uniform(iter)
    ensures eq == AllEqualSeq(iter)
  {
    AllEqualSeqIsUniform(iter);
    var i := 1;
    while i < |iter|
      invariant 1 <= i
      invariant forall k :: 1 <= k < i && k < |iter| ==> iter[k] == iter[0]
    {
      if iter[i] != iter[0] {
        return false;
      }
      i := i + 1;
    }
    return true;
  }

  /** The count of `true` votes is the multiplicity of `true` in the tally. */
  lemma {:induction false} CountIsMultiplicity(votes: seq<bool>)
    ensures CountTrue(votes) == multiset(votes)[true]
  {
    if |votes| > 0 {
      var init := votes[..|votes| - 1];
      assert votes == init + [votes[|votes| - 1]];
      CountIsMultiplicity(init);
    }
  }

  /** Reordering the votes does not change the count. */
  lemma CountTruePermutation(a: seq<bool>, b: seq<bool>)
    requires multiset(a) == multiset(b)
    ensures CountTrue(a) == CountTrue(b)
  {
    CountIsMultiplicity(a);
    CountIsMultiplicity(b);
  }

  /** Reordering the elements does not change whether they all agree. */
  lemma UniformPermutation<T>(a: seq<T>, b: seq<T>)
    requires multiset(a) == multiset(b)
    ensures Uniform(a) <==> Uniform(b)
  {
    if Uniform(a) {
      forall i, j | 0 <= i < |b| && 0 <= j < |b|
        ensures b[i] == b[j]
      {
        assert b[i] in multiset(a) && b[j] in multiset(a);
      }
    }
    if Uniform(b) {
      forall i, j | 0 <= i < |a| && 0 <= j < |a|
        ensures a[i] == a[j]
      {
        assert a[i] in multiset(b) && a[j] in multiset(b);
      }
    }
  }

  /** A tally with a `true` vote names a position that voted `true`. */
  lemma {:induction false} SomeTrue(votes: seq<bool>) returns (k: nat)
    requires CountTrue(votes) > 0
    ensures k < |votes| && votes[k]
  {
    var n := |votes| - 1;
    if votes[n] {
      k := n;
    } else {
      k := SomeTrue(votes[..n]);
    }
  }

  /** If every vote of `u` is matched by a vote of `v` at the same position,
      `v` has at least as many votes. */
  lemma {:induction false} CountMonotone(u: seq<bool>, v: seq<bool>)
    requires |u| == |v|
    requires forall i :: 0 <= i < |u| && u[i] ==> v[i]
    ensures CountTrue(u) <= CountTrue(v)
  {
    if |u| > 0 {
      CountMonotone(u[..|u| - 1], v[..|v| - 1]);
    }
  }

  /** Two tallies over the same positions whose counts together exceed the
      number of positions share a position where both voted `true`. */
  lemma {:induction false} CountOverlap(u: seq<bool>, v: seq<bool>) returns (k: nat)
    requires |u| == |v|
    requires CountTrue(u) + CountTrue(v) > |u|
    ensures k < |u| && u[k] && v[k]
  {
    var n := |u| - 1;
    if u[n] && v[n] {
      k := n;
    } else {
      k := CountOverlap(u[..n], v[..n]);
    }
  }

  /** `f` applied to every element, keeping positions. */
  function Map<A, B>(f: A -> B, s: seq<A>): (r: seq<B>)
    ensures |r| == |s|
    ensures forall i :: 0 <= i < |s| ==> r[i] == f(s[i])
  {
    seq(|s|, i requires 0 <= i < |s| => f(s[i]))
  }

  /** `f` applied to the elements that satisfy `keep`, in order. */
  function Keep<A, B>(s: seq<A>, keep: A -> bool, f: A -> B): seq<B> {
    if |s| == 0 then []
    else Keep(s[..|s| - 1], keep, f) + if keep(s[|s| - 1]) then [f(s[|s| - 1])] else []
  }

  /** One kept element per `true` vote of `keep`. */
  lemma {:induction false} KeepLength<A, B>(s: seq<A>, keep: A -> bool, f: A -> B)
    ensures |Keep(s, keep, f)| == CountTrue(Map(keep, s))
  {
    if |s| > 0 {
      assert Map(keep, s)[..|s| - 1] == Map(keep, s[..|s| - 1]);
      KeepLength(s[..|s| - 1], keep, f);
    }
  }

  lemma MapAppend<A, B>(f: A -> B, a: seq<A>, b: seq<A>)
    ensures Map(f, a + b) == Map(f, a) + Map(f, b)
  {
  }

  lemma {:induction false} KeepAppend<A, B>(a: seq<A>, b: seq<A>, keep: A -> bool, f: A -> B)
    ensures Keep(a + b, keep, f) == Keep(a, keep, f) + Keep(b, keep, f)
    decreases |b|
  {
    if |b| > 0 {
      var b' := b[..|b| - 1];
      assert (a + b)[..|a + b| - 1] == a + b';
      KeepAppend(a, b', keep, f);
    } else {
      assert a + b == a;
    }
  }

  /** Removing position `i` from `s` removes one copy of `s[i]` from its multiset. */
  lemma RemoveAt<A>(s: seq<A>, i: nat)
    requires i < |s|
    ensures s == s[..i] + [s[i]] + s[i + 1..]
    ensures multiset(s[..i] + s[i + 1..]) == multiset(s) - multiset{s[i]}
  {
  }

  /** Cutting one element out of the middle of a sequence removes its image
      from the mapped multiset. */
  lemma MapSplit<A, B>(f: A -> B, lo: seq<A>, x: A, hi: seq<A>)
    ensures multiset(Map(f, lo + [x] + hi)) == multiset(Map(f, lo + hi)) + multiset{f(x)}
  {
    MapAppend(f, lo + [x], hi);
    MapAppend(f, lo, [x]);
    MapAppend(f, lo, hi);
  }

  /** Appending one element adds its image to the mapped multiset. */
  lemma MapSnoc<A, B>(f: A -> B, s: seq<A>, x: A)
    ensures multiset(Map(f, s + [x])) == multiset(Map(f, s)) + multiset{f(x)}
  {
    MapAppend(f, s, [x]);
    assert Map(f, [x]) == [f(x)];
  }

  /** Mapping a permutation gives a permutation. */
  lemma {:induction false} MapPermutation<A, B>(f: A -> B, a: seq<A>, b: seq<A>)
    requires multiset(a) == multiset(b)
    ensures multiset(Map(f, a)) == multiset(Map(f, b))
    decreases |a|
  {
    if |a| == 0 {
      assert |b| == |multiset(b)| == 0;
    } else {
      var a' := a[..|a| - 1];
      var x := a[|a| - 1];
      assert a == a' + [x];
      assert x in multiset(b);
      var i :| 0 <= i < |b| && b[i] == x;
      RemoveAt(b, i);
      var b' := b[..i] + b[i + 1..];
      MapPermutation(f, a', b');
      MapSnoc(f, a', x);
      MapSplit(f, b[..i], x, b[i + 1..]);
    }
  }

  /** Cutting one element out of the middle of a sequence removes its image
      from the kept multiset. */
  lemma KeepSplit<A, B>(lo: seq<A>, x: A, hi: seq<A>, keep: A -> bool, f: A -> B)
    ensures multiset(Keep(lo + [x] + hi, keep, f))
         == multiset(Keep(lo + hi, keep, f)) + multiset(Keep([x], keep, f))
  {
    KeepAppend(lo + [x], hi, keep, f);
    KeepAppend(lo, [x], keep, f);
    KeepAppend(lo, hi, keep, f);
  }

  /** Filtering and mapping a permutation gives a permutation. */
  lemma {:induction false} KeepPermutation<A, B>(a: seq<A>, b: seq<A>, keep: A -> bool, f: A -> B)
    requires multiset(a) == multiset(b)
    ensures multiset(Keep(a, keep, f)) == multiset(Keep(b, keep, f))
    decreases |a|
  {
    if |a| == 0 {
      assert |b| == |multiset(b)| == 0;
    } else {
      var a' := a[..|a| - 1];
      var x := a[|a| - 1];
      assert a == a' + [x];
      assert x in multiset(b);
      var i :| 0 <= i < |b| && b[i] == x;
      RemoveAt(b, i);
      KeepPermutation(a', b[..i] + b[i + 1..], keep, f);
      KeepAppend(a', [x], keep, f);
      KeepSplit(b[..i], x, b[i + 1..], keep, f);
    }
  }

  /** Every kept element contributes its image, and every image comes from a
      kept element. */
  lemma {:induction false} KeepMembers<A, B>(s: seq<A>, keep: A -> bool, f: A -> B)
    ensures forall i :: 0 <= i < |s| && keep(s[i]) ==> f(s[i]) in Keep(s, keep, f)
    ensures forall y :: y in Keep(s, keep, f) ==> exists i :: 0 <= i < |s| && keep(s[i]) && f(s[i]) == y
  {
    if |s| > 0 {
      var init := s[..|s| - 1];
      KeepMembers(init, keep, f);
      assert forall i :: 0 <= i < |init| ==> init[i] == s[i];
    }
  }

  /** The values the source's tests check. */
  lemma SumVector()
    ensures CountTrue([true, false, true]) == 2
  {
  }

  lemma AllEqualVector()
    ensures AllEqualSeq([1, 1, 1])
  {
  }
}
