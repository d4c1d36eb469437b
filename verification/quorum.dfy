/**
 The majority threshold shared by every coordinator operation: with N
 configured servers an operation needs floor(N/2) + 1 agreeing votes.
 */
module Quorum {
  import opened Tally

  /** The threshold `len(servers)/2 + 1`. */
  function Threshold(n: nat): (q: nat)
    ensures 2 * q > n
    ensures 2 * (q - 1) <= n
  {
    n / 2 + 1
  }

  /** `count` votes out of `n` reach the threshold. */
  predicate Reaches(count: nat, n: nat) {
    count >= Threshold(n)
  }

  /** Reaching the threshold is exactly having a strict majority, so the
      threshold is the smallest strict majority. */
  lemma ReachesIsStrictMajority(count: nat, n: nat)
    ensures Reaches(count, n) <==> 2 * count > n
  {
  }

  /** The threshold is at least one and, with servers configured, at most N. */
  lemma ThresholdBounds(n: nat)
    ensures 1 <= Threshold(n)
    ensures n > 0 ==> Threshold(n) <= n
    ensures n == 0 ==> !Reaches(n, n)
  {
  }

  /** Two tallies over the same N servers that both hold a strict majority
      have a server that voted `true` in both. */
  lemma QuorumsIntersect(u: seq<bool>, v: seq<bool>) returns (k: nat)
    requires |u| == |v|
    requires 2 * CountTrue(u) > |u|
    requires 2 * CountTrue(v) > |v|
    ensures k < |u| && u[k] && v[k]
  {
    k := CountOverlap(u, v);
  }

  /** If the positions where `u` votes `true` all vote `false` in `v`, at most
      one of the two tallies reaches the threshold. */
  lemma DisjointQuorums(u: seq<bool>, v: seq<bool>)
    requires |u| == |v|
    requires forall i :: 0 <= i < |u| && u[i] ==> !v[i]
    ensures !(Reaches(CountTrue(u), |u|) && Reaches(CountTrue(v), |v|))
  {
    if Reaches(CountTrue(u), |u|) && Reaches(CountTrue(v), |v|) {
      ReachesIsStrictMajority(CountTrue(u), |u|);
      ReachesIsStrictMajority(CountTrue(v), |v|);
      var k := QuorumsIntersect(u, v);
    }
  }
}
