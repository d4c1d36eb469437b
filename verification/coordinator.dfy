/**
 The quorum decisions of the four public operations. Each operation sees one
 reply per configured server, turns every reply into a vote, counts the votes
 and compares the count with the shared threshold. The concurrent fan-out is
 not modelled: the replies arrive as a sequence, and the order-independence
 lemmas below show the decision cannot depend on their order.
 */
module Coordinator {
  import opened Tally
  import opened Quorum

  /** One server's answer as the client library hands it over: an error
      (transport failure, script error reply, or a nil reply), a nil response
      without an error, a string, or an integer. */
  datatype Reply = Err | Nil | Str(s: string) | Int(n: int)

  /** The error half of a Go `(value, error)` pair; `NoError` is `nil`. */
  datatype LockError =
    | NoError
    | CannotAcquire(key: string)   // "Can not acquire the lock <key>"
    | CannotRelease(key: string)   // "Can not release the lock <key>"
    | CannotFetchTtl(key: string)  // "Could not fetch the TTL for lock <key> ..."

  datatype Returned<T> = Returned(value: T, err: LockError)

  /** An acquire vote: the call returned no error and a non-nil response,
      whatever that response is. */
  predicate LockVote(r: Reply) {
    !r.Err? && !r.Nil?
  }

  /** The release, TTL and existence-probe vote: the call returned no error,
      whatever the response is (a nil response included). */
  function Answered(r: Reply): (b: bool)
    ensures b <==> r.Nil? || r.Str? || r.Int?
  {
    !r.Err?
  }

  /** The integer a TTL reply carries; any other response reads as 0, as a
      failed `int64` type assertion does. */
  function TtlOf(r: Reply): (t: int)
    ensures r.Int? ==> t == r.n
    ensures !r.Int? ==> t == 0
  {
    if r.Int? then r.n else 0
  }

  /** Every reply with a true acquire vote is also an answered reply. */
  lemma LockVoteIsAnswered(r: Reply)
    ensures LockVote(r) ==> Answered(r)
    ensures LockVote(r) <==> r.Str? || r.Int?
  {
  }

  /** Acquire: success with the measured `elapsed` time when a strict majority
      of servers voted for it; otherwise 0 and an error. */
  function SetLock(replies: seq<Reply>, key: string, elapsed: real): (res: Returned<real>)
    ensures res.err == NoError <==> 2 * CountTrue(Map(LockVote, replies)) > |replies|
    ensures res.err == NoError ==> res.value == elapsed
    ensures res.err != NoError ==> res == Returned(0.0, CannotAcquire(key))
  {
    var successfulNum := CountTrue(Map(LockVote, replies));
    if Reaches(successfulNum, |replies|) then Returned(elapsed, NoError)
    else Returned(0.0, CannotAcquire(key))
  }

  /** Release: success when a strict majority of servers answered without error. */
  function UnSetLock(replies: seq<Reply>, key: string, elapsed: real): (res: Returned<real>)
    ensures res.err == NoError <==> 2 * CountTrue(Map(Answered, replies)) > |replies|
    ensures res.err == NoError ==> res.value == elapsed
    ensures res.err != NoError ==> res == Returned(0.0, CannotRelease(key))
  {
    var successfulNum := CountTrue(Map(Answered, replies));
    if Reaches(successfulNum, |replies|) then Returned(elapsed, NoError)
    else Returned(0.0, CannotRelease(key))
  }

  /** The TTLs collected from the answered replies, in reply order: one per
      true vote, so under a majority there is at least one. */
  function TtlSets(replies: seq<Reply>): (ttls: seq<int>)
    ensures |ttls| == CountTrue(Map(Answered, replies))
  {
    KeepLength(replies, Answered, TtlOf);
    Keep(replies, Answered, TtlOf)
  }

  /** The collected TTLs are exactly the values the answered replies carry. */
  lemma TtlSetsMembers(replies: seq<Reply>)
    ensures forall i :: 0 <= i < |replies| && Answered(replies[i]) ==> TtlOf(replies[i]) in TtlSets(replies)
    ensures forall x :: x in TtlSets(replies) ==> exists i :: 0 <= i < |replies| && Answered(replies[i]) && TtlOf(replies[i]) == x
  {
    KeepMembers(replies, Answered, TtlOf);
  }

  /** An answered reply that is not an integer contributes a TTL of 0 to the
      collection, so it spoils the query unless every other answer is 0 too. */
  lemma NonIntegerTtlIsZero(replies: seq<Reply>, i: nat, key: string)
    requires i < |replies| && Answered(replies[i]) && !replies[i].Int?
    ensures 0 in TtlSets(replies)
    ensures GetLockTtl(replies, key).err == NoError ==> GetLockTtl(replies, key).value == 0
  {
    TtlSetsMembers(replies);
    GetLockTtlSpec(replies, key);
  }

  /** Every server that answered reported the same TTL. */
  predicate AgreeOnTtl(replies: seq<Reply>) {
    forall i, j :: 0 <= i < |replies| && 0 <= j < |replies| && Answered(replies[i]) && Answered(replies[j])
      ==> TtlOf(replies[i]) == TtlOf(replies[j])
  }

  /** Collected TTLs are all equal exactly when the answering servers agree. */
  lemma TtlSetsUniform(replies: seq<Reply>)
    ensures AllEqualSeq(TtlSets(replies)) <==> AgreeOnTtl(replies)
  {
    var ttls := TtlSets(replies);
    AllEqualSeqIsUniform(ttls);
    TtlSetsMembers(replies);
    if Uniform(ttls) {
      forall i, j | 0 <= i < |replies| && 0 <= j < |replies| && Answered(replies[i]) && Answered(replies[j])
        ensures TtlOf(replies[i]) == TtlOf(replies[j])
      {
        assert TtlOf(replies[i]) in ttls;
        assert TtlOf(replies[j]) in ttls;
      }
    }
    if AgreeOnTtl(replies) {
      forall p, q | 0 <= p < |ttls| && 0 <= q < |ttls|
        ensures ttls[p] == ttls[q]
      {
        assert ttls[p] in ttls;
        assert ttls[q] in ttls;
      }
    }
  }

  /** TTL query: succeeds when a strict majority answered AND the collected
      TTLs all agree, returning the first of them; otherwise 0 and an error. */
  function GetLockTtl(replies: seq<Reply>, key: string): (res: Returned<int>)
    ensures res.err == NoError ==> res.value in TtlSets(replies)
    ensures res.err != NoError ==> res == Returned(0, CannotFetchTtl(key))
  {
    var ttls := TtlSets(replies);
    var successfulNum := CountTrue(Map(Answered, replies));
    var locked := Reaches(successfulNum, |replies|);
    if AllEqualSeq(ttls) && locked then Returned(ttls[0], NoError)
    else Returned(0, CannotFetchTtl(key))
  }

  /** The TTL query in terms of the replies themselves: it succeeds exactly when
      a strict majority answered and every answering server reported the same
      TTL, and then it returns the TTL that every answering server reported. */
  lemma GetLockTtlSpec(replies: seq<Reply>, key: string)
    ensures var res := GetLockTtl(replies, key);
      && (res.err == NoError <==> 2 * CountTrue(Map(Answered, replies)) > |replies| && AgreeOnTtl(replies))
      && (res.err == NoError ==> exists i :: 0 <= i < |replies| && Answered(replies[i]) && TtlOf(replies[i]) == res.value)
      && (res.err == NoError ==> forall i :: 0 <= i < |replies| && Answered(replies[i]) ==> TtlOf(replies[i]) == res.value)
  {
    TtlSetsUniform(replies);
    TtlSetsMembers(replies);
  }

  /** When a strict majority answered and the answering servers agree, the
      query succeeds with the TTL of any one of them. */
  lemma AgreedTtlQuery(replies: seq<Reply>, key: string, k: nat)
    requires 2 * CountTrue(Map(Answered, replies)) > |replies|
    requires AgreeOnTtl(replies)
    requires k < |replies| && Answered(replies[k])
    ensures GetLockTtl(replies, key) == Returned(TtlOf(replies[k]), NoError)
  {
    GetLockTtlSpec(replies, key);
  }

  /** Existence probe: true when a strict majority of servers returned the key
      without error. */
  function IsLocked(replies: seq<Reply>): (locked: bool)
    ensures locked <==> 2 * CountTrue(Map(Answered, replies)) > |replies|
  {
    var successfulNum := CountTrue(Map(Answered, replies));
    Reaches(successfulNum, |replies|)
  }

  /** With no servers configured no operation can succeed. */
  lemma NoServersNoQuorum(key: string, elapsed: real)
    ensures SetLock([], key, elapsed).err == CannotAcquire(key)
    ensures UnSetLock([], key, elapsed).err == CannotRelease(key)
    ensures GetLockTtl([], key).err == CannotFetchTtl(key)
    ensures !IsLocked([])
  {
  }

  /** A single dissenting TTL spoils the query even when every server answered. */
  lemma DivergentTtlFails(replies: seq<Reply>, i: nat, j: nat, key: string)
    requires i < |replies| && j < |replies|
    requires Answered(replies[i]) && Answered(replies[j])
    requires TtlOf(replies[i]) != TtlOf(replies[j])
    ensures GetLockTtl(replies, key) == Returned(0, CannotFetchTtl(key))
  {
    GetLockTtlSpec(replies, key);
  }

  /** The acquire decision does not depend on the order the replies arrive in. */
  lemma SetLockOrderIndependent(a: seq<Reply>, b: seq<Reply>, key: string, elapsed: real)
    requires multiset(a) == multiset(b)
    ensures SetLock(a, key, elapsed) == SetLock(b, key, elapsed)
  {
    assert |a| == |multiset(a)| == |multiset(b)| == |b|;
    MapPermutation(LockVote, a, b);
    CountTruePermutation(Map(LockVote, a), Map(LockVote, b));
  }

  /** The release decision does not depend on the order the replies arrive in. */
  lemma UnSetLockOrderIndependent(a: seq<Reply>, b: seq<Reply>, key: string, elapsed: real)
    requires multiset(a) == multiset(b)
    ensures UnSetLock(a, key, elapsed) == UnSetLock(b, key, elapsed)
  {
    assert |a| == |multiset(a)| == |multiset(b)| == |b|;
    MapPermutation(Answered, a, b);
    CountTruePermutation(Map(Answered, a), Map(Answered, b));
  }

  /** The probe's answer does not depend on the order the replies arrive in. */
  lemma IsLockedOrderIndependent(a: seq<Reply>, b: seq<Reply>)
    requires multiset(a) == multiset(b)
    ensures IsLocked(a) == IsLocked(b)
  {
    assert |a| == |multiset(a)| == |multiset(b)| == |b|;
    MapPermutation(Answered, a, b);
    CountTruePermutation(Map(Answered, a), Map(Answered, b));
  }

  /** The TTL query's result, value included, does not depend on the order the
      replies arrive in. */
  lemma GetLockTtlOrderIndependent(a: seq<Reply>, b: seq<Reply>, key: string)
    requires multiset(a) == multiset(b)
    ensures GetLockTtl(a, key) == GetLockTtl(b, key)
  {
    assert |a| == |multiset(a)| == |multiset(b)| == |b|;
    MapPermutation(Answered, a, b);
    CountTruePermutation(Map(Answered, a), Map(Answered, b));
    KeepPermutation(a, b, Answered, TtlOf);
    var ta, tb := TtlSets(a), TtlSets(b);
    UniformPermutation(ta, tb);
    AllEqualSeqIsUniform(ta);
    AllEqualSeqIsUniform(tb);
    var ra, rb := GetLockTtl(a, key), GetLockTtl(b, key);
    if ra.err == NoError {
      assert rb.err == NoError;
      assert ta[0] in multiset(tb);
      assert ra.value == ta[0] && rb.value == tb[0];
    }
  }
}
