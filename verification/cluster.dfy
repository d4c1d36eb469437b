/**
 Whole-deployment behaviour: N lock servers, each either reachable (with its
 key space) or unreachable, and one coordinator round that runs the same
 script on every server and hands the replies to the quorum decision. The
 lemmas here connect the per-server ownership rules with the majority rule:
 two tokens cannot both hold a majority, and a successful acquire is followed
 by a successful probe, TTL query and release.
 */
module Cluster {
  import opened Tally
  import opened Quorum
  import opened Scripts
  import opened Coordinator

  /** A lock server as one round sees it. An unreachable server answers every
      call with a transport error. */
  datatype Server = Up(store: Store) | Down

  /** The per-server call each public operation makes. */
  datatype Command =
    | Lock(key: string, token: string, px: int)
    | Unlock(key: string, token: string)
    | InspectTtl(key: string, token: string, secondsLeft: int -> int)
    | Fetch(key: string)

  /** One server after one call, with the reply the client received. */
  datatype Exchange = Exchange(server: Server, reply: Reply)

  /** All servers after one round, with the replies in server order. */
  datatype Outcome = Outcome(servers: seq<Server>, replies: seq<Reply>)

  /** How the client library surfaces a server reply: script errors and nil
      replies become errors, status and bulk strings become strings. */
  function ClientReply(r: RedisReply): (c: Reply)
    ensures c.Err? <==> r.ErrorReply? || r.NilReply?
    ensures r.Integer? ==> c == Int(r.n)
    ensures !c.Nil?
  {
    match r
    case Status(t) => Str(t)
    case Bulk(t) => Str(t)
    case Integer(n) => Int(n)
    case NilReply => Err
    case ErrorReply(_) => Err
  }

  /** One call against one server. The call never changes whether the server
      is reachable, a call that fails leaves the server as it was, and the
      client never sees a nil response without an error. */
  function Run(s: Server, cmd: Command): (e: Exchange)
    ensures s.Down? ==> e == Exchange(Down, Err)
    ensures e.server.Down? <==> s.Down?
    ensures e.reply.Err? ==> e.server == s
    ensures !e.reply.Nil?
  {
    match s
    case Down => Exchange(Down, Err)
    case Up(st) =>
      var step := match cmd
        case Lock(key, token, px) => Acquire(st, key, token, px)
        case Unlock(key, token) => Release(st, key, token)
        case InspectTtl(key, token, secondsLeft) => Ttl(st, key, token, secondsLeft)
        case Fetch(key) => Step(st, Get(st, key));
      Exchange(Up(step.store), ClientReply(step.reply))
  }

  /** One round: the same call on every server. */
  function Round(servers: seq<Server>, cmd: Command): (o: Outcome)
    ensures |o.servers| == |servers| && |o.replies| == |servers|
    ensures forall i :: 0 <= i < |servers| ==> Run(servers[i], cmd) == Exchange(o.servers[i], o.replies[i])
  {
    Outcome(seq(|servers|, i requires 0 <= i < |servers| => Run(servers[i], cmd).server),
            seq(|servers|, i requires 0 <= i < |servers| => Run(servers[i], cmd).reply))
  }

  /** `token` holds `key` on server `s`. */
  predicate HeldAt(s: Server, key: string, token: string) {
    s.Up? && Holds(s.store, key, token)
  }

  /** The number of servers on which `token` holds `key`. */
  function Holders(servers: seq<Server>, key: string, token: string): nat {
    CountTrue(Map((s: Server) => HeldAt(s, key, token), servers))
  }

  /** A server votes for an acquire exactly when it is reachable, the key is free
      for the token and the expiry is valid; it then holds the key with that
      expiry, and otherwise it is unchanged. */
  lemma LockExchange(s: Server, key: string, token: string, px: int)
    ensures var e := Run(s, Lock(key, token, px));
      && (LockVote(e.reply) <==> s.Up? && Free(s.store, key, token) && px > 0)
      && (LockVote(e.reply) ==> e.server == Up(s.store[key := Entry(token, px)]))
      && (!LockVote(e.reply) ==> e.server == s)
  {
  }

  /** On one server: if the acquire succeeded, the owner's release is answered. */
  lemma HolderReleases(s: Server, key: string, token: string, px: int)
    ensures var e := Run(s, Lock(key, token, px));
      LockVote(e.reply) ==> Answered(Run(e.server, Unlock(key, token)).reply)
  {
  }

  /** On one server: if the acquire succeeded, a fetch of the key is answered. */
  lemma HolderFound(s: Server, key: string, token: string, px: int)
    ensures var e := Run(s, Lock(key, token, px));
      LockVote(e.reply) ==> Answered(Run(e.server, Fetch(key)).reply)
  {
  }

  /** On one server: after acquire and the owner's release, the key can only
      still be there if the acquire was refused. */
  lemma ReleasedUnlessRefused(s: Server, key: string, token: string, px: int)
    ensures var e := Run(s, Lock(key, token, px));
      var e' := Run(e.server, Unlock(key, token));
      Answered(Run(e'.server, Fetch(key)).reply) ==> !LockVote(e.reply)
  {
  }

  /** On one server, for a valid expiry: the owner's TTL query is answered
      exactly when the acquire succeeded, and it reports that expiry. */
  lemma TtlAfterAcquire(s: Server, key: string, token: string, px: int, secondsLeft: int -> int)
    requires px > 0
    ensures var e := Run(s, Lock(key, token, px));
      var t := Run(e.server, InspectTtl(key, token, secondsLeft)).reply;
      && (LockVote(e.reply) <==> Answered(t))
      && (Answered(t) ==> TtlOf(t) == secondsLeft(px))
  {
  }

  /** Each server holds a key for at most one token, so two different tokens
      can never both hold a key on a majority of the servers. */
  lemma AtMostOneMajorityHolder(servers: seq<Server>, key: string, a: string, b: string)
    requires a != b
    ensures !(2 * Holders(servers, key, a) > |servers| && 2 * Holders(servers, key, b) > |servers|)
  {
    var u := Map((s: Server) => HeldAt(s, key, a), servers);
    var v := Map((s: Server) => HeldAt(s, key, b), servers);
    DisjointQuorums(u, v);
  }

  /** A successful acquire leaves the token holding the key on a majority of
      the servers, each with the expiry just sent. */
  lemma AcquireGrantsMajority(servers: seq<Server>, key: string, token: string, px: int, elapsed: real)
    requires SetLock(Round(servers, Lock(key, token, px)).replies, key, elapsed).err == NoError
    ensures var after := Round(servers, Lock(key, token, px)).servers;
      2 * Holders(after, key, token) > |servers|
  {
    var r := Round(servers, Lock(key, token, px));
    var votes := Map(LockVote, r.replies);
    var held := Map((s: Server) => HeldAt(s, key, token), r.servers);
    forall i | 0 <= i < |votes| && votes[i]
      ensures held[i]
    {
      LockExchange(servers[i], key, token, px);
    }
    CountMonotone(votes, held);
  }

  /** Mutual exclusion: right after one token's acquire succeeds, an acquire by
      any other token fails, whatever expiry either of them asks for. */
  lemma MutualExclusion(servers: seq<Server>, key: string, a: string, b: string, pxA: int, pxB: int, elapsed: real)
    requires a != b
    requires SetLock(Round(servers, Lock(key, a, pxA)).replies, key, elapsed).err == NoError
    ensures var after := Round(servers, Lock(key, a, pxA)).servers;
      SetLock(Round(after, Lock(key, b, pxB)).replies, key, elapsed) == Returned(0.0, CannotAcquire(key))
  {
    var r1 := Round(servers, Lock(key, a, pxA));
    var r2 := Round(r1.servers, Lock(key, b, pxB));
    var u := Map(LockVote, r1.replies);
    var v := Map(LockVote, r2.replies);
    forall i | 0 <= i < |u| && u[i]
      ensures !v[i]
    {
      LockExchange(servers[i], key, a, pxA);
      LockExchange(r1.servers[i], key, b, pxB);
    }
    DisjointQuorums(u, v);
  }

  /** Re-acquisition is idempotent for the holder: right after a successful
      acquire, the same token acquiring again with any valid expiry succeeds. */
  lemma ReacquireSucceeds(servers: seq<Server>, key: string, token: string, px: int, px': int, elapsed: real)
    requires px' > 0
    requires SetLock(Round(servers, Lock(key, token, px)).replies, key, elapsed).err == NoError
    ensures var after := Round(servers, Lock(key, token, px)).servers;
      SetLock(Round(after, Lock(key, token, px')).replies, key, elapsed) == Returned(elapsed, NoError)
  {
    var r1 := Round(servers, Lock(key, token, px));
    var r2 := Round(r1.servers, Lock(key, token, px'));
    var u := Map(LockVote, r1.replies);
    var v := Map(LockVote, r2.replies);
    forall i | 0 <= i < |u| && u[i]
      ensures v[i]
    {
      LockExchange(servers[i], key, token, px);
      LockExchange(r1.servers[i], key, token, px');
    }
    CountMonotone(u, v);
  }

  /** A successful acquire was sent a valid expiry. */
  lemma AcquiredExpiryValid(servers: seq<Server>, key: string, token: string, px: int, elapsed: real)
    requires SetLock(Round(servers, Lock(key, token, px)).replies, key, elapsed).err == NoError
    ensures px > 0
  {
    var r := Round(servers, Lock(key, token, px));
    var votes := Map(LockVote, r.replies);
    var i := SomeTrue(votes);
    LockExchange(servers[i], key, token, px);
  }

  /** A successful acquire for a lifetime whose `PX` does not overflow was asked
      for a lifetime of at least zero seconds. */
  lemma AcquiredTtlNonNegative(servers: seq<Server>, key: string, token: string, ttl: int, elapsed: real)
    requires MinInt64 <= ttl <= MaxInt64
    requires MinInt64 <= ttl * MillisPerSecond + Tolerance <= MaxInt64
    requires SetLock(Round(servers, Lock(key, token, ExpiryArg(ttl))).replies, key, elapsed).err == NoError
    ensures ttl >= 0
  {
    ExpiryArgInRange(ttl);
    AcquiredExpiryValid(servers, key, token, ExpiryArg(ttl), elapsed);
  }

  /** After a successful acquire, the probe reports the key as locked. */
  lemma AcquireThenProbe(servers: seq<Server>, key: string, token: string, px: int, elapsed: real)
    requires SetLock(Round(servers, Lock(key, token, px)).replies, key, elapsed).err == NoError
    ensures var after := Round(servers, Lock(key, token, px)).servers;
      IsLocked(Round(after, Fetch(key)).replies)
  {
    var r1 := Round(servers, Lock(key, token, px));
    var r2 := Round(r1.servers, Fetch(key));
    var u := Map(LockVote, r1.replies);
    var v := Map(Answered, r2.replies);
    forall i | 0 <= i < |u| && u[i]
      ensures v[i]
    {
      HolderFound(servers[i], key, token, px);
    }
    CountMonotone(u, v);
  }

  /** After a successful acquire, the owner's TTL query succeeds and reports the
      lifetime of the expiry just sent: every server that holds the key was
      given the same expiry, and every other server refuses the query. */
  lemma AcquireThenTtl(servers: seq<Server>, key: string, token: string, px: int, elapsed: real, secondsLeft: int -> int)
    requires SetLock(Round(servers, Lock(key, token, px)).replies, key, elapsed).err == NoError
    ensures var after := Round(servers, Lock(key, token, px)).servers;
      GetLockTtl(Round(after, InspectTtl(key, token, secondsLeft)).replies, key) == Returned(secondsLeft(px), NoError)
  {
    var r1 := Round(servers, Lock(key, token, px));
    var k := SomeTrue(Map(LockVote, r1.replies));
    LockExchange(servers[k], key, token, px);
    var replies := TtlRoundFollowsAcquire(servers, key, token, px, secondsLeft, k);
    AgreedTtlQuery(replies, key, k);
  }

  /** For a valid expiry, the owner's TTL round right after an acquire round is
      answered by exactly the servers that voted for the acquire, and each of
      them reports that expiry. */
  lemma TtlRoundFollowsAcquire(servers: seq<Server>, key: string, token: string, px: int, secondsLeft: int -> int, k: nat)
    returns (replies: seq<Reply>)
    requires px > 0
    requires k < |servers| && LockVote(Round(servers, Lock(key, token, px)).replies[k])
    ensures var r1 := Round(servers, Lock(key, token, px));
      && replies == Round(r1.servers, InspectTtl(key, token, secondsLeft)).replies
      && Map(Answered, replies) == Map(LockVote, r1.replies)
      && AgreeOnTtl(replies)
      && Answered(replies[k]) && TtlOf(replies[k]) == secondsLeft(px)
  {
    var r1 := Round(servers, Lock(key, token, px));
    replies := Round(r1.servers, InspectTtl(key, token, secondsLeft)).replies;
    var u := Map(LockVote, r1.replies);
    var v := Map(Answered, replies);
    forall i | 0 <= i < |u|
      ensures u[i] == v[i]
      ensures v[i] ==> TtlOf(replies[i]) == secondsLeft(px)
    {
      TtlAfterAcquire(servers[i], key, token, px, secondsLeft);
    }
    assert u == v;
  }

  /** After a successful acquire, the owner's release succeeds. */
  lemma AcquireThenRelease(servers: seq<Server>, key: string, token: string, px: int, elapsed: real, elapsed': real)
    requires SetLock(Round(servers, Lock(key, token, px)).replies, key, elapsed).err == NoError
    ensures var after := Round(servers, Lock(key, token, px)).servers;
      UnSetLock(Round(after, Unlock(key, token)).replies, key, elapsed') == Returned(elapsed', NoError)
  {
    var r1 := Round(servers, Lock(key, token, px));
    var r2 := Round(r1.servers, Unlock(key, token));
    var u := Map(LockVote, r1.replies);
    var v := Map(Answered, r2.replies);
    forall i | 0 <= i < |u| && u[i]
      ensures v[i]
    {
      HolderReleases(servers[i], key, token, px);
    }
    CountMonotone(u, v);
  }

  /** After a successful acquire and the owner's release, the probe no longer
      reports the key as locked: only servers that refused the acquire can
      still hold the key, and they are a minority. */
  lemma ReleaseThenProbe(servers: seq<Server>, key: string, token: string, px: int, elapsed: real)
    requires SetLock(Round(servers, Lock(key, token, px)).replies, key, elapsed).err == NoError
    ensures var after := Round(servers, Lock(key, token, px)).servers;
      var released := Round(after, Unlock(key, token)).servers;
      !IsLocked(Round(released, Fetch(key)).replies)
  {
    var r1 := Round(servers, Lock(key, token, px));
    var r2 := Round(r1.servers, Unlock(key, token));
    var r3 := Round(r2.servers, Fetch(key));
    var u := Map(LockVote, r1.replies);
    var v := Map(Answered, r3.replies);
    forall i | 0 <= i < |u| && u[i]
      ensures !v[i]
    {
      ReleasedUnlessRefused(servers[i], key, token, px);
    }
    DisjointQuorums(u, v);
  }
}
