/**
 The three Lua scripts each lock server runs atomically (acquire, release and
 TTL inspection), modelled as transitions on that server's key space. Every
 script first reads the key's current holder, then acts only if the caller's
 token owns it (or, for acquire, if nobody does).
 */
module Scripts {

  const Tolerance: int := 500        // clock-drift allowance, milliseconds
  const MillisPerSecond: int := 1000

  const MinInt64: int := -0x8000_0000_0000_0000
  const MaxInt64: int := 0x7fff_ffff_ffff_ffff

  /** A lock record: the holder's token and the `PX` lifetime it was set with. */
  datatype Entry = Entry(token: string, pxMillis: int)

  /** One server's key space, restricted to the lock records. */
  type Store = map<string, Entry>

  /** The replies a Redis script can produce. */
  datatype RedisReply =
    | Status(text: string)
    | Integer(n: int)
    | Bulk(text: string)
    | NilReply
    | ErrorReply(text: string)

  /** A script run: the key space afterwards and the reply. */
  datatype Step = Step(store: Store, reply: RedisReply)

  /** `token` holds `key` on this server. */
  predicate Holds(st: Store, key: string, token: string) {
    key in st && st[key].token == token
  }

  /** The acquire script's guard: nobody holds `key`, or `token` already does. */
  predicate Free(st: Store, key: string, token: string) {
    key !in st || st[key].token == token
  }

  /** Go's 64-bit `int` arithmetic: reduce modulo 2^64 into the signed range. */
  function Wrap64(x: int): (w: int)
    ensures MinInt64 <= w <= MaxInt64
    ensures (w - x) % 0x1_0000_0000_0000_0000 == 0
    ensures MinInt64 <= x <= MaxInt64 ==> w == x
  {
    var m := (x - MinInt64) % 0x1_0000_0000_0000_0000;
    m + MinInt64
  }

  /** The `PX` argument the coordinator sends: `ttl*millisPerSecond+tolerance`
      computed in Go's 64-bit `int`. */
  function ExpiryArg(ttl: int): (px: int)
    requires MinInt64 <= ttl <= MaxInt64
    ensures MinInt64 <= px <= MaxInt64
    ensures (px - (ttl * MillisPerSecond + Tolerance)) % 0x1_0000_0000_0000_0000 == 0
  {
    Wrap64(ttl * MillisPerSecond + Tolerance)
  }

  /** Without overflow the expiry is the requested lifetime plus the drift
      allowance, and it is a valid `PX` exactly when the lifetime is not negative. */
  lemma ExpiryArgInRange(ttl: int)
    requires MinInt64 <= ttl * MillisPerSecond + Tolerance <= MaxInt64
    ensures MinInt64 <= ttl <= MaxInt64
    ensures ExpiryArg(ttl) == ttl * 1000 + 500
    ensures ExpiryArg(ttl) > 0 <==> ttl >= 0
  {
  }

  /** A lifetime too large for 64 bits wraps to a negative `PX`. */
  lemma ExpiryArgOverflow()
    ensures ExpiryArg(9_223_372_036_854_776) == -9_223_372_036_854_775_116
  {
  }

  /** A lifetime far enough below zero wraps to a positive `PX`. */
  lemma ExpiryArgNegativeWrap()
    ensures ExpiryArg(-9_223_372_036_854_777) == 9_223_372_036_854_775_116
  {
  }

  /** The acquire script: `SET key token PX px` when the key is free or already
      the caller's; an error reply otherwise. `SET` itself refuses a
      non-positive `PX`. */
  function Acquire(st: Store, key: string, token: string, px: int): (s: Step)
    ensures s.reply == Status("OK") <==> Free(st, key, token) && px > 0
    ensures s.reply != Status("OK") ==> s.reply.ErrorReply? && s.store == st
    ensures s.reply == Status("OK") ==> Holds(s.store, key, token) && s.store[key].pxMillis == px
    ensures s.store - {key} == st - {key}
  {
    if Free(st, key, token) then
      if px > 0 then Step(st[key := Entry(token, px)], Status("OK"))
      else Step(st, ErrorReply("ERR invalid expire time in 'set' command"))
    else Step(st, ErrorReply("ERROR"))
  }

  /** The release script: an absent key is already released; the owner's key is
      deleted (`DEL` answers 1); anybody else's is refused. */
  function Release(st: Store, key: string, token: string): (s: Step)
    ensures key !in st ==> s == Step(st, Status("OK"))
    ensures Holds(st, key, token) ==> s.reply == Integer(1)
    ensures s.reply.ErrorReply? <==> key in st && !Holds(st, key, token)
    ensures s.reply.ErrorReply? ==> s.store == st
    ensures !Holds(s.store, key, token)
    ensures key in s.store ==> key in st && s.store[key] == st[key] && !Holds(st, key, token)
    ensures s.store - {key} == st - {key}
  {
    if key !in st then Step(st, Status("OK"))
    else if st[key].token == token then Step(st - {key}, Integer(1))
    else Step(st, ErrorReply("ERROR"))
  }

  /** The TTL script: the remaining lifetime in whole seconds, reported only to
      the owner. How the server turns the stored expiry into seconds is the
      parameter `secondsLeft`. */
  function Ttl(st: Store, key: string, token: string, secondsLeft: int -> int): (s: Step)
    ensures s.store == st
    ensures s.reply.Integer? <==> Holds(st, key, token)
    ensures s.reply.Integer? ==> s.reply.n == secondsLeft(st[key].pxMillis)
    ensures !s.reply.Integer? ==> s.reply.ErrorReply?
  {
    if key !in st then Step(st, ErrorReply("ERROR"))
    else if st[key].token == token then Step(st, Integer(secondsLeft(st[key].pxMillis)))
    else Step(st, ErrorReply("ERROR"))
  }

  /** A plain `GET`: the stored token, or a nil reply for an absent key. */
  function Get(st: Store, key: string): (r: RedisReply)
    ensures r.Bulk? <==> key in st
    ensures r.Bulk? ==> Holds(st, key, r.text)
    ensures !r.Bulk? ==> r == NilReply
  {
    if key in st then Bulk(st[key].token) else NilReply
  }

  /** Re-acquiring with the same token succeeds and refreshes the expiry. */
  lemma ReacquireRefreshes(st: Store, key: string, token: string, px: int, px': int)
    requires Acquire(st, key, token, px).reply == Status("OK")
    requires px' > 0
    ensures var s := Acquire(Acquire(st, key, token, px).store, key, token, px');
      s.reply == Status("OK") && s.store[key] == Entry(token, px')
  {
  }

  /** While one token holds the key, acquiring with another token is refused
      and changes nothing. */
  lemma ForeignAcquireRefused(st: Store, key: string, token: string, other: string, px: int)
    requires Holds(st, key, token)
    requires other != token
    ensures Acquire(st, key, other, px) == Step(st, ErrorReply("ERROR"))
  {
  }

  /** Releasing somebody else's lock is refused and leaves the record. */
  lemma ForeignReleaseRefused(st: Store, key: string, token: string, other: string)
    requires Holds(st, key, token)
    requires other != token
    ensures Release(st, key, other) == Step(st, ErrorReply("ERROR"))
  {
  }

  /** Release is idempotent: a second release answers OK and changes nothing. */
  lemma ReleaseIdempotent(st: Store, key: string, token: string)
    requires !Release(st, key, token).reply.ErrorReply?
    ensures var s := Release(st, key, token).store;
      key !in s && Release(s, key, token) == Step(s, Status("OK"))
  {
  }

  /** After a successful acquire the owner reads back the lifetime it set, and
      every other token is refused. */
  lemma AcquireThenTtl(st: Store, key: string, token: string, px: int, other: string, secondsLeft: int -> int)
    requires Acquire(st, key, token, px).reply == Status("OK")
    requires other != token
    ensures var s := Acquire(st, key, token, px).store;
      Ttl(s, key, token, secondsLeft).reply == Integer(secondsLeft(px))
      && Ttl(s, key, other, secondsLeft).reply.ErrorReply?
  {
  }

  /** Acquire followed by release by the same token restores the key to
      absent and leaves every other key as it was. */
  lemma AcquireThenRelease(st: Store, key: string, token: string, px: int)
    requires Acquire(st, key, token, px).reply == Status("OK")
    ensures var s := Release(Acquire(st, key, token, px).store, key, token);
      s.reply == Integer(1) && s.store == st - {key}
  {
  }
}
