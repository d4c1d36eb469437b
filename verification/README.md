# gredlock Redlock client — a Dafny model

gredlock is a Go client for the Redlock distributed lock. One `RedLock`
talks to N independent Redis servers. Each public operation runs in two steps:

1. It runs the same small Lua script on every server. The scripts are acquire,
   release and TTL; the probe runs a plain `GET`.
2. It turns each reply into a `true`/`false` vote, counts the votes with `sum`,
   and succeeds when the count reaches `len(servers)/2 + 1`.

A TTL query also needs every answering server to report the same TTL
(`allEqual`).

This project models that core in five modules:

- `Tally` covers the `sum` and `allEqual` helpers. Each comes as the loop the
  source runs (`Sum`, `AllEqual`) and as a functional reference definition
  (`CountTrue`, `AllEqualSeq`, `Uniform`). It also holds the counting facts the
  quorum rule rests on: permutation invariance, monotonicity and overlap.
- `Quorum` covers the shared threshold `N/2 + 1` and the fact that any two
  quorums intersect.
- `Scripts` covers the three Lua scripts, modelled as transitions on one
  server's key space `map<key, Entry(token, px)>`. It also covers the `PX`
  argument `ttl*1000+500`, computed in Go's `int` on a 64-bit target.
- `Coordinator` covers the four public operations, `SetLock`, `UnSetLock`,
  `GetLockTtl` and `IsLocked`. Each takes a sequence of per-server replies:
  - each defines its vote predicate;
  - each makes the quorum decision;
  - `GetLockTtl` also collects its `TtlSets`;
  - each returns the source's result and error shapes.
- `Cluster` connects the per-server scripts with the quorum decisions over a
  whole deployment. A `Server` is `Up(store)` or `Down`, and a `Round` runs one
  call on every server. This module proves:
  - mutual exclusion, and that the holder can re-acquire;
  - that an acquire grants a majority;
  - that an acquire is followed by a successful probe, TTL query and release;
  - that after a release the probe reports the key as unlocked.

Go's `nil` error is `NoError`. A `(value, error)` result is `Returned(value, err)`.

How the client library surfaces a server reply is modelled as a single function,
`Cluster.ClientReply`:

- An error reply from a script becomes an error.
- A nil reply becomes an error, because the library reports it as `redis.Nil`.
- Status and bulk strings become strings.
- Integers become integers.

Redis `SET ... PX n` refuses `n <= 0` with an error reply, so `Scripts.Acquire`
does the same.

## Model

| member | source | states |
|---|---|---|
| Tally.Sum | redlock/redlock.go:72-80 | the loop's count equals the number of `true` votes, and equals the multiplicity of `true` in the tally |
| Tally.CountIsMultiplicity | redlock/redlock.go:72-80 | the recursive count of `true` votes is the multiplicity of `true` in the vote multiset |
| Tally.CountTruePermutation | redlock/redlock.go:72-80 | reordering the votes leaves the count unchanged |
| Tally.SomeTrue | redlock/redlock.go:72-80 | a nonzero count names a position that voted `true` |
| Tally.CountMonotone | redlock/redlock.go:72-80 | if every `true` vote of one tally is matched at the same position in another, the other counts at least as many |
| Tally.CountOverlap | redlock/redlock.go:72-80 | two tallies whose counts together exceed their length share a position voting `true` in both |
| Tally.AllEqual | redlock/redlock.go:82-89 | the loop answers true exactly when every pair of elements is equal (vacuously for fewer than two elements), and agrees with the functional definition |
| Tally.AllEqualSeqIsUniform | redlock/redlock.go:82-89 | comparing every element with the first decides pairwise equality of all elements |
| Tally.UniformPermutation | redlock/redlock.go:82-89 | reordering the elements does not change whether they are all equal |
| Tally.SumVector | redlock/redlock_test.go:277-311 | the tally `[true, false, true]` counts 2 |
| Tally.AllEqualVector | redlock/redlock_test.go:241-275 | `[1, 1, 1]` is all-equal |
| Tally.KeepLength | redlock/redlock.go:183-185 | the collected TTL list gets one entry per `true` vote |
| Tally.KeepMembers | redlock/redlock.go:183-185 | an answered reply's value is in the collected list, and every collected value comes from an answered reply |
| Tally.KeepPermutation | redlock/redlock.go:171-186 | collecting from a reordering of the replies gives a reordering of the collected list |
| Tally.MapPermutation | redlock/redlock.go:96-119 | voting on a reordering of the replies gives a reordering of the votes |
| Quorum.Threshold | redlock/redlock.go:124 | `N/2 + 1` is a strict majority of N, and one less is not |
| Quorum.ReachesIsStrictMajority | redlock/redlock.go:124 | reaching the threshold is the same as having more than half of the N votes |
| Quorum.ThresholdBounds | redlock/redlock.go:159 | the threshold is at least 1 and, when N > 0, at most N; with N = 0 a tally of 0 does not reach it |
| Quorum.QuorumsIntersect | redlock/redlock.go:191 | two tallies over the same servers that each hold a strict majority (equivalently, reach the threshold) share a server that voted `true` in both |
| Quorum.DisjointQuorums | redlock/redlock.go:220 | if no server votes `true` in both tallies, at most one of them reaches the threshold |
| Scripts.Wrap64 | redlock/redlock.go:102 | Go's `int` arithmetic: the result is in the signed 64-bit range, congruent modulo 2^64 to the exact value, and equal to it when that value is in range |
| Scripts.ExpiryArg | redlock/redlock.go:101-102 | the `PX` argument is in the 64-bit range and congruent modulo 2^64 to `ttl*1000+500` |
| Scripts.ExpiryArgInRange | redlock/redlock.go:14-17 | without overflow, `PX` is `ttl*1000+500` and is positive exactly when `ttl >= 0` |
| Scripts.ExpiryArgOverflow | redlock/redlock.go:102 | a `ttl` of 9223372036854776 seconds wraps to a negative `PX` |
| Scripts.ExpiryArgNegativeWrap | redlock/redlock.go:102 | a `ttl` of -9223372036854777 seconds wraps to a positive `PX` |
| Scripts.Acquire | redlock/redlock.go:20-26 | acquire answers OK exactly when the key is free or already the caller's and `PX` is positive; then the caller holds the key with that `PX`; otherwise it is an error reply and the store is unchanged; no other key changes |
| Scripts.Release | redlock/redlock.go:27-34 | an absent key answers OK and nothing changes; the owner's key is deleted with reply 1; any other token gets an error reply and nothing changes; no other key changes |
| Scripts.Ttl | redlock/redlock.go:35-42 | the TTL script never changes the store; it answers with an integer exactly when the caller holds the key, and that integer comes from the stored expiry; otherwise it answers with an error reply |
| Scripts.Get | redlock/redlock.go:209 | `GET` returns the holder's token when the key exists and nil otherwise |
| Scripts.ReacquireRefreshes | redlock/redlock.go:22-23 | the holder can re-acquire, and doing so replaces the expiry |
| Scripts.ForeignAcquireRefused | redlock/redlock.go:24-25 | while one token holds the key, another token's acquire is an error reply that changes nothing |
| Scripts.ForeignReleaseRefused | redlock/redlock.go:32-33 | while one token holds the key, another token's release is an error reply that changes nothing |
| Scripts.ReleaseIdempotent | redlock/redlock.go:28-29 | after a successful release the key is absent, and releasing again answers OK without change |
| Scripts.AcquireThenTtl | redlock/redlock.go:38-41 | after an acquire, the owner's TTL query reports the expiry just set, and any other token is refused |
| Scripts.AcquireThenRelease | redlock/redlock.go:27-34 | acquire then release by the same token answers 1 and leaves the store without the key and otherwise as before |
| Coordinator.Answered | redlock/redlock.go:142-151 | the release, TTL and probe vote is true for every reply without error, whatever it carries, a nil response included |
| Coordinator.TtlOf | redlock/redlock.go:183 | an integer reply contributes its value; any other reply contributes 0, the zero value of the failed `int64` assertion |
| Coordinator.NonIntegerTtlIsZero | redlock/redlock.go:183-198 | an answered non-integer reply puts 0 into the collected TTLs, so a successful query then returns 0 |
| Coordinator.LockVoteIsAnswered | redlock/redlock.go:103-117 | an acquire vote is true exactly for a string or integer reply, so both success branches vote true, and a true acquire vote is an answered reply |
| Coordinator.SetLock | redlock/redlock.go:92-129 | acquire succeeds exactly when more than half of the servers replied without error and non-nil; on success it returns the elapsed time; otherwise it returns 0 and "Can not acquire the lock" for the key |
| Coordinator.UnSetLock | redlock/redlock.go:132-164 | release succeeds exactly when more than half of the servers replied without error; on success it returns the elapsed time; otherwise it returns 0 and "Can not release the lock" |
| Coordinator.TtlSets | redlock/redlock.go:171-186 | the collected TTL list has exactly as many entries as there are true votes |
| Coordinator.TtlSetsMembers | redlock/redlock.go:183-184 | the collected TTLs are exactly the TTLs of the answered replies |
| Coordinator.TtlSetsUniform | redlock/redlock.go:192 | `allEqual` on the collected TTLs holds exactly when every pair of answering servers reported the same TTL |
| Coordinator.GetLockTtl | redlock/redlock.go:167-199 | a successful TTL query returns one of the collected TTLs; a failed one returns 0 and "Could not fetch the TTL" |
| Coordinator.GetLockTtlSpec | redlock/redlock.go:190-198 | the TTL query succeeds exactly when more than half of the servers answered and all answering servers agree; its value is the TTL every answering server reported |
| Coordinator.AgreedTtlQuery | redlock/redlock.go:190-198 | with a majority of answering servers that agree, the query returns the TTL of any one of them |
| Coordinator.DivergentTtlFails | redlock/redlock.go:192-196 | two answering servers with different TTLs make the query fail |
| Coordinator.IsLocked | redlock/redlock.go:201-221 | the probe is true exactly when more than half of the servers returned the key without error |
| Coordinator.NoServersNoQuorum | redlock/redlock.go:124 | with no servers configured, acquire, release and the TTL query all fail, and the probe is false |
| Coordinator.SetLockOrderIndependent | redlock/redlock.go:96-129 | the acquire result does not depend on the order in which replies arrive |
| Coordinator.UnSetLockOrderIndependent | redlock/redlock.go:136-164 | the release result does not depend on the order in which replies arrive |
| Coordinator.IsLockedOrderIndependent | redlock/redlock.go:204-220 | the probe result does not depend on the order in which replies arrive |
| Coordinator.GetLockTtlOrderIndependent | redlock/redlock.go:172-198 | the TTL query result, value included, does not depend on the order in which replies arrive |
| Cluster.ClientReply | redlock/redlock.go:101-111 | the client library reports error and nil replies as errors, passes integers through, and never hands over a nil response without an error |
| Cluster.Run | redlock/redlock.go:101-102 | one call on one server: an unreachable server answers with an error and stays unreachable, reachability never changes, a failed call leaves the server as it was, and no nil response reaches the client without an error |
| Cluster.Round | redlock/redlock.go:96-119 | a round gives one reply and one resulting server state per server, each from running the call on that server |
| Cluster.LockExchange | redlock/redlock.go:20-26 | one server votes for an acquire exactly when it is up, the key is free for the token and `PX` is valid; it then holds the key with that expiry, and otherwise it is unchanged |
| Cluster.HolderReleases | redlock/redlock.go:27-34 | on one server, after a successful acquire, the owner's release is answered |
| Cluster.HolderFound | redlock/redlock.go:209-214 | on one server, after a successful acquire, a `GET` of the key is answered |
| Cluster.ReleasedUnlessRefused | redlock/redlock.go:27-34 | on one server, after acquire and the owner's release, `GET` finds the key only if the acquire was refused |
| Cluster.TtlAfterAcquire | redlock/redlock.go:35-42 | on one server with a valid expiry, the owner's TTL query is answered exactly when the acquire succeeded, and it reports that expiry |
| Cluster.AtMostOneMajorityHolder | redlock/redlock.go:124 | two different tokens cannot both hold the key on a majority of the servers |
| Cluster.AcquireGrantsMajority | redlock/redlock.go:92-129 | after a successful acquire, the token holds the key on more than half of the servers |
| Cluster.MutualExclusion | redlock/redlock.go:92-129 | right after one token's successful acquire, any other token's acquire fails |
| Cluster.ReacquireSucceeds | redlock/redlock.go:20-26 | right after the holder's successful acquire, the holder acquiring again with any valid expiry succeeds (idempotent re-acquisition; see redlock/redlock.go:92-129 for the quorum) |
| Cluster.AcquiredExpiryValid | redlock/redlock.go:101-102 | a successful acquire was sent a positive `PX` |
| Cluster.AcquiredTtlNonNegative | redlock/redlock.go:101-102 | a successful acquire whose `PX` did not overflow was asked for a lifetime of at least zero seconds |
| Cluster.AcquireThenProbe | redlock/redlock.go:201-221 | after a successful acquire, the probe reports the key as locked |
| Cluster.TtlRoundFollowsAcquire | redlock/redlock.go:167-199 | right after an acquire, the owner's TTL round is answered by exactly the servers that voted for the acquire, and all of them agree on the expiry |
| Cluster.AcquireThenTtl | redlock/redlock.go:167-199 | after a successful acquire, the owner's TTL query succeeds with the lifetime of the expiry just sent |
| Cluster.AcquireThenRelease | redlock/redlock.go:132-164 | after a successful acquire, the owner's release succeeds |
| Cluster.ReleaseThenProbe | redlock/redlock.go:201-221 | after a successful acquire and the owner's release, the probe reports the key as unlocked |

## Left out

- Goroutines and `sync.WaitGroup`: each operation appends to a shared slice
  from several goroutines without synchronisation. The model takes the
  replies as one sequence. The order-independence lemmas cover every arrival
  order. Lost appends, which that data race can cause, are not modelled.
- Constructing the client: `NewRedisLock`, connecting to servers, and
  `ScriptLoad`/`EvalSha` script caching. A server is either reachable with
  its key space or `Down`, and a `Down` server answers every call with an
  error.
- Elapsed time: the wall-clock measurement and its `%.2f` formatting and
  parsing. The success value of `SetLock`/`UnSetLock` is the parameter
  `elapsed`, and the timing text in the TTL error message is omitted.
- Real-time expiry. Keys never expire within the modelled rounds. How Redis
  turns a stored `PX` into whole seconds for `TTL` is the parameter
  `secondsLeft`.
- Cluster.AcquireThenProbe: assumes every server stays reachable or
  unreachable between the two rounds (`Run` never changes reachability) and
  that a reply is never lost after the script ran; in the program a server
  can go down between calls, or a call can time out after its `SET` ran
  (redlock/redlock.go:101-104), and then the probe need not succeed.
- Cluster.AcquireThenRelease: rests on the same assumption; a server lost
  between the rounds, or a `DEL` whose reply times out
  (redlock/redlock.go:141-144), can make the release fail.
- Cluster.ReacquireSucceeds: rests on the same assumption about
  reachability and lost replies between the two rounds.
- Cluster.ReleaseThenProbe: rests on the same assumption about reachability
  and lost replies between the three rounds.
- Cluster.AcquireThenTtl: rests on the same assumption, and also on every
  server turning the same `PX` into the same number of seconds: one function
  `secondsLeft` serves the whole round. Real servers compute `TTL` from their
  own set instant and clock, can report 60 and 59, and then the strict
  `allEqual` fails the query (see `Coordinator.DivergentTtlFails`).
- Cluster.TtlRoundFollowsAcquire: the agreement it proves comes from that
  shared `secondsLeft`, not from the servers.
- Scripts.Wrap64: models Go's `int` on a 64-bit target. On a 32-bit target
  (386, arm) `int(ttl)*millisPerSecond+tolerance` wraps modulo 2^32, already
  for `ttl` above 2147483 seconds; that target is not modelled.
- `Scripts.Acquire`: does not model Redis's check that `now + PX` itself
  overflows, which is a server-clock detail. Only `PX <= 0` is refused.
- `int64` TTL values: TTLs are unbounded integers. `allEqual` only compares
  them, so nothing wraps.
- `Coordinator.SetLock`, `Coordinator.UnSetLock`: the failure messages are
  represented by error constructors carrying the key, not by formatted
  strings.
- Keys, tokens and values other than strings, and Redis state other than the
  lock keys.
