# RouteX: the stateful engines behind the sockets

RouteX is a TCP/UDP reverse proxy written in Go. Its sockets are driven by small
engines that keep state: rate limiters, a ban list, a load balancer, session
tables, a bandwidth tracker, a health checker, a configuration watcher and a port
list parser. This project models those engines and proves what they promise over
every run and every interleaving.

Run `dafny verify dfyconfig.toml`. Each engine is described twice. A state machine
on values (functions, with lemmas over whole runs) says what happens; a class with
the fields and loops of the Go code is proved against it, method by method. Where
goroutines interleave, the steps of the machine are critical sections and atomic
operations; what joins several of them in one step is named where the machine is
declared. The ban store, the debouncer, the tables behind the connection accounting, the
engine's charges (`Scoring`) and a target's counter (`Releases`) have one method for each
of those; concurrent picks (`LeastConn`, `StickyCalls`) and records (`Recording`) are
machines only, each with a lemma or a class for the case in which nothing interferes. Every
`time.Now()` is a parameter, and where the code reads the clock twice there are two
parameters. The clock never runs backwards, and token counts are `real`.

| file | module | models |
|---|---|---|
| SlidingWindow.dfy | `SlidingWindows` | the ring-buffer counter whose tick clock drifts |
| TokenBucket.dfy | `TokenBuckets` | the lazily refilled bucket |
| Engine.dfy, EngineObject.dfy | `L7Limits`, `L7Engine` | per-IP limiter maps, pruning, scores, the two gates |
| Scoring.dfy | `Scoring` | concurrent charges of one address |
| BanStore.dfy | `BanStore` | the ban list with its two critical sections |
| Picking.dfy, Balancer.dfy, BalancerRuns.dfy, PickLaws.dfy | `Picking`, `Balancing`, `BalancerRuns`, `PickLaws` | the five algorithms, the sticky table, runs of picks and what each pick returns |
| LeastConn.dfy, StickyCalls.dfy, Releases.dfy | `LeastConn`, `StickyCalls`, `Releases` | concurrent least-connection picks, sticky picks of one source, and releases of one target |
| Accounting.dfy, Proxy.dfy, SessionRuns.dfy | `Accounting`, `ProxyTables`, `SessionRuns` | TCP handlers, UDP sessions and the reaper interleaved; their tables; which sessions stay mapped |
| Calendar.dfy, Bandwidth.dfy, BandwidthTracker.dfy | `Calendar`, `Bandwidth`, `BandwidthTracker` | calendar windows, hourly buckets, quota |
| Recording.dfy | `Recording` | concurrent records and the quota |
| Debounce.dfy | `Debounce` | the per-path debouncer |
| Health.dfy | `Health` | eject/readmit hysteresis mirrored into the balancer |
| PortSpec.dfy | `PortSpec` | the port list parser and printer |
| Common.dfy | `Common` | options and map helpers |

## Where the code and its documentation disagree

The model follows the code.

- docs/API.md:430-432 says a tripped quota lasts until its window resets.
  `CheckQuota` only ever sets the flag (`Bandwidth.SuspensionPersists`,
  `Bandwidth.SuspensionOutlivesWindow`).
- internal/lb/balancer.go:248-251 says a target handed over unhealthy stays so; the
  constructor marks every target healthy (`Balancing.Balancer.constructor`).
- internal/lb/balancer.go:422-424 says zero weights fall back to a uniform choice;
  that branch is unreachable and the pick fails (`Balancing.ChoiceIsHealthy`).

## What turned out false, and what holds instead

- `Count()` is not the number of events in the window, nor in any other span, unless a
  bucket is one nanosecond wide (`SlidingWindows.CountExactIff`). It covers every span
  up to n-1 resolutions and is confined to every span from 2n-1 resolutions less n
  nanoseconds on, and both figures are exact (`CoversIff`, `ConfinedIff`).
- Pruning buckets after 31 days is not invisible in every zone. It is exactly in
  those whose midnight is at most one second past a whole UTC hour
  (`Bandwidth.PruneInvisibleIff`), and only there do all figures refine the log
  (`Bandwidth.FiguresRefineLogIff`).
- An unsuspended tracker is not always below its limit: records of other connections may
  have been added and not yet checked. In the window still running it has served less
  than the limit plus the bytes of the records under way, in all runs exactly in those
  zones (`Recording.UnderLimitIff`). The overshoot is at most the last record exactly
  when, besides, records never overlap (`Recording.OvershootIff`).
- An update is not always preceded by an interval without readings on its path: an
  event may be read before the timer fires and stored after it. The interval is quiet
  up to its last moments exactly when events never take longer than those to store
  their reading (`Debounce.QuietIff`). Removals do not count (`RemovalsDoNotCount`).
- Updates of one path are not always a debounce interval apart. They are in every run
  in which each event takes a new reading or stores it within the interval; the stall
  of a repeated reading breaks it (`Debounce.SpacedIff`).
- Balancer flags and checker states do not always agree: they do exactly when no two
  targets share an address (`Health.AgreeIffDistinct`).
- A client does not have at most one unfinished UDP session. It has in all runs exactly
  when its sessions are never reaped (`Accounting.UniqueIff`), and for each single run
  its sessions are mapped throughout exactly when none of them is reaped in it
  (`Accounting.MappedThroughoutIff`).
- A sticky assignment does not always answer its source's picks until it expires: it
  does exactly when no earlier pick of that source is still about to make another
  (`StickyCalls.StickyIff`).
- A target's counter does not always end at what its picks and clamped releases should
  leave: it does in all interleavings exactly when no release comes at zero, or one does
  and there are no picks (`Releases.ClampedIff`). The proxies release no handle twice and
  never at zero (`Accounting.PicksMatchReleases`, `Accounting.ReleaseNeverClamps`).
- A permanent ban does not last until it is lifted. It does exactly in the runs in which
  no charge of the address reaches the threshold (`L7Engine.ForeverIff`): a connection
  accepted before it still earns points, and the automatic ban overwrites it with one that
  ends (`L7Engine.ForeverIsReplaced`).
- Bans do not always cost the threshold: they do exactly when charges of one address
  never overlap, or each charge bans (`Scoring.PaidIff`).
- Round robin is not even with targets down: shares are equal exactly when the unhealthy
  runs before the healthy targets are equally long (`Picking.EqualSharesIff`).
- Printing and parsing a port list is the identity exactly on non-empty lists of
  distinct ports in range (`PortSpec.RoundTripIff`).

## Model

| member | source | states |
|---|---|---|
| SlidingWindows.SlidingWindow.constructor | internal/l7/ratelimit.go:70-81 | a new ring is an all-zero window whose resolution is the truncated quotient of the window; fewer than one bucket falls back to ten; it can be advanced exactly when the window leaves each bucket a nanosecond |
| SlidingWindows.QuotientFits | internal/l7/ratelimit.go:77 | the buckets together are no longer than the window, and lack less than a nanosecond each |
| SlidingWindows.SlidingWindow.Add | internal/l7/ratelimit.go:83-88 | the ring after `Add` is the age-ordered window advanced to now with the amount in its youngest place |
| SlidingWindows.SlidingWindow.Count | internal/l7/ratelimit.go:90-99 | the sum over the ring in storage order is the sum of the advanced window |
| SlidingWindows.SlidingWindow.advance | internal/l7/ratelimit.go:101-115 | rotating the head and zeroing slots in place is shifting ages, with ticks capped at the bucket count and the remainder dropped |
| SlidingWindows.SlidingWindow.rotate | internal/l7/ratelimit.go:108-111 | the loop: k rotations shift every age by k |
| SlidingWindows.AdvanceIsCurrent | internal/l7/ratelimit.go:101-115 | after an advance less than one resolution has passed since the last tick |
| SlidingWindows.RingSum | internal/l7/ratelimit.go:94-98 | summing in storage order equals summing by age, wherever the head is |
| SlidingWindows.RunIsExplained | internal/l7/ratelimit.go:83-115 | after every run there is a log of all adds whose ages explain every slot |
| SlidingWindows.ExplainedBounds | internal/l7/ratelimit.go:90-115 | any explained, current window counts all entries of the last n-1 resolutions and none older than 2n-1 resolutions less n nanoseconds |
| SlidingWindows.Sandwich | internal/l7/ratelimit.go:83-115 | for every run, Count is at least everything added in the last n-1 resolutions and at most everything added in the last 2n-1 resolutions less n nanoseconds |
| SlidingWindows.CoversIff | internal/l7/ratelimit.go:83-115 | Count is at least everything added in a span, for all runs, if and only if the span is at most n-1 resolutions |
| SlidingWindows.ConfinedIff | internal/l7/ratelimit.go:83-115 | Count is at most everything added in a span, for all runs, if and only if the span is at least 2n-1 resolutions less n nanoseconds |
| SlidingWindows.CountExactIff | internal/l7/ratelimit.go:83-115 | Count is the number of events of a span, for all runs, if and only if a resolution is one nanosecond and the span n-1 of them |
| SlidingWindows.LosesEarly | internal/l7/ratelimit.go:101-115 | for every ring, a run whose Count has lost an event n-1 resolutions and a nanosecond old |
| SlidingWindows.KeepsLate | internal/l7/ratelimit.go:101-115 | for every ring, a run whose Count still holds an event 2n-1 resolutions less n nanoseconds old |
| TokenBuckets.TokenBucket.constructor | internal/l7/ratelimit.go:16-26 | a bucket starts full, whatever the rate; a non-positive burst becomes the rate |
| TokenBuckets.TokenBucket.Allow | internal/l7/ratelimit.go:28-37 | for any amount: takes exactly n on success and nothing otherwise; succeeds if and only if the request fits the envelope over the recorded history |
| TokenBuckets.TokenBucket.IsFull | internal/l7/ratelimit.go:43-48 | refills, and answers whether the refilled bucket holds at least 99 percent of the burst |
| TokenBuckets.TokenBucket.refill | internal/l7/ratelimit.go:50-58 | adds rate times elapsed time, capped at the burst |
| TokenBuckets.RefillTwice | internal/l7/ratelimit.go:50-58 | refilling at an intermediate instant makes no difference |
| TokenBuckets.TokensBelowEnvelope | internal/l7/ratelimit.go:28-58 | tokens never exceed the allowance left from any earlier instant of the run |
| TokenBuckets.TokensMeetEnvelope | internal/l7/ratelimit.go:28-58 | at some earlier instant the bound is met with equality |
| TokenBuckets.EnvelopeExact | internal/l7/ratelimit.go:28-58 | Allow(n) succeeds if and only if, for every earlier instant s, bytes admitted since s plus n are at most burst + rate*(now - s) |
| TokenBuckets.OnlyAdmissionsMatter | internal/l7/ratelimit.go:28-58 | deleting every rejected call and every IsFull probe from a run changes no token level at any later time |
| L7Limits.PruneWindowTurn | internal/l7/engine.go:88-92 | one turn of the cleanup loop is one step of the declarative pruned map, whatever the visiting order |
| L7Limits.RunRemembers | internal/l7/engine.go:85-142 | through every run the attempts of an address are explained by its window, and are all older than nine resolutions once it has none |
| L7Limits.CountCoversAttempts | internal/l7/engine.go:85-142 | however windows were deleted and recreated, the count compared with the limit covers every attempt of the last nine resolutions |
| L7Limits.CountIsConfined | internal/l7/engine.go:85-142 | it counts no attempt older than nineteen resolutions less ten nanoseconds, so an address within the limit since then is accepted |
| L7Limits.IdleWindowIsPruned | internal/l7/engine.go:86-93 | after any run, pruning deletes the window of an address that has made no attempt for that long |
| L7Limits.CyclingLimit | internal/l7/engine.go:114-142 | any span of nine tenths of the ten-bucket window holds at most MaxConnsInWindow accepted connections of one address, over all runs with pruning |
| L7Limits.PruneBucketTurn | internal/l7/engine.go:97-101 | one turn of the bucket cleanup loop is one step of the declarative pruned map |
| L7Limits.TokensNonNegative | internal/l7/engine.go:170-192 | no run overdraws any bucket |
| L7Limits.PayloadPotential | internal/l7/engine.go:95-102 | bytes admitted plus bytes still available stay within the envelope, which grows by one percent of the burst per pruning |
| L7Limits.PayloadLimit | internal/l7/engine.go:85-196 | bytes admitted for one address over any [s,t] are at most burst + rate*(t-s) in seconds + k*burst/100, with k prunings of its bucket in the span |
| L7Limits.IdleBucketIsPruned | internal/l7/engine.go:95-102 | after any run, pruning deletes a bucket left alone for as long as 99 percent of its burst takes to flow in |
| L7Engine.Config.LimitIsOk | internal/l7/engine.go:176-181 | a positive byte rate is the rate of the buckets, and always yields a positive burst, whatever the multiplier |
| L7Engine.FirstBytesIff | internal/l7/engine.go:172-185 | what an address without a bucket may send at once, in terms of the configuration: a second's bytes times the multiplier, or twice them when that is not positive |
| L7Engine.RuleScoreIs | internal/l7/engine.go:218-239 | the first configured rule for the event decides; without one, the six built-in scores and zero |
| L7Engine.WindowTable.Obtain | internal/l7/engine.go:125-129 | finds or creates the window and leaves every other address alone |
| L7Engine.WindowTable.Cycle | internal/l7/engine.go:123-132 | the whole critical section: find or create, add one, count |
| L7Engine.WindowTable.PruneTurn | internal/l7/engine.go:89-91 | recounts one window and deletes it exactly when the count is zero |
| L7Engine.WindowTable.Prune | internal/l7/engine.go:86-93 | the loop over the map, in arbitrary order, yields the declarative pruned map |
| L7Engine.BucketTable.Obtain | internal/l7/engine.go:174-183 | finds or creates a full bucket and leaves every other address alone |
| L7Engine.BucketTable.Meter | internal/l7/engine.go:172-185 | the whole critical section, and its verdict |
| L7Engine.BucketTable.PruneTurn | internal/l7/engine.go:98-100 | probes one bucket and deletes it exactly when it is near full |
| L7Engine.BucketTable.Prune | internal/l7/engine.go:95-102 | the loop over the map yields the declarative pruned map |
| L7Engine.Engine.constructor | internal/l7/engine.go:45-58 | all tables start empty; the engine is usable exactly when an enabled cycling window leaves each bucket a nanosecond |
| L7Engine.Engine.AddScore | internal/l7/engine.go:198-216 | the score grows by the points; at the threshold it becomes a timed ban and is deleted |
| L7Engine.Engine.addPoints | internal/l7/engine.go:202-205 | the first critical section is the machine's addition, and reaches the threshold exactly when that does |
| L7Engine.Engine.ban | internal/l7/engine.go:206-210 | the second one bans and counts |
| L7Engine.Engine.clear | internal/l7/engine.go:212-214 | the third one is the machine's deletion |
| L7Engine.ChargedBans | internal/l7/engine.go:198-216 | a charge writes no ban but that of its own address, exactly when its score reaches the threshold, and then until the ban time has passed |
| L7Engine.Engine.BanIP | internal/l7/engine.go:257-264 | bans for the duration, and permanently without one |
| L7Engine.Engine.UnbanIP | internal/l7/engine.go:266 | removes the ban, permanent or not |
| L7Engine.ForeverIff | internal/l7/engine.go:198-266 | through any run of orders, charges and look-ups a permanent ban stays if and only if it is neither lifted nor replaced by order, and no charge of the address reaches the threshold |
| L7Engine.ForeverIsReplaced | internal/l7/engine.go:198-216 | for every score and threshold, the charge after which a permanently banned address ends up without a ban |
| L7Engine.Engine.Refuse | internal/l7/engine.go:133-139 | a refusal is counted and charged with the rule's score |
| L7Engine.Engine.OnAccept | internal/l7/engine.go:114-142 | accepted exactly when disabled, or not banned and within the cycling limit; a permanently banned address is refused at any time; the exact new window map, scores, bans and counters on every path |
| L7Engine.Engine.CountConnection | internal/l7/engine.go:122-140 | the cycling section: admitted exactly within the limit, refused and charged otherwise |
| L7Engine.Engine.OnData | internal/l7/engine.go:156-196 | admitted exactly when clean and within the byte rate; inspection happens once; the exact new bucket map, scores, bans and counters on every path |
| L7Engine.Engine.PruneScores | internal/l7/engine.go:104-111 | the loop deletes exactly the scores at or below zero |
| L7Engine.Engine.PruneInactiveMaps | internal/l7/engine.go:85-112 | prunes both limiter maps and, because kept scores are positive, no score |
| L7Engine.BansArePaidFor | internal/l7/engine.go:198-216 | over any run of charges that do not overlap, each ban of an address has used up at least the threshold and at most one charge more; the rest is its score, below the threshold |
| Scoring.PointsAreUsed | internal/l7/engine.go:198-216 | in every interleaving of the three sections, all points of an address are in its score or used up by its bans and by charges about to ban |
| Scoring.RunAccounted | internal/l7/engine.go:198-216 | the invariant behind it: what deletions have removed is bounded by the charges that reached the threshold |
| Scoring.PaidIff | internal/l7/engine.go:198-216 | every ban has cost the threshold, in all interleavings with at most m charges under way, if and only if m is at most one or the threshold is one |
| BanStore.Store.constructor | internal/l7/inspector.go:116-118 | the store starts empty |
| BanStore.Store.Ban | internal/l7/inspector.go:151-158 | overwrites the entry of a present address |
| BanStore.Store.Unban | internal/l7/inspector.go:160-167 | removes exactly the entry of the address |
| BanStore.Store.Read | internal/l7/inspector.go:126-132 | the read section of a lookup |
| BanStore.Store.Sweep | internal/l7/inspector.go:138-145 | the write section re-checks and removes only an expired entry |
| BanStore.Store.IsBanned | internal/l7/inspector.go:122-149 | without interference a permanent ban answers true at any reading, a timed one exactly up to its end, and no entry false; an entry past its end is removed |
| BanStore.StepRefines | internal/l7/inspector.go:122-167 | every critical section of every goroutine keeps the refinement relation to the last write |
| BanStore.RunRefines | internal/l7/inspector.go:122-167 | the relation holds after every interleaving |
| BanStore.LiveBansAreKept | internal/l7/inspector.go:122-167 | a permanent or unexpired ban is in the store exactly as last written, and an unbanned address never is |
| BanStore.LastWriteIs | internal/l7/inspector.go:151-167 | the specified last write is the ban after which the run writes the key no more, or none after an unban or without a write |
| BanStore.AnswersFollowLastWrite | internal/l7/inspector.go:122-149 | in every interleaving, a call whose last write before its read is a ban answers true exactly when that is permanent or its end has not passed; after an unban, or with no write, it answers false |
| Picking.FirstFromExact | internal/lb/balancer.go:369-374 | the scan returns i if and only if i is healthy and everything cyclically between the start and i is down |
| Picking.RunBeforeExact | internal/lb/balancer.go:366-376 | the length of the unhealthy run just before a target, characterised |
| Picking.LandsIff | internal/lb/balancer.go:366-376 | a scan lands on a healthy target exactly when it starts inside the unhealthy run before it or on it |
| Picking.RoundRobinShare | internal/lb/balancer.go:366-376 | over n consecutive cursors a healthy target is hit exactly 1 + (length of the unhealthy run before it) times, an unhealthy one never |
| Picking.RoundRobinEven | internal/lb/balancer.go:366-376 | exactly once each when all are healthy |
| Picking.EqualSharesIff | internal/lb/balancer.go:366-376 | all healthy targets get the same share if and only if the unhealthy runs before them are equally long, for every cursor |
| Picking.StartIsIndexIff | internal/lb/balancer.go:368-370 | for every 64-bit cursor, the scan starts inside the list if and only if the cursor is below 2^63 or its distance to 2^64 is a multiple of the list's length |
| Picking.MinimalDisruption | internal/lb/balancer.go:402-420 | flipping one target's health moves exactly the sources that map to it while it is healthy |
| Picking.LeastExact | internal/lb/balancer.go:379-398 | the scan returns i if and only if i is the first healthy target with the fewest connections; none exactly when all are down |
| Picking.WeightedShare | internal/lb/balancer.go:425-458 | exactly Weight of the totalWeight draws select an eligible target, none an ineligible one |
| Picking.FallsOnce | internal/lb/balancer.go:449-454 | the cumulative intervals of different targets are disjoint |
| Picking.UniformShare | internal/lb/balancer.go:461-476 | the candidate list holds each healthy target exactly once |
| Balancing.ChoiceIsHealthy | internal/lb/balancer.go:304-318 | every algorithm returns only healthy targets, and fails exactly when none is eligible |
| Balancing.Target.HealthMark | internal/lb/balancer.go:57-63 | swaps the flag and returns the previous value |
| Balancing.Target.IncActive | internal/lb/balancer.go:69-72 | one more active and one more in total |
| Balancing.Target.DecActive | internal/lb/balancer.go:75-81 | one less, clamped at zero |
| Balancing.Target.decrement | internal/lb/balancer.go:76 | the first addition is the machine's decrement, and a result below zero is owed back |
| Balancing.Target.correct | internal/lb/balancer.go:77-80 | the second addition is the machine's correction |
| Balancing.Balancer.constructor | internal/lb/balancer.go:228-258 | every target becomes healthy; a non-positive sticky lifetime becomes an hour |
| Balancing.Balancer.New | internal/lb/balancer.go:228-258 | rejects an empty list, an unknown algorithm and a missing target, in that order; which targets have been marked healthy on every path |
| Balancing.Balancer.pickRoundRobin | internal/lb/balancer.go:366-376 | moves the cursor by one and returns the first healthy target from its old value |
| Balancing.Balancer.scan | internal/lb/balancer.go:369-375 | the wrapping loop returns the first healthy target from its start |
| Balancing.Balancer.pickLeastConn | internal/lb/balancer.go:379-398 | the loop with its running best returns the specified least target |
| Balancing.Balancer.pickIPHash | internal/lb/balancer.go:402-420 | first healthy target from the hash; without a source, round robin |
| Balancing.Balancer.collectEligible | internal/lb/balancer.go:426-433 | the eligible targets and the sum of their weights |
| Balancing.Balancer.walk | internal/lb/balancer.go:449-457 | the subtracting walk returns the target whose interval holds the draw, and never reaches the safety net |
| Balancing.Balancer.pickWeighted | internal/lb/balancer.go:425-458 | the drawn target, or none; the uniform fallback is unreachable |
| Balancing.Balancer.pickRandom | internal/lb/balancer.go:461-476 | the drawn entry of the candidate list, or none |
| Balancing.Balancer.pickAlg | internal/lb/balancer.go:304-318 | dispatches to the configured algorithm, whose results `PickLaws` states one by one; only round robin moves the cursor |
| Balancing.Balancer.Pick | internal/lb/balancer.go:274-300 | a live assignment to a healthy target wins; otherwise the choice is counted and assigned; the whole new state |
| Balancing.Balancer.get | internal/lb/balancer.go:164-175 | the target of a present, unexpired assignment |
| Balancing.Balancer.put | internal/lb/balancer.go:178-182 | assigns with the configured lifetime |
| Balancing.Balancer.Release | internal/lb/balancer.go:322-327 | gives back one connection of that target only |
| Balancing.Balancer.SetHealth | internal/lb/balancer.go:332-341 | writes the first target with that address and nothing else |
| Balancing.Balancer.PruneStickyTable | internal/lb/balancer.go:200-217 | removes exactly the expired assignments |
| BalancerRuns.StickyAffinity | internal/lb/balancer.go:274-300 | with each pick as one step: until it expires an assignment answers every pick of its source, through any other picks, releases, prunes and health changes, as long as its own picks find it healthy |
| BalancerRuns.AffinityFromFirstPick | internal/lb/balancer.go:274-300 | with each pick as one step: from the first pick on, every pick of the source before the lifetime ends returns the same target while it is up |
| BalancerRuns.HitsDoNotRefresh | internal/lb/balancer.go:280-290 | for every balancer, run and source: after any number of hits, its first pick at or after the original expiry is chosen anew |
| BalancerRuns.HitKeepsTable | internal/lb/balancer.go:283-287 | a hit returns the assigned target and leaves the sticky table as it is |
| BalancerRuns.PruneSimulation | internal/lb/balancer.go:200-217 | a run and the same run without prunes stay equal up to expired assignments |
| BalancerRuns.PruningIsInvisible | internal/lb/balancer.go:200-217 | pruning changes no Pick result of any run |
| BalancerRuns.RoundRobinResults | internal/lb/balancer.go:366-376 | the k-th pick of a run is the first healthy target from cursor + k |
| BalancerRuns.RoundRobinRunShare | internal/lb/balancer.go:274-376 | n consecutive picks give a healthy target one pick plus one per unhealthy target just before it |
| BalancerRuns.IPHashDisruption | internal/lb/balancer.go:402-420 | for whole balancer states, a health change moves exactly the sources that pick the target while it is up |
| PickLaws.AssignedResult | internal/lb/balancer.go:274-290 | a live assignment to a healthy target is the result, whatever the algorithm |
| PickLaws.RoundRobinResult | internal/lb/balancer.go:366-377 | the result is the target that is up with all before it, cyclically from the cursor, down; the cursor moves by one |
| PickLaws.IPHashResult | internal/lb/balancer.go:402-420 | likewise from the source's hash; without a source from the cursor, which moves only then |
| PickLaws.LeastConnResult | internal/lb/balancer.go:379-398 | the result is the target that is up, with no more connections than any that is up and fewer than any such before it |
| PickLaws.WeightedResult | internal/lb/balancer.go:425-459 | of as many draws as the weights of the targets that are up, exactly its weight pick each of these, and none another |
| PickLaws.RandomResult | internal/lb/balancer.go:461-477 | of as many draws as targets are up, exactly one picks each of these |
| PickLaws.CountsAreHandles | internal/lb/balancer.go:274-327 | after every run a target's active count is what it was, plus the picks that returned it, less the releases that came above zero; its total grows by the picks |
| PickLaws.MatchedCount | internal/lb/balancer.go:274-327 | without over-releases the count is the picks less the releases |
| PickLaws.ReassignedAfterLifetime | internal/lb/balancer.go:140-217 | from the end of the configured lifetime on, the next pick of the source is chosen anew, whatever hits there were |
| PickLaws.NamesAreConfigured | internal/lb/balancer.go:102-114 | each configuration name selects its algorithm, and no other name any |
| LeastConn.UndisturbedIsLeast | internal/lb/balancer.go:379-398 | a scan with no other pick in between ends with the specified least target |
| LeastConn.RunKeeps | internal/lb/balancer.go:274-398 | the invariant: the increments of a target above any other count, and those still to come for it, were under way together |
| LeastConn.SpreadBound | internal/lb/balancer.go:274-398 | with counters loaded one by one, increments as later steps, and at most m picks under way, healthy counts never differ by more than m |
| LeastConn.SpreadIff | internal/lb/balancer.go:274-398 | counts stay within d of each other, in all such runs, if and only if m is at most d |
| StickyCalls.SticksAlone | internal/lb/balancer.go:280-298 | with lookup and assignment as separate steps and no pick of the source about to assign, its assignment answers every lookup of every interleaving |
| StickyCalls.OverwritesDoesNotStick | internal/lb/balancer.go:280-298 | for every source, lifetime and clock, a run from an empty table to an assignment that a pick which had missed before then replaces |
| StickyCalls.StickyIff | internal/lb/balancer.go:280-298 | affinity holds in all interleavings, from all states that runs from an empty table reach with at most k such picks, if and only if k is zero |
| Releases.ClampedIff | internal/lb/balancer.go:69-81 | with picks and both additions of a release as separate steps and at most k releases at a value of zero, every complete interleaving ends at the value if and only if k is zero, or one without picks |
| Releases.ExactWithoutOver | internal/lb/balancer.go:69-81 | as long as no release comes at zero the counter is exact in every interleaving with picks |
| Releases.OneOver | internal/lb/balancer.go:75-81 | without picks, one release at zero is right apart from one correction owed |
| Releases.TwoOverLeaveOne | internal/lb/balancer.go:75-81 | from every count, two overlapping releases at zero leave one |
| Releases.OneOverAndPickLeavesOne | internal/lb/balancer.go:69-81 | from every count, one release at zero and a pick with its own release leave one |
| Accounting.StepEffect | internal/proxy/udp.go:162-281 | every step other than reaping and a datagram of a mapped session changes one connection, and its counters and tables accordingly |
| Accounting.StepKeepsInv | internal/proxy/udp.go:162-281 | every step keeps all counters exact and every mapped session served |
| Accounting.RunKeepsInv | internal/proxy/udp.go:162-281 | the invariant holds after every interleaving |
| Accounting.CountersExact | internal/proxy/udp.go:162-281 | in every interleaving each target's count is its unreleased handles, and the tracker's and listeners' counts are the connections not yet past that cleanup step |
| Accounting.PicksMatchReleases | internal/proxy/udp.go:176-228 | each pick is matched by exactly one release on every path, including failed resolvers and dials |
| Accounting.ReleaseNeverClamps | internal/lb/balancer.go:75-81 | no interleaving ever releases at a count of zero |
| Accounting.TrackerIsExact | internal/proxy/conn.go:62-82 | the registry holds exactly the connections between registering and forgetting, under distinct ids |
| Accounting.MappedSessionsAreServed | internal/proxy/udp.go:162-233 | every session in the map has an unfinished reader, and storing one overwrites none |
| Accounting.QuiescenceIsClean | internal/proxy/udp.go:224-234 | when every connection is done all counters are zero and all tables empty |
| Accounting.SessionsAreNotUnique | internal/proxy/udp.go:224-234 | for every proxy and client, a run from the initial state to one with two running sessions of that client |
| Accounting.MappedStepIff | internal/proxy/udp.go:162-281 | from a state with all of a client's unfinished sessions mapped, a step leads to one without if and only if it reaps that client |
| Accounting.MappedThroughoutIff | internal/proxy/udp.go:162-281 | for every run, a client's unfinished sessions are mapped throughout if and only if the run never reaps that client |
| Accounting.UniqueWithoutReap | internal/proxy/udp.go:162-281 | in every run that never reaps the client it has at most one unfinished session, and the map finds it |
| Accounting.UniqueIff | internal/proxy/udp.go:162-281 | a client has at most one unfinished session in all runs if and only if it may not be reaped |
| Accounting.OldReaderRemovesNewerSession | internal/proxy/udp.go:231-233 | every run to a mapped running session goes on to one with a newer running session that the map no longer holds |
| ProxyTables.ConnTracker.Register | internal/proxy/conn.go:62-71 | assigns the next id to an unnumbered connection and counts it; equal to the two accounting steps it takes |
| ProxyTables.ConnTracker.enter | internal/proxy/conn.go:63-68 | entering the registry is the accounting step that registers |
| ProxyTables.ConnTracker.countUp | internal/proxy/conn.go:69 | raising the live count is the next accounting step |
| ProxyTables.ConnTracker.Forget | internal/proxy/conn.go:74-82 | idempotent: an unknown id changes neither registry nor count; equal to the accounting steps it takes |
| ProxyTables.ConnTracker.remove | internal/proxy/conn.go:75-78 | leaving the registry is the accounting step that forgets, which goes on to the decrement exactly when the entry existed |
| ProxyTables.ConnTracker.countDown | internal/proxy/conn.go:79-81 | lowering the live count is the next accounting step |
| ProxyTables.ConnTracker.Live | internal/proxy/conn.go:97 | the live count is the size of the registry |
| ProxyTables.SessionTable.constructor | internal/proxy/udp.go:81-84 | timeouts below a second become sixty seconds |
| ProxyTables.SessionTable.Lookup | internal/proxy/udp.go:163-175 | a hit is followed by a refresh of the session it found, and by nothing else; it is a datagram that leaves the accounting state alone |
| ProxyTables.SessionTable.Refresh | internal/proxy/udp.go:258 | a datagram sets the time of its own session only, and changes no mapping |
| ProxyTables.SessionTable.Store | internal/proxy/udp.go:216-219 | maps the new session and counts it; equal to the two accounting steps it takes |
| ProxyTables.SessionTable.put | internal/proxy/udp.go:217 | mapping the session is the accounting step that stores it |
| ProxyTables.SessionTable.count | internal/proxy/udp.go:218-219 | counting it is the next accounting step |
| ProxyTables.SessionTable.Unmap | internal/proxy/udp.go:231-234 | deletes by key, whichever session the key maps to; equal to the two accounting steps it takes |
| ProxyTables.SessionTable.drop | internal/proxy/udp.go:231-233 | the deletion is the accounting step of the reader's cleanup |
| ProxyTables.SessionTable.uncount | internal/proxy/udp.go:234 | the decrement is the next accounting step |
| ProxyTables.SessionTable.Reap | internal/proxy/udp.go:271-279 | the loop removes and cancels exactly the sessions last heard of more than the timeout ago; equal to one accounting Reap step for each of them |
| ProxyTables.SessionTable.remove | internal/proxy/udp.go:274-277 | one removal is one accounting Reap step |
| ProxyTables.SessionTable.Stop | internal/proxy/udp.go:288-292 | cancels every session and deletes none, so the accounting state is the same |
| SessionRuns.ReapKeepsRecent | internal/proxy/udp.go:271-279 | after any run, a reaping keeps a mapped session if and only if a datagram of it, in either direction, or its creation lies at most the timeout before |
| SessionRuns.MappedIff | internal/proxy/udp.go:163-292 | after any run a client is mapped to a session if and only if that was stored, since then neither replaced nor deleted, and heard of at most the timeout before each reaping |
| Calendar.YearStartIsGregorian | internal/bandwidth/tracker.go:219 | the month recursion is the Gregorian calendar: 365 days a year plus one per leap year |
| Calendar.MonthStartIsCivil | internal/bandwidth/tracker.go:219 | every single month begins on the day the civil-date formula gives |
| Calendar.BeginWithinMonth | internal/bandwidth/tracker.go:212-219 | every window begins at most now and less than 31 days before |
| Calendar.BeginIs | internal/bandwidth/tracker.go:212-218 | the hour begins on the hour, the day at local midnight, the week at the midnight before a Monday, each at most its length before now |
| Calendar.MonthBeginIs | internal/bandwidth/tracker.go:219 | the month begins at the local midnight before its first day by the civil-date formula, and now lies before the next |
| Calendar.FloorIs | internal/bandwidth/tracker.go:221-235 | the comparison value is the last whole hour up to that beginning; before 1970 the first one from it on |
| Calendar.BeginMonotone | internal/bandwidth/tracker.go:212-219 | windows begin in the order of their instants |
| Calendar.FloorIsHour | internal/bandwidth/tracker.go:221-235 | every comparison value is a whole hour |
| Calendar.FloorsNested | internal/bandwidth/tracker.go:221-235 | hour-floored starts nest: weekly and monthly before daily before hourly |
| Calendar.HourOfIff | internal/bandwidth/tracker.go:221-235 | a bucket's hour reaches a whole-hour start exactly when the instant does |
| Calendar.MidnightFloor | internal/bandwidth/tracker.go:226-232 | how far the hour floor moves a local midnight |
| Calendar.FloorAfterCutoff | internal/bandwidth/tracker.go:298-308 | no window reaches behind the 31-day cutoff in a zone whose midnight is at most a second past the hour |
| Bandwidth.UsedRecorded | internal/bandwidth/tracker.go:95-122 | a recorded amount appears once in every figure whose start is at or before its hour |
| Bandwidth.UsedIsLogged | internal/bandwidth/tracker.go:95-122 | from every hour pruning has not reached, the buckets hold exactly the logged bytes |
| Bandwidth.FiguresRefineLog | internal/bandwidth/tracker.go:206-235 | after any run each figure is the bytes logged at or after the hour-floored window start, whatever was pruned; the monthly one in zones whose midnight is at most one second past the hour |
| Bandwidth.FiguresRefineLogIff | internal/bandwidth/tracker.go:206-308 | that holds for all runs, times and windows if and only if the zone is such a one |
| Bandwidth.FiguresNested | internal/bandwidth/tracker.go:221-235 | hourly <= daily <= weekly and monthly |
| Bandwidth.BucketsNonNegative | internal/bandwidth/tracker.go:95-122 | no bucket total is ever negative |
| Bandwidth.PruningKeepsFigures | internal/bandwidth/tracker.go:298-308 | pruning changes no present or future figure in such a zone |
| Bandwidth.PruneInvisibleIff | internal/bandwidth/tracker.go:298-308 | for all trackers and times pruning is invisible if and only if the zone's midnight is at most one second past the hour |
| Bandwidth.PruneVisible | internal/bandwidth/tracker.go:298-308 | in every other zone, a bucket and an instant for which pruning changes the monthly figure |
| Bandwidth.SuspensionPersists | internal/bandwidth/tracker.go:162-196 | without Resume, Reset or SetQuota a suspension lasts for ever |
| Bandwidth.ExceededIsReached | internal/bandwidth/tracker.go:162-196 | after any run a check finds a limit exceeded if and only if the bytes logged in a window reach a positive limit in force |
| Bandwidth.SuspendedIff | internal/bandwidth/tracker.go:95-196 | after any run the tracker is suspended if and only if it was suspended by hand, or a check came when a window's logged bytes had reached a positive limit in force, and neither `Resume` nor `Reset` since; a monthly limit in zones whose midnight is at most one second past the hour |
| Bandwidth.CountersAreBytes | internal/bandwidth/tracker.go:95-122 | the two counters are the bytes recorded in their direction since the last `Reset` |
| Bandwidth.SuspensionOutlivesWindow | internal/bandwidth/tracker.go:162-196 | for every limit, a run still suspended in an hour in which nothing was used |
| Recording.AloneIsRecord | internal/bandwidth/tracker.go:95-134 | the steps of a record that nothing interferes with are the tracker's record |
| Recording.UsedIsLogged | internal/bandwidth/tracker.go:95-122 | in every interleaving the buckets hold exactly the bytes added, from every hour pruning has not reached |
| Recording.UnreachedIsUnder | internal/bandwidth/tracker.go:162-196 | a check that finds no limit reached has seen everything served in its window |
| Recording.DoneIsUnder | internal/bandwidth/tracker.go:95-196 | the invariant: of the window still running, the records that are done have served less than the limit |
| Recording.UnderLimit | internal/bandwidth/tracker.go:95-196 | in every interleaving an unsuspended tracker has served, in the window still running, less than the limit plus the bytes of the records under way; for the month in zones whose midnight is at most one second past the hour |
| Recording.UnderLimitIff | internal/bandwidth/tracker.go:95-308 | that holds for all runs, times and windows if and only if the zone is such a one, however many records are under way |
| Recording.ReachedIsLogged | internal/bandwidth/tracker.go:162-196 | in every interleaving a look finds a limit reached if and only if the bytes added in a window have reached it |
| Recording.TrippedIff | internal/bandwidth/tracker.go:95-196 | in every interleaving the tracker is suspended, or about to be, if and only if it was suspended by hand or some check looked when the bytes added in a window had reached a positive limit |
| Recording.PrunedMonth | internal/bandwidth/tracker.go:298-308 | in every other zone, a run that has served a whole monthly limit with nothing under way and no suspension, because a bucket of the running month was pruned |
| Recording.OverlappingIsNotBounded | internal/bandwidth/tracker.go:95-134 | in every zone, two records added before either is checked overshoot by both |
| Recording.SoleRecordIsBounded | internal/bandwidth/tracker.go:95-196 | with one record at a time, what is served in a window stays below its limit plus the last record |
| Recording.OvershootIff | internal/bandwidth/tracker.go:95-308 | that bound holds for all runs with at most m records under way and all windows if and only if m is one and the zone's midnight is at most one second past the hour |
| BandwidthTracker.Tracker.constructor | internal/bandwidth/tracker.go:78-92 | a new tracker is empty and not suspended |
| BandwidthTracker.Tracker.RecordIn | internal/bandwidth/tracker.go:95-107 | adds to the counter and the hour's bucket, then checks the quota |
| BandwidthTracker.Tracker.RecordOut | internal/bandwidth/tracker.go:110-122 | likewise for outbound bytes |
| BandwidthTracker.Tracker.MaybeCheckQuota | internal/bandwidth/tracker.go:129-134 | checks only while not suspended |
| BandwidthTracker.Tracker.CheckQuota | internal/bandwidth/tracker.go:162-196 | suspends exactly when the figure of a window has reached its positive limit, and names the shortest such window; `Bandwidth.SuspendedIff` says when that is |
| BandwidthTracker.Tracker.Snapshot | internal/bandwidth/tracker.go:206-235 | one pass in arbitrary order computes all four figures, each from the floor that `Calendar.BeginIs`, `MonthBeginIs` and `FloorIs` fix |
| BandwidthTracker.Tracker.PruneOldBuckets | internal/bandwidth/tracker.go:298-308 | removes exactly the buckets before the cutoff |
| BandwidthTracker.Tracker.Reset | internal/bandwidth/tracker.go:266-273 | clears buckets, counters and suspension, keeps the quota |
| BandwidthTracker.Tracker.Suspend | internal/bandwidth/tracker.go:140 | sets only the flag |
| BandwidthTracker.Tracker.Resume | internal/bandwidth/tracker.go:143 | clears only the flag |
| BandwidthTracker.Tracker.SetQuota | internal/bandwidth/tracker.go:146-150 | replaces only the quota |
| Debounce.NewestReading | internal/config/watcher.go:179-184 | a stored reading is the newest of its path, and every timer stems from an event |
| Debounce.QuietBeforeUpdate | internal/config/watcher.go:192-206 | when an update is sent, every reading on its path less than an interval old belongs to an event that is stored only later |
| Debounce.QuietIff | internal/config/watcher.go:179-206 | no event, wherever it is stored, is read in the interval before an update except in its last moments, for all runs, if and only if events store their reading within those (or they cover the interval) |
| Debounce.OvertakenIsNotQuiet | internal/config/watcher.go:179-206 | the run that breaks it: read before the timer fires, stored after |
| Debounce.RemovalsDoNotCount | internal/config/watcher.go:173-177 | a run without its removals reaches the same pending updates and timers |
| Debounce.EveryRemovalIsSent | internal/config/watcher.go:173-177 | the removals a run sends are its removal events, each once and in their order |
| Debounce.SinceSent | internal/config/watcher.go:192-206 | from the moment an update is sent on, no timer started before it can match again, if every event takes a new reading or stores it within the interval |
| Debounce.SpacedIff | internal/config/watcher.go:179-206 | updates of one path are an interval apart, in all runs whose events take a new reading or store it within a bound, if and only if the bound is at most the interval or all readings are new |
| Debounce.PromptOrNewIsSpaced | internal/config/watcher.go:179-206 | a single run is spaced when each of its events takes a new reading or stores it within the interval |
| Debounce.StalledIsNotSpaced | internal/config/watcher.go:179-206 | the run that breaks it: equal readings and one stalled event |
| Debounce.EveryUpdateIsSent | internal/config/watcher.go:179-206 | once all timers have fired every update event has an update sent after it |
| Debounce.OneUpdatePerBurst | internal/config/watcher.go:179-206 | between two updates sent for a path there is an event on it |
| Debounce.Watcher.Handle | internal/config/watcher.go:154-185 | a removal is sent at once and changes nothing; an update stores its reading and starts a timer |
| Debounce.Watcher.ScheduleEmit | internal/config/watcher.go:198-205 | the locked section: sends and clears exactly when the reading is still its own |
| Health.CountersAreStreaks | internal/health/checker.go:195-206 | the counters are the lengths of the streaks reaching the present |
| Health.UnhealthyIffFailed | internal/health/checker.go:182-230 | after any probe history a target is announced unhealthy if and only if the most recent decisive run is a failure run |
| Health.CallbacksAlternate | internal/health/checker.go:213-229 | callbacks strictly alternate, starting with an eject, and the last one is the announced state |
| Health.MarksFirst | internal/lb/balancer.go:332-341 | SetHealth writes a target exactly when it is the first with that address |
| Health.AgreeIffDistinct | internal/health/checker.go:226-228 | balancer flags equal announced states after every run of probes if and only if no two targets share an address |
| Health.FlagClosedForm | internal/health/checker.go:182-230 | with distinct targets a flag is down exactly when that target's own last decisive run is a failure run |
| Health.Checker.constructor | internal/health/checker.go:80-103 | every target starts with zero counters and healthy |
| Health.Checker.New | internal/health/checker.go:80-103 | fails exactly on a non-positive interval, a timeout outside (0, interval] or no targets, in that order |
| Health.Checker.ProbeOnce | internal/health/checker.go:190-229 | updates one target's entries only, and calls back exactly on a change |
| Health.Checker.Healthy | internal/health/checker.go:136-145 | the first target with that address answers; an unknown one counts as healthy |
| PortSpec.ParsePortRange | internal/config/proxy.go:423-478 | the nested loops with their set of seen ports compute the declarative parse, with the first error in order |
| PortSpec.AddRange | internal/config/proxy.go:452-458 | the range loop appends exactly the ports not yet seen |
| PortSpec.DedupKeepsOrder | internal/config/proxy.go:452-470 | ports come in the order in which they are first named |
| PortSpec.PrintPorts | internal/iptables/rules.go:160-181 | a range for contiguous ports, otherwise a comma-separated list |
| PortSpec.ParsedIsCanonical | internal/config/proxy.go:423-478 | every accepted specification yields a non-empty list of distinct ports in 1..65535 |
| PortSpec.RangePieceIs | internal/config/proxy.go:437-458 | what a part with a colon says, error by error, depends on its two ends without the white space around them |
| PortSpec.ParseIs | internal/config/proxy.go:423-478 | a specification says what its parts say, or is rejected as empty when its one part is blank |
| PortSpec.SpaceIsIgnored | internal/config/proxy.go:423-478 | white space around the parts, the ends of ranges and the whole changes no result, accepted or rejected |
| PortSpec.AtoiItoa | internal/iptables/rules.go:162 | a printed port is read back as itself |
| PortSpec.AtoiForms | internal/config/proxy.go:460 | leading zeros and a sign are read as such |
| PortSpec.SplitJoin | internal/iptables/rules.go:180 | splitting undoes joining |
| PortSpec.PrintedPieces | internal/iptables/rules.go:160-181 | both printed forms are read back as the list itself |
| PortSpec.RoundTripIff | internal/config/proxy.go:423-478 | parse(print(ps)) is ps if and only if ps is non-empty, distinct and in range |
| PortSpec.PrintingNormalises | internal/config/proxy.go:423-478 | parsing what was printed from an accepted specification gives the same list |
| PortSpec.PortListInjective | internal/iptables/rules.go:160-181 | different canonical lists print differently |

## Left out

- Sockets, dialling, copying, deadlines and logging: a dial or read is a step that may succeed or fail.
- REST handlers, authentication, the metrics store, the iptables manager and its rule templates: plumbing.
- YAML loading and validation, protocol pattern matchers, custom byte rules and the ACL: flat branch tests. The inspector's verdict is a parameter.
- FNV hashing and the random generators: the hash and the draw are arbitrary values.
- Floating-point rounding of token counts and daylight-saving changes; the zone has one fixed offset.
- A clock that runs backwards, and instants before 1970 in UTC or local time.
- Balancing.Balancer.pickRoundRobin: excludes cursors from 2^63 on, here and in the picks that move the cursor; `Picking.StartIsIndexIff` says at which of them the scan would index out of range.
- Balancing.Balancer.New: the targets are distinct objects; the same pointer twice is not modelled.
- SlidingWindows.SlidingWindow.Add: excludes rings from windows shorter than their buckets in nanoseconds, as do `Count` and the engine's cycling section: with a resolution of zero the code divides by zero, and with a negative one it never advances.
- Percentages, `FormatBytes`, event lists, snapshots, `NeedsFirstPayload`, `Kill` and manager wiring: easy members.
- L7Engine.Engine.AddScore: the effect of one charge that no other overlaps; its three critical sections are methods of their own, interleaved in `Scoring`.
- Balancing.Target.DecActive: the effect of one release that nothing overlaps; its two additions are methods of their own, interleaved in `Releases`.
- BalancerRuns.StickyAffinity: takes each Pick as one step, so that it can speak of every algorithm; `StickyCalls` separates lookup and assignment and lets any target be chosen.
- LeastConn.SpreadBound: health is fixed and nothing is released during the run.
- Bandwidth.FiguresRefineLog: records follow one another; `Recording` interleaves them, with the same log in the buckets.
- Bandwidth.SuspendedIff: excludes monthly limits in the other zones, as does `Recording.TrippedIff`: there a check compares the limit with buckets that pruning may have emptied (`Recording.PrunedMonth`).
- Recording.UsedIsLogged: takes finding the bucket and adding to it as one step; in the code a Reset or prune in between loses the bytes.
- Accounting.StepKeepsInv: the reaper may take any session and readers may exit at any time, which covers timeouts, `Stop` and cancellation without modelling `lastActivity`; `SessionRuns` says, for whole runs, which sessions it takes.
- Accounting.PicksMatchReleases: does not say which port is dialled; in one-to-one mode it is the paired port, not the target's health-checked one.
- Debounce.Watcher.Handle: paths are those already accepted as configuration files; a full event channel and shutdown are not modelled.
- Debounce.SpacedIff: an update is sent when it is decided on under the lock; the hand-over to the channel comes after it, so two of them can reach the consumer closer together.
- Health.Checker.ProbeOnce: the outcome of the dial is a parameter, and health set by hand through the API is not part of the model.
- PortSpec.ParsePortRange: `TrimSpace`, `Split`, `Atoi` and the printing of integers are functions with the library's documented meaning; error texts are error kinds.
