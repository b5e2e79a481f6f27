# ssh-gate: a Dafny model of its core

ssh-gate is a SOCKS5/HTTP proxy that sends connections either directly or through an SSH tunnel. This project
models the parts of it that decide, share state between goroutines or must survive a long run, and proves what
they promise:

- **Tunnel resolvers** (`Resolvers`, `LookupRuns`, `Waits`, `TunnelLookup`). Every mutex section of a tunnel resolver
  is one event of a state machine, so a run is any interleaving of any number of lookups. The loops of one lookup,
  on resolver objects and with the other goroutines at work between its steps, are proved to be a run of it.
- **DNS cache** (`Eviction`, `Cache`, `CacheMemo`, `CacheKeys`, `EmptyName`, `DnsCache`). Over every run the cache
  refines the log of finished lookups; what eviction, purging, spelled keys and the empty host name do to that is
  stated by exact conditions.
- **Route policy** (`Addresses`, `Rules`, `Opener`, `RoutePolicy`). The private ranges as numbers, the rule engine,
  the choice of addresses, and all of it together over every cache history: no private address is dialed through
  the tunnel, and the local-private exception is taken only for its stated causes. The code follows the table in
  the DNS section of the repository's README.
- **Connection tracker** (`Tracking`, `Records`, `Ring`, `ConnTracker`, `Listing`). Every record is live or finished, never
  both, never finished twice; the circular buffer is the newest part of the whole history; which dial timeouts keep
  every record; what the list shows.
- **SSH monitor** (`Monitor`, `SshDialer`). Backoff, status, published client, and trust on first use: one host key
  for the life of the key file, over any number of restarts.
- **Connection limit** (`Limiter`). One slot pool under several listeners: occupied slots are open connections.

Pure code is modelled by functions and lemmas; objects that the source updates in place are classes, and loops are
methods proved against functions. A failed property is kept as the code has it, with an input that shows it and the
exact condition under which it holds. `Basics` holds what several modules share.

## Main results

- `LookupRuns.OneProbeIffShorterThanPause`: a paused resolver is probed by one lookup at a time in all runs iff lookups are shorter than the pause.
- `Waits.SpacedIffShorterThanPause`: waits in vain for one resolver are a pause apart in all runs iff lookups are shorter than the pause.
- `LookupRuns.RefusedIffProbed`, `LookupRuns.Accounting`: no resolver is ever lost; the counters count lookups.
- `TunnelLookup.Resolve`, `TunnelLookup.FairSplit`: a lookup among others is a run of the machine, ends in time, and splits its time fairly.
- `Cache.CacheRefinesLog`, `Cache.HitIsLatestAnswer`: a hit is the latest authoritative answer of its key, within its TTL.
- `CacheMemo.CacheIsMemo`, `CacheMemo.MemoKeptIff`: eviction never shows unless 1000 answers good at the read were stored at once.
- `CacheMemo.PurgesInvisible`, `EmptyName.PurgesInvisibleIff`: no later read can tell whether purges ran, iff the empty name is never asked for.
- `EmptyName.BoundHoldsIff`, `Eviction.EvictsOldestIff`: the cache keeps its bound iff the empty name is never asked for.
- `CacheKeys.TunnelKeyKeptApartIff`, `CacheKeys.LocalKeyKeptApartIff`: exactly which keys the two policies share.
- `RoutePolicy.RouteIsSafe`: nothing private through the tunnel, and the exception only for its causes, over every cache history.
- `RoutePolicy.RouteFollowsTable`, `RoutePolicy.HitFollowsTable`: fresh lookups and hits take the row of the documented table.
- `Addresses.PrivateLeavingHostIsSite`, `Opener.LocalPrivateIff`: the exception, exactly, for every address.
- `Rules.ArrangedKeepsRoute`: reordering the rules never changes the route and spares lookups.
- `Records.RecordsTellTheirStory`, `Records.EstablishedStays`: each record tells its Begin and its one end; an established connection is never dropped.
- `Tracking.Conservation`, `Tracking.TimeoutSafeIff`: each connection is live or finished exactly once; which dial timeouts keep every record.
- `ConnTracker.ConnTracker.History`, `Listing.List`: exactly when the circular buffer shows the fresh part of the whole history.
- `Listing.SortedIsUnique`, `Listing.PageRightIff`: the list does not depend on the sort or the map order; which pages are right.
- `Monitor.MonitorRuns`, `SshDialer.SshDialer.RunMonitor`: status, client, attempts and delays in step over every run of the monitor's loop.
- `Monitor.ConnectsForLife`: with that key, over any number of restarts, every smooth pass connects and every other key is refused.
- `Monitor.OneKeyForLife`: one host key for the life of the key file, over any number of restarts.
- `Limiter.SlotsAreConnections`, `Limiter.Accept`: occupied slots are open connections; refused exactly when full.

## Model

| member | source | states |
|---|---|---|
| `Resolvers.Upstream.Claim` | dns.go:321-332 | granted without a pause, else only when the pause ran out and nobody probes; the grant sets the flag |
| `Resolvers.Upstream.ReleaseProbe` | dns.go:335-341 | clears the probing flag and nothing else |
| `Resolvers.Upstream.Answer` | dns.go:443-451 | ends the pause, counts one answer, clears the last failure |
| `Resolvers.Upstream.Fail` | dns.go:456-472 | nothing with the tunnel down; else one failure, and a pause exactly for an unreachable server |
| `LookupRuns.ShapeReached` | dns.go:391-427 | in every run each lookup claims in the order of the resolvers, each at most once, and holds what it has claimed and not released |
| `LookupRuns.ReleaseSparesProbe` | dns.go:335-341 | releasing clears flags of all claimed resolvers, yet never that of another lookup's probe, while lookups are shorter than the pause |
| `LookupRuns.OneProbeReached` | dns.go:321-341 | in every run with lookups shorter than the pause, at most one lookup probes each paused resolver |
| `LookupRuns.SlowRunProbesTwice` | dns.go:321-341 | a run of lookups as long as the pause in which two lookups probe one resolver |
| `LookupRuns.OneProbeIffShorterThanPause` | dns.go:34-38 | one probe at a time in all runs of bounded lookups if and only if the bound is below the pause |
| `LookupRuns.ProbingIsHeldReached` | dns.go:335-341 | in every run a set probing flag has a lookup in flight that holds the resolver |
| `LookupRuns.RefusedIffProbed` | dns.go:321-332 | a resolver whose pause ran out refuses a new lookup exactly when another one probes it, so no resolver is lost |
| `LookupRuns.AllClaimedWithoutPauses` | dns.go:391-399 | in a run without unreachable servers every lookup claims every resolver |
| `LookupRuns.PauseIsLastLesson` | dns.go:443-472 | in every run a resolver is paused exactly while the last thing learned about it is that it cannot be reached, until 10 s after that; failures with the tunnel down teach nothing |
| `LookupRuns.Accounting` | dns.go:391-427 | in every run answers plus fallbacks are the finished walks; each resolver's two counters count distinct lookups, none in both |
| `Waits.PauseFollowsWaits` | dns.go:456-472 | in every run a resolver is paused exactly after waits in vain, for 10 s from the last |
| `Waits.WaitsReached` | dns.go:321-341 | in every run of lookups shorter than the pause, whoever may still ask a resolver given up on was under way at the first wait or is its one probe |
| `Waits.OneWaitPerPause` | README.md:119 | apart from lookups under way when a resolver was first given up on, two waits in vain for it are at least 10 s apart |
| `Waits.SlowRunWaitsTwice` | dns.go:321-341 | a run of lookups as long as the pause that waits twice at once |
| `Waits.SpacedIffShorterThanPause` | dns.go:34-38 | waits are a pause apart in all runs of bounded lookups if and only if the bound is below the pause |
| `TunnelLookup.FairSplit` | dns.go:401-407 | time slices never shrink along the walk, whatever the servers do, and each is at least an equal share of the whole step |
| `TunnelLookup.EndsUniquely` | dns.go:404-422 | the first definitive answer determines the result of the walk |
| `TunnelLookup.WalkResult` | dns.go:404-424 | by the replies alone: the first resolver that neither breaks nor is late gives the result, a not-found included; nobody answered exactly when all break or are late |
| `TunnelLookup.ClaimAll` | dns.go:392-398 | the claiming loop on resolver objects, with others running before each claim, is a run with one captured time |
| `TunnelLookup.ReleaseAll` | dns.go:335-341 | the releasing loop, with others running in between, releases exactly the claimed resolvers, once each, and ends the lookup |
| `TunnelLookup.Ask` | dns.go:405-421 | one query within its slice, with others running while it waits: addresses, a not-found, or a failure that is the server's exactly without a connection; recorded as that on the resolver |
| `TunnelLookup.Walk` | dns.go:401-424 | ends with the first definitive answer, or with a fallback exactly when all failed; leaves the local resolver at least 2 s of the 5 s |
| `TunnelLookup.OthersRun` | dns.go:321-341 | any steps of other lookups, on the same objects, keep the objects at a run of the machine and leave this lookup where it was |
| `TunnelLookup.Resolve` | dns.go:391-427 | a whole lookup, with any others running between its steps and while it waits, gives the first definitive answer of the resolvers it was granted, is at no point of the run older than 5 s, which is below the pause, and is part of a run of the state machine |
| `LookupRuns.NeverOlderIsWithin` | dns.go:206-211 | a run all of whose lookups keep such a bound is one that the bounded results are about |
| `Eviction.ScanFindsOldest` | dns.go:242-250 | the scan finds a real key that nothing expires before, in any map order, unless the empty key is alone the oldest |
| `Eviction.EvictsOldestIff` | dns.go:242-253 | a full cache loses its oldest entry in every map order if and only if the empty key is not alone the oldest |
| `Eviction.LoneSentinelEvictsNothing` | dns.go:242-253 | otherwise some map order evicts nothing |
| `Eviction.StoreKeepsBound` | dns.go:238-256 | unless the empty key is alone the oldest, a store keeps 1000 entries at most, and drops a live entry only when all are live |
| `Eviction.BoundKeptIff` | dns.go:238-256 | a new key leaves a full cache within its bound in every map order if and only if the empty key is not alone the oldest |
| `Eviction.SentinelBreaksBound` | dns.go:238-256 | with the empty key alone the oldest, a store into a full cache can grow it |
| `Cache.KeysMeetIff` | dns.go:161-178 | a tunnel key equals some local key exactly when the host begins with "local:" |
| `Cache.CacheRefinesLog` | dns.go:190-256 | in every run each entry is what the latest cacheable lookup of its key left, through evictions and purges |
| `Cache.HitIsLatestAnswer` | dns.go:195-202 | a hit returns what the latest authoritative lookup of the key returned to its own caller, less than 30 s ago, 10 s for a not-found |
| `Cache.CallersAreTold` | dns.go:213-235 | exactly when callers are told that a name does not exist, has no address, or could not be looked up |
| `Cache.ReadBack` | dns.go:211-231 | the lookup that just finished, read back: kept for 30 s or 10 s as given, or the cache left alone |
| `CacheMemo.BoundHolds` | dns.go:238-256 | in every run that never stores into a full cache with the empty key alone the oldest, at most 1000 entries |
| `CacheMemo.MemoKeptIff` | dns.go:238-256 | one event ends the likeness of cache and log if and only if it evicts another key's answer that is good at the read |
| `CacheMemo.CacheIsMemo` | dns.go:190-256 | in every run, evictions included, every read is answered as the log of all lookups would, unless 1000 answers all good at the read were stored at once |
| `CacheMemo.ServedForTTL` | dns.go:205-235 | in every such run what a lookup left, by what happened in it, is served for its 30 or 10 seconds and not longer, until a later lookup of the key replaces it |
| `CacheMemo.PurgesInvisible` | dns.go:130-139 | two runs of the same lookups with any purges up to the read, and stores and evictions after them, answer it alike |
| `CacheMemo.PurgesMayBeErased` | dns.go:130-139 | every run has a twin without purges that answers every later read alike |
| `EmptyName.EmptyNameOverfills` | dns.go:238-256 | for any 1000 real names: a run that looked up the empty name first ends with 1001 entries |
| `EmptyName.EmptyNameShowsPurge` | dns.go:238-256 | two runs that differ in one purge, with a clock that never goes back: with the empty name the unpurged one evicts an answer that is still good |
| `EmptyName.BoundHoldsIff` | dns.go:238-256 | where some 1000 real names can be asked for: at most 1000 entries in all runs whose clock never goes back, if and only if the empty name cannot be asked for |
| `EmptyName.PurgesInvisibleIff` | dns.go:130-139 | likewise: purges are invisible in all runs whose clock never goes back, if and only if the empty name cannot be asked for |
| `CacheKeys.TunnelEntryKeptApart` | dns.go:161-178 | in every run the entry of a host that spells the local key of no name comes from a tunnel resolver's answer for that host, never from the fallback |
| `CacheKeys.LocalEntryKeptApart` | dns.go:171-178 | in every run the local entry of a host is the local resolver's, never negative, unless someone looked up the spelled name through the tunnel |
| `CacheKeys.LocalAnswerShadowsTunnel` | dns.go:161-178 | a run in which the local answer for a name is served as the tunnel answer for the host that spells its key |
| `CacheKeys.TunnelAnswerShadowsLocal` | dns.go:161-178 | a run in which the tunnel's address or not-found for that host is served as the local answer for the name |
| `CacheKeys.TunnelKeyKeptApartIff` | dns.go:168-193 | the tunnel key of a host is the tunnel's in all runs if and only if the host is not "local:" and a name that is no IP literal |
| `CacheKeys.LocalKeyKeptApartIff` | dns.go:168-193 | the local key of a host is the local resolver's, and never negative, in all runs if and only if "local:" and the host is no name that can be looked up |
| `DnsCache.DnsCache.Get` | dns.go:195-202 | a hit needs an unexpired entry; a negative one is a not-found |
| `DnsCache.DnsCache.FindOldest` | dns.go:243-250 | the loop computes the scan for the order in which the map was ranged over |
| `DnsCache.DnsCache.Store` | dns.go:239-256 | evicts the victim of a full map, if any, and writes the entry |
| `DnsCache.DnsCache.Purge` | dns.go:130-139 | keeps exactly the entries that have not expired, and the refinement of the log |
| `DnsCache.DnsCache.Complete` | dns.go:205-235 | a finished shared lookup stores what is to be cached, returns its result, and keeps the refinement of the log |
| `Addresses.CheckPrivate` | rules.go:184-192 | the loop over the table decides membership of the plain address |
| `Addresses.PrivateIsSiteOrHost` | rules.go:71-83 | for every address, mapped and zoned ones included: the eleven prefixes are exactly the listed number ranges |
| `Addresses.SpellingIsIrrelevant` | rules.go:179-185 | an IPv4-mapped spelling or a zone never changes whether an address is private |
| `Addresses.DropHostLocalLoop` | rules.go:168-177 | the loop computes the filtered plain addresses |
| `Addresses.DropHostLocalInOrder` | rules.go:168-177 | what is kept stands in the resolver's order |
| `Addresses.DropHostLocalKeeps` | rules.go:168-177 | exactly the plain forms that leave the host are kept |
| `Addresses.PrivateLeavingHostIsSite` | rules.go:165-192 | for every address: private and kept by dropHostLocal if and only if in the RFC 1918, RFC 6598 or RFC 4193 ranges |
| `Addresses.SiteCandidates` | rules.go:165-192 | of all-private answers exactly the site addresses remain |
| `Rules.Arrange` | rules.go:86-107 | the loop over the configured rules puts the ip: rules last |
| `Rules.ArrangedIsStablePartition` | rules.go:86-107 | nothing lost or added, no ip: rule before another, order kept within each kind |
| `Rules.MatchesLoop` | rules.go:194-223 | a rule matches by address range, expression or domain suffix; a failed lookup matches nothing |
| `Rules.MatchesMeans` | rules.go:194-223 | a domain rule matches the domain and what is below it label by label, an ip: rule an answer in its range |
| `Rules.NormalizeSpells` | rules.go:118-120 | letter by letter: capital ASCII letters become small and one dot at the end goes |
| `Rules.DecideLoop` | rules.go:122-141 | the loop computes the decision |
| `Rules.DecidedBy` | rules.go:122-141 | an IP literal in a local range is direct, "private", without a lookup, for every rule list; anything else is direct by the first rule that matches, named in the reason, and tunneled without one; looked up exactly if an ip: rule was come to |
| `Rules.RouteIsAnyMatch` | rules.go:130-141 | direct if and only if some rule matches, in any order of the rules |
| `Rules.NoLookupBeforeIpRules` | rules.go:86-88 | a match among the rules that need no lookup decides without one |
| `Rules.ArrangedKeepsRoute` | rules.go:86-107 | arranging never changes the route for a fixed resolver answer, and spares the lookup whenever a domain or regex rule matches |
| `Opener.PickTunnelLoop` | rules.go:153-163 | the loop returns the first IPv4 address, else the first |
| `Opener.PublicLoop` | opener.go:73-78 | the loop keeps exactly the public answers, in order |
| `Opener.HeadFirstLoop` | opener.go:79-91 | the loop builds the dial order |
| `Opener.FamilyLoop` | opener.go:106-111 | the loop keeps exactly the addresses of the family, in order |
| `Opener.CandidatesLoop` | opener.go:53-116 | the whole choice of candidates with its four refusals |
| `Opener.HeadFirstOrder` | opener.go:79-91 | the same addresses, the first IPv4 one in front and once, the others as often as named |
| `Opener.KeepInOrder` | opener.go:106-111 | filtering never reorders |
| `Opener.TunnelDialsPublicOnly` | opener.go:67-91 | a connection goes through the tunnel if and only if so decided and some answer is public; then exactly the public answers are dialed |
| `Opener.DirectDialsFamily` | opener.go:106-115 | a direct destination is dialed at exactly the answers of the family, in order, and refused only without one |
| `Opener.LocalPrivateIff` | opener.go:93-104 | the exception is taken if and only if all answers are private, the local answer may go direct and a site address of the family is among them; only site addresses are dialed |
| `Opener.LocalPrivateDials` | opener.go:93-115 | the exception dials exactly the site addresses of the family among the answers, in the resolver's order |
| `Opener.RefusedBecause` | opener.go:64-114 | each refusal and its route, exactly: no resolution, only private answers that may not go direct or are none of the site, no address of the family |
| `Opener.FamilyMeans` | routing.go:45-54 | the families by the plain address; an IPv4-mapped one is IPv4 |
| `Opener.ReasonsDiffer` | rules.go:122-141 | no rule decision carries the reason of the exception |
| `Opener.DialInOrder` | opener.go:123-160 | the first address that connects is used; a total failure reports the first dial's error and the number of attempts |
| `RoutePolicy.RouteIsSafe` | opener.go:53-116 | over every cache history, rule list and resolver outcome: nothing private through the tunnel, and local-private only with the setting on, to site addresses, after a not-found or a tunnel that was down |
| `RoutePolicy.RouteFollowsTable` | README.md:108-117 | for a name that no rule matches the code does what the table says, for every tunnel outcome, tunnel state, local answer and family, and a fallback answer is never stored |
| `RoutePolicy.HitFollowsTable` | README.md:108-117 | over every cache history a hit takes the row of the unexpired tunnel lookup of that very name behind it, which was no fallback |
| `RoutePolicy.RuleSharesEntryIff` | rules.go:200-205 | an ip: rule sees the cache entry of the dial in every run, if and only if the name does not end in two dots |
| `RoutePolicy.RulesComeFirst` | README.md:110-111 | a matching rule sends a name direct, and one that needs no lookup is found before any tunnel resolver hears of the name |
| `Tracking.NextKeeps` | conntrack.go:97-149 | every operation keeps: ids split between live and finished, log in closing order, starts follow ids |
| `Tracking.Conservation` | conntrack.go:97-149 | in every run, however Fail, repeated Close, dropStalled and a late Done interleave: each id given out is live or finished exactly once |
| `Tracking.NoDialLost` | dialer.go:198-222 | in every run with dials bounded by the history window, each dial in flight still has its record |
| `Tracking.TimeoutSafeIff` | main.go:313-315 | dial timeouts keep every record if and only if they do not exceed the history window; the check in the configuration is enough |
| `Records.RecordsTellTheirStory` | conntrack.go:97-149 | in every run a finished record has the particulars and start of its Begin, and the time, status, reason and bytes of the one event that ended it |
| `Records.LoggedTells` | conntrack.go:271-301 | what a dial error, a close and the drop of a stalled dial each write into the record |
| `Records.ActiveIffDone` | conntrack.go:118-134 | in every run a live record is active if and only if its dial was Done, and dialing until then |
| `Records.EstablishedStays` | conntrack.go:124-128 | an established connection stays live and active, however long it lasts and however often stalled dials are dropped, until it is closed or failed |
| `Ring.AroundIsRemainder` | conntrack.go:245 | the model's index around the buffer is the remainder |
| `Ring.PopKeeps` | conntrack.go:257-266 | dropping a stale oldest record leaves the buffer the newest part of the log |
| `Ring.PushKeeps` | conntrack.go:243-253 | so does writing behind the newest |
| `Ring.ReplaceKeeps` | conntrack.go:246-248 | so does overwriting the oldest of a full buffer |
| `Ring.HistoryExact` | conntrack.go:180-193 | a buffer that lacks only stale records and whose oldest is fresh is exactly the fresh part of the last `capacity` records |
| `Ring.HistoryComplete` | conntrack.go:180-193 | in any case no fresh record is missing |
| `ConnTracker.ConnTracker.constructor` | conntrack.go:84-92 | an empty tracker; a capacity that is not positive becomes 1000 |
| `ConnTracker.ConnTracker.Begin` | conntrack.go:97-112 | a new dialing record under the next id |
| `ConnTracker.ConnTracker.Done` | conntrack.go:118-134 | marks a live record active; a dropped one is not resurrected and the connection is untracked; nothing without a connection |
| `ConnTracker.ConnTracker.PruneRing` | conntrack.go:257-266 | the loop drops stale records only, and leaves a fresh oldest one |
| `ConnTracker.ConnTracker.Append` | conntrack.go:245-252 | one more record in the log, the buffer still its newest part |
| `ConnTracker.ConnTracker.PushRing` | conntrack.go:243-253 | prunes at its own clock reading, then appends |
| `ConnTracker.ConnTracker.Fail` | conntrack.go:137-149 | moves a live record to the history with the error; nothing for a record that is gone |
| `ConnTracker.ConnTracker.Finish` | conntrack.go:284-301 | moves a live record to the history with bytes and first error; nothing for a record that is gone |
| `ConnTracker.ConnTracker.DropOne` | conntrack.go:273-279 | one record: moved as a dial timeout exactly when it dials for longer than the window |
| `ConnTracker.ConnTracker.DropStalled` | conntrack.go:271-281 | no stalled dial stays live, whatever the map order; without one nothing changes, with one the history grows |
| `ConnTracker.ConnTracker.ReadRing` | conntrack.go:190-192 | the buffer read around its end, oldest first |
| `ConnTracker.ConnTracker.ActiveRecords` | conntrack.go:186-188 | every live record exactly once |
| `ConnTracker.ConnTracker.History` | conntrack.go:180-194 | the list's history is exactly the fresh part of the last `capacity` finished connections, if and only if no dial was stalled or the call takes no longer than the window; none is ever missing |
| `ConnTracker.FirstBad` | conntrack.go:316-350 | the first error that is not a routine close, none exactly when there is none |
| `ConnTracker.TrackedConn.ReadIo` | conntrack.go:316-331 | counts down bytes and keeps the first real error |
| `ConnTracker.TrackedConn.WriteIo` | conntrack.go:333-348 | counts up bytes and keeps the first real error |
| `ConnTracker.TrackedConn.Close` | conntrack.go:352-362 | the first Close finishes the record with the totals over all reads and writes; later ones change nothing |
| `Listing.SelectLoop` | conntrack.go:196-216 | the two filter loops keep exactly the wanted records, in order |
| `Listing.SelectKeeps` | conntrack.go:196-216 | a record passes the filters exactly when it is wanted |
| `Listing.WantedMeans` | conntrack.go:196-216 | wanted: the protocol exactly, if asked for, and the text in host, address or source in any case of its letters |
| `Listing.SortSorts` | conntrack.go:218-223 | a sorted arrangement of the same records exists |
| `Listing.SortedIsUnique` | conntrack.go:218-223 | and only one, so neither sort.Slice nor the map order shows in the list |
| `Listing.ListIsByDescendingId` | conntrack.go:218-223 | in every reachable state the order is by descending id |
| `Listing.PagesCover` | conntrack.go:225-237 | the pages put together are the list, each record once |
| `Listing.PageRightIff` | conntrack.go:225-233 | the page asked for is shown if and only if its offset fits 64 bits or wraps behind the end |
| `Listing.HugePageOutOfRange` | conntrack.go:226-235 | a page number for which the slice bounds are out of range |
| `Listing.List` | conntrack.go:169-239 | bad arguments are refused without touching the tracker; else a page of the wanted records of one snapshot, by descending id, with their total; no fresh record is missing from a history snapshot |
| `Monitor.DelayIsCappedDoubling` | dialer.go:258-272 | for every attempt: doubling from one second, capped at 60 s |
| `Monitor.UncappedOverflowsIff` | dialer.go:254-257 | without the cap on the shift the 64-bit delay is wrong exactly from attempt 34 on |
| `Monitor.PaddedReadsBack` | dialer.go:120-142 | a fingerprint with any white space around it pins that fingerprint; a blank file is an error, never a first use |
| `Monitor.BlankIff` | dialer.go:129-142 | exactly an existing file of nothing but white space is refused |
| `Monitor.PassKeeps` | dialer.go:291-354 | a pass of the loop keeps: status connected exactly with a client, attempts count failures in a row |
| `Monitor.MonitorRuns` | dialer.go:274-357 | in every run: the n-th failure in a row is reported as number n with its capped delay and under 500 ms of jitter, "connected" follows exactly a published client and "reconnecting" a cleared one, and a client is published only after the previous one was cleared |
| `Monitor.FirstUseTrusts` | dialer.go:509-521 | a key of a first use is saved before its client is published |
| `Monitor.PassConnects` | dialer.go:303-350 | every pass nobody stops: the pinned key is let in and any other refused, a first key is let in if and only if it can be saved, each failure is reported as what it is with its number and delay |
| `Monitor.StopPublishesNothing` | dialer.go:297-330 | a stop ends the loop at its next check and publishes nothing |
| `Monitor.ProcessTrusts` | dialer.go:282-349 | in every run of one process all published clients have one key, the pinned or the first saved one |
| `Monitor.OneKeyForLife` | dialer.go:120-142 | over any number of restarts: a file that is there is never written and every client has its key; otherwise the first saved key stays and every client ever published has it |
| `Monitor.ConnectsForLife` | dialer.go:89-102 | once the file pins a key, over any number of restarts: every unstopped pass in which the server shows that key and nothing fails connects, and every one with another key is refused |
| `SshDialer.NewSshDialer` | dialer.go:89-102 | no dialer exactly for a file that is there and blank; else one that starts connecting with what the file pins |
| `SshDialer.SshDialer.ConnectSSH` | dialer.go:423-525 | refused before the key, by the key check, after it, or because a first key cannot be saved; the file is written exactly on a first success |
| `SshDialer.SshDialer.OnePass` | dialer.go:291-354 | the body of the loop on the object's fields is one pass of the model |
| `SshDialer.SshDialer.RunMonitor` | dialer.go:274-357 | the loop with its local variables is a run of the model, over any number of passes and stopped anywhere |
| `Limiter.SlotsAreConnections` | listener.go:86-112 | in every interleaving of listeners and closes: occupied slots are the connections handed out and not yet closed plus those about to be, never above the limit |
| `Limiter.CloseNeverBlocks` | listener.go:112-154 | a first Close always finds a slot to give back |
| `Limiter.RefusedIffFull` | listener.go:103-138 | a connection is refused if and only if the limit is reached, and a refusal changes nothing |
| `Limiter.AllClosedAllFree` | listener.go:144-154 | once every connection was closed, however often, the pool is empty |
| `Limiter.NewConnLimiter` | listener.go:96-101 | no limiter, so no limit, exactly when n is not positive; else an empty pool of n slots |
| `Limiter.ConnLimiter.TryWrap` | listener.go:103-131 | takes a slot for a new connection unless all are held |
| `Limiter.LimitedConn.Close` | listener.go:150-154 | gives the slot back once, however often it is called |
| `Limiter.Accept` | listener.go:123-140 | with other goroutines closing connections meanwhile: refuses exactly the arrivals that find the pool full and hands out the first that does not |

## Where the code and its documentation differ

The model follows the code.

- The comment on `localResolveAll` says the two key spaces cannot shadow each other; for a host name that begins
  with `local:` they do (`CacheKeys.TunnelKeyKeptApartIff`, `CacheKeys.TunnelAnswerShadowsLocal`).
- `store` is documented to evict the oldest entry when full; with the empty host name as the oldest it may evict
  nothing (`Eviction.EvictsOldestIff`, `EmptyName.EmptyNameOverfills`).
- `ruleEntry.matches` says an `ip:` rule shares the cache entry of the dial; for a name that ends in two dots it does
  not (`RoutePolicy.RuleSharesEntryIff`).
- `List` accepts every page from 1 on; an offset beyond 64 bits wraps (`Listing.PageRightIff`).

## Left out

Assumptions: the clock never goes back; a resolver call returns when its context ends; at most one lookup per key
runs at a time and its waiters, of whatever policy, share the result (singleflight); the resolver answer is fixed during one decision;
`sort.Slice` gives some sorted arrangement; nobody but ssh-gate writes the key file while it runs; time differences
fit 64 bits; a lookup takes no time outside its waits; equal maps are ranged over alike when two runs are compared.

- Tunnel DNS over TCP and DNS-over-HTTPS messages: a resolver is its outcome and delay.
- The SSH handshake, keepalive probes, socket options and key generation: a connect is its outcome.
- `stop()` racing with the publication of a client: a stop lands at one of the three checks of the loop, so nothing is
  claimed about a client published after the last check.
- A key file that exists and cannot be read: only missing, blank and filled files are modelled.
- The branch of the monitor that closes a replaced client: by `Monitor.MonitorRuns` there is none to replace.
- Parsing of rules, IP literals and regular expressions: parameters of the rule engine.
- Lower-casing, and white space around the fingerprint, outside ASCII.
- The text of errors, status lines and log records; latency, last-error and last-answer fields of a resolver.
- Counting live connections per protocol (`ActiveByProto`) and turning records into what the API shows (`toView`).
- SOCKS5 and HTTP protocol handling, the Web UI, health checks, configuration parsing, the resilient and keep-alive
  listeners, first-run output.
- TunnelLookup.Resolve: the scheduling of the other goroutines is a function of where everybody stands, not a scheduler.
- SshDialer.RunMonitor: readers of the client and the status between passes are not modelled.
- Listeners without a limiter: they hand out every connection.
