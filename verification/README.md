# Jbalance: a verified model of the load balancer's core

Jbalance is a push-based load balancer. A control plane turns provider snapshots and
administrator settings into versioned backend sets and streams them to data planes; each data
plane keeps a list of backends with health, passive ejection and in-flight counts, selects
backends for requests, resolves routes, limits clients, retries and drains.

This project models that core in Dafny and proves what it keeps over every run. Objects the
program updates in place are classes whose methods are proved equal to functions on plain
values; the theorems are about those functions and hold for all sequences of operations. Clock
readings, random draws, upstream outcomes, provider answers and the success of a disk write are
parameters, so every theorem holds for all of them.

`dafny verify dfyconfig.toml` checks everything.

| file | subject |
|---|---|
| `Wire.dfy` | messages, and the receiver's version guard |
| `Publication.dfy`, `Delivery.dfy`, `Overflow.dfy` | the publication protocol as a step system over all interleavings: safety, delivery and drops, a run that ends behind |
| `Overrides.dfy`, `ControlPlane.dfy`, `Administration.dfy` | stores, effective sets, change detection, the server object and whole administrative runs |
| `Backends.dfy`, `Selection.dfy`, `HashRing.dfy`, `BackendList.dfy` | a data plane's backend list: operations as functions, the selectors, the hash ring, the object |
| `Affinity.dfy` | keys of consistent hashing across entry orders and updates |
| `BackendRuns.dfy`, `ErrorRuns.dfy`, `Fairness.dfy`, `Accounting.dfy` | theorems over runs of the list: slots, ejection, consecutive errors, fairness, in-flight conservation |
| `EndToEnd.dfy` | from the administrator's stores to the backend picked |
| `Routes.dfy`, `Routing.dfy`, `Resolution.dfy` | stored routes, wire form, resolution and splitting |
| `Text.dfy`, `Editor.dfy`, `EditorForms.dfy` | the route editor's parse and format pairs |
| `RateLimit.dfy`, `Health.dfy`, `RetryWriter.dfy`, `Retry.dfy`, `Drain.dfy` | the smaller machines |

## What the proofs turned up

Where a promise of the code or its comments does not hold of the code as it is, the model keeps
the code, a lemma shows an input, and another states exactly when the promise holds.

- Buffering an attempt is not always "replayed verbatim" (internal/dataplane/retrywriter.go:8-13):
  an interim status ahead of a final one other than 200 turns the answer into a 200
  (`RetryWriters.EarlyHintsBecomeOk`, `RetryWriters.BufferingUnseenIff`).
- A settings change whose disk write or snapshot fails is stored in memory and never reaches the
  wire by reconciling unchanged backends (`ControlPlane.FailedChangeStaysOffWire`,
  `ControlPlane.ChangeReachesWireIff`).
- Sweeping idle rate-limit buckets is observable exactly when a bucket cannot refill within the
  ten-minute idle time (`RateLimit.KeptDenies` and `RateLimit.SweptAdmits` on one trace,
  `RateLimit.SweepInvisibleIff`), and then a client gets more than its limit allows
  (`RateLimit.BothBurstsAdmitted`, `RateLimit.AdmissionBoundIff`).
- A route condition with an empty name is dropped on the way to the data plane, which then
  accepts requests that the stored route rejects (`Routing.ProbeMatches`,
  `Routing.MeaningPreservedIff`).
- A stored route with neither a usable split nor a target group resolves to a group outside
  `TargetGroups()` (`Resolution.NamelessRuleEscapes`, `Resolution.ResolutionInTargetGroups`). The
  route form drops such rows (internal/admin/handlers.go:484-487), so one comes only from a loaded
  table; the handler then creates the group on demand.
- The health streak survives removal from the set, so an address that returns while failing is
  marked down by fewer failures than a full run (`Health.ComebackFailsAtOnce`,
  `Health.ReturningAddressDownIff`, `Health.FullRunNeededIff`).
- A data plane can stay behind while connected and drained, exactly when its group's newest update
  met a full queue (`Overflow.DrainedButBehind`, `Delivery.CurrentIffNotDropped`).

## Model

| member | source | states |
|---|---|---|
| `Publication.VersionsNameOneSet` | internal/controlplane/server.go:414-431 | in every interleaving, two messages seen anywhere (current, queued, read, sent, in flight, held) at any two moments with one group and version are the same set |
| `Publication.HeldWasPublished` | internal/dataplane/backends.go:162-200 | what a data plane holds is the set published for its group under its version, and its accepted versions strictly increase, even with duplicated and reordered messages |
| `Publication.AcceptedOnlyGrows` | internal/dataplane/subscriber.go:84-119 | across any continuation of a run, reconnects included, the accepted versions only gain at the end and the held version never falls |
| `Delivery.DrainedHoldsLatest` | internal/controlplane/server.go:476-512 | no update is lost in the join window: a streaming session with empty queue and wire whose newest publication was not dropped has brought its data plane to exactly the current set |
| `Delivery.DroppedOnlyWhenFull` | internal/controlplane/server.go:457-467 | a live session misses the newest set only because that very publication, its group's last, found four undelivered sets queued |
| `Delivery.NeverFullHoldsLatest` | internal/controlplane/server.go:457-467 | a drained session whose queue was never full at a publication of its group has its data plane at exactly the current set |
| `Delivery.CurrentIffNotDropped` | internal/controlplane/server.go:480-511 | a data plane whose session is drained, and to whom no other session past or present sent the newest set, is current if and only if the group's last publication did not find the session past its join with four sets queued |
| `Delivery.MissedIffDropped` | internal/controlplane/server.go:457-467 | a session that has read the current set and not ended is missing the newest one if and only if the group's last publication found it past its join with a full queue |
| `Overflow.DrainedButBehind` | internal/controlplane/server.go:457-467 | any n >= 5 publications before the first forward leave a connected, drained data plane holding version 4 while version n is current |
| `Publication.RunSafe` | internal/controlplane/server.go:439-470 | the safety invariant (numbered histories, queues within capacity, only published sets in transit, subscriber sets matching live sessions) holds in every reachable state |
| `Wire.GuardIs` | internal/dataplane/backends.go:166-172 | a receiver that holds nothing takes any set, any other only a strictly newer one |
| `Overrides.OverrideLookup` | internal/controlplane/overrides.go:68-94 | setting changes and clearing forgets exactly one address of one group |
| `Overrides.ClearUndoesSet` | internal/controlplane/overrides.go:82-94 | clearing a fresh override restores the table exactly, leaving no empty group behind |
| `Overrides.OverrideStore.constructor` | internal/controlplane/overrides.go:35-51 | a store without a file starts empty |
| `Overrides.OverrideStore.GroupOverrides` | internal/controlplane/overrides.go:55-65 | the copying loop returns the group's overrides, none for an unknown group |
| `Overrides.OverrideStore.Set` | internal/controlplane/overrides.go:68-78 | memory takes the override whether or not the write succeeds |
| `Overrides.OverrideStore.Clear` | internal/controlplane/overrides.go:82-94 | the override is removed, and the group with it when it was the last |
| `Overrides.OverrideStore.CloneLocked` | internal/controlplane/overrides.go:97-107 | the nested copy equals the table |
| `ControlPlane.EffectiveBackends` | internal/controlplane/server.go:891-928 | a backend is on the wire if and only if an undrained backend of the snapshot has its address and its weight is the override's where one is given and the snapshot's otherwise |
| `ControlPlane.EffectiveAt` | internal/controlplane/server.go:891-928 | the wire list has one backend for each undrained one of the snapshot, in the snapshot's order, each at the overriding weight or its own |
| `ControlPlane.SnapshotToBackendSet` | internal/controlplane/server.go:891-928 | the loop yields the effective backends in order and the stored settings with their defaults and int32 clamp |
| `ControlPlane.BackendSetsEqual` | internal/controlplane/server.go:933-953 | for two sets: true if and only if both lists repeat no address and are permutations of each other; with a nil, true exactly for two nils |
| `ControlPlane.ConfigurationReachesWire` | internal/controlplane/server.go:201-252 | in every run whose writes and snapshots succeed, the current set is, up to order, the latest snapshot with overrides applied, and carries the stored algorithm, sticky and rate-limit settings |
| `Administration.StoresHoldSettings` | internal/controlplane/server.go:221-252 | in every run from empty stores the stored algorithm, sticky and rate-limit settings of a group are those of the last accepted change of that kind in the history |
| `Administration.StoresHoldOverrides` | internal/controlplane/overrides.go:68-94 | in every run from empty stores an address has the override last set for it, unless it was cleared since |
| `Administration.WireCarriesLastSet` | internal/controlplane/server.go:891-928 | in every run from empty stores whose writes and snapshots succeed, the current set has the settings last set, with their defaults and clamp written out, and exactly the backends of the latest snapshot as last overridden |
| `ControlPlane.ReconcileRepairsBackends` | internal/controlplane/server.go:439-470 | after one successful reconcile the wire carries the effective backends, whatever failed before |
| `ControlPlane.ReconcileRepairsSettingsIff` | internal/controlplane/server.go:439-447 | stale settings on the wire are repaired by a reconcile if and only if the backends differ too |
| `ControlPlane.FailedChangeStaysOffWire` | internal/controlplane/server.go:401-434 | after a failed change of the algorithm, sticky or rate-limit settings any number of reconciles of unchanged backends leave the server as it was and the stored settings off the wire |
| `ControlPlane.WireCarriesPublished` | internal/controlplane/server.go:201-252 | in every run, failures included, the wire carries the settings stored at the group's last publication |
| `ControlPlane.ChangeReachesWireIff` | internal/controlplane/server.go:221-252 | from a wire that carries the stored settings, a change of them is on it at once if and only if it was written and the snapshot came |
| `ControlPlane.OtherGroupFrame` | internal/controlplane/server.go:439-470 | an operation on one group leaves another group's settings, overrides and current set alone |
| `ControlPlane.Server.constructor` | internal/controlplane/server.go:122-153 | nothing published, no subscribers |
| `ControlPlane.Server.Subscribe` | internal/controlplane/server.go:728-735 | the channel joins the group's subscribers with an empty queue |
| `ControlPlane.Server.Unsubscribe` | internal/controlplane/server.go:737-741 | the channel leaves the group's subscribers and nothing else changes |
| `ControlPlane.Server.Broadcast` | internal/controlplane/server.go:449-467 | the next version is stamped and recorded, and offered to each subscriber of the group whose queue has room |
| `ControlPlane.Server.PublishIfChanged` | internal/controlplane/server.go:439-470 | publishes exactly when the effective backends are not a permutation of the current ones |
| `ControlPlane.Server.ForceRepublish` | internal/controlplane/server.go:401-434 | publishes regardless of the comparison, and does nothing when the provider fails |
| `ControlPlane.Server.SetOverride` | internal/controlplane/server.go:201-207 | stores the override, and republishes only when the write succeeded |
| `ControlPlane.Server.ClearOverride` | internal/controlplane/server.go:211-217 | removes the override, and republishes only when the write succeeded |
| `ControlPlane.Server.SetAlgorithm` | internal/controlplane/server.go:221-227 | an unknown algorithm changes nothing; a known one is stored, and republished when written |
| `ControlPlane.Server.SetSticky` | internal/controlplane/server.go:231-237 | stores sticky settings, and republishes only when the write succeeded |
| `ControlPlane.Server.SetRateLimit` | internal/controlplane/server.go:246-252 | stores rate-limit settings, and republishes only when the write succeeded |
| `Backends.WithDefaults` | internal/dataplane/backends.go:87-101 | whatever is configured, thresholds and durations come out positive and the percentage within 1 to 100 |
| `BackendRuns.DefaultsAre` | internal/dataplane/backends.go:87-101 | values in range are kept, the rest become 5 errors, 30 seconds, 5 minutes and 50 percent |
| `BackendRuns.RunSound` | internal/dataplane/backends.go:377-397 | in every run with a non-decreasing clock the slot index and the earliest expiry are those of the entries at the last rebuild, and counts, weights and ejections stay well formed |
| `BackendRuns.SelectionSlotsExact` | internal/dataplane/backends.go:417-442 | after every run, a selection uses exactly the weighted expansion of the entries healthy and not ejected at that moment, in spite of lazy rebuilding |
| `BackendRuns.ExpandCounts` | internal/dataplane/backends.go:377-397 | an entry occurs in the slots as often as its weight when selectable and not at all otherwise |
| `BackendRuns.ExpandOrdered` | internal/dataplane/backends.go:377-397 | slots are in entry order |
| `BackendRuns.UpdateGivesSlots` | internal/dataplane/backends.go:162-215 | after an accepted update each healthy backend has as many slots as its weight, at least one, and an unhealthy one none |
| `BackendRuns.EjectsIff` | internal/dataplane/backends.go:274-336 | seen from outside, one result ejects an address if and only if detection is on, the address is known, the request failed and its entry trips |
| `ErrorRuns.ErrorsAreConsecutive` | internal/dataplane/backends.go:293-302 | in every run the error count of a listed address is the number of failures at the end of its results since the last accepted update and since its own last ejection |
| `ErrorRuns.EjectedByRunIff` | internal/dataplane/backends.go:274-336 | after every run a result ejects an address if and only if detection is on, it is listed, the request failed and completes a run of failures of the configured length, it is not under ejection, and one more ejected entry keeps within the percentage |
| `ErrorRuns.NotSelectedWhileEjected` | internal/dataplane/backends.go:48-56 | after an ejection, whatever operations short of an accepted update follow, no selection and no affinity cookie reaches the backend before the ejection ends |
| `ErrorRuns.EjectedCountIs` | internal/dataplane/backends.go:306-316 | the count against the percentage is the number of entries under ejection at that moment |
| `ErrorRuns.PinnableIff` | internal/dataplane/backends.go:680-693 | an affinity cookie is honoured exactly for a listed, healthy backend not under ejection |
| `BackendRuns.KthEjectionLasts` | internal/dataplane/backends.go:323-328 | in every run the k-th ejection of an address since the last accepted update ends exactly min(k * base, max) after it was decided, written out |
| `BackendRuns.Readmitted` | internal/dataplane/backends.go:48-56 | after an ejection, whatever operations follow, a still listed, healthy and not re-ejected backend is selectable, and in the weighted expansion, at every moment from the maximum duration on |
| `BackendRuns.ReadmittedInSlots` | internal/dataplane/backends.go:417-442 | such a backend is in the slots that any selection reading the clock from then on uses after its lazy refresh |
| `BackendRuns.CapHolds` | internal/dataplane/backends.go:306-321 | in every run that does not lower the percentage, 100 * ejected <= percent * total, then and at all later moments |
| `BackendRuns.SelectionAlwaysSucceeds` | internal/dataplane/backends.go:417-459 | with a percentage below 100, a non-empty group and all backends actively healthy, selection always finds a backend |
| `BackendLists.BackendList.constructor` | internal/dataplane/backends.go:143-151 | a list starts empty at version 0 with round robin |
| `BackendLists.BackendList.RebuildSlots` | internal/dataplane/backends.go:377-397 | the nested loops build the weighted expansion and the earliest expiry |
| `BackendLists.BackendList.Update` | internal/dataplane/backends.go:162-215 | a stale version changes nothing; a newer one replaces entries and settings, keeping health and in-flight counts of addresses that stay and clearing ejection state |
| `BackendLists.BackendList.SetHealth` | internal/dataplane/backends.go:239-254 | the first entry of the address with the other health flips and the slots are rebuilt; otherwise nothing changes |
| `BackendLists.BackendList.SetOutlierConfig` | internal/dataplane/backends.go:259-264 | the configuration is replaced with defaults applied |
| `BackendLists.BackendList.EjectedLen` | internal/dataplane/backends.go:350-361 | counts the entries ejected at the given moment |
| `BackendLists.BackendList.RecordResult` | internal/dataplane/backends.go:274-336 | counts consecutive errors, and ejects with linear backoff when the threshold and the cap allow it |
| `BackendLists.BackendList.NextForKey` | internal/dataplane/backends.go:417-459 | after the lazy refresh: none exactly when there are no slots, else a choice the algorithm allows for the key, counted once on that backend, the cursor moving only for rotation |
| `BackendLists.BackendList.AdvanceCursor` | internal/dataplane/backends.go:461-467 | returns the slot under the cursor and advances it, wrapping at 64 bits |
| `BackendLists.BackendList.BetterOfTwo` | internal/dataplane/backends.go:527-556 | the less loaded of two distinct random slots, the first on a tie |
| `BackendLists.BackendList.Release` | internal/dataplane/backends.go:625-646 | one request less on the address, never below zero, unknown addresses ignored |
| `BackendLists.BackendList.PinTo` | internal/dataplane/backends.go:680-693 | succeeds exactly for a listed, healthy, not ejected address and counts the request on it |
| `Selection.BestIsLeast` | internal/dataplane/backends.go:485-518 | no slot has a smaller connections-to-weight ratio than the least-connections choice |
| `Selection.BestIsFirst` | internal/dataplane/backends.go:485-518 | of equally loaded slots the first wins: the choice is strictly lighter than every slot before it |
| `Selection.BetterOfTwoIs` | internal/dataplane/backends.go:527-556 | the better of two draws is one of them, not heavier than the other, and the first when they tie |
| `Selection.MayPickIs` | internal/dataplane/backends.go:443-459 | what each algorithm may pick: the slot under the cursor in rotation and for hashing without a key, any slot at random, the least loaded, an owner of the key's hash |
| `Selection.PickedIs` | internal/dataplane/backends.go:461-476 | only rotation moves the cursor, by one modulo 2^64, and every pick counts one request on the entry picked |
| `Selection.LeastLoaded` | internal/dataplane/backends.go:485-518 | one pass that skips repeated slots finds the least loaded entry of the whole slot list, the first on a tie |
| `Selection.BuildRing` | internal/dataplane/backends.go:571-590 | the ring holds exactly 40 virtual nodes per unit of weight of each selectable backend |
| `Selection.LookupRing` | internal/dataplane/backends.go:566-605 | sort plus binary search returns an owner of the cyclic successor of the key's hash |
| `HashRing.Search` | internal/dataplane/backends.go:596-601 | binary search splits a sorted ring at the key's hash |
| `HashRing.SearchFindsNearest` | internal/dataplane/backends.go:596-601 | the point found, wrapping to the first, is at least as near clockwise as every other |
| `HashRing.RingHasPoints` | internal/dataplane/backends.go:571-590 | a backend of weight w has exactly the 40 * w points hash(address#v) for v below 40 * w, weights below one counting as one |
| `HashRing.OwnerUniqueIff` | internal/dataplane/backends.go:566-605 | every key has an owner on a non-empty ring, and exactly one for every key if and only if no two backends share a ring hash |
| `HashRing.RemovalMovesOnlyItsKeys` | internal/dataplane/backends.go:566-605 | removing a backend moves only keys it owned |
| `HashRing.AdditionMovesOnlyOntoIt` | internal/dataplane/backends.go:566-605 | adding a backend moves keys only onto it |
| `HashRing.RaisingMovesOnlyOntoIt` | internal/dataplane/backends.go:574-590 | raising a weight moves keys only onto that backend |
| `Affinity.OrderDoesNotMatter` | internal/dataplane/backends.go:566-605 | lists with the same entries in any two orders pick the same backend for a key, when no two backends share a ring hash |
| `Affinity.DroppingMovesOnlyItsKeys` | internal/dataplane/backends.go:162-215 | across an accepted update that drops one backend, a key of any other backend keeps its pick, or moves onto a backend whose ejection the update cleared |
| `Affinity.RaisingMovesOntoIt` | internal/dataplane/backends.go:162-215 | across an accepted update that adds a backend or raises its weight, a key keeps its pick, or moves onto that backend or onto one whose ejection the update cleared |
| `Fairness.RoundRobinFair` | internal/dataplane/backends.go:461-467 | in every run that leaves the slots unchanged, whatever releases, results and pins it holds, from any cursor short of the 64-bit wrap, the n selections made take a backend between floor(n/W) and ceil(n/W) times its weight, and W of them exactly its weight |
| `Fairness.CursorFollowsSelections` | internal/dataplane/backends.go:461-467 | in every run that leaves the slots unchanged, the k-th selection takes the slot k positions after the starting cursor, and the cursor ends as many positions on as selections were made |
| `Fairness.LeastConnectionsBalanced` | internal/dataplane/backends.go:485-518 | in every run from zero counts that leaves the slots unchanged and releases, pins or replaces nothing, (c_i - 1) * w_j <= c_j * w_i for all selectable i and j |
| `Fairness.LeastConnectionsFillsWeights` | internal/dataplane/backends.go:485-518 | once such a run has made exactly W selections each backend holds exactly its weight |
| `Accounting.InFlightConserved` | internal/dataplane/backends.go:625-646 | in every run with matched releases, including removal, re-adding and selections that lost a race with an update, 0 <= count <= outstanding for every listed address |
| `Accounting.InFlightExact` | internal/dataplane/backends.go:188-196 | while no accepted update drops an address and no selection of it is lost, its count equals what is outstanding; stale updates may list anything |
| `Accounting.UpdateConns` | internal/dataplane/backends.go:162-215 | an accepted update keeps counts of addresses that stay, starts new ones at zero and forgets the rest |
| `EndToEnd.ListRefinesReceiver` | internal/dataplane/backends.go:162-215 | in every run the list is configured (addresses, weights, algorithm, sticky, limit, version) by exactly the set that the protocol's abstract receiver holds |
| `EndToEnd.WorldRunsProtocol` | internal/controlplane/server.go:401-512 | every interleaving of administrative operations, reconciles, sessions and deliveries is a run of the publication protocol |
| `EndToEnd.WorldRunsOperations` | internal/controlplane/server.go:401-470 | in every such interleaving the stores and current sets are those of the operations alone, in order |
| `EndToEnd.ConvergedReflectsStores` | internal/controlplane/server.go:476-512 | in every interleaving in which the group's writes and snapshots succeed, a data plane whose session is drained without a drop holds, up to order, the latest snapshot with overrides applied, and the stored settings |
| `EndToEnd.ConvergedCarriesLastSet` | internal/controlplane/server.go:476-512 | in every such interleaving the converged data plane holds exactly the settings last set in the history and exactly the backends of the latest snapshot as last overridden |
| `EndToEnd.AlgorithmNames` | internal/dataplane/backends.go:221-234 | which name gives which algorithm, that the accepted names are exactly those, and that any other falls back to rotation |
| `EndToEnd.DrainedNeverSelected` | internal/dataplane/backends.go:417-459 | in every such interleaving that data plane picks, by any algorithm or by affinity and after any list history, only addresses of the latest snapshot that are not drained, held at the overriding weight or their own, under the stored algorithm |
| `Routes.MatchLine` | internal/controlplane/routes.go:108-128 | host, path-prefix and method tests, with their wildcards, as one condition |
| `Routes.RouteMatchesRequest` | internal/controlplane/routes.go:134-149 | true if and only if the line and all header and query conditions hold, absent headers or query failing any condition |
| `Routes.MatchesRequestIff` | internal/controlplane/routes.go:108-191 | what a route accepts in full: host or wildcard, paths that begin with the prefix, listed methods, and every header and query condition by value or presence |
| `Routes.HeaderConditionMet` | internal/controlplane/routes.go:155-168 | presence for an empty value, else some equal value under the canonical name |
| `Routes.QueryConditionMet` | internal/controlplane/routes.go:174-191 | presence for an empty value, else some equal value under the exact name |
| `Routes.RouteStore.constructor` | internal/controlplane/routes.go:223-240 | an empty store at version 0 |
| `Routes.RouteStore.Set` | internal/controlplane/routes.go:265-277 | the table is replaced and the version rises by one, whether or not the write succeeds |
| `Routing.PublishRoutes` | internal/controlplane/server.go:280-342 | each stored route goes out without unnamed conditions, groupless targets or disabled authentication, in order, under the store's version |
| `Routing.MatchRule` | internal/dataplane/router.go:72-102 | the data plane's match is the line and all of its conditions |
| `Routing.PipedParts` | internal/dataplane/router.go:179-214 | through publication and conversion a route keeps exactly its named conditions, usable targets, rewrite, and its policy unless the mode is empty or "none" |
| `Routing.PolicySurvivesIff` | internal/controlplane/server.go:304-315 | a stored policy is the data plane's if and only if its mode is neither empty nor "none", or it says nothing at all |
| `Routing.UsableAt` | internal/dataplane/router.go:186-200 | the usable targets are those that name a group, in order, with weights below one counting as one |
| `Routing.PipedMatches` | internal/dataplane/router.go:72-143 | for every request the data plane's rule accepts whatever the stored route accepts, and agrees with it when all conditions are named |
| `Routing.MeaningPreservedIff` | internal/controlplane/server.go:315-328 | a route means the same on both planes for every request if and only if none of its conditions has an empty name |
| `Resolution.PipelineResolves` | internal/dataplane/router.go:247-270 | for every table of named conditions and every request, resolution takes the first stored route that matches, and the default group exactly when none does |
| `Resolution.SplitExactlyProportional` | internal/dataplane/router.go:357-378 | exactly weight_k of the draws in [0, total) stop at target k, and none reaches the final fallback |
| `Resolution.GroupsShareExactly` | internal/dataplane/router.go:357-378 | of the draws below the total, pickSplit sends exactly as many to a group as the weights of the targets naming it add up to |
| `Resolution.TargetGetsItsWeight` | internal/dataplane/router.go:357-378 | a target whose group no other names gets exactly its weight of the draws |
| `Resolution.RequestsShareExactly` | internal/dataplane/router.go:247-270 | a request whose first matching stored route splits its traffic is resolved to a group by exactly that group's share of the draws |
| `Resolution.PickSplit` | internal/dataplane/router.go:357-378 | the decrementing loop picks the target whose share contains the draw; one target or a non-positive total give the first |
| `Resolution.ResolutionInTargetGroups` | internal/dataplane/router.go:398-418 | a resolution lies in the target groups if and only if the matched rule has a usable split or a target group, or the default group is empty |
| `Resolution.NamelessRuleEscapes` | internal/dataplane/router.go:247-270 | a stored route that matches everything and names no group resolves, through publication and conversion, to a group outside `TargetGroups()` |
| `Resolution.RouteTable.constructor` | internal/dataplane/router.go:166-173 | no rules, version 0, the given default group |
| `Resolution.RouteTable.Update` | internal/dataplane/router.go:179-214 | a stale table is ignored; a newer one replaces all rules, converted in order |
| `Resolution.RouteTable.Resolve` | internal/dataplane/router.go:247-270 | group, rewrite and authentication of the first matching rule, the defaults when none matches |
| `Resolution.RouteTable.TargetGroups` | internal/dataplane/router.go:398-418 | the default group and every non-empty group some rule names, each exactly once |
| `Resolution.SetRoutes` | internal/controlplane/server.go:261-267 | a saved table is stored under the next version whether or not its write succeeds, and becomes the data plane's rules exactly when it was written, its push was delivered and the version guard takes it |
| `Resolution.EditAndResolve` | internal/controlplane/server.go:261-354 | after any sequence of edits, failed writes and dropped pushes included, the data plane has the last table that was written and delivered, and answers a request with the group, rewrite and policy of that table's first matching route |
| `Text.SplitJoinExact` | internal/admin/handlers.go:561-609 | splitting undoes joining for parts free of the separator |
| `Text.JoinSplit` | internal/admin/handlers.go:561-609 | joining undoes splitting for every text |
| `Text.TrimDrops` | internal/admin/handlers.go:561-591 | trimming takes off space at both ends and nothing else |
| `Text.SpacesAre` | internal/admin/handlers.go:561-591 | what trimming takes for space: blanks, tabs, line ends and the Unicode spaces, no printable ASCII |
| `Text.AtoiItoa` | internal/admin/handlers.go:561-609 | parsing undoes formatting of every natural number in range |
| `Text.AtoiSigned` | internal/admin/handlers.go:568-580 | signs are understood, and what does not fit 64 bits or is empty is refused |
| `Text.ItoaCanonical` | internal/admin/handlers.go:596-609 | decimal form without leading zeros |
| `Editor.SplitRoundTrip` | internal/admin/handlers.go:561-609 | format then parse is the identity on well-formed splits |
| `Editor.SplitStable` | internal/admin/handlers.go:561-609 | for every text, parse(format(parse(s))) = parse(s) |
| `Editor.BareGroupParses` | internal/admin/handlers.go:561-591 | a group written without a weight has weight one |
| `Editor.WrittenWeightParses` | internal/admin/handlers.go:561-591 | a written weight of zero or beyond 64 bits drops the target, one beyond 32 bits becomes 2147483647, any other is kept |
| `Editor.SplitReads` | internal/admin/handlers.go:596-609 | two targets read "group:weight, group:weight" |
| `Editor.MatchRoundTrip` | internal/admin/handlers.go:752-810 | format then parse is the identity on well-formed header and query conditions |
| `Editor.MatchStable` | internal/admin/handlers.go:752-810 | for every text, parse(format(parse(s))) = parse(s) |
| `Editor.BareLineIsHeader` | internal/admin/handlers.go:752-777 | a line without either prefix is a header condition |
| `Editor.MatchReads` | internal/admin/handlers.go:793-810 | conditions read "header:Name: value" and "query:name=value", one a line, headers first |
| `Editor.RewriteRoundTrip` | internal/admin/handlers.go:616-672 | format then parse is the identity on rewrites the field can hold, in whatever order header names are listed |
| `Editor.RewriteStable` | internal/admin/handlers.go:616-672 | for every pair of texts, parsing, formatting and parsing again gives the first result |
| `Editor.ToMapSnoc` | internal/admin/handlers.go:616-650 | of two lines that set one header the later counts |
| `Editor.RewriteReads` | internal/admin/handlers.go:654-672 | a header to set reads "Name: value" and one to remove "-Name", one a line |
| `Editor.AuthRoundTrip` | internal/admin/handlers.go:683-739 | format then parse is the identity on policies the field can hold |
| `Editor.AuthStable` | internal/admin/handlers.go:683-739 | for every text, parse(format(parse(s))) = parse(s) |
| `Editor.UnknownSchemeIsOpen` | internal/admin/handlers.go:683-715 | text that begins with neither "apikey:" nor "jwt:hmac:" sets no policy |
| `Editor.AuthReads` | internal/admin/handlers.go:720-739 | policies read "apikey:K1,K2" and "jwt:hmac:SECRET", followed by issuer and audience when there is either |
| `EditorForms.ParseSplit` | internal/admin/handlers.go:561-591 | the loop keeps exactly the parsable targets, in order, clamped to int32 |
| `EditorForms.FormatSplit` | internal/admin/handlers.go:596-609 | the text parses back to the targets when they are well formed |
| `EditorForms.ParseMatch` | internal/admin/handlers.go:752-777 | the loop keeps exactly the parsable conditions of each kind, in order |
| `EditorForms.FormatMatch` | internal/admin/handlers.go:793-810 | the text parses back to the conditions when they are well formed |
| `EditorForms.ParseRewrite` | internal/admin/handlers.go:616-650 | later lines override earlier ones of the same name; nothing set, removed or stripped gives no rewrite |
| `EditorForms.FormatRewrite` | internal/admin/handlers.go:654-672 | header names are listed sorted and once, and the two fields parse back to the rewrite when it is well formed |
| `EditorForms.ParseAuth` | internal/admin/handlers.go:683-715 | the branches and loop compute the policy of the trimmed text |
| `RateLimit.SweepInvisible` | internal/dataplane/ratelimit.go:74-114 | on every trace with a non-decreasing clock whose configurations refill while idle, the sweeping limiter decides like one that never sweeps |
| `RateLimit.SweepInvisibleIff` | internal/dataplane/ratelimit.go:104-114 | for a configuration, sweeping is invisible on all traces if and only if the depth is at most 600 seconds of refill |
| `RateLimit.AdmissionBound` | internal/dataplane/ratelimit.go:74-99 | under one configuration that refills while idle, however often it is applied again and whatever came before it, a client is admitted at most burst + rps * T times in any interval of length T, the burst being max(1, floor(rps)) when none is configured |
| `RateLimit.AdmissionBoundIff` | internal/dataplane/ratelimit.go:74-114 | a limit bounds every client by burst + rps * T on all traces if and only if the burst is at most 600 seconds of refill |
| `RateLimit.NewClientBurst` | internal/dataplane/ratelimit.go:81-98 | of n requests at one moment a client without a bucket gets exactly min(n, burst), and min(n, max(1, floor(rps))) when no burst is configured |
| `RateLimit.RefilledBurst` | internal/dataplane/ratelimit.go:81-98 | t seconds after its bucket was empty a client gets, of n requests at one moment, exactly the whole tokens that rps * t makes, up to the burst |
| `RateLimit.NewLimitStartsFull` | internal/dataplane/ratelimit.go:60-68 | a changed limit gives every client its full burst again, and a repeated one changes nothing |
| `RateLimit.SweepDiscardsIdle` | internal/dataplane/ratelimit.go:104-114 | a sweep is due after 60 seconds and discards exactly the buckets idle for more than 600 |
| `RateLimit.GroupRateLimiter.constructor` | internal/dataplane/ratelimit.go:53-55 | no buckets, limiting off |
| `RateLimit.GroupRateLimiter.SetConfig` | internal/dataplane/ratelimit.go:60-68 | a changed configuration drops all buckets; an equal one keeps them |
| `RateLimit.GroupRateLimiter.Allow` | internal/dataplane/ratelimit.go:74-99 | sweeps, then admits exactly when a token is present, drawing it; always admits when limiting is off |
| `RateLimit.GroupRateLimiter.Sweep` | internal/dataplane/ratelimit.go:104-114 | at most once a minute, discards exactly the buckets idle longer than ten minutes |
| `Health.StreakIsTrailingRun` | internal/dataplane/healthcheck.go:212-228 | after any history the streak is the signed length of the trailing run of equal results, going on from an earlier streak only if the run reaches back to it |
| `Health.FlipNeedsFullRun` | internal/dataplane/healthcheck.go:230-234 | the health bit of a newly listed address changes only on a full run of the opposite outcome, and a full run always sets it |
| `Health.FlipsCost` | internal/dataplane/healthcheck.go:212-235 | over any history of results, k flips need at least ceil(k/2) * F + floor(k/2) * S probes |
| `Health.HealthFollowsProbes` | internal/dataplane/healthcheck.go:212-244 | in every run of probes of any address and other list operations, an address that no accepted update drops has the streak and health its own results give it, from whatever it started with |
| `Health.RunFlipsCost` | internal/dataplane/healthcheck.go:212-244 | in every run, k changes of the listed health of a newly listed address that stays cost at least ceil(k/2) * F + floor(k/2) * S of its own probes |
| `Health.ReturningAddressDownIff` | internal/dataplane/healthcheck.go:216-234 | whatever streak a listed, healthy address carries and whatever happens around its probes, a run of failures marks it down if and only if the run and the failures carried over reach the threshold together |
| `Health.FullRunNeededIff` | internal/dataplane/healthcheck.go:216-234 | a full run of failures is needed if and only if no failing streak was carried over or the threshold is one |
| `Health.ComebackFailsAtOnce` | internal/dataplane/healthcheck.go:216-234 | with a threshold of two: listed, failed twice, removed, listed again as healthy, and down after one failure |
| `Health.HealthChecker.constructor` | internal/dataplane/healthcheck.go:76-86 | no streaks |
| `Health.HealthChecker.RecordResult` | internal/dataplane/healthcheck.go:212-235 | updates the streak and pushes a health change into the list exactly at the thresholds |
| `RetryWriters.DirectResponse` | internal/dataplane/proxy.go:347-349 | written directly, any call sequence gives the first settled status and the bytes written if that status has a body |
| `RetryWriters.StatusClasses` | internal/dataplane/proxy.go:347-349 | 1xx statuses are interim except 101, and no 1xx, 204 or 304 has a body |
| `RetryWriters.BufferingUnseenIff` | internal/dataplane/retrywriter.go:37-61 | for every call sequence, buffering and flushing gives the status and body of direct writing if and only if it does not open with an interim status ahead of a final one other than 200 |
| `RetryWriters.EarlyHintsBecomeOk` | internal/dataplane/retrywriter.go:37-43 | a 103 followed by a 404 reaches the client as 200 when buffered |
| `RetryWriters.RetryResponseWriter.constructor` | internal/dataplane/retrywriter.go:26-31 | empty, status 200 |
| `RetryWriters.RetryResponseWriter.WriteHeader` | internal/dataplane/retrywriter.go:37-43 | only the first status counts |
| `RetryWriters.RetryResponseWriter.Write` | internal/dataplane/retrywriter.go:45-48 | bytes append and fix the status |
| `RetryWriters.RetryResponseWriter.FlushTo` | internal/dataplane/retrywriter.go:52-61 | the client receives the held status, then the held body |
| `Retry.RequestIsUpgrade` | internal/dataplane/proxy.go:380-389 | true if and only if some Connection token is "upgrade" in any case and the Upgrade header is not empty |
| `Retry.RequestRetryable` | internal/dataplane/proxy.go:357-374 | true if and only if the method is safe (section 9.2.1 of RFC 9110), there is no body and no upgrade |
| `Retry.RepeatableIff` | internal/dataplane/proxy.go:357-374 | GET, HEAD, OPTIONS or TRACE, no body, and no upgrade, written out |
| `Retry.UpgradeTokens` | internal/dataplane/proxy.go:380-389 | the upgrade token counts in any letter case, and other tokens do not |
| `Retry.SelectBackend` | internal/dataplane/proxy.go:411-438 | an affinity cookie naming a pinnable backend is honoured; otherwise the group's algorithm chooses for the client address; none only when no slots exist |
| `Retry.AffinityIs` | internal/dataplane/proxy.go:411-430 | the cookie is looked for under the group's name, "jb_affinity" by default, only while sticky sessions are on, and an empty value does not count |
| `Retry.ServeOnce` | internal/dataplane/proxy.go:322-350 | the result is recorded, then the backend released; a failed buffered attempt leaves the client's writer untouched |
| `Retry.AttemptRestores` | internal/dataplane/proxy.go:322-350 | for every outcome, recording and releasing takes back exactly what the selection counted, even when the result ejects the backend |
| `Retry.AnswerUnseen` | internal/dataplane/proxy.go:335-349 | with final statuses the client gets the same answer whether the attempt was buffered or not |
| `Retry.Proxy.constructor` | internal/dataplane/proxy.go:51-67 | retries are at least zero and the backoff positive |
| `Retry.Proxy.ServeWithRetries` | internal/dataplane/proxy.go:268-310 | for every sequence of outcomes: at most 1 + MaxRetries attempts, one if not retryable; all but the last failed; status and body come from the last attempt or nothing is written; every in-flight count returns to its start |
| `Drain.ChannelsCloseOnce` | internal/dataplane/tcpproxy.go:73-83 | in every interleaving no idle channel is closed twice, the one in place is open and the count is not negative |
| `Drain.SignalledAtFirstIdle` | internal/dataplane/tcpproxy.go:73-83 | a channel captured while busy is closed if and only if the count has been zero since |
| `Drain.ResultExplained` | internal/dataplane/tcpproxy.go:123-149 | true means the count was zero at some moment since the call; false means a non-positive grace or a re-check that found connections |
| `Drain.ReturnsAtOnceIff` | internal/dataplane/tcpproxy.go:124-134 | a call is back at once if and only if nothing is in flight or the grace is not positive, and then true exactly when nothing is in flight |
| `Drain.TrueMeansDrained` | internal/dataplane/tcpproxy.go:115-149 | if no connection is counted as started after the call, a true result means the count is zero |
| `Drain.LateStartOutlivesDrain` | internal/dataplane/tcpproxy.go:123-149 | with a later start, a true result can leave a connection in flight |
| `Drain.NoLostSignal` | internal/dataplane/tcpproxy.go:129-140 | a blocked call can go on through its channel if and only if the count has been zero since it began |
| `Drain.TCPProxy.constructor` | internal/dataplane/tcpproxy.go:52-59 | no connections, one open channel |
| `Drain.TCPProxy.ConnStarted` | internal/dataplane/tcpproxy.go:65-69 | one connection more, nothing else |
| `Drain.TCPProxy.ConnFinished` | internal/dataplane/tcpproxy.go:73-83 | one less; at zero the channel is closed, which was open, and replaced |
| `Drain.TCPProxy.BeginDrain` | internal/dataplane/tcpproxy.go:124-134 | idle returns true, a non-positive grace false, otherwise the call waits on the channel in place |
| `Drain.TCPProxy.Drain` | internal/dataplane/tcpproxy.go:123-149 | whatever starts and finishes while it blocks and however the select goes, the call is a run of the step system; true means idle at some moment since it began, and idle on return if nothing started meanwhile |

## Left out

- Control-plane restarts: versions restart at 1 and data planes holding higher ones ignore the new sets until they overtake; all delivery theorems are about one process.
- Atomicity: in the protocol model a publication's content is arbitrary, so the version theorems hold although the content is computed outside the lock; theorems about content treat each administrative operation as one step, interleaved with all session and delivery steps.
- gRPC, TLS, reverse proxying, socket piping and telemetry: only send, receive and outcome steps remain.
- The subscriber's reconnect backoff times, and route streaming: sessions open and close at any time; the route table is modelled from store to resolver without its subscription.
- Persistence: a write either succeeds or fails; files, Postgres and loading at start are not modelled.
- Pool providers, configuration files, metrics, access logs, admin sessions, passwords, CSRF, edge authentication checks and HTML.
- Entries are values in a sequence: a selection that still holds entries replaced by an update is modelled as a lost selection in `Accounting`, other writes through stale pointers are not.
- Locks: the methods of `BackendList` are atomic steps; only the selection race above is modelled between them.
- Integer widths: durations and connection counts are unbounded integers, the cursor wraps at 64 bits, weights and bursts clamp as in the code; a cursor wrap inside a round-robin cycle is outside `Fairness.RoundRobinFair`.
- Floating point: loads are compared as exact fractions and rates are reals.
- The token bucket library: a bucket that starts full, refills continuously and admits on one token stands for golang.org/x/time/rate, with one clock reading per request.
- The net/http response writer: the first final status sticks, interim statuses do not, a body implies 200, and 1xx, 204 and 304 carry none; headers, including affinity cookies and the buffered headers, are not modelled.
- The hash function, case folding of hosts and methods, and header canonicalisation are parameters.
- Random draws are arbitrary inputs: nothing is said about their distribution.
- Text: strings are sequences of Unicode characters without invalid bytes.
- HashRing.SortRing: any order of points with equal hashes may result; the source's sort is not stable either.
- Retry.Proxy.ServeWithRetries: nothing else touches the list between the loop's steps; with other requests interleaved, `Accounting.InFlightExact` applies.
- Drain.TCPProxy.Drain: what happens while the call blocks and how its select resolves are parameters, since a method cannot block.
- Resolution.EditAndResolve: the data plane's version is not ahead of the store's, as it can be after a control-plane restart.
- Editor.RewriteRoundTrip: response headers and added path prefixes cannot be entered in the editor, so rewrites that use them are outside the identity.
- Editor.AuthRoundTrip: RSA keys and a custom key header cannot be entered in the editor, so policies that use them are outside the identity.
- The HTTP handler around routing, limiting and retrying, the rewriting of requests and responses, and the handling of single TCP connections: they pass values between the parts above and the network, and keep no state of their own.
