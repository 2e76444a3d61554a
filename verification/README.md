# Verified model of the Cloudflare Gateway controller

The controller exposes Kubernetes services through Cloudflare tunnels; a reverse proxy runs inside each
tunnel. This project models the protocols and algorithms between the API calls in Dafny and proves what
they guarantee over whole runs, with Kubernetes and Cloudflare as abstract stores and environment steps.

| file | what it models |
|---|---|
| `Schedule.dfy` | the bisection that looks back for the previous cron trigger, and its cost |
| `Rotation.dfy`, `TokenHashOrder.dfy` | when the tunnel token is rotated, what the status object records, and the order in which a new token's hash spreads when calls fail |
| `Rollout.dfy` | the rolling update of the tunnel Deployments and the Gateway's readiness |
| `RotationWatcher.dfy`, `RotationReport.dfy` | the command line tool that watches a rotation and judges its order |
| `RouteObjects.dfy`, `RouteClaims.dfy`, `ClaimConvergence.dfy` | routes, the proxy entries they become, and the table of who owns which (hostname, path, protocol) key |
| `ProxyConfig.dfy`, `RouteMatch.dfy`, `EndToEnd.dfy` | the table as the proxy loads it, request matching, and who receives a request |
| `SessionCookie.dfy`, `Sessions.dfy`, `WeightedPick.dfy` | session cookies, sessions over runs of requests, weighted backend choice |
| `Tunnels.dfy`, `Dns.dfy`, `DnsOwnership.dfy` | a Gateway's tunnel, its DNS diff, and ownership of hostnames among many Gateways |
| `Finalization.dfy` | deletion of a Gateway with failures and retries, and the indexes it relies on |
| `Names.dfy`, `Decimal.dfy`, `Base.dfy` | names and their injectivity, decimal printing, Go string and integer helpers |

Loops and state changes of the source are methods and classes, each proved against a function or relation;
the theorems are lemmas about those functions and relations. A call that may fail is either a havocked
Boolean inside a method or an explicit fault parameter. A failed write may have had its effect.

## Hypotheses

- Applying a changed Deployment spec bumps its generation; an equal spec is "unchanged". The desired spec and the
  replica list are fixed along a run (`SpecChangeStartsSecondRollout` shows what happens otherwise).
- `next` of a schedule is total: the least trigger strictly after its argument. For rotation, triggers are whole
  seconds after the zero instant; for `TokenHashOrder` rotation settings are fixed, the status object is live and up to
  date at the start, and requests are timestamps that only get newer.
- Passes of one Gateway are atomic with respect to other Gateways' passes, and zone lookups are stable within a pass.
  Every record lies in an account zone; there is at most one CNAME per zone and name (section 3.6.2 of RFC 1034).
  Gateways and their tunnels may come and go; an account does not reuse tunnel IDs.
- Convergence of the claim table needs a fixed route list with fixed grants and namespaces without a slash; claim
  safety does not.
- Sessions: one clock reading per request, between 0 and 9223372036 and otherwise arbitrary, as replicas have clocks of
  their own; the client returns the last cookie a replica minted under one session name; backend IDs hold no dot (they
  are hexadecimal).

## Where the code differs from what one would expect

- When the trigger to be found is the zero instant, the look-back search can answer an older one
  (`ZeroInstantTriggerIsMissed`), exactly when there is one after a midpoint that depends on the interval alone
  (`ZeroInstantIsPrevExactly`).
- A span of 2^63 - 1 nanoseconds holds 2^63 instants and costs 64 calls, not 63, when every instant is a trigger
  (`LargestSpanCosts64`).
- The claim table can need three passes to settle instead of two (`TwoPassesAreNotEnough`), exactly when a route is the
  first to list each of its keys but waits for owners that hold one and cannot keep it (`TwoPassesSettleExactly`). An
  accepted route is rejected by the next pass exactly when it has a key that it neither serves nor is the first to list
  (`AcceptedStaysExactly`, with an input in `DeniedBackendLosesItsKey`).
- A Progressing=False condition that outlives the update meant to cure it lets the next pass start a second rollout
  (`StaleFailureStartsSecondRollout`, and exactly when: `FaultlessSecondRollout`, `SecondRolloutExactly`).
- A Deployment can get a new token's hash before the status object does when the answer to a rotation is lost and the
  next pass comes after the trigger has left the look-back window. This is ruled out exactly when scheduled rotation is
  disabled or no trigger is followed by more than five years without one (`HashOrderExactly`, with an input in
  `LongGapBreaksHashOrder`); a schedule for 29 February has such a gap across most century years.
- `ensureTunnel` succeeds with an empty ID exactly when a tunnel that another client created in between has vanished
  again before the second lookup (`EmptyIDExactlyWhenVanished`, with an input in `TunnelCanVanish`).
- The proxy matches the prefixes `""` and `/` alike although they are different claim keys, so the receiver depends on
  the order of the table exactly when two owners hold both on one hostname (`BuiltTableIsOrderFree`, with an input in
  `RootRoutesDependOnOrder`).
- A request answered before the first whole second at or after it, or whose text is not a timestamp, is answered again
  by the next pass until the Gateway is ready (`RequestRepeatsExactlyWhenTooEarly`). A request is marked handled without
  a recorded rotation exactly when the pass that answers it also marks it, in an earlier second than the request's
  (`HandledRequestsAreRecordedExactly`, with an input in `RequestAheadIsNotRecorded`).
- A permanent cookie loses its Max-Age in the last second of its absolute timeout (`MaxAgeIsDroppedExactlyWhenExhausted`,
  with an input in `LastSecondLosesMaxAge`).
- Weighted choice is proportional exactly when the weights' sum fits an int32 (`ProportionalExactlyWhenSumFits`).
- `reconcileDNS` compares hostnames without their zones. After a successful pass a desired hostname has its record in
  its own zone exactly when it had it before or nothing pointed at the tunnel from it (`PlacedExactly`); when a more
  specific zone is added to the account, the old record stays and the new zone stays empty (`AddedZoneStaysEmpty`).

## Model

| member | source | states |
|---|---|---|
| Schedule.SearchIsExact | internal/schedule/schedule.go:57-75 | the bisection finds the greatest trigger after the start of the interval and before the next trigger, or the zero instant when there is none |
| Schedule.PrevAndNextAreExact | internal/schedule/schedule.go:46-52 | the previous trigger is the greatest at or before now within the look-back, the next one the least after now |
| Schedule.PrevIsZeroExactlyWhenNone | internal/schedule/schedule.go:54-60 | the answer is zero exactly when the look-back window holds no trigger, once the window lies after the zero instant |
| Schedule.ZeroInstantTriggerIsMissed | internal/schedule/schedule.go:69-74 | a schedule of whole seconds for which the previous trigger is the zero instant and an older one is returned |
| Schedule.ZeroInstantIsPrevExactly | internal/schedule/schedule.go:57-75 | when the zero instant is the previous trigger, it is returned if and only if no trigger lies between the interval's halving point and it |
| Schedule.SearchIsLogarithmic | internal/schedule/schedule.go:57-75 | n instants cost at most floor(log2 n) + 1 calls of Next |
| Schedule.DurationSpanCalls | internal/schedule/schedule.go:57-75 | any span a Duration holds costs at most 64 calls, and at most 63 below the largest |
| Schedule.EveryInstantIsWorst | internal/schedule/schedule.go:57-75 | the logarithmic bound is attained for every interval length |
| Schedule.LargestSpanCosts64 | internal/schedule/schedule.go:57-75 | so the largest span can cost 64 |
| Rotation.Tunnel.MaybeRotateToken | internal/controller/gateway_tunnel.go:141-232 | rotates exactly for a pending request or a passed trigger, and reports the rotation time, or on the first check the seed; fails for an invalid schedule or a failing call |
| Rotation.EnabledPassSeeds | internal/controller/gateway_tunnel.go:204-212 | after a pass with an enabled schedule a rotation time is recorded; the first one without a request records its own second and does not rotate |
| Rotation.TriggersAreAnswered | internal/controller/gateway_tunnel.go:190-207 | after such a pass every trigger within the look-back has a recorded rotation time at or after it, and a time recorded before the trigger makes the pass rotate |
| Rotation.RequestsAreAnswered | internal/controller/gateway_tunnel.go:174-188 | after a pass that sees an unhandled request, a rotation at or after it, or made by the pass, is recorded |
| Rotation.PassWrites | internal/controller/gateway_helpers.go:308-330 | a pass writes the hash it fetched, and its annotation as handled exactly when the Gateway is ready |
| Rotation.LastRotatedAtNeverDecreases | internal/controller/gateway_helpers.go:330-336 | LastRotatedAt never decreases over a run with a forward clock |
| Rotation.OneRotationPerTrigger | internal/controller/gateway_tunnel.go:190-211 | two scheduled rotations of a run answer different, increasing triggers, even if the settings change |
| Rotation.OneRotationPerRequest | internal/controller/gateway_tunnel.go:175-188 | of two rotations for one request the earlier came before the first whole second at or after it, unless its text is not a timestamp |
| Rotation.RequestRepeatsExactlyWhenTooEarly | internal/controller/gateway_tunnel.go:180-188 | while the Gateway is not ready, a request is answered again by the next pass if and only if its rotation came before that second or its text is not a timestamp |
| Rotation.HandledRequestsAreRecordedExactly | internal/controller/gateway_helpers.go:322-336 | over every run, handled requests have a recorded rotation no earlier than themselves, rounded down to the second, if and only if no pass answers a request and marks it as handled in an earlier second than the request's |
| Rotation.HandledIsRecordedExactlyWhenNotAhead | internal/controller/gateway_helpers.go:322-329 | the equivalence for one pass, from any status |
| Rotation.RequestAheadIsNotRecorded | internal/controller/gateway_helpers.go:322-329 | a ready Gateway that answers a request of the next second marks it handled without such a record |
| TokenHashOrder.NextKeepsInv | internal/controller/gateway_controller.go:333-437 | as long as the most recent trigger never goes back, every call of a pass, done, refused or with its answer lost, keeps the order of hashes and the pending report |
| TokenHashOrder.HashOrderAlways | internal/controller/gateway_helpers.go:221-250 | as long as the most recent trigger never goes back, a Deployment carrying the current token's hash implies at every point of every run that the status object carries it |
| TokenHashOrder.FaultlessPassSpreadsHash | internal/controller/gateway_controller.go:333-437 | a pass in which no call fails ends with the current token's hash in the status object and in the Deployment it applies |
| TokenHashOrder.HashOrderExactly | internal/controller/gateway_helpers.go:231-233 | every run keeps that order if and only if scheduled rotation is disabled or no trigger is followed by more than a look-back without one |
| TokenHashOrder.ForgottenRotationBreaksOrder | internal/controller/gateway_tunnel.go:190-211 | the run of a lost answer whose trigger leaves the look-back window before the next pass |
| TokenHashOrder.LongGapBreaksHashOrder | internal/schedule/schedule.go:18-23 | a schedule with eight years between triggers on which some run breaks the order |
| TokenHashOrder.FourYearCycleIsGapFree | internal/schedule/schedule.go:18-23 | a schedule whose triggers are at most 1461 days apart has no gap |
| TokenHashOrder.SettingsChangeBreaksHashOrder | internal/controller/gateway_helpers.go:231-233 | switching scheduled rotation off after a lost answer breaks that order |
| Rollout.Cluster.ApplyTunnelDeployments | internal/controller/gateway_tunnel.go:246-302 | one pass does exactly what the walk over the replicas does, for every pattern of failing calls, and changes an existing Deployment only when its spec is observed, its wanted pods are updated and ready and no old one is left, or it has failed |
| Rollout.Cluster.ApplyOne | internal/controller/gateway_tunnel.go:307-323 | a changed spec is written with a new generation, an equal one leaves the Deployment alone |
| Rollout.WalkTouchesOnlyRolledOut | internal/controller/gateway_tunnel.go:264-282 | the same in terms of status fields, and a pass waits only for a replica that exists, is not in that state and has not failed |
| Rollout.PassCreatesAllAbsent | internal/controller/gateway_tunnel.go:285-299 | a faultless pass that meets no existing replica in need of it creates all absent ones and ends with every replica at its desired spec |
| Rollout.WalkIsSafe | internal/controller/gateway_tunnel.go:250-299 | a walk keeps at most one update in flight, behind replicas that have the desired spec |
| Rollout.WalkUpdatesAtMostOne | internal/controller/gateway_tunnel.go:289-297 | a pass changes at most one existing Deployment and leaves every other one untouched |
| Rollout.OneRolloutAtATime | internal/controller/gateway_tunnel.go:234-302 | over every run with arbitrary status changes and failures at most one replica is updated and not yet seen rolled out or failed |
| Rollout.UnobservedAtMostOne | internal/controller/gateway_tunnel.go:246-302 | no two replicas ever have a spec that Kubernetes has not observed, as long as none with an unobserved spec carries a Progressing=False |
| Rollout.SecondRolloutExactly | internal/controller/gateway_tunnel.go:250-299 | while one replica is unobserved, a pass leaves another one unobserved if and only if it gets, without a failing call, to another replica that is outdated and not rolling out |
| Rollout.FaultlessSecondRollout | internal/controller/gateway_tunnel.go:264-278 | with a fixed desired spec, if and only if the unobserved replica carries a Progressing=False, none before it is rolling out, and a later outdated replica is next in line |
| Rollout.WalkUpdatesExactly | internal/controller/gateway_tunnel.go:250-299 | a pass over existing replicas changes exactly the one it reaches and that needs it |
| Rollout.StaleFailureStartsSecondRollout | internal/controller/gateway_tunnel.go:264-278 | a failed replica that was just updated does not hold back the next one |
| Rollout.WalkProgresses | internal/controller/gateway_tunnel.go:250-301 | a pass waits on a replica still rolling out, or lowers the number outdated, or leaves none, or stopped at a failing call |
| Rollout.RolloutIsBounded | internal/controller/gateway_tunnel.go:234-302 | the advancing passes of a run are at most as many as the replicas outdated at its start |
| Rollout.SpecChangeStartsSecondRollout | internal/controller/gateway_tunnel.go:250-299 | a spec change in the middle of a rollout puts two replicas in flight |
| Rollout.CheckAllDeploymentsReadiness | internal/controller/gateway_tunnel.go:366-416 | Ready exactly when every replica exists with the current token, has its spec observed, its wanted pods updated, no old pod left, every updated pod ready, and has not failed; failed exactly when one has |
| Rollout.NotReadyMeans | internal/controller/gateway_tunnel.go:386-395 | the names listed are exactly those of the replicas for which that does not hold |
| Rollout.ReadyNeverWaits | internal/controller/gateway_tunnel.go:264-282 | once every replica is rolled out no pass waits |
| Rollout.DistinctReplicasHaveDistinctNames | api/v1/meta_types.go:139-143 | replicas have distinct Deployment names exactly when their own names are distinct |
| RotationWatcher.Watcher.HandleDeployUpdate | cmd/cfgwctl/watch_rotation.go:346-370 | marks a Deployment updated and rolled out, logs each once and in order, and is done exactly when all rolled out and the Gateway is ready |
| RotationWatcher.Watcher.HandleGatewayUpdate | cmd/cfgwctl/watch_rotation.go:397-427 | reports suspension when it begins before all rolled out, and is done only with all rolled out and Ready |
| RotationWatcher.Watcher.HandlePodUpdate | cmd/cfgwctl/watch_rotation.go:378-389 | records an event exactly when the pod's state changed |
| RotationWatcher.Watcher.constructor | cmd/cfgwctl/watch_rotation.go:171-233 | attaching takes over exactly the Deployments whose hash is already new, with their events |
| RotationWatcher.Watcher.ProcessEvent | cmd/cfgwctl/watch_rotation.go:318-343 | each kind of event adds exactly what its handler does, nothing seen is forgotten, and the watch becomes done only with all rolled out and the Gateway Ready |
| RotationWatcher.Watcher.Watch | cmd/cfgwctl/watch_rotation.go:235-276 | a watch finishes only when all rolled out, is suspended only before that, and times out only when it was not done, by then knowing every Deployment that was shown updated and then rolled out |
| RotationWatcher.LogRolledOut | cmd/cfgwctl/watch_rotation.go:358-362 | one rolled-out event per Deployment, after its token-updated event |
| RotationWatcher.NeighbourCheckIsExact | cmd/cfgwctl/watch_rotation.go:608-618 | for sorted rollouts the neighbour check passes exactly when all are pairwise disjoint |
| RotationReport.Report | cmd/cfgwctl/watch_rotation.go:483-651 | refuses two new hashes, a wrong count and a missing event; otherwise, when every rollout ends after it begins, it passes exactly when no two rollouts overlap |
| RotationReport.NewHashIsFirst | cmd/cfgwctl/watch_rotation.go:484-491 | the new hash is that of the first token-updated event |
| RotationReport.LoggedTimelineIsProper | cmd/cfgwctl/watch_rotation.go:543-558 | a watched Deployment that rolled out has a complete timeline that ends after it begins |
| RotationReport.ReportFinished | cmd/cfgwctl/watch_rotation.go:256-270 | the report of a finished watch covers exactly the initial Deployments and, with one new hash, passes exactly when they rolled out one at a time |
| RotationReport.WatchAndReport | cmd/cfgwctl/watch_rotation.go:235-276 | the same from start to report, for every stream of events about the initial Deployments |
| RouteObjects.HostnamePathKeys | internal/controller/route.go:64-73 | the keys of a route, rule by rule and hostname by hostname |
| RouteObjects.BuildProxyRoutes | internal/controller/route.go:75-115 | entries for every hostname of every rule whose backends exist and are all granted; fails exactly when a grant check fails |
| RouteObjects.BuildRouteConfig | internal/controller/gateway_routes_configmap.go:82-96 | the table is the concatenation of the routes' entries, or nothing when one fails |
| RouteObjects.PathComesFromFirstMatch | internal/controller/gateway_routes.go:1087-1099 | the first match that has a PathPrefix path with a value gives the path, and "" stands for none |
| RouteObjects.EntryMeans | internal/controller/route.go:134-182 | every entry is one of a served rule and a hostname of its route, with its path or protocol, owner, kind, backends and session |
| RouteObjects.ServedRuleHasEntry | internal/controller/route.go:134-182 | every rule whose backends exist and are all granted has such an entry for each hostname |
| RouteObjects.KeyMeans | internal/controller/route.go:64-73 | the claim keys are those of every rule and hostname, served or not |
| RouteObjects.EntryKeysAreRouteKeys | internal/controller/route.go:134-182 | for a fully served route the entries' keys are exactly its claim keys, in order |
| RouteObjects.EntryHasRoute | internal/controller/gateway_routes_configmap.go:85-95 | every entry of a built table carries a key and the owner of one of the routes |
| RouteClaims.OwnerParsesBack | internal/controller/gateway_routes.go:732-738 | an owner string parses back exactly when the namespace holds no slash |
| RouteClaims.FindConflictingRoutes | internal/controller/gateway_routes.go:768-803 | the nested loops list the conflicts the claim scan finds, with the claimant of each key |
| RouteClaims.IssuesNameClaimants | internal/controller/gateway_routes.go:788-796 | the list of an owner names exactly the keys of its routes that somebody else claims, each with its claimant |
| RouteClaims.ConflictsNameClaimants | internal/controller/gateway_routes.go:788-796 | and the claimant is the owner in the existing table or else the first route with the key |
| RouteClaims.FilterConflictingRoutes | internal/controller/gateway_routes.go:701-724 | keeps, in order, the routes without a listed conflict |
| RouteClaims.AcceptedExactlyWhenWinning | internal/controller/gateway_routes.go:756-803 | a route is accepted if and only if all keys of its namespace and name belong to it, by the existing table or else by route order |
| RouteClaims.PassGivesSingleOwner | internal/controller/gateway_routes.go:762-767 | after a pass every key has one owner, whatever table it started from |
| RouteClaims.NoDirectHandover | internal/controller/gateway_routes.go:762-767 | a key in the table before and after a pass keeps its owner |
| RouteClaims.ClaimSafety | internal/controller/gateway_routes.go:701-803 | over every run of changing routes and failing passes, from any table, both hold at every step once a pass has written |
| ClaimConvergence.WinnersStay | internal/controller/gateway_routes.go:768-803 | from a table a pass wrote, or from any table when all backends are granted, the accepted set never shrinks |
| ClaimConvergence.WinnerStaysExactly | internal/controller/gateway_routes.go:768-803 | from any table a winner wins the next pass if and only if it serves, or is the first to list, each of its keys |
| ClaimConvergence.AcceptedStaysExactly | internal/controller/gateway_routes.go:701-724 | so an accepted route is accepted again by the next pass under exactly that condition on the routes and their grants |
| ClaimConvergence.NoNewWinners | internal/controller/gateway_routes.go:768-803 | two passes after a table whose winners all meet that condition nobody new is accepted, although rejected routes still hold keys within a pass |
| ClaimConvergence.TwoPassesSettleExactly | internal/controller/gateway_routes.go:701-803 | from any table, the third pass accepts what the second accepted if and only if no route is the first to list each of its keys while every other owner that wins and serves one of them, of which there is at least one, fails the condition of `AcceptedStaysExactly` |
| ClaimConvergence.TenableWinnersConverge | internal/controller/gateway_routes.go:701-803 | so when the first pass accepts only routes that meet that condition, two passes reach a fixed point and the accepted set only grows |
| ClaimConvergence.TwoPassesConverge | internal/controller/gateway_routes.go:701-803 | with all backends granted two passes reach a fixed point from any table, and the accepted set only grows |
| ClaimConvergence.ThreePassesConverge | internal/controller/gateway_routes.go:701-803 | with any grants three passes do, and the accepted set only grows from the second pass on |
| ClaimConvergence.StableFromThirdPass | internal/controller/gateway_routes.go:701-803 | any number of passes after the third writes the same table |
| ClaimConvergence.StableFromSecondPass | internal/controller/gateway_routes.go:701-803 | with all backends granted, already after the second |
| ClaimConvergence.TwoPassesAreNotEnough | internal/controller/route.go:94-100 | an input with a denied backend on which the accepted routes still change in the third pass |
| ClaimConvergence.OnePassIsNotEnough | internal/controller/gateway_routes.go:770-780 | a route whose key a deleted owner still holds is accepted in the second pass only |
| ClaimConvergence.DeniedBackendLosesItsKey | internal/controller/route.go:98-100 | an input on which that condition fails: the accepted route with a denied backend loses its key to the route listed first |
| ProxyConfig.Config.Parse | internal/proxy/config.go:25-69 | succeeds exactly when every URL and duration parses, and then sets backend IDs, int32 total weights, timeouts and an index that agrees with the table |
| ProxyConfig.ParsedSessionMeans | internal/proxy/config.go:45-58 | each timeout comes from its own text, and the rest of the session is as configured |
| ProxyConfig.RoutesForIsComplete | internal/proxy/config.go:61-66 | the index lists each route of a hostname once, in table order |
| RouteMatch.MatchRoute | internal/proxy/proxy.go:421-447 | the scan of the hostname index equals a full scan, for the host itself when it has no colon and otherwise for what precedes the last one |
| RouteMatch.WinnerMeans | internal/proxy/proxy.go:427-446 | the full scan finds the first of the longest matching prefixes of the hostname and protocol, and nothing exactly when nothing matches |
| RouteMatch.IndexScanFindsWinner | internal/proxy/proxy.go:427-446 | index and full scan agree on every table, host, path and protocol |
| RouteMatch.OrderFreeExactlyWhenOneOwner | internal/proxy/proxy.go:428-446 | the receiver of every request, by its Host header, is the same for every order of a table if and only if entries that match alike have one owner |
| EndToEnd.BuiltTableIsOrderFree | internal/proxy/proxy.go:434-437 | for a table a pass built, exactly when no two owners hold an empty and a root prefix of one hostname |
| EndToEnd.RootRoutesDependOnOrder | internal/controller/route.go:64-73 | two HTTPRoutes, one without matches and one with the prefix "/", are both accepted, and the order decides who receives a request |
| EndToEnd.NonEmptyPathsAreOrderFree | internal/proxy/proxy.go:430-445 | with non-empty HTTP paths the receiver never depends on the order |
| EndToEnd.ParseKeepsReceivers | internal/proxy/config.go:25-69 | parsing changes nothing about who receives a request |
| EndToEnd.RouteRequest | internal/proxy/proxy.go:122-131 | loading a table that parses and matching a request gives the receiver the table defines |
| SessionCookie.ParseUndoesPrint | internal/proxy/proxy.go:300-339 | parsing gives back what was printed exactly when the backend ID holds no dot, for all int64 times |
| SessionCookie.PrintIsInjective | internal/proxy/proxy.go:300-305 | equal cookies were written from equal IDs, times and markers |
| SessionCookie.AcceptedSessionsReprint | internal/proxy/proxy.go:310-339 | the canonical cookie for any accepted text is accepted as the same session |
| SessionCookie.CookieFormat | internal/proxy/proxy.go:300-305 | the format of a cookie, with and without an activity marker, by example |
| SessionCookie.WrongDotsAreRejected | internal/proxy/proxy.go:310-333 | texts with no dot or more than two are rejected |
| Decimal.ParseFormat | internal/proxy/proxy.go:302-323 | decimal parsing undoes printing exactly on the 64-bit integers |
| Sessions.FindBackendByID | internal/proxy/proxy.go:288-295 | the first backend with the ID and a positive weight, or none |
| Sessions.CookieCodecRoundTrips | internal/proxy/proxy.go:297-339 | the source's cookies meet the one hypothesis of the session theorems |
| Sessions.HitsKeepTheAnchor | internal/proxy/proxy.go:238-285 | for any clocks, a request hits exactly when an earlier miss anchored the session, both timeouts hold and its backend keeps a positive weight; it goes to that backend with that creation time |
| Sessions.HitMeans | internal/proxy/proxy.go:240-270 | a hit keeps the time of an earlier served miss as its creation, comes within the absolute timeout of it, and goes to its backend, whose weight is positive |
| Sessions.ServedRequestKeepsJar | internal/proxy/proxy.go:365-396 | a served miss leaves a cookie for its backend and time, and a hit rewrites it exactly when an idle timeout is configured |
| Sessions.SessionStartsWithMiss | internal/proxy/proxy.go:238-285 | so the next request on the route within both timeouts hits the backend that served the miss |
| Sessions.HeaderNamesBackend | internal/proxy/proxy.go:272-282 | with header persistence a request goes to the first backend of positive weight that its header names, without a cookie |
| Sessions.MissIsDrawn | internal/proxy/proxy.go:130-142 | whatever is not a hit is drawn by weight |
| Sessions.ConsecutiveHitsAgree | internal/proxy/proxy.go:238-285 | along consecutive hits the backend and the creation time never change |
| Sessions.IdleTimeoutIsRefreshed | internal/proxy/proxy.go:367-370 | with an idle timeout a hit follows the previous served request within it |
| Sessions.MaxAgeIsGreatest | internal/proxy/proxy.go:341-363 | the Max-Age of a permanent cookie is the greatest number of seconds that its configured timeouts allow |
| Sessions.MaxAgeStaysWithinAbsoluteTimeout | internal/proxy/proxy.go:341-363 | Max-Age (section 5.2.2 of RFC 6265) is never negative and never reaches past creation plus the absolute timeout |
| Sessions.MaxAgeIsDroppedExactlyWhenExhausted | internal/proxy/proxy.go:390-392 | a permanent cookie has no Max-Age exactly when a configured timeout has less than a second left |
| Sessions.LastSecondLosesMaxAge | internal/proxy/proxy.go:341-363 | a request in the last second of an hour that is served from its session and gets a cookie without Max-Age |
| WeightedPick.PickBackend | internal/proxy/proxy.go:401-415 | the loop picks the first backend whose running int32 sum exceeds the draw |
| WeightedPick.EveryDrawPicks | internal/proxy/proxy.go:406-414 | every draw below a total that fits picks a backend of positive weight, so the last return is unreachable |
| WeightedPick.ProportionalExactlyWhenSumFits | internal/proxy/proxy.go:398-415 | each backend is picked by exactly its weight of the possible draws if and only if the sum fits an int32 |
| WeightedPick.LoadedRouteIsProportional | internal/proxy/config.go:27-40 | a route as the proxy loads it is picked from by exactly its configured weights if and only if their sum fits an int32 |
| WeightedPick.AdmittedWeightsAreProportional | internal/proxy/config.go:86-86 | weights up to 1,000,000 cannot overflow for up to 2147 backends |
| WeightedPick.OneMoreBackendOverflows | internal/proxy/config.go:38-40 | 2148 heaviest backends wrap the total negative and nothing is picked |
| Dns.FindZoneIDByHostname | internal/cloudflare/client.go:189-208 | the zone of the longest suffix of at least two labels that names one, unless a listing fails before it |
| Dns.CutsAtLabels | internal/cloudflare/client.go:191-193 | a hostname is its labels joined by dots: cutting at the first dot gives the first label and the rest |
| Dns.ZoneFollowsFirstDot | internal/controller/gateway_dns.go:350-353 | a hostname is in a zone exactly when the zone follows its first dot, so in at most one |
| Dns.ComputeDesired | internal/controller/gateway_dns.go:72-105 | with all zones a hostname is desired exactly when a zone is found for it; with configured zones exactly when one of them holds it, and then in that one; nothing when a configured zone is missing |
| Dns.RecordStore.ReconcileDNS | internal/controller/gateway_dns.go:265-345 | for every order of maps and every failing call only missing records are created and only stale ones removed; on success exactly the desired hostnames point at the tunnel, each from its own zone under exactly the condition of `PlacedExactly`; it succeeds when no call fails and the configured zones exist |
| Dns.PlacedExactly | internal/controller/gateway_dns.go:310-327 | after a successful run a desired hostname has its record in its own zone if and only if it had it before or nothing pointed at the tunnel from it |
| Dns.AddedZoneStaysEmpty | internal/controller/gateway_dns.go:310-327 | a two-zone input on which the record stays in the wrong zone for ever |
| Dns.EffectShrinksDifference | internal/controller/gateway_dns.go:320-342 | a run that fails part-way never enlarges the difference to the desired hostnames |
| Dns.SettledIsUntouched | internal/controller/gateway_dns.go:315-344 | once the hostnames are the desired ones a run changes nothing |
| Dns.RecordStore.EnsureDNSCNAME | internal/cloudflare/client.go:230-269 | creates or redirects the one record of a zone and name |
| Dns.RecordStore.DeleteDNSCNAME | internal/cloudflare/client.go:271-287 | removes the record of a zone and name whatever its target |
| DnsOwnership.GatewayTunnelHosts | internal/controller/gateway_dns.go:51-68 | the non-empty hostname addresses, each once |
| DnsOwnership.FindConflicts | internal/controller/gateway_dns.go:147-216 | the desired hostnames whose record points at another published Gateway |
| DnsOwnership.ConflictMeans | internal/controller/gateway_dns.go:173-210 | in full: the record points at a target that another known Gateway lists among its hostname addresses |
| DnsOwnership.KeptExactly | internal/controller/gateway_dns.go:237-257 | exactly the routes none of whose hostnames conflict are kept |
| DnsOwnership.ReconcileGateway | internal/controller/gateway_controller.go:324-443 | conflict detection, DNS and publication of the address form one step of the system, wherever they stop |
| DnsOwnership.ManagedIsNotTaken | internal/controller/gateway_dns.go:221-258 | a managed hostname never has a record that points at another published Gateway |
| DnsOwnership.StepKeepsOthersRecords | internal/controller/gateway_dns.go:147-345 | a pass leaves the records of every other published Gateway exactly as they were |
| DnsOwnership.OwnershipIsKept | internal/controller/gateway_dns.go:144-258 | over every run, in which Gateways may be deleted and created anew with other tunnels, a published Gateway's records change only by its own passes |
| DnsOwnership.UnpublishedIsNotProtected | internal/controller/gateway_dns.go:182-187 | before publication another Gateway's pass may take the record |
| DnsOwnership.FilterConflicting | internal/controller/gateway_dns.go:237-257 | keeps, in order, exactly the routes without a conflicting hostname |
| Tunnels.TunnelStore.EnsureTunnel | internal/controller/gateway_tunnel.go:46-71 | does to an account that others change at the same time, and answers, exactly what the outcome function says |
| Tunnels.EnsuredIsTheTunnel | internal/controller/gateway_tunnel.go:49-67 | on success the ID is that of the one tunnel with the name, whoever wins a race to create it, and an existing tunnel is left alone |
| Tunnels.EnsureSucceeds | internal/controller/gateway_tunnel.go:46-71 | when no call fails it succeeds, and creates the tunnel when nobody else has |
| Tunnels.EmptyIDExactlyWhenVanished | internal/controller/gateway_tunnel.go:58-67 | it succeeds with an empty ID exactly when a tunnel created by another client in between vanished before the second lookup |
| Tunnels.EnsuredPassUsesOwnTunnel | internal/controller/gateway_tunnel.go:46-71 | a pass that takes its target from ensureTunnel uses its own Gateway's tunnel |
| Tunnels.GatewaysHaveDistinctTargets | internal/cloudflare/client.go:66-69 | Gateways that have their tunnels have distinct CNAME targets |
| Tunnels.TunnelOwnersKeepTheirRecords | internal/controller/gateway_dns.go:144-258 | so over every run within one account, in which tunnels are created and deleted, a published Gateway's records change only by its own passes |
| Finalization.ParentGatewayKeys | internal/controller/indexes.go:145-180 | the index keys of a route: its Gateway parentRefs and its entries of this controller, each once |
| Finalization.EntriesAreIndexed | internal/controller/indexes.go:139-143 | a route with an entry for the Gateway is found even when no parentRef names it |
| Finalization.IndexIsExact | internal/controller/gateway_routes.go:468-484 | the index lists a route under a Gateway exactly when a parentRef matches it or the route has an entry for it |
| Finalization.ParentRefMeans | internal/controller/gateway_routes.go:468-484 | a parentRef matches by name, namespace, group and kind, the last three with their defaults |
| Finalization.World.RemoveRouteStatuses | internal/controller/gateway_routes.go:504-571 | no route keeps an entry of the Gateway, and no other entry changes |
| Finalization.World.RemoveGatewayClassFinalizer | internal/controller/gateway_helpers.go:169-206 | no other class keeps the Gateway's finalizer, and no other finalizer changes |
| Finalization.World.EnsureGatewayClassFinalizer | internal/controller/gateway_helpers.go:137-161 | exactly the current class carries the finalizer |
| Finalization.World.FinalizeEnabled | internal/controller/gateway_controller.go:879-980 | Deployments, then CNAMEs, then the tunnel are gone; no tunnel is deleted while one of the others remains |
| Finalization.World.Finalize | internal/controller/gateway_controller.go:796-842 | an enabled pass removes the Gateway's finalizer only when nothing of it is left, whichever calls failed before, and touches nothing of other Gateways; when no call fails it can only fail by waiting for a Deployment |
| Finalization.World.FinalizeWithRetries | internal/controller/gateway_controller.go:796-842 | the same, and nothing of other Gateways touched, over any number of failing passes in which reconciliation may be disabled and enabled again |
| Finalization.FinalizeIsStep | internal/controller/gateway_controller.go:937-957 | what a finalize pass does to the records is a step of the system that DNS ownership is proved about |
| Finalization.OtherGatewaysFinalizersAreKept | api/v1/meta_types.go:63-68 | changing one Gateway's finalizer on a class leaves every other Gateway's |
| Names.TunnelNameIsInjective | api/v1/meta_types.go:160-163 | tunnel names tell clusters, namespaces and Gateways apart |
| Names.FinalizerIsInjective | api/v1/meta_types.go:63-68 | finalizers tell Gateways apart, as namespaces hold no dot |
| Names.DottedNamespacesCollide | api/v1/meta_types.go:66-68 | with a dot in the namespace two Gateways would share one |
| Names.ReplicaNameIsInjective | api/v1/meta_types.go:139-143 | the Deployment names of one Gateway's replicas are distinct exactly when the replicas are |
| Names.TunnelTargetIsInjective | internal/cloudflare/client.go:66-69 | distinct tunnels have distinct CNAME targets |
| Names.NameFormats | api/v1/meta_types.go:63-68 | the formats of the names |

## Left out

- Cron expression parsing, SHA-256, URL, YAML and duration parsing, random bytes: abstract functions; the library's case in which Next gives up and returns the zero time is not part of this model.
- Rotation: a `LastRotatedAt` text that is not a timestamp; only the controller writes it.
- Rounding in `Duration.Seconds()`: whole seconds are taken exactly; float64 rounding can differ only for durations above 194 days with a sub-second part.
- Sessions: cookie attributes other than value and Max-Age, and clients that return cookies the proxy did not mint last.
- Interleavings inside a pass of one Gateway with passes of others: between listing and deleting, `DeleteDNSCNAME` would remove a record whatever its target has become.
- Texts built for people: change, event, condition and log messages. The claim scan keeps its conflict list as data instead of text.
- The order in which `listGatewayRoutes` sorts routes, `allowedRoutes`, listener matching and feature validation: the routes of a pass are an arbitrary list.
- Informer caches: reads see the current store, and indexes are complete.
- Cleanup of stale Deployments, Secrets and autoscalers after a replica is removed, and environment deletion of Deployments during a rollout.
- Deletion and re-creation of a live status object during a rotation.
- finalizeDisabled: only that it touches neither Deployments, tunnels nor records; owner references are not modelled.
- Report: a watch over zero Deployments, for which the source indexes an empty list.
- Deployment-name collisions across different Gateways.
- The tunnel transport, HTTP forwarding, health server, metrics, retry wrappers and condition helpers.
