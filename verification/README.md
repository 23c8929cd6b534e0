# A verified model of the keeta agent stack

This project models the parts of the stack that decide something: which route an intent takes, whether
policy allows it, when a venue is asked to execute it, what an event stream and a webhook subscriber get to see,
and what a rebalancer trades. Each part is a small Dafny program in the shape of the code it models (classes with
fields where the code keeps state, loops where it loops, functions where it computes), and the main results are
statements about every input, every run or every reachable state. `dafny verify dfyconfig.toml` checks all of it.

| files | part | main results |
|---|---|---|
| `RouteKeys`, `RoutePaths`, `RoutePlans`, `AdapterRegistry`, `Router` | multi-hop router | the search finds exactly the legal asset paths; a routing is every quotable legal path once, best first; it fails exactly when there is none, that is when some venue on each path refuses what it is asked; raising limits never hurts; what follows when names collide in the index, and exactly when they do |
| `PolicyEvaluation`, `PolicySemantics`, `PolicyNegation`, `PolicyEngine`, `PolicyPack` | policy engine | the evaluator computes the stratified model of the composition graph (the least fixed point without `not`, the boolean formula when acyclic); exactly which chains of `not` are incoherent; a decision of plain rules is what the rules judge; listing and effective configuration are unique; what a pack may change |
| `EventLog` | the two event logs | merged heads are heads of the merged log; exactly when paging by time moves on |
| `SseClient`, `SseServer`, `EventStreamRuns` | event stream | the incremental reader agrees with a whole-text specification for every chunking; the round trip holds if and only if no payload ends in a carriage return; what a cut connection can deliver, and exactly when an unterminated last event arrives; exactly the events stored in time are written, an event from any point on within a computed number of polls, and twice only when more events share a time than the stream remembers |
| `TopologicalSort` | package build order | a build order, or a stuck set; it fails exactly when the in-set graph has a cycle |
| `WebhookFanOut`, `FanOutRuns`, `WebhookRetry` | webhook fan-out and retry | an event behind the cursor was fanned out if and only if it was stored before the cursor passed it, even when ticks die; exactly which ticks fan an event out again, and so which subscriptions it reaches; exactly when the cursor moves, when it is stuck for ever, and within how many ticks an event is reached; attempts and backoff over a delivery's life |
| `IntentPipeline`, `IntentRuns`, `IntentJobs`, `IntentGates`, `IntentPlans`, `IntentAudit` | intent pipeline | histories follow the lifecycle table, and straight through it unless held; a job goes ahead if and only if the stored rows ask for it, and ends where the venues' answers say; every venue call was cleared, decided and approved; at most one execution; complete or one failed row; exactly when an earlier submission can be repeated; each gate stops every run until its own action opens it; which plan is executed, and exactly when it is the one that was judged; the audit log alone gives back every status history |
| `Rebalancer`, `RebalancerRuns` | treasury rebalancer | every leg conserves the total, crosses no target and closes twice its size; it converges within a computed number of legs; it rests if and only if balanced |
| `MockCex` | in-memory exchange | a live fill costs exactly its spread and fee; no run creates value |
| `OperatorMetrics` | score adjustments | what each signal is worth, tight bounds, monotonicity short of a block, and exactly when a block breaks it |
| `Common` | shared | the stable sort every listing relies on |

Things the model shows about the code that its own documentation does not say:

- Two pairs share an index key exactly when they are equal or one moves the separator of the other
  (`RouteKeys.PairKeysCollideIff`). The search then asks an adapter for a pair it never listed
  (`Router.CollisionFollowsForeignHop`). Asset ids are any non-empty text, so such names are legal.
  `Router.FollowsOnlyOfferedIff` says exactly when the search keeps to what is offered; `BuildPlans` is specified for all
  names, and exact wherever every known pair that collides with an offered one is offered too and signatures differ.
- Raising `maxQuotes` from a negative number can drop adapters; exactly when is `Router.LimitGrowsIff`.
- In any registry two compositions that negate each other are both refused, although each refusal should let the
  other pass (`PolicyNegation.MutualNegationIsIncoherent`). Where every composition is a `not`, the incoherent entries
  are exactly those on a cycle (`PolicyNegation.NegationCoherentIff`); an entry on no cycle is coherent in any registry
  (`PolicyNegation.OffCycleIsCoherent`).
- The event queries return rows at or after the cursor, not strictly after it. When as many events as one batch
  holds share the cursor's creation time, the fan-out never moves again (`FanOutRuns.StuckForever`); a batch size of
  one, which the configuration allows, sticks after its first event (`FanOutRuns.BatchOfOneSticks`).
- For the same reason an event is not fanned out once: every completed tick repeats it while the cursor rests on its
  time (`FanOutRuns.HandledAgainIff`). Subscriptions are read anew each tick, so one made long after the event still
  gets it (`FanOutRuns.LateSubscriberIsServed`); `FanOutRuns.ReachedSubscriptionsIff` says exactly which do.
- An event stream forgets all but the last thousand ids. It can write an event twice exactly when more events than
  that share a time (`EventStreamRuns.RepeatsIff`).
- An event committed after the cursor has passed its creation time is never fanned out and never shown, and no other
  event is lost (`FanOutRuns.HandledIffStoredInTime`, `EventStreamRuns.ShownIffStoredInTime`). An event stream stalls
  as the fan-out does when as many events as one poll returns share a time (`EventStreamRuns.PollAdvancesIff`).
- An override is accepted after the policy check, and the job executes its plan on the decision about another
  (`IntentPlans.OverrideEscapesPolicy`, `IntentPlans.UnjudgedPlanIsExecuted`); the plan executed is the plan judged
  exactly when no accepted override since has left another in effect (`IntentPlans.ExecutedPlanIsJudgedIff`).
- Only the latest execution row is looked at before a live plan is submitted again, so an earlier submitted step can
  be repeated (`IntentRuns.EarlierSubmissionCanRepeat`). The exact guard is in `IntentRuns.JobSubmitsIff`; venues
  that always settle or fail make it safe (`IntentRuns.SettlingVenuesSubmitOnce`).
- A hold is not checked by the quote, route and policy workers: one of their jobs left in the queue ends it
  (`IntentGates.HoldSurvivesIff`, `IntentGates.QueuedPolicyJobOvertakesHold`).
- An execution job that is refused for good fails the intent even when it was held or already executed
  (`IntentRuns.RefusedJobFailsIntent`).
- Just below 80 per cent success an operator's adjustments can add up to more than at 80, because the block replaces the
  penalty (`OperatorMetrics.BlockHidesThePenalty`); `OperatorMetrics.SuccessOrderIff` says exactly when.

## Model

| member | source | states |
|---|---|---|
| Sorting.SortCorrect | packages/routing/src/router.ts:273 | the library sort: sorted, a permutation, and ties keep their order, for any total preorder |
| Sorting.HeadIsFirst | templates/treasury-rebalancer/src/rebalancer.ts:93-94 | the head of a sorted copy is an element that no other comes before |
| RouteKeys.PairKeysCollideIff | packages/routing/src/router.ts:122-125 | two pairs share an index key if and only if they are equal or one moves the separator of the other |
| RouteKeys.ColonFreeIsInjective | packages/routing/src/router.ts:122-125 | names without a colon never collide |
| RouteKeys.SignatureInjective | packages/routing/src/router.ts:180-184 | two paths with one dedupe signature have the same hops |
| RoutePaths.WalkIsSimple | packages/routing/src/router.ts:138-175 | the walks the recursion follows are exactly the connected paths to the target through unseen, pairwise distinct assets |
| RoutePaths.SearchIsExact | packages/routing/src/router.ts:138-175 | searching from the base asset follows exactly the legal paths of 1 to maxHops edges, base = quote included |
| RoutePaths.LegalPathMonotone | packages/routing/src/router.ts:137-137 | more edges and more hops keep every legal path legal |
| RoutePaths.Visit | packages/routing/src/router.ts:138-175 | the depth-first search terminates and adds exactly the paths over indexed hops that complete the current one |
| RoutePlans.CombineSupportLevels | packages/routing/src/router.ts:61-67 | a known level of the list that ranks lowest, and none only if none is known |
| RoutePlans.LowestLevelIff | packages/routing/src/router.ts:52-67 | of the levels from listed to agent-ready, the combined one is the first that occurs |
| RoutePlans.QuoteHop | packages/routing/src/router.ts:190-245 | the step the venue's answer gives to a request for the hop's own pair, side and incoming size, or none exactly when the venue refuses it (with `StepIsQuoted`) |
| RoutePlans.QuoteRoute | packages/routing/src/router.ts:186-271 | the plan of a path: steps chained size to size, totals the sums over steps; none exactly when some hop refuses |
| RoutePlans.StepIsQuoted | packages/routing/src/router.ts:194-244 | every step carries its adapter's answer to a request for that step's base, quote, side and size; estimate and fee are the answer's |
| RoutePlans.PlanExistsIff | packages/routing/src/router.ts:186-248 | a path has a plan if and only if, asking each venue for what the one before put out, none refuses; the plan ends in the size that comes through |
| RoutePlans.NoChain | packages/routing/src/router.ts:198-202 | one refused hop leaves the whole path without a plan |
| RoutePlans.PlanUnique | packages/routing/src/router.ts:186-271 | a path has at most one plan |
| RoutePlans.ScoreSplitsOverHops | packages/routing/src/router.ts:69-87 | the score is a sum over hops plus one bonus when every hop is healthy |
| AdapterRegistry.Limited | packages/adapter-registry/src/registry.ts:71-71 | a prefix: at most limit adapters, or all but the last few for a negative limit |
| AdapterRegistry.Registry.Register | packages/adapter-registry/src/registry.ts:50-52 | a new id goes last, a known id keeps its place; ids stay distinct |
| AdapterRegistry.Registry.DiscoverAdapters | packages/adapter-registry/src/registry.ts:70-103 | exactly the adapters among the first `limit` that meet every given criterion, in registration order |
| AdapterRegistry.CheckAdapter | packages/adapter-registry/src/registry.ts:25-48 | the checks of kind, pair, features and assets accept exactly the adapters that meet the criteria; a pair filter alone trusts what the adapter supports |
| AdapterRegistry.LimitAcceptsAll | packages/adapter-registry/src/registry.ts:70-71 | a limit alone turns no adapter down |
| Router.SelectAdapters | packages/routing/src/router.ts:99-106 | exactly the adapters the caller accepts that support a pair they list; no usable edge is lost |
| Router.IndexPairs | packages/routing/src/router.ts:107-127 | under each key exactly the usable pairs with that key, and as known assets, each once, exactly the intent's and those of usable pairs |
| Router.IndexFollows | packages/routing/src/router.ts:149-163 | the index leads the search exactly over the hops whose key is the key of a usable pair |
| Router.FollowsOnlyOfferedIff | packages/routing/src/router.ts:118-163 | the search follows only offered hops if and only if every known pair colliding with an offered one is offered too |
| Router.CollisionFollowsForeignHop | packages/routing/src/router.ts:149-163 | an adapter that offers only x:t against y is asked for x against t:y |
| Router.InjectiveIsUnambiguous | packages/routing/src/router.ts:122-163 | where no two known pairs share a key there is nothing to collide |
| Router.PlainIsUnambiguous | packages/routing/src/router.ts:122-182 | names free of the two separators meet the condition for an exact routing |
| Router.ChoiceIsEverything | packages/routing/src/router.ts:177-184 | when every known pair colliding with an offered one is offered and signatures differ, the plans of one path per signature are the plans of all legal paths |
| Router.FirstOfEachIsChoice | packages/routing/src/router.ts:178-184 | the first candidate of every signature: each signature of the candidates, exactly once |
| Router.QuoteCandidates | packages/routing/src/router.ts:177-271 | the plans of the first candidate of every signature, each once |
| Router.PlanDeterminesPath | packages/routing/src/router.ts:210-260 | two usable paths with one plan are one path |
| Router.RouterService.FindCandidates | packages/routing/src/router.ts:138-175 | for all names, exactly the paths over followed hops |
| Router.HopsAreLimited | packages/routing/src/router.ts:137-149 | the paths followed are those of one hop, and of more up to maxHops |
| Router.DefaultScore | packages/routing/src/router.ts:45-87 | with the default weights a hop costs half a point beside its fee and slippage, and full health gains a quarter |
| Router.DefaultReach | packages/routing/src/router.ts:92-92 | with the default options a path has at most three hops, over the first eight adapters |
| Router.RouterService.BuildPlans | packages/routing/src/router.ts:95-279 | for all names the plans of one candidate per signature, each once, in non-increasing score, and an error exactly when on each of them some venue refuses; of every legal path whenever colliding pairs are offered too and signatures differ |
| Router.BestIsOptimal | packages/routing/src/router.ts:273-278 | no plan of any legal path scores above the best |
| Router.LegalPlanMonotone | packages/routing/src/router.ts:99-137 | a plan stays available when maxHops is raised and no adapter drops out of the limit |
| Router.LimitGrowsIff | packages/adapter-registry/src/registry.ts:71-71 | exactly when a raised limit keeps every adapter within it, from negative to positive included |
| Router.RaisingLimitsNeverHurts | packages/routing/src/router.ts:99-137 | raising maxHops, and maxQuotes wherever that keeps the adapters, never lowers the best score |
| Router.RoutePathIsCandidate | packages/routing/src/router.ts:138-175 | every legal path is followed, whatever the names |
| Router.PlanIsChained | packages/routing/src/router.ts:186-262 | for any path followed: contiguous from base to quote; the first size is the intent's, each later one the previous estimate |
| Router.PlanIsServable | packages/routing/src/router.ts:99-127 | only adapters the caller accepted and that support the pair; the plan's support level is the lowest known one |
| PolicyEvaluation.Registered | packages/policy/src/engine.ts:395-397 | exactly the children that are registered |
| PolicyEvaluation.EvaluateUnfolds | packages/policy/src/engine.ts:374-441 | one evaluation step agrees with one step of the rule system over the children's outcomes |
| PolicySemantics.VerdictsFixedPoint | packages/policy/src/engine.ts:374-441 | for stratified compositions every entry passes exactly when its rule fires on the others' own outcomes |
| PolicySemantics.VerdictsAreModel | packages/policy/src/engine.ts:374-441 | and on each stratum that is the least such answer |
| PolicySemantics.StratifiedMeaning | packages/policy/src/engine.ts:374-441 | the entries that pass are the one and only stratified model |
| PolicySemantics.LeastFixedPoint | packages/policy/src/engine.ts:374-441 | with allOf and anyOf only, cycles allowed, an entry passes exactly when every set closed under the rules contains it |
| PolicySemantics.AcyclicMeaning | packages/policy/src/engine.ts:374-441 | on acyclic graphs, `not` included, the outcome is the boolean formula's value whatever ancestors are being visited |
| PolicySemantics.VisitedAboveIrrelevant | packages/policy/src/engine.ts:384-393 | ancestors from higher strata do not change an outcome |
| PolicyNegation.OffCycleIsCoherent | packages/policy/src/engine.ts:384-419 | in any registry an entry its own children cannot reach passes exactly when its rule fires on the others' own outcomes |
| PolicyNegation.OnCycleIsIncoherent | packages/policy/src/engine.ts:384-419 | where every composition is a `not`, no entry on a cycle does |
| PolicyNegation.NegationCoherentIff | packages/policy/src/engine.ts:384-419 | where every composition is a `not`, an entry's outcome agrees with its rule if and only if it lies on no cycle |
| PolicyNegation.VerdictsConsistentIff | packages/policy/src/engine.ts:374-441 | there, the verdicts as a whole satisfy the rules if and only if there is no cycle |
| PolicyNegation.CycleVerdict | packages/policy/src/engine.ts:384-393 | an entry on a cycle of `not` passes exactly when the cycle is odd |
| PolicyNegation.MutualNegationIsIncoherent | packages/policy/src/engine.ts:384-419 | in any registry two entries that negate each other are both refused, although the rule of each fires on those verdicts |
| PolicyEngine.ListingUnique | packages/policy/src/engine.ts:315-320 | there is only one listing by priority and registration |
| PolicyEngine.HigherPriorityFirst | packages/policy/src/engine.ts:315-320 | a higher priority is listed first, none counts as zero, equals come in order of registration |
| PolicyEngine.EffectiveUnique | packages/policy/src/engine.ts:322-350 | there is only one effective configuration, whatever the rule order |
| PolicyEngine.CustomConfigDecides | packages/policy/src/engine.ts:322-350 | what the custom configuration says under a built-in rule's key wins, else what it says under the rule's id, else the base value stays; a record is opened at the key |
| PolicyEngine.OthersOverrideNothing | packages/policy/src/engine.ts:328-332 | a key no built-in rule has keeps its base value |
| PolicyEngine.SameEffective | packages/policy/src/engine.ts:322-350 | it depends on the definitions alone, not on enable flags |
| PolicyEngine.EvaluationIgnoresFlags | packages/policy/src/engine.ts:374-441 | enable flags change no entry's outcome |
| PolicyEngine.DisableIsMonotone | packages/policy/src/engine.ts:278-283 | disabling an entry changes no outcome and never turns an allowed decision into a denied one |
| PolicyEngine.Engine.constructor | packages/policy/src/engine.ts:215-220 | the built-in rules in order, and nothing else; the invariant holds |
| PolicyEngine.Engine.Create | packages/policy/src/engine.ts:215-230 | built-in rules, custom rules and compositions in order with the disabled ids off, and nothing else; an error exactly when an id is taken or a `not` has no single child |
| PolicyEngine.Engine.Register | packages/policy/src/engine.ts:232-261 | refuses exactly a taken id or a `not` without one child; otherwise adds the entry with the next order number |
| PolicyEngine.Engine.Unregister | packages/policy/src/engine.ts:263-265 | removes that entry only, and keeps the invariant |
| PolicyEngine.Engine.SetEnabled | packages/policy/src/engine.ts:271-283 | sets that entry's flag only; false exactly when it is unknown |
| PolicyEngine.Engine.SortedEntries | packages/policy/src/engine.ts:315-320 | the listing: every entry once, by falling priority, then by registration |
| PolicyEngine.Engine.EffectiveConfig | packages/policy/src/engine.ts:322-350 | the base configuration with each overridden key replaced |
| PolicyEngine.Engine.Evaluate | packages/policy/src/engine.ts:443-463 | allowed exactly when every enabled entry passes, each on its own; contributions in listing order, one per enabled entry, a plain rule's being what it judges under the effective configuration; with plain rules only, allowed exactly when all of them judge so |
| PolicyPack.ApplyFlag | packages/policy/src/pack-runtime.ts:31-40 | sets one flag as asked; the warnings an unknown rule gives, and none for a known one |
| PolicyPack.ApplyRules | packages/policy/src/pack-runtime.ts:30-46 | every flag is the last explicit one; the configuration is the last one given per key; the warnings of every rule in order |
| PolicyPack.AddComposition | packages/policy/src/pack-runtime.ts:49-67 | registers a fresh well-formed composition with its flag; otherwise changes nothing and warns of the conflict or the malformed definition |
| PolicyPack.AddCompositions | packages/policy/src/pack-runtime.ts:48-68 | each fresh id gets its first well-formed composition; nothing else changes; the warnings of every composition in order |
| PolicyPack.ApplyPolicyPack | packages/policy/src/pack-runtime.ts:25-74 | flags first, then the fresh compositions, with exactly their warnings; the registry invariant holds |
| PolicyPack.NoWarningsIff | packages/policy/src/pack-runtime.ts:25-74 | no warning is given if and only if every rule is known and every composition well-formed under an id of its own |
| PolicyPack.ExistingEntriesKept | packages/policy/src/pack-runtime.ts:25-74 | an existing entry keeps its definition, source and order; only its flag may change |
| PolicyPack.AddedAsWritten | packages/policy/src/pack-runtime.ts:15-23 | a fresh id is registered with the priority, operator and children of the first composition under it that can be, and enabled unless the pack says not |
| PolicyPack.LastConfigIsTaken | packages/policy/src/pack-runtime.ts:42-45 | the last configuration goes under its explicit key, else the rule's own, else the rule's id |
| PolicyPack.PackKeepsEffectiveConfig | packages/policy/src/pack-runtime.ts:25-74 | for one custom configuration a pack leaves the effective configuration as it was |
| PolicyPack.LastFlagIsLast | packages/policy/src/pack-runtime.ts:35-40 | the flag a rule ends with is the one no later pack rule overwrites |
| SseClient.IndexOf | packages/sdk/src/client.ts:319-319 | the first occurrence, or -1 exactly when there is none |
| SseClient.NextLine | packages/sdk/src/client.ts:319-341 | one buffered line is read as the specification reads the whole text |
| SseClient.TrimStartIs | packages/sdk/src/client.ts:352-352 | trimming drops the white space in front and nothing else |
| SseClient.FlushEvent | packages/sdk/src/client.ts:305-310 | delivers the pending payload, unless it is not valid JSON |
| SseClient.DrainLines | packages/sdk/src/client.ts:319-342 | after the complete lines, what was and what is still to be delivered is unchanged |
| SseClient.DrainTail | packages/sdk/src/client.ts:345-355 | the unterminated rest is read as one last line and flushed |
| SseClient.ConsumeSseStream | packages/sdk/src/client.ts:292-356 | for every chunking, the deliveries of the whole text parsed line by line, up to the first invalid payload |
| SseServer.FrameReads | apps/api/src/routes/events.ts:185-198 | a written frame reads back as its payload and leaves nothing pending |
| SseServer.WireReads | apps/api/src/routes/events.ts:171-212 | any interleaving of preamble, events and keep-alives reads back in order, short of one trailing carriage return each |
| SseServer.RoundTrip | apps/api/src/routes/events.ts:171-212 | the round trip is exact if and only if no payload ends in a carriage return |
| SseServer.ReadWire | packages/sdk/src/client.ts:292-356 | for every chunking of a wire, exactly the written payloads are delivered and the stream completes, if and only if all are valid and none ends in a carriage return |
| SseServer.UnendedLineIff | packages/sdk/src/client.ts:345-355 | a data line that is not ended arrives as sent if and only if its payload has no white space in front and no carriage return behind; serialised JSON has none in front |
| SseServer.LastEventArrives | packages/sdk/src/client.ts:345-355 | when the connection closes behind the last event's data line, the events before it and the event itself are delivered and the stream completes |
| SseServer.LineKinds | packages/sdk/src/client.ts:326-339 | comments and other fields add nothing, a data field adds its value short of one leading space, or the empty text without a colon |
| SseServer.MultiLineRoundTrip | packages/sdk/src/client.ts:305-310 | a text written as one data line for each of its lines is delivered whole |
| SseServer.CutStream | packages/sdk/src/client.ts:344-355 | a connection cut anywhere delivers the frames before the cut and at most one damaged beginning |
| SseServer.CutDeliversPrefix | packages/sdk/src/client.ts:305-310 | if no cut payload is valid JSON, the handler sees an initial part of what was sent |
| SseServer.EventStream.WriteRows | apps/api/src/routes/events.ts:176-201 | the stream after a poll's rows, as the specification function gives it |
| SseServer.EventStream.SendKeepAlive | apps/api/src/routes/events.ts:208-212 | the wire grows by one frame that reads back as nothing; cursor and remembered ids stay |
| SseServer.RowsKeepRemembering | apps/api/src/routes/events.ts:179-184 | the remembered ids are the last thousand written |
| SseServer.StreamNeverRepeatsSoon | apps/api/src/routes/events.ts:171-212 | over every interleaving of polls and keep-alives no id is written twice within a thousand events |
| SseServer.EveryPolledRowIsWritten | apps/api/src/routes/events.ts:176-201 | a poll appends frames of its own rows only, leaves none unwritten, and sets the cursor to the last written |
| EventStreamRuns.LoadEvents | apps/api/src/routes/events.ts:45-81 | the unfiltered load returns the first rows of the two logs merged |
| EventStreamRuns.RecentlyDoneIsSeen | apps/api/src/routes/events.ts:179-184 | a written event of the cursor's own time is still remembered when no more events share it than ids are |
| EventStreamRuns.NoEventIsWrittenTwice | apps/api/src/routes/events.ts:174-201 | over every run of polls and arrivals no event is written twice, as long as at most a thousand share a time |
| EventStreamRuns.TiesAreRepeated | apps/api/src/routes/events.ts:179-184 | for any log with more than a thousand events at one time, a run that writes one of them twice |
| EventStreamRuns.RepeatsIff | apps/api/src/routes/events.ts:179-184 | some stream over a log writes an event twice if and only if more than a thousand share a time |
| EventStreamRuns.PagingIsRun | apps/api/src/routes/events.ts:176-201 | a stream's cursor pages through the logs as the webhook fan-out's does |
| EventStreamRuns.ShownIffStoredInTime | apps/api/src/routes/events.ts:174-201 | of the events behind the cursor exactly those stored before it passed them have been written |
| EventStreamRuns.PollAdvancesIff | apps/api/src/routes/events.ts:177-199 | a poll moves the cursor if and only if fewer events than the limit share its time and a later one is stored |
| EventStreamRuns.EventIsShown | apps/api/src/routes/events.ts:174-207 | from any point of a run on, for events stored before or after the stream was opened: with room at every time the cursor stops at from there, an event ahead of the cursor is written once more polls are made than distinct times lie between |
| TopologicalSort.Pass | starter-agent-template/scripts/smoke.ts:96-114 | one pass builds what is ready, or leaves everything waiting |
| TopologicalSort.TopologicallySortPackages | starter-agent-template/scripts/smoke.ts:90-123 | each package once with its in-set dependencies earlier; an error exactly when there is a cycle, naming packages that wait for each other |
| TopologicalSort.OrderRespectsManifests | starter-agent-template/scripts/smoke.ts:104-107 | in a build order every workspace package a manifest lists comes earlier, if it is in the set |
| TopologicalSort.StuckHasCycle | starter-agent-template/scripts/smoke.ts:117-119 | packages that all wait for one another contain a cycle |
| TopologicalSort.OrderExcludesCycle | starter-agent-template/scripts/smoke.ts:108-113 | a build order and a cycle cannot both exist |
| EventLog.SortedRows | apps/worker/src/run.ts:288-294 | the same rows in time order, ties by id in any total collation |
| EventLog.MergedHeads | apps/worker/src/run.ts:2254-2278 | the first rows of two merged heads are first rows of the whole merged log, for heads fetched at least that long |
| WebhookFanOut.DeliveryWorker.InsertDelivery | packages/storage/src/repositories/webhooks.ts:51-61 | appends the delivery as given, unless the unique index has its pair; nothing else changes |
| WebhookFanOut.DeliveryWorker.FanOutEvent | apps/worker/src/run.ts:2282-2295 | one delivery for every matching subscription, each naming the event's id and log; no other row is added or changed |
| WebhookFanOut.DeliveryWorker.Tick | apps/worker/src/run.ts:2247-2302 | the deliveries of one batch of the merged log, each pair once and each naming an event of the batch and its log, and the cursor at the batch's last event |
| WebhookFanOut.EventIsFound | apps/worker/src/run.ts:2310-2315 | the log a new delivery names holds an event of its id |
| WebhookFanOut.WhoWantsWhat | apps/worker/src/run.ts:208-210 | a subscription to everything gets any event of the batch, one without the wildcard exactly those of its types |
| EventLog.AdvanceIff | packages/storage/src/repositories/audit.ts:30-37 | the cursor moves if and only if fewer events than a batch share its time and a later one exists |
| FanOutRuns.NothingPassedIsLost | apps/worker/src/run.ts:2247-2302 | an event stored before the cursor passed it was in a completed batch and has its deliveries, whatever ticks died and whatever else came late |
| FanOutRuns.HandledIffStoredInTime | apps/worker/src/run.ts:2247-2302 | an event behind the cursor was fanned out if and only if it was stored before the cursor passed it |
| FanOutRuns.DeliveriesAreMatches | apps/worker/src/run.ts:2283-2284 | every delivery belongs to a subscription that matched the event at some tick |
| FanOutRuns.HandledAgainIff | packages/storage/src/repositories/audit.ts:30-37 | after its first tick an event is fanned out again by a completed tick if and only if the cursor still rests on its time, when one batch holds that time's events |
| FanOutRuns.DeliveredIff | apps/worker/src/run.ts:2282-2295 | a subscription has an event's delivery if and only if some completed tick read the event and a matching subscription of that id, or a dying tick had inserted the pair |
| FanOutRuns.ReachedSubscriptionsIff | apps/worker/src/run.ts:2276-2295 | an event reaches exactly the subscriptions matching it at its first tick or at a later completed one with the cursor still on its time, and those a dying tick had inserted |
| FanOutRuns.LateSubscriberIsServed | apps/worker/src/run.ts:2276-2295 | for any event and subscribers, a run in which a subscription absent at the event's first tick gets it at the second |
| FanOutRuns.LateArrivalIsNeverFannedOut | apps/worker/src/run.ts:2249-2257 | an event that arrives behind the cursor is in no later batch |
| FanOutRuns.SuffixIsRun | apps/worker/src/run.ts:2247-2302 | the part of a run from any of its points on is a run, so that the results about an event ahead of the cursor hold from any point |
| FanOutRuns.StuckForever | packages/storage/src/repositories/audit.ts:30-37 | once a full batch shares the cursor's time the cursor never moves again |
| FanOutRuns.StuckNeverReaches | apps/worker/src/run.ts:2254-2302 | and nothing later is ever fanned out |
| FanOutRuns.BatchOfOneSticks | packages/config/src/index.ts:140-140 | with the smallest batch size the first event is the last |
| FanOutRuns.TicksPassInstants | apps/worker/src/run.ts:2247-2302 | each completed tick before an event is handled passes one more instant of the log, and none passes the event |
| FanOutRuns.EventIsReached | apps/worker/src/run.ts:2247-2302 | with room at every time the cursor stops at, an event is fanned out once more ticks have completed than distinct times lie between the cursor and it |
| WebhookRetry.BackoffShape | apps/worker/src/run.ts:212-214 | two seconds, doubling up to the ninth attempt, fifteen minutes from the tenth on; never falling |
| WebhookRetry.RowAfterRun | apps/worker/src/run.ts:216-246 | the count is the number of attempts; a retry is scheduled, at the backoff, if and only if a POST failed below the maximum |
| WebhookRetry.DueIff | packages/storage/src/repositories/webhooks.ts:89-101 | a delivery is due from its creation on, a failed POST below the maximum from the end of its backoff on, and nothing else ever is |
| WebhookRetry.AttemptsAreBounded | apps/worker/src/run.ts:216-246 | no delivery is attempted more than the maximum |
| WebhookRetry.AttemptFollows | packages/storage/src/repositories/webhooks.ts:89-101 | each further attempt follows a failed POST, no sooner than its backoff |
| IntentPipeline.SuccessfulSteps | apps/worker/src/run.ts:1687-1834 | the length of the longest successful initial part of a plan |
| IntentPipeline.Pipeline.TransitionIntent | apps/worker/src/run.ts:1183-1193 | moves the status exactly when the lifecycle table allows it |
| IntentPipeline.Pipeline.RouteJob | apps/worker/src/run.ts:1276-1365 | appends the plan, which becomes the intent's latest, one status and one event, exactly when the lifecycle allows it and a plan was found; nothing else changes |
| IntentPipeline.Pipeline.PolicyJob | apps/worker/src/run.ts:1367-1595 | appends a decision about the plan in effect, which becomes the intent's latest, one status and its events, allowed or not; nothing else changes |
| IntentPipeline.Pipeline.ReleaseIntent | apps/api/src/routes/intents.ts:278-334 | back to routed when a plan exists, else to quoted; only from held |
| IntentPipeline.Pipeline.ExecuteJob | apps/worker/src/run.ts:1597-1902 | the loop over steps ends as the specification function says: complete, failed at a step, or aborted |
| IntentRuns.StepAdvances | packages/types/src/schemas/lifecycle.ts:16-30 | any step changes an intent's status by at most one allowed transition, and never its mode |
| IntentRuns.HistoryIsPath | packages/types/src/schemas/lifecycle.ts:16-30 | over every run each status history is a path of the lifecycle table |
| IntentJobs.UnheldHistoryIsStraight | packages/types/src/schemas/lifecycle.ts:16-24 | over every run an intent never held went through created, quoted, routed, checked and executed in order, and at most failed at the end |
| IntentJobs.WorkersMoveWhen | apps/worker/src/run.ts:1183-1595 | the statuses the quote, route and policy jobs take an intent from, and that they change nothing in any other |
| IntentJobs.OperatorsMoveWhen | apps/api/src/routes/intents.ts:252-334 | a hold is accepted before execution only, a release from a hold only, and a job that failed for good fails any intent that has not |
| IntentJobs.HeldMayGoAnywhere | packages/types/src/schemas/lifecycle.ts:23-30 | from a hold, and from a status the table does not list, exactly the listed statuses but the hold may follow |
| IntentAudit.AuditTellsHistory | apps/worker/src/run.ts:1262-1268 | over every run the audit log from an intent's creation on gives by itself every status the intent has had, in order, and whether a plan is stored for it |
| IntentAudit.AuditCountsRows | apps/worker/src/run.ts:1540-1580 | over every run the log has one event for each decision, each refusal and each override of an intent, and an approval event if and only if the intent shows as approved |
| IntentAudit.JobNotes | apps/worker/src/run.ts:1646-1675 | a job that is not refused first notes the override it uses, if any; a duplicate then notes the skip and does nothing else |
| IntentRuns.GoIsCleared | apps/worker/src/run.ts:1604-1675 | a job goes ahead only with the kill switch off, the intent not held, its strategy running, approval granted, the latest decision allowed, a plan of its own, and no blocking latest row when live |
| IntentJobs.GoesAheadIff | apps/worker/src/run.ts:1604-1675 | a job goes ahead with a plan if and only if the switch is off, the intent checked, its strategy running, its approval given, its last decision allowing, the plan in effect and not empty, and no live row in flight |
| IntentJobs.InEffectIff | apps/worker/src/run.ts:1646-1659 | the plan in effect is the one the last override names when that is the intent's own, otherwise the last one routed |
| IntentJobs.JobEndsAt | apps/worker/src/run.ts:1687-1902 | by the first step without a good answer: calls, rows and status the job leaves; a rejection, a failed status or a failed settlement fails the intent and stops the calls, a missing venue or an exception leaves the status |
| IntentRuns.StepCalls | apps/worker/src/run.ts:1687-1712 | a step's venue calls are an initial part of the cleared plan's steps, in order |
| IntentRuns.EveryCallWasCleared | apps/worker/src/run.ts:1604-1712 | over every run each call was made by a job cleared for it, as a step of its plan |
| IntentRuns.NoCallAfterTheEnd | apps/worker/src/run.ts:1625-1627 | once executed or failed, no later run reaches a venue for the intent |
| IntentRuns.ExecutedAtMostOnce | packages/types/src/schemas/lifecycle.ts:16-24 | after executed a history holds at most one more status, failed |
| IntentRuns.BlockedIsNeverResubmitted | packages/storage/src/repositories/executions.ts:40-49 | while the last row of a live intent is submitted, confirmed, or pending with an open or good settlement, no later run calls a venue for it |
| IntentRuns.BlockingIff | packages/storage/src/repositories/executions.ts:40-49 | what the duplicate check finds is that the last row of the intent is in flight: submitted, confirmed, or pending with a settlement that has not failed |
| IntentRuns.ExecutedMeansComplete | apps/worker/src/run.ts:1687-1874 | an intent becomes executed only in a job that called every step and stored one clean row and one event per step, in order |
| IntentRuns.ExecutedCameFromAJob | apps/worker/src/run.ts:1687-1874 | over every run an executed intent has such a job behind it |
| IntentRuns.FailedMeansOneFailedRow | apps/worker/src/run.ts:1714-1834 | a job that fails at a step leaves a successful prefix, one failed row and event and a failed intent, and asks no later venue |
| IntentGates.HoldSurvivesIff | apps/worker/src/run.ts:1207-1226 | a hold survives a step if and only if the step is no quote, successful route, policy, release or job failure of the intent |
| IntentGates.HeldReachesNoVenue | apps/worker/src/run.ts:1612-1614 | while nothing ends the hold, no run reaches a venue for the intent |
| IntentGates.QueuedPolicyJobOvertakesHold | apps/worker/src/run.ts:1367-1382 | a queued policy job that allows a held, otherwise ready intent makes the next execution job go ahead |
| IntentGates.HoldStopsTheIntent | apps/api/src/routes/intents.ts:252-276 | after an accepted hold no run reaches a venue for the intent until something ends the hold |
| IntentGates.GateStaysShutIff | apps/worker/src/run.ts:1606-1624 | the kill switch, a paused strategy and a missing approval each survive a step if and only if it is not the one action that opens them |
| IntentGates.ShutGateStopsRuns | apps/worker/src/run.ts:1606-1624 | behind any of them no run reaches a venue for the intent |
| IntentGates.NoCallWithoutPolicy | apps/worker/src/run.ts:1625-1627 | from a status before the policy check no run without a policy job reaches a venue for the intent |
| IntentGates.ReleasedIsJudgedAgain | apps/api/src/routes/intents.ts:278-334 | a released intent goes back before the policy check, and no venue is called until it is judged again |
| IntentGates.ApprovalWasGiven | apps/api/src/routes/intents.ts:234-250 | over every run a required approval was given by the operator |
| IntentGates.DecisionWasMade | apps/worker/src/run.ts:1367-1595 | over every run a stored decision was made by a policy job |
| IntentGates.CallsWereSanctioned | apps/worker/src/run.ts:1604-1712 | over every run, before each venue call a policy job allowed the intent and, where required, an operator approved it |
| IntentPlans.OverrideDecidesThePlan | apps/api/src/routes/intents.ts:336-365 | an accepted override decides which plan is executed, whatever is routed later, until the next override |
| IntentPlans.LastRouteDecidesThePlan | packages/storage/src/repositories/routes.ts:15-23 | without an override the plan executed is the one routed last, until the intent is routed or overridden again |
| IntentPlans.CheckedPlanFrame | apps/worker/src/run.ts:1646-1659 | while an intent stays checked only an accepted override of its own changes the plan in effect |
| IntentPlans.JudgedAt | apps/worker/src/run.ts:1367-1399 | behind every checked intent of a run, the policy job that judged the plan then in effect |
| IntentPlans.ExecutedPlanIsJudgedIff | apps/worker/src/run.ts:1628-1661 | over every run the plan a cleared job executes is the plan its decision judged if and only if no accepted override since has left another in effect |
| IntentPlans.OverrideEscapesPolicy | apps/api/src/routes/intents.ts:336-365 | an override accepted for a cleared intent is executed next, on the decision there is, which is about that plan if and only if it is the plan that was judged |
| IntentPlans.UnjudgedPlanIsExecuted | apps/api/src/routes/intents.ts:336-365 | a run in which that happens |
| IntentRuns.RefusedJobFailsIntent | apps/worker/src/run.ts:1904-1929 | a job refused for good fails the intent whatever its status was, without a call |
| IntentRuns.SettlingVenuesSubmitOnce | packages/storage/src/repositories/executions.ts:40-49 | if venues leave live steps failed or in flight, one row in flight stops every later submission of a live intent |
| IntentRuns.EarlierSubmissionCanRepeat | packages/storage/src/repositories/executions.ts:29-49 | without that, a run in which a confirmed step does not stop the next job |
| IntentRuns.JobSubmitsIff | apps/worker/src/run.ts:1664-1675 | a job for an otherwise cleared live intent calls a venue exactly when the last row is not in flight |
| Rebalancer.HeldIsTotal | templates/treasury-rebalancer/src/rebalancer.ts:45-66 | every holding is counted under exactly one target |
| Rebalancer.GapsSumToZero | templates/treasury-rebalancer/src/rebalancer.ts:45-66 | the notional deltas sum to zero |
| Rebalancer.DeltasAreGaps | templates/treasury-rebalancer/src/rebalancer.ts:52-65 | each delta is the target's share of the total less what is held |
| Rebalancer.DriftIsInBasisPoints | templates/treasury-rebalancer/src/rebalancer.ts:55-56 | each drift is the nearest number of ten-thousandths of the total by which the holding exceeds the target's share |
| RebalancerRuns.PickEnds | templates/treasury-rebalancer/src/rebalancer.ts:93-94 | sorting picks a target held most in excess and one lacking most |
| RebalancerRuns.EndsHaveSigns | templates/treasury-rebalancer/src/rebalancer.ts:93-98 | unless all deltas are zero, one end is negative and the other positive |
| RebalancerRuns.TradeShape | templates/treasury-rebalancer/src/rebalancer.ts:108-126 | a leg runs between those ends, no larger than either delta or the cap |
| RebalancerRuns.LegClosesGaps | templates/treasury-rebalancer/src/rebalancer.ts:118-126 | settling a leg moves exactly its two deltas and conserves the total |
| RebalancerRuns.LegKeepsSane | templates/treasury-rebalancer/src/rebalancer.ts:108-126 | a leg never overdraws the asset it sells |
| RebalancerRuns.EachLeg | templates/treasury-rebalancer/src/rebalancer.ts:74-127 | a leg is positive and capped, conserves the total, takes no asset across its target, and lowers the sum of absolute deltas by exactly twice its size |
| RebalancerRuns.RunConserves | templates/treasury-rebalancer/src/rebalancer.ts:68-127 | over every run the total is conserved and the remaining work shrinks by twice the cap per tick |
| RebalancerRuns.Converges | templates/treasury-rebalancer/src/rebalancer.ts:68-127 | consecutive legs number at most the off-target assets plus the distance over twice the cap |
| RebalancerRuns.RestsIffBalanced | templates/treasury-rebalancer/src/rebalancer.ts:96-116 | with positive weights and cap it rests if and only if all deltas are zero or every drift is within the threshold |
| RebalancerRuns.EarlyReasons | templates/treasury-rebalancer/src/rebalancer.ts:78-90 | which reason is given first: no balances, nothing held, or a target without a positive weight |
| RebalancerRuns.ReportedDrift | templates/treasury-rebalancer/src/rebalancer.ts:100-124 | a leg reports the drift of the asset it sells, a rest within the threshold the worst drift of all targets |
| MockCex.MockCexAdapter.GetQuote | packages/adapter-mock-cex/src/mock-cex.ts:110-137 | the quote's output and price are those of the fill it would become; an error exactly when there is no book |
| MockCex.MockCexAdapter.ApplyBalances | packages/adapter-mock-cex/src/mock-cex.ts:214-228 | the spent asset loses the size, the received one gains the fill, no other balance changes or appears |
| MockCex.MockCexAdapter.Execute | packages/adapter-mock-cex/src/mock-cex.ts:139-202 | the venue's new state, and an error exactly without a step or a book |
| MockCex.FillConserves | packages/adapter-mock-cex/src/mock-cex.ts:151-159 | at the average price, the filled size and the fee together are worth exactly the size spent |
| MockCex.OnlyTheTwoAssetsMove | packages/adapter-mock-cex/src/mock-cex.ts:161-163 | simulations leave every balance alone; a live fill moves only its two assets, by the size spent and the size filled |
| MockCex.UnheldIsZero | packages/adapter-mock-cex/src/mock-cex.ts:210-228 | an asset not held counts as none: after a live fill it holds what came in, or is owed what went out |
| MockCex.FillCostsItsToll | packages/adapter-mock-cex/src/mock-cex.ts:151-163 | a live fill lowers the total value at mid by exactly the half spread and the fee on the value exchanged |
| MockCex.TollIsFair | packages/adapter-mock-cex/src/mock-cex.ts:151-159 | that cost is never negative, and zero exactly for an empty order or no spread and no fee |
| MockCex.NoValueCreated | packages/adapter-mock-cex/src/mock-cex.ts:139-202 | over every run of executions the total value at mid never rises |
| MockCex.FallbackBuysFirstBook | packages/adapter-mock-cex/src/mock-cex.ts:230-244 | without a step the first configured book is bought with one unit |
| MockCex.NoFallbackIff | packages/adapter-mock-cex/src/mock-cex.ts:230-232 | there is nothing to fall back to exactly when no book is configured or the first key is empty |
| MockCex.FallbackReadsKey | packages/adapter-mock-cex/src/mock-cex.ts:233-241 | the pair is read around the key's first slash, up to a second one; without a slash the quote is `undefined` |
| OperatorMetrics.BuildDynamicScoreAdjustments | apps/worker/src/operator-metrics-cache.ts:126-187 | the adjustments of the four signals in order, and a block exactly below 80 per cent; the fallback penalty is never used |
| OperatorMetrics.SuccessMeans | apps/worker/src/operator-metrics-cache.ts:135-148 | a point for every fifteenth of the range between 80 per cent and the minimum, rounded, and a block below 80 |
| OperatorMetrics.LatencyMeans | apps/worker/src/operator-metrics-cache.ts:150-159 | a point for every quarter of the threshold above it, rounded, at most 8 |
| OperatorMetrics.CapacityMeans | apps/worker/src/operator-metrics-cache.ts:161-169 | a point for every five unsettled above twenty, rounded, at most 6 |
| OperatorMetrics.BondMeans | apps/worker/src/operator-metrics-cache.ts:171-184 | minus 5 unverified, plus 3 before 30 days, minus 2 after 80, nothing between |
| OperatorMetrics.TotalIsBounded | apps/worker/src/operator-metrics-cache.ts:126-187 | the adjustments add up to between -34 and 3 |
| OperatorMetrics.BoundsAreTight | apps/worker/src/operator-metrics-cache.ts:126-187 | both ends are reached |
| OperatorMetrics.ScoreIsMonotone | apps/worker/src/operator-metrics-cache.ts:126-187 | unless the worse operator is blocked, better success, latency and volume never score lower |
| OperatorMetrics.SuccessOrderIff | apps/worker/src/operator-metrics-cache.ts:137-148 | the success adjustment keeps the order of the metrics if and only if no block is traded for a penalty that does not round to nothing |
| OperatorMetrics.NoLossIff | apps/worker/src/operator-metrics-cache.ts:142-147 | the penalty rounds to nothing exactly in the first thirtieth of the range below the minimum |
| OperatorMetrics.ScoreOrderIff | apps/worker/src/operator-metrics-cache.ts:126-187 | for operators that differ in their success rate alone, so does the whole score |
| OperatorMetrics.BlockHidesThePenalty | apps/worker/src/operator-metrics-cache.ts:137-148 | just below 80 per cent an operator scores higher than at 80 |

## Left out

- Routing: `describeAdapter`, routing contexts, plan ids and timestamps; adapters' quotes, health checks and the caller's hooks are pure functions of their arguments.
- Router.RouterService.BuildPlans: does not fix the order among plans of equal score, nor which of several paths with one signature is quoted.
- Adapter registry: `findAdapters`, `listPairs`, `listAssets` and `healthAll`, which only project what discovery returns.
- Policy: what each built-in rule judges, config schemas, and reason texts; a leaf rule is an arbitrary predicate of its definition and the context.
- PolicyEngine.Engine.Create: the built-in rule list is a parameter, with distinct ids and config keys.
- Policy packs: the wording of warnings; each is a value that names the rule and the reason.
- Event stream: HTTP, authentication, UTF-8 and JSON; text is already decoded, a payload is a string, and valid JSON is a predicate. A handler is assumed present, and polls do not overlap.
- Event stream: the filters of `loadEvents` and its newest-first branch; a stream is unfiltered.
- WebhookFanOut.DeliveryWorker.Tick: the two queries are taken as a contract (at or after the cursor, in time order, ties in any order); headers, signatures and the POST itself are outcomes.
- EventStreamRuns.RepeatsIff: for a log that does not grow, and page limits up to a thousand (the route accepts up to 500); the database may return ties in any order.
- FanOutRuns.ReachedSubscriptionsIff: for events whose time one batch holds; beyond that the order in which the database returns ties, which is left open, decides what a later tick repeats.
- Intent pipeline: each handler is one atomic step, rows are ordered by insertion, and ids are fresh; telemetry, snapshots, quotes, journals and simulation jobs are not modelled, and quote and hold are plain transitions.
- IntentAudit.AuditTellsHistory: for handlers that run to their end; a process that stops between a status and its event is not modelled.
- IntentPipeline.Pipeline.RouteJob: which plan the router found is an input; a plan's identity is its id.
- Rebalancer: exact reals; the leg's size is not rounded to two decimals and settles at par.
- MockCex.MockCexAdapter.GetQuote: exact reals; a purchase at a price of zero, whose result is not finite, is left out.
- MockCex.MockCexAdapter.Execute: likewise; order ids, times and latency are left out too.
- MockCex.NoValueCreated: for positive mids, and spreads and fees between 0 and 10,000 basis points.
- OperatorMetrics: the cache and the database lookups behind the metrics.
- TopologicalSort: reading a manifest is a function from a package name to its dependency names.
- Fee aggregation, payment-anchor lifecycles, dashboards, custody guards and the remaining adapters, which would only add easy members.
