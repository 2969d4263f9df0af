# Verified models of sakhtar-wg

sakhtar-wg is a privileged daemon that steers traffic into WireGuard tunnels: it keeps kernel routes and policy
rules in place, compiles firewall chains, proxies connections over an ordered list of egresses, watches tunnel
health, and resolves names through a cache of its own. This project models the decision logic of those parts in
Dafny 4.11 and proves what each of them is for. `dafny verify dfyconfig.toml` checks everything.

## What is modelled

- **DNS cache.** `DnsModel` holds the values and one shard's critical sections as functions; `DnsProtocol` is the
  cache under concurrency, one critical section or clock reading per step, with the resolver, the hash, what a
  sweep visits and which victim is evicted left arbitrary; `DnsInvariants` proves the invariant step by step;
  `DnsRuns` proves safety of whole runs; `DnsReadings` traces every answer back to the clock reading it was judged
  by; `DnsAnswers` says what every call is given, by an entry, a run or a refresh; `DnsInvalidation` says exactly what
  an invalidation achieves; `DnsShard` is the shard and the flight table as classes updated in place.
- **Route aggregation.** `Ipv4` and `Aggregation` are the theory of aligned power-of-two blocks (maximal blocks,
  minimality); `RouteSource` is the algorithm: collect, sort, merge inside the array, split greedily.
- **Policy compilers.** `Gateway` and `EgressGuard` compile to rule lists with first-match evaluation; `Allocations`
  is the mark and mask check over 32-bit vectors.
- **Kernel state.** `Planner` is the ownership-safe planner; `RouteReconcile` and `RuleReconcile` run it (and the rule
  loop) against a kernel in which any operation may fail.
- **Health.** `Probes` is the hysteresis over unbounded probe histories and the hand-over at reload; `GroupOrder` is
  the failover order of one group; `Poll` puts device queries, thresholds, probe verdicts and selection together.
- **Dialing.** `DialBudget`, `AddressSelection`, `AddressFairness`, `Failover`: budget slices, address rotation and
  interleaving, who leads over many calls, failover over the egresses. `SuffixMatcher` is the hostname rule lookup.
- `Wrappers`, `Ordering`, `Text` and `NetAddr` are shared: optional values and refusals, sorting, decimal text, IP
  addresses.

Times and durations are integers. The clock, the resolver, the network, the kernel's answers and failures, and the
text orders that lists are sorted by are parameters.

## Where the code differs from what it promises

- Aggregation is documented to ignore IPv6 entries. An IPv4-mapped IPv6 prefix is not ignored, and one shorter than
  /128 is read as its first address only. `RouteSource.CidrRangeExact` gives the exact condition,
  `RouteSource.MappedPrefixMisread` a concrete prefix; every later theorem is about the set that was read.
- A planner key is kind, colon, identifier. It tells the objects of two kinds apart exactly when neither kind is the
  other one cut off at a colon (`Planner.KeyIdentifies`); the four kinds have no colon (`Planner.PlainKinds`), while
  "a" and "a:b" collide (`Planner.KeyCollides`).
- Rotation lets each of n addresses lead its family once in n calls exactly when the 64-bit call counter does not wrap
  in between or n divides 2^64 (`AddressFairness.RotationFairness`). With three addresses and the counter at its last
  value the third leads none of the next three calls (`AddressFairness.RotationUnfair`).
- Under interleaving, the default, one counter picks both the leading family and the rotation. With both families
  present, half the addresses of a family with an even number of them never come first, and with an attempt cap of
  one are never dialed (`AddressFairness.InterleaveLeaders` says exactly which; `AddressFairness.InterleaveStarves` is
  the second of two IPv6 addresses next to one IPv4 address).
- A group's current mark lives in a signed 32-bit cell next to its published order. Whatever polls see, the two agree
  exactly when the members' marks are below 2^31 (`GroupOrder.MarkAgreesWithOrder`); the configuration accepts marks
  up to 2^32 - 1 (`GroupOrder.MarkDisagrees`).
- Invalidating a cached name is documented to send the next call back to the resolver. An answer dropped this way can
  still be served, with no resolver run producing it again, if and only if at that moment a waiting call or the key's
  running flight carries it (`DnsInvalidation.ServedAfterInvalidation`); under every policy and for every key this
  happens when a resolver run that has returned stores its answer after the invalidation
  (`DnsInvalidation.InvalidationOutrun`).

## Model

| member | source | states |
|---|---|---|
| DnsModel.Normalize | internal/dns/cache.go:298-341 | a failed or unclassified outcome is transient, a success without usable address is no data; a success keeps each usable address once, unmapped, and its own expiry clamped between the two TTL bounds; negative and transient results get their fixed lifetimes; an error accompanies exactly the transient class |
| DnsModel.DeleteAccounted | internal/dns/cache.go:405-410 | deleting keeps the class counters equal to the real class sizes and lowers the right one |
| DnsModel.SweepAccounted | internal/dns/cache.go:366-376 | a sweep of any distinct entries removes exactly those and keeps the counters exact |
| DnsModel.InsertAccounted | internal/dns/cache.go:343-364 | an insert stores its entry, keeps the counters exact and never exceeds a capacity, whatever was swept or evicted |
| DnsModel.CapacitiesSumToTotal | internal/dns/cache.go:91-97 | shard capacities sum to the policy total, none is zero, no two differ by more than one, earlier shards have the larger ones |
| DnsInvariants.InitInv | internal/dns/cache.go:66-89 | a new cache satisfies the invariant |
| DnsInvariants.TakeInv | internal/dns/cache.go:109-190 | the step that reads an entry and decides hit, stale or miss preserves the invariant (what it decides is stated by DnsAnswers.LookUp) |
| DnsInvariants.LockFlightsInv | internal/dns/cache.go:196-205 | taking the flight lock and looking the key up preserves the invariant |
| DnsInvariants.PeekInv | internal/dns/cache.go:205-205 | the re-check of the shard under the flight lock preserves the invariant, whether it finds a fresh entry or not |
| DnsInvariants.HandOutInv | internal/dns/cache.go:206-217 | the finished flight handed out after a hit, judged by a second clock reading, preserves the invariant |
| DnsInvariants.CreateInv | internal/dns/cache.go:219-233 | refusing or launching a flight preserves the invariant, counters included |
| DnsInvariants.ResolverReturnsInv | internal/dns/cache.go:243-258 | the entry built from a resolver outcome carries the horizon of the answer it keeps |
| DnsInvariants.InsertEntryInv | internal/dns/cache.go:259-259 | storing the entry preserves the invariant of every shard |
| DnsInvariants.FinishInv | internal/dns/cache.go:261-277 | finishing a flight removes it from the table and its egress's count and leaves an answer inside its horizon |
| DnsInvariants.InvalidateInv | internal/dns/cache.go:389-403 | invalidation preserves the invariant |
| DnsInvariants.StepInv | internal/dns/cache.go:101-277 | every step of every caller, flight and invalidation preserves the invariant |
| DnsRuns.RunInv | internal/dns/cache.go:101-410 | every state of every run satisfies the invariant |
| DnsRuns.RunsNeverOverlap | internal/dns/cache.go:196-233 | two unfinished resolver runs never have the same key |
| DnsRuns.EntryPersists | internal/dns/cache.go:171-190 | a stored entry is found again until it is replaced, evicted or invalidated, or is expired and either past its stale horizon or taken by a call for its key |
| DnsRuns.SecondRunWaits | internal/dns/cache.go:196-277 | between two consecutive launches for a key the first run stores its answer and then finishes, and that answer has expired or was evicted or invalidated before the second launch |
| DnsRuns.ProducedByRun | internal/dns/cache.go:243-249 | every answer the cache remembers came from a completed resolver run for that very key |
| DnsReadings.OwnAsk | internal/dns/cache.go:109-110 | every call that waits began with one Ask of its own, and carries the clock reading of that step |
| DnsReadings.FlightOrigin | internal/dns/cache.go:196-233 | every flight was made by one step of one caller and has changed nothing but its phase since |
| DnsReadings.CompletionAt | internal/dns/cache.go:246-249 | the reading a resolved flight carries was taken when its own resolver run returned |
| DnsReadings.HandedOutIsOwn | internal/dns/cache.go:205-218 | a flight handed out already finished is held by the caller it was made for alone |
| DnsReadings.ServedReading | internal/dns/cache.go:101-166 | every good answer was judged by a clock reading of the run: the caller's own Ask or, after it, its own re-check; the return of the resolver run it waited for; or the Ask of the call that launched the stale-serving refresh it joined |
| DnsReadings.ServedAnswerInHorizon | internal/dns/cache.go:101-166 | every address list served came from a completed run for the key, and that clock reading was before its expiry, or before its expiry plus the stale window when stale serving is on; negatives and, with the policy "never", all answers are never served at or after their expiry |
| DnsRuns.HorizonNeverSlides | internal/dns/cache.go:252-258 | through any chain of transient failures a carried answer's limit stays its own expiry plus the window |
| DnsReadings.RefreshStaleInHorizon | internal/dns/cache.go:133-148 | a flight that serves a stale answer while it runs was launched by one call, the policy allows stale serving, and the clock reading of that very call's Ask for the key was inside the answer's horizon |
| DnsAnswers.LookUp | internal/dns/cache.go:109-190 | a call that looks its key up is answered at once exactly when the shard holds an entry unexpired at its own Ask: a success or negative as it is without error, a transient failure by the answer it carries if policy and horizon allow, else by its error; otherwise it goes on with an expired success inside its window, with a servable answer to refresh, or with nothing, and takes an expired entry out unless it refreshes it |
| DnsAnswers.StoredIsServed | internal/dns/cache.go:109-129 | a call that asks while an unexpired entry is stored and looks it up before it is gone or replaced is given what the entry gives, for good |
| DnsAnswers.AnswerIsFinal | internal/dns/cache.go:101-166 | an answer given is never changed |
| DnsAnswers.LaunchCarries | internal/dns/cache.go:131-156 | every flight is launched with what its call carried away from its own look-up |
| DnsAnswers.EntryBuilt | internal/dns/cache.go:246-258 | what a flight stores was built when its own run returned: the definite outcome, or the failure with the carried answer while that is inside its horizon |
| DnsAnswers.FlightGives | internal/dns/cache.go:243-277 | a launched flight is answered by its own run: the definite outcome without error; after a failure the carried answer, where policy and horizon allow; else the error |
| DnsAnswers.CollectGives | internal/dns/cache.go:139-166 | a finished flight gives its answer; before that a call that came to refresh is given what it carries itself, and one that joined a refresh what the refresh carries |
| DnsAnswers.RefreshServed | internal/dns/cache.go:133-148 | a call that finds an expired failure with a servable answer is given that answer unless the flight it then holds is finished |
| DnsAnswers.ExpiredSuccessCarried | internal/dns/cache.go:131-132 | an expired success inside its window reaches the flight its call launches, with its own horizon |
| DnsAnswers.ExpiredSuccessServed | internal/dns/cache.go:131-277 | if that flight's run fails inside the window and the policy serves stale answers, everyone who waits for it is given that success; if it fails otherwise, the failure; a definite outcome is given as it is |
| DnsAnswers.RecheckSees | internal/dns/cache.go:205-205 | the re-check under the flight lock sees the stored entry exactly if it is unexpired at the reading taken under the lock |
| DnsAnswers.RecheckGives | internal/dns/cache.go:206-217 | the finished flight of the re-check gives what the entry it saw gives |
| DnsAnswers.JoinsUnfinished | internal/dns/cache.go:196-201 | a call joins its key's unfinished flight if there is one, and re-checks exactly when there is none |
| DnsAnswers.HowAnswered | internal/dns/cache.go:101-277 | a call ends only by an entry, by its flight, by a refusal at its egress's cap or by giving up |
| DnsRuns.CapacityHolds | internal/dns/cache.go:343-410 | in every reachable state counters are real class sizes and the whole cache holds at most the configured number of entries per class |
| DnsRuns.EvictedOnlyWhenFull | internal/dns/cache.go:343-364 | an entry is evicted only for another of its own class, and only when the shard's class is at capacity |
| DnsRuns.ShardsFit | internal/dns/cache.go:66-97 | there are as many shards, up to sixteen, as can each hold an entry of either class |
| DnsRuns.RefusedOnlyByOwnEgress | internal/dns/cache.go:219-224 | a call is refused for the pending limit exactly when its own egress has that many unfinished flights |
| DnsRuns.PendingIsExact | internal/dns/cache.go:227-227 | an egress's counter is its number of unfinished flights, within the cap, and absent exactly at zero |
| DnsInvalidation.NeverServedAgain | internal/dns/cache.go:101-277 | once no entry, waiting call or flight of a key carries an address list, none does and no further call is given it until a resolver run produces it again |
| DnsInvalidation.CarriedIsServed | internal/dns/cache.go:196-277 | with the key's entry gone, whatever a waiting call or the key's flight still carries can reach a caller: some continuation, in which no resolver run produces it, serves it |
| DnsInvalidation.ServedAfterInvalidation | internal/dns/cache.go:378-403 | after any run that ends in an invalidation, an address list can be served again without being produced again if and only if a waiting call or the key's flight carries it at that moment |
| DnsInvalidation.InvalidationOutrun | internal/dns/cache.go:243-259 | under every policy, for every key and every successful resolver outcome there is a run that ends in an invalidation after which that answer can still be served without being produced again: its resolver run had returned and had not stored it yet |
| DnsShard.CacheShard.constructor | internal/dns/cache.go:81-87 | a new shard is empty, with its two capacities |
| DnsShard.CacheShard.DeleteLocked | internal/dns/cache.go:405-410 | in place: the entry goes and its class counter falls |
| DnsShard.CacheShard.TakeEntry | internal/dns/cache.go:171-190 | in place: fresh entries stay, servable stale markers stay, other expired entries are deleted and returned |
| DnsShard.CacheShard.PeekFresh | internal/dns/cache.go:235-241 | found exactly when the entry exists and has not expired |
| DnsShard.CacheShard.SweepLocked | internal/dns/cache.go:366-376 | in place: four entries are visited, or all if fewer, and exactly those past expiry and past their stale horizon among them go |
| DnsShard.CacheShard.FindVictim | internal/dns/cache.go:353-359 | a victim is a member of the class, and there is none only if the class is empty |
| DnsShard.CacheShard.MakeRoom | internal/dns/cache.go:351-360 | in place: a class at capacity loses exactly one of its own members |
| DnsShard.CacheShard.Insert | internal/dns/cache.go:343-364 | in place: sweep, clear, evict and store refine the insert of the protocol and keep the accounting exact |
| DnsShard.CacheShard.Invalidate | internal/dns/cache.go:389-403 | in place: the key's entry goes if there is one, nothing else changes |
| DnsShard.FlightTable.Start | internal/dns/cache.go:196-233 | joins exactly when the key has a flight, returns the cached entry exactly when the re-check finds it fresh, refuses exactly when the egress is at the cap, else launches; the counters stay exact |
| DnsShard.FlightTable.Finish | internal/dns/cache.go:269-276 | removes the key; the egress's counter falls and is dropped at zero |
| Ipv4.Laminar | internal/routesource/routesource.go:80-99 | of two prefixes that share an address the smaller lies inside the larger |
| Aggregation.MaximalCoverExactly | internal/routesource/routesource.go:33-35 | the maximal prefixes inside a set cover exactly that set |
| Aggregation.MaximalIsMinimal | internal/routesource/routesource.go:33-35 | no list of prefixes that denotes the set is shorter than the list of its maximal prefixes |
| RouteSource.CidrRangeProper | internal/routesource/routesource.go:67-78 | a parsed entry's range is a nonempty 32-bit interval |
| RouteSource.CidrRangeExact | internal/routesource/routesource.go:67-78 | an entry is read as what its text means if and only if it is not an IPv4-mapped prefix shorter than /128, and IPv6 is ignored if and only if it is not IPv4-mapped; a mapped prefix is read as its first address |
| RouteSource.MappedPrefixMisread | internal/routesource/routesource.go:69-77 | ::ffff:10.0.0.0/104 is read as one address |
| RouteSource.ReadSetExact | internal/routesource/routesource.go:38-43 | lists without such prefixes are read as the union of what their entries mean |
| RouteSource.LargestBlock | internal/routesource/routesource.go:83-91 | the next block is the largest aligned one that starts at the low end and fits the range |
| RouteSource.RangeCidrs | internal/routesource/routesource.go:80-99 | the blocks tile the range left to right, each as large as alignment and the range allow |
| RouteSource.TileIsMaximal | internal/routesource/routesource.go:80-99 | every tile of an isolated range is a maximal prefix of the whole set |
| RouteSource.MaximalIsTile | internal/routesource/routesource.go:80-99 | every maximal prefix that starts in the range is one of its tiles |
| RouteSource.AtMostTwoOfASize | internal/routesource/routesource.go:80-99 | a range emits at most two blocks of any one size |
| RouteSource.CollectRanges | internal/routesource/routesource.go:37-43 | the collected ranges span exactly the addresses read |
| RouteSource.MergeNext | internal/routesource/routesource.go:49-57 | one step in the array joins the candidate to the last range exactly when they touch, else appends it, and writes no position after the candidate's |
| RouteSource.MergeInPlace | internal/routesource/routesource.go:48-58 | the in-place merge leaves separated ranges that span what was there and never overwrites a range not yet read |
| RouteSource.AggregateIPv4 | internal/routesource/routesource.go:35-65 | the result is the maximal prefixes of the set read, in ascending order of their text |
| RouteSource.AggregateExactAndMinimal | internal/routesource/routesource.go:33-65 | the prefixes are aligned, pairwise disjoint, cover exactly the set, are precisely its maximal prefixes, and no exact cover is shorter |
| RouteSource.AggregateCanonical | cmd/sakhtar-wg/pfsync.go:71-76 | two results are equal if and only if the two inputs denote the same address set, so a push is skipped exactly when the set is unchanged |
| RouteSource.AggregateIdempotent | internal/routesource/routesource.go:35-65 | aggregating an aggregate gives it back |
| Gateway.OverlapsExact | internal/firewall/plan.go:78-78 | two prefixes overlap exactly when they share an address |
| Gateway.MaskedCovers | internal/firewall/plan.go:178-193 | a canonical prefix covers an address exactly when the address agrees with the configured one on the leading bits |
| Gateway.CanonicalPrefixes | internal/firewall/plan.go:178-193 | succeeds exactly for IPv4 prefixes; the blocks are each listed prefix with its host bits cleared, once, in text order, and hold exactly the addresses that agree with some listed prefix on its leading bits |
| Gateway.ClaimDestinations | internal/firewall/plan.go:75-85 | fails only on an overlap with another interface's destination; otherwise every destination is claimed and claims of different interfaces never overlap |
| Gateway.CompileTunnels | internal/firewall/plan.go:63-99 | the loop over the sorted tunnels fails exactly for unacceptable ones and otherwise emits the rules of every client and destination |
| Gateway.FilterMeaning | internal/firewall/plan.go:89-114 | accepts followed by client drops and owned-destination drops give every packet the intended verdict |
| Gateway.TuplesMeaning | internal/firewall/plan.go:93-96 | translation matches exactly the configured forward tuples |
| Gateway.Compile | internal/firewall/plan.go:45-116 | compiles exactly the acceptable policies, and then first-match evaluation gives every packet the intended verdict, translation and clamp, where client and destination membership is agreement on a configured prefix's leading bits |
| Gateway.TranslatedIsAccepted | internal/firewall/plan.go:43-98 | everything translated is accepted, towards the one interface that owns the destination |
| Gateway.VerdictIgnoresOrder | internal/firewall/plan.go:50-51 | order and duplicates in the configuration change no verdict, translation or clamp |
| EgressGuard.CompileEgressGuard | internal/firewall/plan.go:144-167 | compiles exactly well-formed guards on distinct interfaces; the chain rejects exactly packets that a guard selects and that leave neither by its interface nor by loopback |
| EgressGuard.GuardFailsClosed | internal/firewall/plan.go:133-143 | with accepted allocations a packet whose mark selects a tunnel is rejected exactly when it leaves neither by that tunnel nor by loopback |
| EgressGuard.UnselectedNeverRejected | internal/firewall/plan.go:133-143 | an unmarked packet and one whose mark selects no tunnel are never rejected |
| EgressGuard.AcceptedCompile | internal/firewall/plan.go:153-165 | accepted allocations on distinct well-formed interfaces always compile |
| Allocations.MaskTestExact | internal/kernel/plan.go:202-205 | the pairwise mask test refuses exactly the pairs of selectors that some 32-bit mark satisfies together |
| Allocations.CheckOne | internal/kernel/plan.go:180-194 | one allocation passes exactly when its name, mark, mask, table and priority are sound |
| Allocations.CheckPair | internal/kernel/plan.go:195-206 | a pair passes exactly when table and priority differ and no mark selects both |
| Allocations.ValidateAllocations | internal/kernel/plan.go:178-209 | accepted exactly when each is sound and every pair is apart |
| Allocations.MarkSelectsAtMostOne | internal/kernel/plan.go:176-177 | among accepted allocations every 32-bit mark selects at most one |
| Planner.KeyIdentifies | internal/kernel/plan.go:54-54 | keys identify the objects of two kinds if and only if neither kind is the other one cut off at a colon |
| Planner.CutKinds | internal/kernel/plan.go:151-166 | for any two such kinds, two acceptable objects with one key |
| Planner.PlainKinds | internal/kernel/plan.go:54-54 | kinds without a colon are identified |
| Planner.KeyCollides | internal/kernel/plan.go:54-54 | two different objects that share a key when a kind holds a colon |
| Planner.IndexObjects | internal/kernel/plan.go:151-166 | succeeds exactly for complete objects with distinct keys, and then maps exactly their keys to them |
| Planner.SortedKeys | internal/kernel/plan.go:99-110 | every key of either side, once, in ascending text order |
| Planner.PlanDiff | internal/kernel/plan.go:89-149 | succeeds exactly when both inputs index, and then the plan is the one of their keys in order |
| Planner.HasBlockingDrift | internal/kernel/plan.go:77-84 | true exactly when some drift blocks |
| Planner.PlanIgnoresOrder | internal/kernel/plan.go:86-149 | rearranging either input does not change the plan |
| Planner.OperationsExact | internal/kernel/plan.go:112-147 | a key is operated on exactly when a desired object is missing, differs from an owned one or adopts an equal foreign one, or when an owned object is not desired; each operation names the values before and after and the evidence of the owned object it changes, or of the desired one it brings in |
| Planner.OperationsInOrder | internal/kernel/plan.go:99-147 | operations stand in the text order of their keys, at most one for each |
| Planner.DriftExact | internal/kernel/plan.go:129-140 | the drift names exactly the desired objects whose key an unadopted foreign object holds, each as blocking |
| Planner.ApplyPointwise | internal/kernel/plan.go:112-147 | carrying out the operations changes every key as its own operation says and no other key |
| Planner.ForeignUntouched | internal/kernel/plan.go:86-88 | a foreign object stays as it was unless the desired one adopts it with an equal value, and even then its value stays |
| Planner.OutcomeMeetsDesired | internal/kernel/plan.go:112-147 | apart from collisions desired objects end present, owned and equal, and no other owned object is left |
| Planner.DriftMeansCollision | internal/kernel/plan.go:129-140 | there is drift, always blocking, exactly when a desired key collides with a foreign object that is not adopted |
| Planner.PlanConverges | internal/kernel/plan.go:89-149 | without drift the owned objects end as exactly the desired ones |
| Planner.ReplanIsQuiet | internal/kernel/plan.go:89-149 | planning again from the outcome yields no operation and the same drift |
| RouteReconcile.RouteIdIdentifies | cmd/sakhtar-wg/wg.go:230-239 | route identifiers are equal exactly when table and link are and the destinations are, a missing one being 0.0.0.0/0 |
| RouteReconcile.CollectCurrent | cmd/sakhtar-wg/wg.go:166-186 | refuses exactly when two relevant routes hold one place; otherwise objects and routes mirror the listing |
| RouteReconcile.OpMeaning | cmd/sakhtar-wg/wg.go:206-226 | every planned operation adds a missing desired route or withdraws an owned surplus one; no update can arise |
| RouteReconcile.AddIsPlanned | cmd/sakhtar-wg/wg.go:212-216 | every missing desired route has an add operation |
| RouteReconcile.DelIsPlanned | cmd/sakhtar-wg/wg.go:217-221 | every owned surplus route has a delete operation |
| RouteReconcile.DriftIsOccupied | cmd/sakhtar-wg/wg.go:201-203 | the plan blocks exactly when a desired place is held by a foreign route |
| RouteReconcile.AddPhase | cmd/sakhtar-wg/wg.go:204-216 | additions only, each state on the way a safe partial execution, all of them done on success |
| RouteReconcile.DeletePhase | cmd/sakhtar-wg/wg.go:217-221 | withdrawals after all additions, each state on the way a safe partial execution |
| RouteReconcile.ReconcileRouteSet | cmd/sakhtar-wg/wg.go:160-228 | refuses before any change exactly when the listing fails, places are ambiguous or duplicated, or a foreign route holds one; otherwise, with a failure at any operation, every state is a safe partial execution, and without failure it succeeds |
| RouteReconcile.ReachedIsSafe | cmd/sakhtar-wg/wg.go:204-226 | in every such state routes both current and desired are present, foreign and irrelevant routes are untouched, only desired routes appeared, and nothing is withdrawn before every desired place is filled |
| RouteReconcile.SuccessMatchesDesired | cmd/sakhtar-wg/wg.go:227-227 | on success the relevant owned places are exactly the desired ones |
| RuleReconcile.Scan | cmd/sakhtar-wg/wg.go:247-263 | withdraws owned rules that differ, refuses at a foreign one, collects the exact ones; every state safe |
| RuleReconcile.DropDuplicates | cmd/sakhtar-wg/wg.go:264-272 | keeps one exact rule and withdraws the others |
| RuleReconcile.ReconcileRule | cmd/sakhtar-wg/wg.go:241-278 | at every step rules of other priorities and foreign rules keep their number and an installed correct rule stays; success leaves exactly one rule at the priority, with the tunnel's mark, table and the reserved protocol, and it sends exactly the packets with the tunnel's mark under its mask to the tunnel's table; it fails only for a foreign rule or a kernel error |
| RuleReconcile.EqualMeans | cmd/sakhtar-wg/wg.go:280-301 | a rule counts as the tunnel's exactly when priority, mark, table and protocol are its own and so is the mask, no mask being the full one |
| RuleReconcile.SettledSends | cmd/sakhtar-wg/wg.go:280-301 | the one rule a success leaves sends exactly the packets that have the tunnel's mark under its mask to its table |
| Probes.CountersAreRuns | internal/health/probestate.go:66-92 | the counters are the length of the run that ends the history |
| Probes.LastAtIsLatest | internal/health/probestate.go:73-78 | the recorded time is the maximum of all, in whatever order results arrive |
| Probes.FindLastDecisive | internal/health/probestate.go:66-92 | every nonempty history has a last decisive result |
| Probes.PassingIsLastDecisive | internal/health/probestate.go:66-92 | after any nonempty history the flag is the result at the last decisive position |
| Probes.FlipsAreApart | internal/health/probestate.go:79-91 | two consecutive changes of the flag, across reloads or not, are opposite and at least the second one's threshold apart |
| Probes.BoundedFlapping | internal/health/probestate.go:66-92 | n results change the flag at most (n - 1) / m times, m being the smallest threshold they were judged by |
| Probes.NextPhase | internal/health/monitor.go:170-189 | a reload hands each listed tunnel's state on and records what follows on top of it; every other tunnel starts afresh |
| Probes.RunPhases | internal/health/monitor.go:170-189 | over any number of reloads, each free to change thresholds and tunnels, every tunnel's state is the closed form of its results since the last reload that did not list it: latest time, runs counted across reloads, and a flag set by the last result decisive under the policy in force when it came; with unchanged thresholds reloads leave no trace |
| Probes.Reload | internal/health/monitor.go:180-189 | recording an interleaved history, inheriting and recording another gives each inherited tunnel the state of its own joined history, the new thresholds applying from the reload on, and every other tunnel a fresh start |
| Probes.EligibleMeans | internal/health/probestate.go:117-134 | a tunnel with results is eligible exactly while its latest result is young enough and its last decisive one was a success |
| Probes.VerdictMeans | internal/health/probestate.go:117-134 | the verdict is unknown without results, stale when the latest is too old, else what the last decisive result says |
| Probes.ProbeTracker.Record | internal/health/probestate.go:66-92 | in place: the tunnel's state advances by one result, every other tunnel's stays |
| Probes.ProbeTracker.RecordAll | internal/health/monitor.go:156-161 | in place: an interleaved history advances each tunnel by its own results only |
| Probes.ProbeTracker.Snapshot | internal/health/probestate.go:94-104 | exactly the listed tunnels that have a state |
| Probes.ProbeTracker.Restore | internal/health/probestate.go:106-115 | a tunnel's own state wins over a restored one |
| Probes.ProbeTracker.Verdict | internal/health/probestate.go:117-134 | unknown without results, stale by age, else passing or failing |
| Probes.ProbeTracker.InheritProbes | internal/health/monitor.go:180-189 | the new tracker takes over the listed tunnels it has no result for |
| GroupOrder.ChosenFirst | internal/health/monitor.go:337-346 | the chosen mark, then the others in order |
| GroupOrder.SelectMember | internal/health/monitor.go:299-327 | the carriers in preference order when there are any; otherwise fail-open from the first recent member or the first one |
| GroupOrder.CarriersInOrder | internal/health/monitor.go:299-315 | carriers keep the members' preference order |
| GroupOrder.PublishedOrder | internal/health/monitor.go:299-346 | the order is nonempty, without repetition, chosen mark first; ready exactly when some member can carry traffic, and then exactly those members, earlier ones first; degraded, all members, led by the first with a recent handshake or else by the first, the others in order; and the reason says which of these it was and whether the chosen member's probe passes |
| GroupOrder.Thresholds | internal/health/monitor.go:232-239 | a tunnel is judged by the smallest threshold of the groups that use it, and only used tunnels are queried |
| GroupOrder.MarkAgreesWithOrder | cmd/sakhtar-wg/sni.go:86-106 | for every view, a group's single mark is the head of its order, if and only if the mark of every member that is the first of its tunnel is below 2^31 |
| GroupOrder.MarkDisagrees | cmd/sakhtar-wg/config.go:430-432 | a group of one tunnel with the acceptable mark 2^31: no poll makes the two agree |
| Poll.Monitor.constructor | internal/health/monitor.go:113-142 | a new monitor publishes each group's first mark and its members' marks in order |
| Poll.SmallestDecides | internal/health/monitor.go:245-267 | the signal under the smallest threshold is recent exactly when the handshake is young enough for every group that uses the tunnel |
| Poll.Monitor.Look | internal/health/monitor.go:231-267 | what a poll sees is exactly the young-enough handshakes and the probe verdicts |
| Poll.Monitor.Poll | internal/health/monitor.go:227-273 | in place: every group publishes the selection for what the poll saw |
| Poll.PollAfter | internal/health/monitor.go:227-327 | after any life of reloads and recorded results, a poll stores in every group an order that lists, in preference order, exactly the members whose last handshake is young enough for every group using their tunnel and whose recorded results leave it eligible; when there is none, all members, led by the first with such a handshake or else by the first; and the group's current mark is that order's first, in its signed cell |
| DialBudget.BudgetSlice | internal/proxy/dial.go:178-194 | a slice is at least the floor or all that is left, never more than what is left, and all of it for the last attempt |
| DialBudget.SliceFair | internal/proxy/dial.go:178-194 | a slice is the floor or more unless it is everything left, an even share of what is left or more, and no larger than one of the two |
| DialBudget.EverySliceFair | internal/proxy/dial.go:185-240 | whatever the budget, every attempt of a run gets such a slice of what the ones before it left |
| DialBudget.RunInTurn | internal/proxy/dial.go:200-240 | attempts are made one after the other, only the last may have connected, and the run ends when one does, when no candidate is left or when no time is |
| DialBudget.WithinBudget | internal/proxy/dial.go:200-240 | attempts that keep to their slices keep to the budget |
| DialBudget.EnoughAttempts | internal/proxy/dial.go:185-240 | when none connects at least min(candidates, ceil(budget / floor)) attempts are made |
| DialBudget.FairShare | internal/proxy/dial.go:185-240 | when the budget covers the share for every candidate each attempt gets at least that share |
| DialBudget.BudgetTheorem | internal/proxy/dial.go:185-240 | together: within budget, every slice fair, enough attempts, and at least floor(budget / n) each once the budget covers n floors |
| DialBudget.DialCandidates | internal/proxy/dial.go:200-240 | the loop makes the attempts of the specified run, connects exactly when it does, and tells an invalid cap and an empty list apart |
| DialBudget.EgressPunctual | cmd/sakhtar-wg/sni.go:533-539 | an egress that resolves and then dials inside its slice stays inside its slice |
| DialBudget.NestedFairShare | cmd/sakhtar-wg/sni.go:526-556 | when the timeout covers an egress's lookup and a floor per candidate on every egress, each candidate gets an even share of what the lookup leaves of an even share of the timeout |
| AddressSelection.ReverseRange | internal/proxy/dial.go:109-113 | reverses exactly the given part of the array in place |
| AddressSelection.Rotate | internal/proxy/dial.go:99-107 | three reversals in place are left rotation by the sequence number modulo the length |
| AddressFairness.RotationFairness | internal/proxy/dial.go:66-68 | over as many calls as a family has kept addresses each of them leads the family exactly once, if and only if the counter does not wrap in between or their number divides 2^64 |
| AddressFairness.RotationUnfair | internal/proxy/dial.go:66-68 | three addresses and the counter at its last value: in the next three calls the first address leads twice and the third never |
| AddressFairness.InterleaveLeaders | internal/proxy/dial.go:66-88 | under interleaving with both families present an address ever comes first if and only if its position has its family's parity, or its family has an odd number of addresses (and the counter value this takes fits 64 bits) |
| AddressFairness.InterleaveStarves | internal/proxy/dial.go:66-96 | of one IPv4 and two IPv6 addresses the second IPv6 one never comes first, and with an attempt cap of one is never selected, at any counter value |
| AddressSelection.AlternateBalanced | internal/proxy/dial.go:74-88 | until a family runs out positions alternate strictly, each family in its own order |
| AddressSelection.AlternateTail | internal/proxy/dial.go:79-88 | then the rest of the other family follows in order |
| AddressSelection.InterleaveLoop | internal/proxy/dial.go:79-88 | the loop computes that alternation |
| AddressSelection.RotatingSelector.Split | internal/proxy/dial.go:45-65 | the two lists are the usable, allowed, distinct addresses of each family in order |
| AddressSelection.RotatingSelector.Select | internal/proxy/dial.go:41-97 | the result is the specified selection for the call's sequence number, which advances by one modulo 2^64; under IPv4First every IPv4 address stands before every IPv6 one and an IPv6 address appears only if every kept IPv4 one does, under IPv6First the converse, and under Interleave the families take turns while both last, IPv6 first in even calls |
| AddressSelection.MergedPermutes | internal/proxy/dial.go:69-92 | every strategy rearranges the kept addresses, losing and repeating none |
| AddressSelection.MergedKeepsOrder | internal/proxy/dial.go:69-92 | every strategy keeps each family's rotated order |
| AddressSelection.SelectionSound | internal/proxy/dial.go:41-97 | a selection repeats no address, offers only usable allowed ones, as many as the cap allows, each family a prefix of its rotated order |
| AddressSelection.SelectionStrategic | internal/proxy/dial.go:69-96 | every selection keeps its strategy's promise about which family comes where |
| AddressFairness.RotatedAt | internal/proxy/dial.go:99-107 | rotation moves the address at any position round by the sequence number |
| NetAddr.DistilInOrder | internal/proxy/dial.go:45-65 | the kept addresses stand in the order of their first occurrences |
| Failover.FamilyInOrder | cmd/sakhtar-wg/sni.go:43-58 | every address the egress can carry is kept, at the position that counts the ones before it, and nothing else is kept |
| Failover.NameCandidates | cmd/sakhtar-wg/sni.go:605-631 | of a found answer the candidates are all distinct addresses the egress can carry and its policy allows, or as many of them as the cap admits; an answer of which it can carry none has no candidate, and any other without one is denied |
| Failover.LiteralCandidates | cmd/sakhtar-wg/sni.go:589-604 | a literal the egress can carry and its policy allows is its one candidate; one it cannot carry has none, and any other is refused |
| Failover.CandidatesSafe | cmd/sakhtar-wg/sni.go:588-632 | every candidate passed the policy for its mark and is IPv4 on a marked egress |
| Failover.DeniedMeans | cmd/sakhtar-wg/sni.go:617-630 | an answer is denied exactly when it has addresses of the egress's family and the policy of its mark refuses every usable one (or the attempt cap admits none) |
| Failover.DialReady | cmd/sakhtar-wg/sni.go:563-565 | candidates are dialed in order within what the lookup left of the slice |
| Failover.DialBackend | cmd/sakhtar-wg/sni.go:558-632 | an egress refuses exactly on a denial, dials only allowed candidates, in turn and within its slice, connects exactly when one of them does, and drops the cached answer exactly on a denied answer or when all candidates fail |
| Failover.BackendDials | cmd/sakhtar-wg/sni.go:558-573 | the candidates are dialed in turn on fair slices; the first that connects is the connection, and without one every candidate was dialed or no time was left |
| Failover.CandidateConnects | cmd/sakhtar-wg/sni.go:558-573 | a candidate reached with time left that connects in its slice makes the egress connect, there or earlier |
| Failover.BackendExact | cmd/sakhtar-wg/sni.go:558-632 | one egress in terms of lookup, policy and dials alone: a failed lookup or an answer it cannot carry breaks it, an answer of which it may dial nothing is refused and dropped, any other is dialed in turn on fair slices of what the lookup left and dropped if nothing connects; an address is dialed, refused or broken likewise, without lookup or drop |
| Failover.DialNext | cmd/sakhtar-wg/sni.go:533-539 | the next mark gets its slice of what the ones before it left, and reports as specified |
| Failover.DialEgresses | cmd/sakhtar-wg/sni.go:526-556 | marks are tried in order, each on its slice of what is left; the connection is the first that succeeds; a denial means every mark was tried and denied; a mark goes untried only when no time is left |
| Failover.FailoverIsRun | cmd/sakhtar-wg/sni.go:526-556 | slices, time left and connection are those of the budgeted run over the egresses |
| Failover.FailoverTime | cmd/sakhtar-wg/sni.go:520-539 | failing over keeps to the dial timeout, makes enough attempts, gives every egress tried a fair slice whatever the timeout, and with a floor per egress gives each at least an even share and leaves none untried |
| Failover.RunDialsAllowed | cmd/sakhtar-wg/sni.go:526-632 | over a whole run every dialed address passed the policy of the mark it was dialed on and is IPv4 unless the mark is 0 |
| SuffixMatcher.LinearScanIsBest | internal/routing/routing.go:34-50 | the scan finds the first rule with the longest suffix that matches at a label boundary |
| SuffixMatcher.Matcher.AddFirst | internal/routing/routing.go:23-32 | in place: the first value of a suffix stays |
| SuffixMatcher.Matcher.Lookup | internal/routing/routing.go:34-50 | the value found is the one a linear scan of all rules added so far keeps |
| SuffixMatcher.LookupRefinesScan | cmd/sakhtar-wg/sni.go:162-167 | the longest suffix in a first-wins table is what a linear scan of the rule list finds |

## Left out

- Gateway.VerdictIgnoresOrder: is about policies that both compile; a duplicated interface does not.
- DnsReadings.ServedAnswerInHorizon: a caller that joins a background refresh is judged by the reading that launched the
  refresh, not by its own, because that is what the code does.
- DNS query text: hosts arrive canonical, so lower-casing, the trailing dot and the whitespace check are not modelled.
- DNS cache details: metrics, the resolver timeout, panics of a resolver, copying of address slices, and clock readings
  before the zero time.
- Text of rules, prefixes and errors: rules are datatypes, and sort orders of text are parameters; the ordering of
  equal items by an unstable sort is not fixed.
- Interface names with a trailing plus sign, which the firewall reads as a wildcard and the configuration forbids.
- Cancellation from outside and contexts without a deadline while dialing; cancellation of a waiting DNS caller is modelled.
- Destination policy of the proxy: an arbitrary predicate per mark.
- Rule selectors the daemon never sets, and the addresses and links of an interface.
- Executing netlink, iptables and SSH commands; only their effect on the state and their failures are modelled.
- Reload and rollback orchestration, shutdown, configuration loading, TLS and HTTP parsing, metrics and status output.
