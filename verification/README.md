# Flow: governance gate, transfer and coordination protocols

This project models the decision and bookkeeping logic of the Foundry Flow
nodes and Go SDK, and of the Archivist rules they rely on, and proves what the
flow depends on. Dafny 4.11; `dafny verify dfyconfig.toml` checks everything.

| file | what it holds |
|---|---|
| `Feedback.dfy` | the feedback lifecycle the Archivist enforces, and theorems over every run of an item |
| `Workitem.dfy` | a workitem's versions, stamps and feedback with the RPCs on them; the law stamps a kind needs |
| `Sort.dfy`, `SortTheorems.dfy` | one visit of the Sort gate as imperative code; routing, completion and whole-run theorems |
| `Arbiter.dfy` | the human arbiter that rules on deadlocked feedback |
| `LawGroups.dfy`, `LawGroupTheorems.dfy` | law partition, evaluation units, dispatch matrix; exactly-once dispatch |
| `Capability.dfy` | capability parsing and glob matching against a declarative reading of the wildcard rule |
| `IdTypeMap.dfy` | the bounded TTL cache against the unbounded history of calls it stands in for |
| `Transaction.dfy` | the check/call/set protocol of a transaction handle under every interleaving |
| `AwaitAll.dfy` | waiting for children over lossy events and polls |
| `Embassy.dfy`, `EmbassyTheorems.dfy` | package printer, verifier and unpacker; round trip and alignment |
| `Codification.dfy` | fan-out tasks and the mapping of results back by division |
| `Uuid.dfy` | canonical version-4 ids against sections 3, 4.1.1 and 4.1.3 of RFC 4122 |
| `Prelude.dfy` | Option, Result, the string order behind sorted map walks |

## How the source is read

- **RPCs.** Each RPC on `Workitem` and `Local` may fail, and a failed one may still have taken effect; the same
  goes for the replies codification gets. On `Workitem` and `Local` the ghost counter `faults` counts failures. Claims about working services are stated for runs in which it does not move;
  the other claims hold on every run.
- **Map order.** Go map iteration is a choice of any remaining key, so contracts hold for every order. When two
  nodes declare one stamp, `BuildStampProviders` may pick either; `IsResolution` says which maps are possible.
- **Time, waiting and concurrency.** The clock is a parameter. A wait is given the finite series of ticks it
  sees. Goroutines are interleaved atomic steps. SHA-256 is an arbitrary function of the bytes.
- **Strings.** Strings are sequences of characters, compared character by character; Go compares UTF-8 bytes,
  which gives the same order.

## Where code and documentation differ

The model follows the code.

- A feedback item's depth counts its history events, "created" included
  (platform/archivist/internal/store/sqlite/feedback.go:226-236), not its transitions
  (proto/flow/v1/archivist.proto:79). A new item has depth 1, so the debate bound is (threshold - 1) / 2.
- `checkDeadlock` is described as looking at every non-resolved item but skips WONT_FIX and REJECTED
  (nodes/sort/main.go:424-446). Rejected fixes are bounded in every disciplined run (`DebateBound`); rejected
  refusals are not (`RefusalsAreUnbounded`), only as many as were refused or ruled (`JudgedRefusalsWereMade`).
- A ruling can be linked only once, so an item that is deadlocked again stays so for good
  (`SecondDeadlockIsPermanent`). After a REJECTED ruling a fix can be accepted only if the item's depth plus the
  ruling and the fix stay below the threshold (`RejectedRulingFixableIff`).
- `attestSpecificity` reports the first match, not the best one (`ExactMustComeFirst`, `WildcardHidesExact`).
- The wildcard rule of `MatchCapability` fails for starred capabilities that contain another special character
  of filepath.Match; `DocumentedRuleHoldsIff` is the exact condition.
- `AppliedTimeout` is documented as the latest grant. It can show an older one for two reasons: extensions that
  overlap (`OverlapIsStale`) and a granted extension whose answer is lost (`LostAnswerIsStale`). `UpToDateIff` is
  the exact condition over all runs.
- `AwaitAll` may return running children when the stream closes (`ClosedStreamMayReturnRunning`); the list is all
  terminal exactly when every child had ended by the moment of closing (`ClosedStreamSafeIff`). Without children
  the polling wait never returns (`NoChildrenPollsForever`).
- A capability with a star and another special character need not match itself, so the search for an attestation
  provider and its fallback can disagree on who qualifies; `SearchAgreesIff` says when.
- A package with an empty artefact is exported but always refused on import (`ExportIsAcceptedIff`).
- The receiver of a package does not check the foreign stamps its import type requires, nor that the package is
  the one whose manifest it preflighted (nodes/embassy/main.go:305-389); `UnstampedImportIsAccepted`.
- Codification maps results by list position, but the Operator lists children in no promised order and includes
  those of earlier fan-outs (platform/operator/internal/rpc/operator_server.go:598-622). `AttributionIsRightIff`
  says for every listing which results land on a change they answer, and `StoredAnswersIff` when all of a stored
  petition's do. A result listed past this fan-out's tasks stops the node (`FatalIff`); an earlier child's result
  listed before that is attached without an error (`EarlierChildAnswersSilently`).
- An exit-contract stamp that no node of nodeOrder and not Sort provides, and no law demands, is not waited for
  (nodes/sort/main.go:147-235); `ContractAlwaysMetIff`.
- The dispatch pass loop counts in int32 and never ends when the configured passes are the int32 maximum
  (sdk/go/lawgroup.go:175); `PassLoopEndsIff`.

## Model

| member | source | states |
|---|---|---|
| Feedback.LifecycleTable | platform/archivist/internal/service/feedback.go:143-410 | each call's from-states and resulting state, literally |
| Feedback.RefusalCloses | sdk/go/feedback.go:149-162 | at any depth an open item can be refused, and a deadlocked one ruled WONT_FIX, and the next disciplined review closes it |
| Feedback.FixClosesIff | nodes/sort/main.go:433-475 | a fix can be accepted in the next disciplined review iff the item is open for refinement and the fix leaves it below the threshold |
| Feedback.SupersedingClosesIff | platform/archivist/internal/store/sqlite/feedback.go:331-391 | a new version closes exactly the open items of other versions that may not be refused and have no ruling |
| Feedback.ResolvedIsFinal | platform/archivist/internal/store/sqlite/feedback.go:157-224 | in every run a RESOLVED item stays RESOLVED |
| Feedback.ResolvedIffAccepted | sdk/go/feedback.go:122-162 | unless a new version supersedes it, an item ends RESOLVED iff exactly one event of the run accepted a fix or a refusal |
| Feedback.RuledAtMostOnce | platform/archivist/internal/store/sqlite/feedback.go:238-324 | in every run at most one ruling is linked, none to a ruled item, and a linked ruling stays |
| Feedback.EscapesAreRulings | platform/archivist/internal/store/sqlite/feedback.go:283-303 | leaving DEADLOCKED is always a ruling, so it happens at most once in any run |
| Feedback.SecondDeadlockIsPermanent | platform/archivist/internal/store/sqlite/feedback.go:291-295 | no event changes a deadlocked item that already has its ruling |
| Feedback.FixAfterRulingIsLost | nodes/sort/main.go:441-472 | a ruled item past the threshold that is ACTIONED never gets a review, only a second deadlock |
| Feedback.RejectedRulingFixableIff | nodes/hitl-arbiter/main.go:131-132 | after a REJECTED ruling some disciplined run accepts the refiner's fix iff the item's depth plus two is below the threshold |
| Feedback.RuledFixIsNeverJudged | nodes/sort/main.go:441-472 | where only Sort deadlocks items and reviews follow visits, no fix of a ruled item is ever accepted or rejected |
| Feedback.ParityFixesTurn | sdk/go/feedback.go:91-173 | until the first deadlock, odd depth means the refiner's turn and even depth the reviewer's |
| Feedback.DebateBound | nodes/sort/main.go:433-475 | at most (threshold - 1) / 2 fixes are rejected in any run whose reviews follow cleared visits, whatever refusals and rulings it holds |
| Feedback.DebateBoundIsTight | nodes/sort/main.go:455-470 | that many rejections are reached |
| Feedback.JudgedRefusalsWereMade | sdk/go/feedback.go:91-202 | refusals are accepted or rejected at most as often as they were made or ruled |
| Feedback.JudgedFixesWereMade | sdk/go/feedback.go:91-135 | fixes are accepted or rejected at most as often as they were made |
| Feedback.RefusalsAreUnbounded | nodes/sort/main.go:442-446 | for every n and threshold a disciplined run refuses and rejects n times without a deadlock |
| Workitem.Workitem.Store | platform/archivist/internal/service/artefacts.go:23-102 | equal content makes no version; a new version leaves all stamps on their versions and supersedes stale feedback |
| Workitem.StoreClosesIff | platform/archivist/internal/service/artefacts.go:76-84 | which items a store closes, unless the Archivist fails at it in silence |
| Workitem.StampsFollowVersions | platform/archivist/internal/store/sqlite/stamps.go:19-94 | a new version has only the stamps of its own hash; storing the earlier content again brings its stamps back |
| Workitem.Workitem.Stamp | platform/archivist/internal/store/sqlite/stamps.go:19-40 | adds the row for the current version and nothing else |
| Workitem.Workitem.HasStamp | platform/archivist/internal/store/sqlite/stamps.go:72-94 | answers for the current version only |
| Workitem.Workitem.GetFeedback | platform/archivist/internal/store/sqlite/feedback.go:80-111 | exactly the items of the kind, each once |
| Workitem.Workitem.AddFeedback | platform/archivist/internal/service/feedback.go:45-60 | a NEW item at depth 1 on the version named, else on the current one |
| Workitem.Workitem.Transition | sdk/go/feedback.go:91-202 | moves one item by one enabled move, or changes nothing |
| Workitem.Workitem.VerifyLawAttestations | sdk/go/workitem.go:249-315 | returns the required law stamps the current version lacks, in group order |
| Workitem.RequiredMeaning | sdk/go/workitem.go:272-291 | a stamp is required exactly when a governing law demands it by its group or by a representation |
| Workitem.RequiredEmptyIff | sdk/go/workitem.go:257-260 | nothing is required exactly when no law governs the kind |
| Workitem.FirstGroupFirst | sdk/go/workitem.go:272-291 | required stamps come group after group |
| Workitem.GroupStampsInOrder | sdk/go/workitem.go:276-290 | within a group, law by law and representation by representation, the group's own stamp last |
| Workitem.AbsentConcat | sdk/go/workitem.go:302-314 | missing stamps are reported in the order required |
| Workitem.AbsentIsUnstamped | sdk/go/workitem.go:302-314 | the reported stamps are the required ones not on the current version |
| Sort.Threshold | nodes/sort/main.go:76-81 | the effective threshold is at least 1: the configured one, or 3 when that is not positive |
| Sort.BuildStampProviders | nodes/sort/main.go:253-272 | every declared static stamp has a provider, and every provider declares its stamp |
| Sort.StampsProvidedBy | nodes/sort/main.go:309-324 | exactly the node's stamps in the kind's row, or in the wildcard row when the kind has none |
| Sort.RoutesMeaning | nodes/sort/main.go:299-305 | a route to a target exists iff an output has it, and is the last such output's name |
| Sort.BuildOutputRoutes | nodes/sort/main.go:299-305 | computes the routes whose meaning is given by RoutesMeaning |
| Sort.CheckDeadlock | nodes/sort/main.go:433-475 | nil exactly when no item of the kind escalates; otherwise an escalating item, now DEADLOCKED, all others unchanged |
| Sort.HandleDeadlockedItem | nodes/sort/main.go:497-529 | suspends for an active dispute, else routes to the arbiter |
| Sort.HasUnaddressedFeedbackFrom | nodes/sort/main.go:328-346 | true iff the source has a NEW or REJECTED item on the kind |
| Sort.HasAddressedFeedback | nodes/sort/main.go:350-365 | true iff some item of the kind is ACTIONED or WONT_FIX |
| Sort.CheckStamps | nodes/sort/main.go:147-192 | passes only when every nodeOrder stamp is there and answered; otherwise one route, justified by the first provider that is not satisfied |
| Sort.FindAttestationProvider | nodes/sort/main.go:570-611 | the first holder in nodeOrder, else the most specific node with the least name, else nobody |
| Sort.MissingIsRecognised | nodes/sort/main.go:545-553 | every stamp the attestation check reports is recognised by the router |
| Sort.RouteAttestation | nodes/sort/main.go:632-674 | not routed without error exactly when nothing is missing; otherwise one route to a provider of a missing stamp, or an error |
| Sort.ApplyOwnStamps | nodes/sort/main.go:218-235 | success adds exactly Sort's own contract stamps of the kind; failure adds at most some of them |
| Sort.VisitKind | nodes/sort/main.go:135-236 | a kind passes exactly when it was ready; otherwise one justified result or an error |
| Sort.HandleSort | nodes/sort/main.go:108-245 | a nil-error visit submits exactly one result, a failed one at most one: complete, refine, appraisal, a provider's output, hitl-arbiter or a dispute suspension, each under its failing check; it completes iff every kind is ready at the start, whatever the walk order; an error without a failed RPC means some kind is blocked on an artefact, a route or an attestation provider that is missing; stamps and feedback change only as VisitEffect allows |
| SortTheorems.ReadySpelledOut | nodes/sort/main.go:135-236 | readiness in terms of feedback states, stamp rows and the provider map alone |
| Sort.ReadyIgnoresOtherKinds | nodes/sort/main.go:135-235 | stamping one kind does not change another kind's readiness |
| SortTheorems.DeclaresMeaning | nodes/sort/main.go:253-295 | a node declares a static stamp iff it lists one of the two printed capabilities, law stamps excepted |
| SortTheorems.RequiredCapabilityText | nodes/sort/main.go:545-565 | the capability a law stamp's provider must hold, literally |
| SortTheorems.ChoiceSpelledOut | nodes/sort/main.go:570-611 | the first node of nodeOrder that may attest, else the most specific node with the least name |
| SortTheorems.AttestationKind | nodes/sort/main.go:545-553 | a missing stamp needs a law-group attestation iff a governing law's group demands it, a law-id one iff a law's representation does |
| SortTheorems.SpecificityMeansHolding | nodes/sort/main.go:557-565 | specificity is positive iff the list holds the attestation capability or spells it out |
| SortTheorems.SearchAgreesIff | nodes/sort/main.go:567-611 | positive specificity and holding agree on all lists iff the required capability matches itself |
| SortTheorems.ProviderHolds | nodes/sort/main.go:567-611 | a chosen provider qualifies and nobody is chosen iff no node does, for every kind; on plain kinds qualifying is holding the capability |
| SortTheorems.ExactMustComeFirst | nodes/sort/main.go:613-626 | specificity 2 iff the exact capability precedes every matching wildcard |
| SortTheorems.WildcardHidesExact | nodes/sort/main.go:617-624 | a wildcard listed before the exact capability makes the specificity 1 |
| SortTheorems.CompletionMeansContract | nodes/sort/main.go:238-242 | at completion every law stamp and every contract stamp that is provided by nodeOrder or Sort or demanded by a law is present, and all feedback is settled |
| SortTheorems.ContractAlwaysMetIff | nodes/sort/main.go:147-242 | every completion meets the whole exit contract iff each contract stamp is provided by nodeOrder or Sort or demanded by a law |
| SortTheorems.CompletionIsStable | nodes/sort/main.go:135-242 | after a completing visit every kind is still ready, and a second visit would stamp nothing |
| SortTheorems.Visit | nodes/sort/main.go:108-245 | every visit of the gate, failed or not, is a step of the runs below |
| SortTheorems.VisitStampsNoLaw | nodes/sort/main.go:218-235 | a visit applies only contract stamps that a node of Sort's name declares, on current versions, and never a law stamp |
| SortTheorems.LawStampsAreAttested | nodes/sort/main.go:261-263 | over every run, each law stamp was given by a step of a node other than Sort that may give it |
| SortTheorems.RunKeepsGate | nodes/sort/main.go:147-235 | over every run, a Sort-only stamp on any version comes with every awaited stamp on that version |
| SortTheorems.SortStampImpliesAwaited | sdk/go/artefact.go:83-141 | the same for the current version of a kind, after any interleaving of stores, stamps, feedback and visits |
| SortTheorems.RunIsItemRun | sdk/go/feedback.go:73-202 | every run of the flow is, for each item, the run of the feedback lifecycle made of the steps' events for it |
| SortTheorems.DebateBoundOfRuns | nodes/sort/main.go:433-475 | in any run of the flow whose reviews of an item follow visits that let it pass, at most (threshold - 1) / 2 steps reject a fix of it |
| SortTheorems.FinalStatesOfRuns | platform/archivist/internal/store/sqlite/feedback.go:283-295 | in every run of the flow RESOLVED and a second deadlock are final |
| SortTheorems.VerdictClearsItems | nodes/sort/main.go:139-145 | any verdict but escalation is the cleared visit the debate bound relies on |
| Arbiter.LinkRulings | nodes/hitl-arbiter/main.go:155-159 | success rules exactly the listed items; without RPC failures it fails exactly when one was ruled on before |
| Arbiter.LinkRulingsAndRoute | nodes/hitl-arbiter/main.go:148-167 | success rules exactly the listed items, stamps and routes; failure submits at most that route and touches only deadlocked items |
| Arbiter.HandleArbiter | nodes/hitl-arbiter/main.go:65-144 | success gives every deadlocked haiku item the ruling and the state its route tells, touches no other item and stamps; with working RPCs a ruling fails iff an artefact is missing or a deadlocked item was ruled on before |
| Arbiter.RulingUnblocks | nodes/hitl-arbiter/main.go:125-167 | after the rulings no haiku item is deadlocked or escalated again; accepting leaves a refusal to adjudicate, rejecting sends the item back to its source |
| LawGroups.PartitionLawsByGroup | sdk/go/lawgroup.go:82-95 | each group's laws, in order, and no empty group |
| LawGroups.LawsInConcat | sdk/go/lawgroup.go:82-95 | the partition keeps the laws' order |
| LawGroups.ComputeUnits | sdk/go/lawgroup.go:117-154 | the units of each group by its mode |
| LawGroups.ComputeDispatchMatrix | sdk/go/lawgroup.go:160-187 | the matrix over sorted groups, units, appraisers and passes |
| LawGroups.PassLoopEndsIff | sdk/go/lawgroup.go:175 | the int32 pass loop ends iff the passes are below the int32 maximum |
| LawGroupTheorems.UnitsKeepLaws | sdk/go/lawgroup.go:127-150 | bundling or splitting neither loses nor repeats a law |
| LawGroupTheorems.DispatchMeetsDemand | sdk/go/lawgroup.go:82-187 | for any input, repeats included, the matrix contains each (law, appraiser, pass) as often as the laws and appraisers demand |
| LawGroupTheorems.DispatchExactlyOnce | sdk/go/lawgroup.go:82-187 | with distinct ids, exactly one entry per law, appraiser and pass configured for the law's group, one pass where none is, and none for other passes |
| LawGroupTheorems.UnconfiguredGroupsBundle | sdk/go/lawgroup.go:82-154 | a group without a configuration is one bundle of all its laws, in order; laws naming no group belong to "default" |
| LawGroupTheorems.UnitsFollowConfig | sdk/go/lawgroup.go:117-154 | a configured group's units carry its mode and canonical ids: one law each, in order, when law by law, one unit of all its laws otherwise |
| LawGroupTheorems.ItoaIsDecimal | sdk/go/lawgroup.go:130-148 | unit indices are printed in decimal, without leading zeros |
| LawGroupTheorems.EntriesAreFiled | sdk/go/lawgroup.go:170-185 | every entry is filed under a group that has its unit, for an appraiser given |
| LawGroupTheorems.GroupsComeInOrder | sdk/go/lawgroup.go:169-185 | the matrix goes through the groups in name order |
| LawGroupTheorems.MatrixLength | sdk/go/lawgroup.go:170-185 | the length is the sum over groups of units times appraisers times passes |
| LawGroupTheorems.UnitIdsDistinct | sdk/go/lawgroup.go:130-148 | unit ids are pairwise distinct for colon-free modes and arbitrary group names |
| Capability.ParseInvertsPrint | sdk/go/capability.go:31-49 | the parser accepts exactly the printed stamp capabilities and recovers kind and stamp |
| CapabilityTheorems.InstBySegments | sdk/go/capability.go:82-95 | whole-string instances are segment-by-segment instances |
| CapabilityTheorems.MatchIsInstance | sdk/go/capability.go:63-103 | matching is replacing each star by a string without '/' |
| CapabilityTheorems.DocumentedRuleHoldsIff | sdk/go/capability.go:63-96 | the documented rule holds of a capability on all strings iff it has no star or no other special character |
| CapabilityTheorems.SpecialBreaksRule | sdk/go/capability.go:98-103 | any other capability disagrees with the rule on some string |
| CapabilityTheorems.EscapedMatchesItself | sdk/go/capability.go:98-103 | a fully escaped segment pattern matches exactly the text it escapes |
| CapabilityTheorems.RangeTakesOne | sdk/go/capability.go:98-103 | a range class takes exactly one character, in the range or, negated, outside it |
| IdTypeMap.Cache.Put | sdk/go/graph.go:110-122 | stores the entry, evicting one oldest entry iff a new id meets a full map; keeps soundness, the size bound and retention |
| IdTypeMap.Cache.EvictOldest | sdk/go/graph.go:126-137 | removes exactly one entry of least insertion time |
| IdTypeMap.Cache.Resolve | sdk/go/graph.go:139-150 | a type is returned only if the last call for the id stored it within the TTL, and always then while fewer than maxSize other ids were stored since; an older store gives nothing |
| IdTypeMap.Cache.ResolveOrWildcard | sdk/go/graph.go:155-161 | the type on those terms, else the wildcard, never empty |
| IdTypeMap.Cache.Delete | sdk/go/graph.go:163-167 | removes one id and keeps the invariants |
| IdTypeMap.PutRetains | sdk/go/graph.go:116-121 | an entry is gone only after maxSize other ids were stored no earlier than it |
| IdTypeMap.PutKeepsSound | sdk/go/graph.go:110-122 | every entry is the last stored one for its id, with no empty id or type |
| IdTypeMap.UnboundedIsLastCall | sdk/go/graph.go:71-88 | the unbounded cache holds an id iff its last call stored it, with that type and time |
| Transaction.FlagsAreTrue | sdk/go/transaction.go:424-473 | in every interleaving the flags exclude each other and a set flag means the server accepted that action |
| Transaction.AtMostOneSuccess | sdk/go/transaction.go:424-473 | at most one commit or rollback on a handle ever succeeds |
| Transaction.CallTakesEffect | sdk/go/transaction.go:424-505 | one undisturbed accepted call sets its own flag or timeout, on handle and server, and nothing else; a lost or refused one sets none |
| Transaction.NoRequestAfterFlag | sdk/go/transaction.go:54-64 | after a flag is set, a goroutine outside a call never sends a request again |
| Transaction.WindowIsReachable | sdk/go/transaction.go:425-448 | a run sets the flag while another goroutine has checked, and that goroutine's request still goes out |
| Transaction.UpToDateIff | sdk/go/transaction.go:37-45 | over all runs, whenever no extension is in flight the handle shows the latest grant, iff answers are not lost and extensions do not overlap, or the grants make no difference |
| Transaction.LostAnswerIsStale | sdk/go/transaction.go:488-505 | one extension whose answer is lost leaves the older timeout |
| Transaction.OverlapIsStale | sdk/go/transaction.go:501-503 | two overlapping extensions leave the older timeout |
| Transaction.LatestGrantSurvivesIff | sdk/go/transaction.go:501-503 | with extensions in flight, after every finishing order the handle shows the latest grant iff all of them carry it |
| Transaction.Handle.Perform | sdk/go/transaction.go:424-505 | one call is a run of the interleaving machine; it succeeds iff its request was accepted and answered; a terminal handle refuses locally with the right error and no request |
| AwaitAll.AwaitStreaming | sdk/go/workitem_child.go:131-198 | ends at the first reason to stop, told from the literal reports, with what that tick's fetch gives; a wholly ended snapshot is returned at once |
| AwaitAll.StreamingEndsIff | sdk/go/workitem_child.go:171-197 | the event loop waits iff no tick is reason to stop: a failed or wholly ended poll, an event with enough distinct ids reported, or the stream's close |
| AwaitAll.EventsEndStream | sdk/go/workitem_child.go:190-195 | once as many distinct ids as children have been reported completed or failed, the event at hand ends the wait |
| AwaitAll.AwaitPolling | sdk/go/workitem_child.go:202-216 | computes the exit of the poll loop |
| AwaitAll.CountedAreTerminal | sdk/go/workitem_child.go:140-193 | under lost, repeated and late events every counted id is a child that really ended |
| AwaitAll.StreamIsSafe | sdk/go/workitem_child.go:171-197 | every exit but the closed stream lists all children, all terminal |
| AwaitAll.ClosedStreamSafeIff | sdk/go/workitem_child.go:186-189 | the closed stream's list is all children, all terminal, iff every child had ended when the stream closed |
| AwaitAll.StreamingIsSafe | sdk/go/workitem_child.go:131-198 | both, from the initial snapshot |
| AwaitAll.OpenStreamIsSafe | sdk/go/workitem_child.go:131-198 | if the stream does not close, a returned list is all children, all terminal |
| AwaitAll.PollEndsStream | sdk/go/workitem_child.go:125-130 | a poll that finds all children ended, or fails, ends the wait without any event |
| AwaitAll.PollingIsSafe | sdk/go/workitem_child.go:202-216 | the polling exit lists all children, all terminal |
| AwaitAll.PollingStopsAtFirst | sdk/go/workitem_child.go:206-215 | polling returns a list iff it is the first wholly terminal one and no fetch failed before |
| AwaitAll.PollingFailsIff | sdk/go/workitem_child.go:206-210 | polling fails iff a fetch fails before any list is wholly ended |
| AwaitAll.ClosedStreamMayReturnRunning | sdk/go/workitem_child.go:186-189 | a closed stream returns a list with a running child |
| AwaitAll.NoChildrenPollsForever | sdk/go/fanout.go:33-43 | without children the polling wait never returns |
| AwaitAll.Waiter.AwaitAll | sdk/go/workitem_child.go:87-123 | with an explicit and a deferred resume, the timer is resumed exactly once per pause on every way out; a list is all children, all terminal, on the closed stream's exit iff they had ended by then |
| Embassy.BuildExportManifest | nodes/embassy/manifest.go:29-108 | fails iff there is nothing to export or an artefact is not held; otherwise one declaration per reference, with its digest, size and stamps |
| Embassy.BuildPackageChunks | nodes/embassy/main.go:590-621 | header, contents in manifest order, trailer over all of them |
| Embassy.VerifyPackageDigests | nodes/embassy/verify.go:25-78 | true iff the trailer digest and every declared digest hold by position |
| Embassy.VerifyForeignStamps | nodes/embassy/main.go:252-285 | the required foreign stamps the manifest lacks |
| Embassy.Stager.StageChunk | nodes/embassy/stager.go:32-39 | appends one chunk |
| Embassy.Stager.Complete | nodes/embassy/stager.go:41-50 | fails iff no manifest was staged |
| Embassy.Local.MaterializeImport | nodes/embassy/materializer.go:23-105 | stores content i under artefact i's name, applies the natural stamps, routes; with working services it succeeds iff contents suffice and the intake node is known |
| Embassy.Local.ApplyNaturalisationStamps | nodes/embassy/materializer.go:131-180 | exactly the imported and local stamps, in order |
| Embassy.Local.StreamPackage | nodes/embassy/main.go:305-389 | every store, even of a failing import, carries content with its artefact's declared digest; an unverified package leaves no trace; with working services it is taken iff Accepts holds |
| EmbassyTheorems.PackageReadsBack | nodes/embassy/verify.go:81-100 | the receiver reads the sender's manifest, trailer and non-empty contents out of the printed package |
| EmbassyTheorems.DropsNothingIff | nodes/embassy/verify.go:27-35 | no content is dropped iff none is empty, and then the parts are unchanged |
| EmbassyTheorems.SameBytes | nodes/embassy/verify.go:27-43 | dropping empty contents never changes the bytes the trailer digest is computed over |
| EmbassyTheorems.ExportVerifiesIff | nodes/embassy/verify.go:36-75 | an exported package verifies iff no artefact is empty |
| EmbassyTheorems.ExportIsAcceptedIff | nodes/embassy/main.go:305-389 | a receiver that knows the type accepts it iff no artefact is empty, repeats included |
| EmbassyTheorems.RoundTripContents | nodes/embassy/materializer.go:48-77 | an accepted import stores exactly the exported contents |
| EmbassyTheorems.PreflightMakesImportComplete | nodes/embassy/materializer.go:141-165 | after a clean preflight of the manifest, naturalisation imports every required stamp, in order |
| EmbassyTheorems.PreflightAndImportSplit | nodes/embassy/materializer.go:141-165 | of the demanded stamps, the preflight reports exactly those an artefact came without and naturalisation imports exactly those it came with |
| EmbassyTheorems.LocalStampsMeaning | nodes/embassy/materializer.go:167-177 | each configured local stamp goes on every artefact of the manifest and nowhere else |
| EmbassyTheorems.StampsTravel | nodes/embassy/manifest.go:65-105 | a demanded stamp is imported iff the sender held it for an exported artefact |
| EmbassyTheorems.UnstampedImportIsAccepted | nodes/embassy/main.go:305-389 | a package without any foreign stamp is accepted if none of its artefacts is empty, though its preflight reports every demanded stamp |
| EmbassyTheorems.TrailerPinsBytes | nodes/embassy/verify.go:36-50 | a package is accepted only if its first trailer's digest, if any, is that of all its content bytes |
| EmbassyTheorems.ManifestPinsContents | nodes/embassy/verify.go:55-75 | a verified package with the sender's manifest carries the sender's content at each position, up to hash collisions, whoever printed the chunks |
| EmbassyTheorems.ImportOutcome | nodes/embassy/materializer.go:85-180 | built-in types go to the petition intake whatever the flow configures, others to their node; switched off, no stamp is applied, otherwise exactly the demanded stamps an artefact came with and the local stamps |
| Codification.PartitionChanges | nodes/codification/main.go:194-203 | exactly the create, update and demote changes, in order |
| Codification.BuildFanOutTasks | nodes/codification/main.go:305-339 | task i carries the goal of qualifying change i / n to codifier i % n |
| Codification.MapBack | nodes/codification/main.go:240-284 | succeeds iff no answer is fatal, and then every result is attached |
| Codification.HandleCodification | nodes/codification/main.go:172-290 | stores the petition unchanged without fan-out, the attached one if fan-out, waiting and every answer are good, and nothing otherwise; a store or route whose answer is lost still takes effect |
| CodificationTheorems.TasksOfBlock | nodes/codification/main.go:311-335 | block k of the tasks asks for the goal of qualifying change k |
| CodificationTheorems.ResultsReachTheirChange | nodes/codification/main.go:272-283 | qualifying change k gains exactly the results of its block, in order |
| CodificationTheorems.OtherChangesUntouched | nodes/codification/main.go:194-203 | a change that needs no codification is left as it was |
| CodificationTheorems.IndexInRange | nodes/codification/main.go:275-278 | no answer of this fan-out maps out of range |
| CodificationTheorems.RepsAddedAreResultsRead | nodes/codification/main.go:280-283 | representations added equal results read |
| CodificationTheorems.AttributionIsRightIff | nodes/codification/main.go:272-283 | in any listing, a child's result lands on a change with the goal it worked on iff its position is one of this fan-out's and the task there has that goal |
| CodificationTheorems.StoredAnswersIff | nodes/codification/main.go:240-289 | every representation in a stored petition answers its change iff each listed child with a result ran a task with the goal of the task at its position |
| CodificationTheorems.FatalIff | nodes/codification/main.go:258-278 | an answer stops the node iff it cannot be read or is a result listed past this fan-out's tasks |
| CodificationTheorems.EarlierChildAnswersSilently | nodes/codification/main.go:240-284 | an earlier child's result can be attached to a change it does not answer, without an error |
| Uuid.GroupsAreCanonical | sdk/go/transaction.go:517 | the regular expression is the 36-character dashed form |
| Uuid.AcceptsExactlyPrints | sdk/go/transaction.go:511-541 | accepted ids are the empty string and the prints of version-4, variant-10 values |
| Uuid.PrintIsAccepted | sdk/go/transaction.go:526-541 | printing then parsing gives the value back |
| Uuid.AcceptedIsPrint | sdk/go/transaction.go:526-541 | parsing then printing gives the id back |
| Uuid.OneSpellingPerUuid | sdk/go/transaction.go:511-516 | two accepted ids of one UUID are equal |

## Left out

- gRPC plumbing, sessions, configuration loading, logging, telemetry and the comma-separated nodeOrder parser.
- The Archivist's capability gate on Sort's own stamping: a refusal there counts as a failed RPC. The gate on
  other nodes' stamping is in `CanStamp`.
- Artefact ids that differ from their governed artefact name: the model uses one name for both.
- Reading citations from the feedback item: which deadlocked items have an active dispute is an input of the gate.
- Laws, law groups and topology changing during a run of the flow: `SortStampImpliesAwaited` is about fixed ones.
- LawGroups.ComputeDispatchMatrix: requires passes below the int32 maximum, at which the source's counter wraps and the loop never ends.
- Workitem.Workitem.GetFeedback: promises no order; the store sorts by creation time, in which items may tie, and what is proved holds for every order.
- AwaitAll.Waiter.AwaitAll: a wait that outlasts the given ticks is reported as still waiting; nothing is claimed about fairness or time.
- The children FanOut has already created when it fails.
- Watcher de-duplication, ttl expiry, the law applicator, and prompt and schema code.
- The cartographer's own transaction store: the server is modelled by its contract of accepting at most one commit or rollback.
