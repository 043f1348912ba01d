# Verified models of the CodeRook engines

CodeRook is an agent runtime: a Python daemon with a capability registry and an
interaction manager, a web UI and a VS Code extension that follow its event stream,
and scripts that select, score and pay for benchmark runs. This project models the
engines whose guarantees range over all inputs and all runs, and proves those
guarantees. It is written for Dafny 4.11; `dafny verify dfyconfig.toml` checks all of it.

Where the source changes an object or loops, the model does too: a class or a method
with loop invariants, proved against a specification function; the theorems are lemmas
about that function. Where the source is an expression, the model is a function. For each
such function some theorem also says what it computes without calling it: by positions,
by fields, or by the history of calls.

**Event stream** (`RuntimeEvents`, `EventStream`, `Reconnect`, `EventCache`,
`EventState`, `ToolGroups`). Text arrives in arbitrary chunks and is cut into frames at
blank lines, the subset of section 9.2.5 ("Parsing an event stream") of the WHATWG HTML
Living Standard that the clients use. The online splitter equals a greedy batch split,
which is the only way to write the text as closed frames and an unterminated rest.
Normalising CR LF chunk by chunk equals normalising the whole text exactly when no chunk
boundary tears a CR from its LF; a torn blank line loses its event. From there the
project goes end to end: the server's frames, connections cut anywhere and repeating old
entries, the cursor carried over reconnects, and the bounded cache, which is left with
the last events of one gapless run of the log. The reducer, the cache and the tool
grouping are each proved equal to a batch definition.

**Capability kernel** (`Capabilities`, `CapabilityViews`, `CapabilityKernel`). The
registry is a list of live entries, each with the serial number of the activation it came
from. Over every run of registrations and scope disposals, what is live is closed under
dependencies, so that registering it again in order is never refused. Disposing one
handle does not cascade; the exact condition under which it is harmless is proved, and
a case where it is not is given. `resolve` answers with the earliest registered of the
top matches; its answer is independent of the order of registration exactly when those
name one provider, which well-nested scopes ensure. The kernel object, with its three dictionaries and the
handle objects pointing back at it, is proved against this registry.

**Interaction manager** (`Interaction`, `InteractionManager`, `InteractionRuns`,
`InteractionQuestions`, `InteractionLaws`). Each
stretch of an `async` method between two suspension points is one atomic step; a run is
any sequence of steps. A question's task moves from publishing through awaiting to an
outcome, while answers, the `wait_for` timer, task cancellation and `unregister_run`
interfere. Futures and `wait_for` behave as in CPython 3.12: a done future does not
suspend, the timer cancels the awaited future unless it is done, and a pending
cancellation is delivered first. How long a question is pending, which answer it accepts
and what `ask` returns are each characterised, if and only if, by the steps of the run.
Two facts the source does not advertise are among them. An accepted answer is lost when
the timer fires between `answer` and the task's next turn. And a question whose
publication fails stays pending, and accepts an answer nobody awaits, until its run is
unregistered, because the `try` starts after the publication.

**Selection, scoring, budget, comparison** (`Selection`, `MacroF1`, `SpendGuard`,
`Compare`). Both round-robin samplers run one loop over lists; it is proved to take a
prefix of the rounds, and fairness, completeness and order independence are theorems
about rounds. The macro-F1 score, the spend guard's overshoot bound and the identities of
the report comparison are over exact numbers.

**Lookup and ranges** (`FileReferences`, `BlobRanges`). One shared walk with match
lists saturated at two and an early exit answers every reference as its own full walk
would. The two-level byte tiling (byte ranges as in section 14.1.2 of RFC 9110) covers
the blob once and rebuilds it, with retries, and requests only what is not on disk.

`Sequences` holds the shared vocabulary, above all the stable sort that Python's `sorted`
and JavaScript's `sort` promise; `Text` holds string order, trimming and lines.

## Modelling choices

- The kernel's `provider` is a string naming the object; a cleanup is the number of the
  activation that returned it, appended to a log when it runs.
- Question ids are positions in the list of all questions asked, in place of random ids.
- JSON is an abstract decoding function that may fail; a failure is the exception that
  ends the stream. The server side assumes an encoder whose output is one trimmed line
  that decodes to what was encoded.
- The hash that orders rows and repositories is any function to the integers; where
  collisions would matter it is required to be injective. Repositories are put in order
  once, not once per turn: the keys do not change meanwhile.
- The cost of each experiment block is given, as a non-negative real; without a provider
  every cost is zero.
- A directory walk is a given sequence of directories with their files in walk order,
  each with its case-folded name and, when it lies inside the workspace, its label.

## Model

| member | source | states |
|---|---|---|
| EventStream.SplitSound | web/src/api.ts:101-104 | frames and rest, written out again, are the text; each frame ends at its first blank line and the rest has none |
| EventStream.SplitUnique | web/src/api.ts:101-104 | no other closed frames and rest make up that text |
| EventStream.SplitIncremental | web/src/api.ts:100-104 | framing the kept rest with new text behind it continues the framing of the whole |
| EventStream.CutKeepsPrefix | web/src/api.ts:97-120 | text cut off anywhere yields an initial run of the whole text's frames |
| EventStream.NormaliseChunkwise | web/src/api.ts:100 | replacing CR LF per chunk equals replacing it in the whole text if and only if no chunk boundary tears a CR from its LF |
| EventStream.StreamEvents | web/src/api.ts:95-120 | the loop delivers, returns and fails exactly as the batch meaning of the normalised chunks: frame, decode, keep strict maxima above the cursor |
| EventStream.ChunkIndependence | web/src/api.ts:94-120 | a chunking that tears nothing delivers what the whole text delivers in one go |
| EventStream.ChunkingsAgree | web/src/api.ts:94-120 | two such chunkings of one text agree on events, cursor and failure |
| EventStream.TornBlankLine | web/src/api.ts:100-101 | for every event above the cursor, tearing the blank line behind its frame loses the event |
| EventStream.DecodeConcat | web/src/api.ts:105-111 | decoding frames in two runs is decoding them in one, up to the first frame that does not parse |
| EventStream.BlankLineMeaning | web/src/api.ts:101 | the boundary found is the offset of the first blank line, and -1 means there is none |
| EventStream.FrameDataMeaning | web/src/api.ts:105-109 | a frame's data are the payloads of its data lines in order with line feeds between them, whatever other lines stand around; both clients |
| EventStream.BrokenFrame | web/src/api.ts:110-111 | the first frame that does not parse ends the stream with what the frames before it yield, whatever follows |
| EventStream.DecodedEvents | web/src/api.ts:110-111 | until then each frame with data yields the event it parses to |
| EventStream.VsCodeStream.HandleEvent | editors/vscode/src/extension.ts:237-242 | handles an event and moves the cursor exactly when it exceeds the cursor |
| EventStream.VsCodeStream.Consume | editors/vscode/src/extension.ts:282-301 | one connection adds the batch meaning of the unnormalised text under the extension's line rule |
| RuntimeEvents.MaximaMembers | web/src/api.ts:112-115 | an event passes if and only if it exceeds the cursor and everything before it |
| RuntimeEvents.MaximaAscend | web/src/api.ts:112-115 | what passes is strictly increasing, above the cursor and taken from the input |
| RuntimeEvents.MaximaConcat | web/src/api.ts:112-120 | the filter continues over a second stream from the highest number of the first |
| RuntimeEvents.HighestBounds | web/src/api.ts:112-120 | the cursor returned is the least upper bound of the starting cursor and all numbers |
| RuntimeEvents.HighestOfMaxima | web/src/api.ts:112-120 | what passed reaches as high as everything that arrived |
| Reconnect.ServerFrameData | src/code_rook/core/api/app.py:1129-1139 | both clients read exactly the encoded event out of a server frame and nothing out of a keep-alive |
| Reconnect.ServerRoundTrip | src/code_rook/core/api/app.py:1127-1140 | what the server writes in full, chunked anyhow, either client delivers as the strict maxima of the written events |
| Reconnect.CutConnection | src/code_rook/core/api/app.py:1127-1140 | text cut anywhere, even inside a frame, yields the events of an initial run of what was written |
| Reconnect.ClientsAgree | editors/vscode/src/extension.ts:288-300 | web UI and extension deliver the same events, cursor and outcome from any cut of the server's text |
| Reconnect.EventConsumer.OnEvent | web/src/App.tsx:1275-1282 | cursor takes the maximum, the event is delivered and appended to the cache |
| Reconnect.EventConsumer.OnEvents | web/src/App.tsx:1275-1282 | the callbacks of a stream leave cursor, deliveries and cache at the fold over its events |
| Reconnect.EventConsumer.ConsumeOne | web/src/App.tsx:1269-1350 | one turn of the loop leaves the same state whether the stream returned or threw |
| Reconnect.EventConsumer.Consume | web/src/App.tsx:1268-1350 | the loop over connections, each started at the cursor the previous one left |
| Reconnect.StreamedCursor | web/src/App.tsx:1277-1348 | the cursor the callbacks leave is the one the stream would return |
| Reconnect.OneConnection | web/src/App.tsx:1271-1348 | a faithful connection delivers a contiguous run of the log and leaves the cursor at its last event |
| Reconnect.ExactlyOnce | web/src/App.tsx:1264-1348 | for either client, over any number of faithful connections, cut and repeating anyhow, the deliveries are one gapless strictly increasing run of the log, and a set cursor pins where it begins |
| Reconnect.FollowStream | editors/vscode/src/extension.ts:270-312 | the extension's loop over connections, each from the cursor it keeps |
| Reconnect.ExtensionFollowsLog | editors/vscode/src/extension.ts:270-312 | from its start the extension has handled exactly an initial run of the log |
| Reconnect.CacheAfterReconnects | web/src/App.tsx:1264-1348 | from a fresh page the cache ends as the last 5000 events of that run |
| EventCache.CacheIsNewest | web/src/App.tsx:864-871 | after any arrivals the cache is the largest distinct numbers, ascending, each with its first-arrived event |
| EventCache.TopUnique | web/src/App.tsx:864-871 | being the top of what was seen determines the cache |
| EventCache.EvictedAgain | web/src/App.tsx:868-870 | a number below a full cache is dropped at once and changes nothing |
| EventCache.OrderOfArrival | web/src/App.tsx:864-871 | when a number determines its event, order and repetition of arrivals leave no trace |
| EventCache.CacheOfAscending | web/src/App.tsx:864-871 | ascending arrivals leave exactly the last ones |
| EventCache.CacheMembers | web/src/App.tsx:864-871 | an arrival is cached if and only if it was the first with its number and fewer numbers than the limit have arrived above it |
| EventState.StoredCheckIsRedundant | web/src/eventState.ts:18 | in a valid state the stored-already check never decides, and the reducer keeps validity |
| EventState.FoldIsMaxima | web/src/eventState.ts:17-37 | folding any events equals folding their strict maxima above the cursor, which are what is stored |
| EventState.ReplayIsIdle | web/src/eventState.ts:18 | replaying what the cursor covers changes nothing |
| EventState.PendingStep | web/src/eventState.ts:23-30 | one accepted event keeps the pending list exact |
| EventState.PendingOfAccepted | web/src/eventState.ts:23-36 | pending lists exactly the ids requested and not resolved since, once each, longest waiting first |
| EventState.PhaseOfAccepted | web/src/eventState.ts:19-22 | the phase is the one last announced by the stored events |
| EventState.ReducedState | web/src/eventState.ts:10-37 | from the empty state all four fields are these functions of the events |
| EventState.PhaseMeaning | web/src/eventState.ts:19-22 | for any replay the phase is the one a stored event announced last, or "idle" if none did |
| EventState.PendingExactly | web/src/eventState.ts:23-30 | for any replay an id is pending if and only if a stored event requested it and no later one resolved it |
| ToolGroups.GroupToolEntries | web/src/App.tsx:603-627 | for all entries, groups among them or not, the result is the batch partition into maximal runs of one turn; expanding its groups gives the entries back |
| ToolGroups.PartitionSnoc | web/src/App.tsx:605-625 | placing one more entry into the partition is the partition of the longer input |
| ToolGroups.FlattenPartition | web/src/App.tsx:603-627 | expanding the partition loses and reorders nothing |
| ToolGroups.PartitionIsCanonical | web/src/App.tsx:603-627 | from ungrouped entries every group is well made and no neighbours could be merged |
| ToolGroups.Place | web/src/App.tsx:605-625 | one entry is appended, absorbed into the last group or paired with the last tool |
| ToolGroups.CanonicalIsPartition | web/src/App.tsx:603-627 | well-made groups without mergeable neighbours are the partition of their own expansion |
| ToolGroups.GroupsExactly | web/src/App.tsx:615-621 | every group has two or more tools of one turn, a key made of that turn and the first tool's key, and the first tool's time |
| ToolGroups.NeighboursDiffer | web/src/App.tsx:610-616 | neighbours in the result never hold tools of one turn |
| ToolGroups.FlattenOne | web/src/App.tsx:616-621 | expanding an entry puts the tools of a group in its place, in order, and leaves everything else |
| Capabilities.ContainsIsPartialOrder | src/code_rook/core/capabilities.py:38-55 | `contains` is reflexive, antisymmetric and transitive, for all scopes |
| Capabilities.ContainsByNames | src/code_rook/core/capabilities.py:48-55 | for all scopes: a scope contains a request if and only if every name it gives is the name the request gives; the comparison of depths decides nothing further |
| Capabilities.ContainsIsAncestry | src/code_rook/core/capabilities.py:48-55 | for well-nested scopes it contains it if and only if it is the global scope, the request's workspace, its session or itself |
| Capabilities.WellNestedChain | src/code_rook/core/capabilities.py:38-55 | well-nested scopes around one request are ordered by depth, and equal depth means equal scope |
| Capabilities.WellNestedIsTieFree | src/code_rook/core/capabilities.py:38-55 | a scope ties with no well-nested scope if and only if it is well nested |
| Capabilities.MissingNothing | src/code_rook/core/capabilities.py:114-120 | nothing is missing if and only if every dependency is available |
| Capabilities.RegisterDecides | src/code_rook/core/capabilities.py:107-136 | when registration is accepted and which error it is refused with otherwise, if and only if; the missing dependencies listed are exactly those nobody live provides |
| Capabilities.RunDiscipline | src/code_rook/core/capabilities.py:99-136 | over every run keys stay distinct, insertion order is activation order, and each cleanup has run once if its activation is gone and never otherwise |
| Capabilities.GoneStaysGone | src/code_rook/core/capabilities.py:69-86 | an activation that is gone never comes back |
| Capabilities.StaleHandle | src/code_rook/core/capabilities.py:82-86 | a handle disposed by itself or with its scope never removes a later registration, under the same key or any other |
| Capabilities.ClosedDisposeScope | src/code_rook/core/capabilities.py:198-208 | disposing a scope leaves no dangling dependency |
| Capabilities.DisposeScopeExactly | src/code_rook/core/capabilities.py:198-208 | exactly the contributions in contained scopes go, all others stay |
| Capabilities.NothingBelowStays | src/code_rook/core/capabilities.py:198-208 | of well-nested entries those in the disposed scope or a descendant go, and no other |
| Capabilities.DisposeHandleExactly | src/code_rook/core/capabilities.py:82-86 | a handle takes its own activation and nothing else |
| Capabilities.DependencyClosure | src/code_rook/core/capabilities.py:99-122 | over every run of register and dispose_scope each live contribution keeps, per dependency, an earlier live provider in a containing scope |
| Capabilities.ReplaySucceeds | src/code_rook/core/capabilities.py:107-120 | registering a closed set of live contributions anew, in order, is never refused |
| Capabilities.EveryRunIsClosed | src/code_rook/core/capabilities.py:99-215 | both of these for every run from the empty kernel |
| Capabilities.HandleDisposalCondition | src/code_rook/core/capabilities.py:82-86 | disposing one handle keeps the closure if and only if everything its provider serves has another earlier provider |
| Capabilities.HandleDisposalDangles | src/code_rook/core/capabilities.py:125-130 | two registrations after which disposing the first handle leaves the second dangling |
| CapabilityViews.ViewsAgree | src/code_rook/core/capabilities.py:149-195 | the entries of one id in `list` are `resolve_chain` of that id in the same order, ties included |
| CapabilityViews.ChainMembers | src/code_rook/core/capabilities.py:149-173 | the chain holds exactly the matching visible contributions, once each, in sorted order |
| CapabilityViews.ChainIsNested | src/code_rook/core/capabilities.py:149-173 | for well-nested scopes the chain strictly descends in depth, is ordered by containment and has at most four links |
| CapabilityViews.ResolveIsMostSpecific | src/code_rook/core/capabilities.py:139-146 | `resolve` returns the unique most specific provider, and nothing exactly when none is visible |
| CapabilityViews.ResolveFinds | src/code_rook/core/capabilities.py:139-164 | `resolve` finds a provider if and only if a live contribution of the kind and id stands in a containing scope |
| CapabilityViews.GlobalIsFound | src/code_rook/core/capabilities.py:139-164 | a global contribution is found from every scope, and answers when it is the only match |
| CapabilityViews.ResolvePrefers | src/code_rook/core/capabilities.py:166-172 | nothing visible that matches is deeper than what answers, or equally deep with a higher priority |
| CapabilityViews.ListOrder | src/code_rook/core/capabilities.py:176-195 | `list` shows exactly the visible contributions of the kind, by id in dictionary order, then deepest first, then by falling priority |
| CapabilityViews.ResolveIsFirstTop | src/code_rook/core/capabilities.py:139-173 | for every registry `resolve` answers with the earliest registered of the visible matches that none outranks in depth or priority, and with nothing if there is none |
| CapabilityViews.OrderIndependence | src/code_rook/core/capabilities.py:139-173 | for every registry the answer is the same under all arrangements of its contributions if and only if those top matches name one provider |
| CapabilityViews.TopAnswersSomewhere | src/code_rook/core/capabilities.py:139-173 | every top match answers under some arrangement |
| CapabilityViews.WellNestedOrder | src/code_rook/core/capabilities.py:139-173 | with well-nested scopes and distinct keys the arrangement never shows |
| CapabilityViews.TiedProviders | src/code_rook/core/capabilities.py:166-172 | two registrations, one scope containing the other, that tie: the earlier one answers |
| CapabilityViews.ReachableKeysDistinct | src/code_rook/core/capabilities.py:109-113 | every reachable kernel meets the premise of the two chain theorems on keys |
| CapabilityKernel.ContributionHandle.Dispose | src/code_rook/core/capabilities.py:82-86 | idempotent; withdraws exactly the handle's own activation |
| CapabilityKernel.CapabilityKernel.constructor | src/code_rook/core/capabilities.py:91-96 | an empty kernel |
| CapabilityKernel.CapabilityKernel.RegisterContribution | src/code_rook/core/capabilities.py:99-136 | refused with the right error and no change, or appended with a fresh active handle |
| CapabilityKernel.CapabilityKernel.Install | src/code_rook/core/capabilities.py:121-136 | the three tables gain the key, and every handle is still active exactly while its activation is live |
| CapabilityKernel.CapabilityKernel.Withdraw | src/code_rook/core/capabilities.py:125-130 | the disposal closure removes one live activation and runs its cleanup |
| CapabilityKernel.CapabilityKernel.PopTables | src/code_rook/core/capabilities.py:126-130 | the key leaves all three tables; its cleanup is logged if there was one |
| CapabilityKernel.CapabilityKernel.DisposeKey | src/code_rook/core/capabilities.py:204-207 | the handle found under a collected key is that of the activation collected |
| CapabilityKernel.CapabilityKernel.DisposeAll | src/code_rook/core/capabilities.py:198-208 | everything in the scope goes, in order, and the count returned is how many went |
| CapabilityKernel.CapabilityKernel.ResolveProvider | src/code_rook/core/capabilities.py:139-146 | answers from the chain of the registry state |
| CapabilityKernel.CapabilityKernel.ListVisible | src/code_rook/core/capabilities.py:176-195 | answers from the registry state, and agrees with the chain of every id |
| CapabilityKernel.RunKeysAgree | src/code_rook/core/capabilities.py:92-136 | over every run the contribution and handle tables have the same keys, and the cleanup keys are among them with the same activation |
| CapabilityKernel.CapabilityKernel.SameKeys | src/code_rook/core/capabilities.py:92-96 | the three dictionaries of a valid kernel object agree on their keys in this way |
| CapabilityKernel.DisposeNext | src/code_rook/core/capabilities.py:204-207 | disposing handles one by one removes the entries one by one, whatever went before |
| CapabilityKernel.DisposedAll | src/code_rook/core/capabilities.py:198-208 | having disposed every entry inside is having disposed the scope |
| InteractionManager.InteractionManager.constructor | src/code_rook/core/interaction.py:52-64 | an empty manager |
| InteractionManager.InteractionManager.SetSteeringMode | src/code_rook/core/interaction.py:67-68 | changes the mode and keeps every queue |
| InteractionManager.InteractionManager.SetQuestionPolicy | src/code_rook/core/interaction.py:71-77 | sets the policy and restarts its preset answers |
| InteractionManager.InteractionManager.ClearQuestionPolicy | src/code_rook/core/interaction.py:80-82 | forgets policy and preset answers |
| InteractionManager.InteractionManager.RegisterRun | src/code_rook/core/interaction.py:85-86 | the run becomes active |
| InteractionManager.InteractionManager.UnregisterRun | src/code_rook/core/interaction.py:89-100 | drops everything of the run and cancels its unanswered questions |
| InteractionManager.InteractionManager.CancelPending | src/code_rook/core/interaction.py:95-100 | the loop over the snapshot removes and cancels exactly the run's pending questions, in any order |
| InteractionManager.InteractionManager.Steer | src/code_rook/core/interaction.py:103-108 | accepts if and only if the run is active and something is left after trimming, and then appends it |
| InteractionManager.InteractionManager.DrainSteering | src/code_rook/core/interaction.py:111-120 | hands out the first message or all of them, by mode, and drops an emptied queue |
| InteractionManager.InteractionManager.BindFollowUp | src/code_rook/core/interaction.py:123-126 | binds the run's source |
| InteractionManager.InteractionManager.UnbindFollowUp | src/code_rook/core/interaction.py:129-131 | releases source and sender |
| InteractionManager.InteractionManager.BindExtensionSender | src/code_rook/core/interaction.py:134-135 | binds the run's sender |
| InteractionManager.InteractionManager.DrainFollowUp | src/code_rook/core/interaction.py:148-161 | an extension message first, else the bound source, and drops an emptied queue |
| InteractionManager.InteractionManager.QueueExtensionFollowUp | src/code_rook/core/interaction.py:164-168 | accepts exactly custom messages for active runs |
| InteractionManager.InteractionManager.HasPendingMessages | src/code_rook/core/interaction.py:171-172 | true if and only if one of the run's two queues holds something |
| InteractionManager.InteractionManager.TakePendingSteering | src/code_rook/core/interaction.py:175-176 | hands out and removes the whole queue |
| InteractionManager.InteractionManager.AskBegin | src/code_rook/core/interaction.py:179-209 | a new pending question, being published |
| InteractionManager.InteractionManager.AskPublished | src/code_rook/core/interaction.py:210-232 | takes the branch of the session's policy; what ends there is no longer pending |
| InteractionManager.InteractionManager.AwaitFuture | src/code_rook/core/interaction.py:213-223 | suspends only on a future that is still waiting |
| InteractionManager.InteractionManager.Finish | src/code_rook/core/interaction.py:231-232 | ends the question and takes it out of the pending ones |
| InteractionManager.InteractionManager.AskWake | src/code_rook/core/interaction.py:213-232 | the resumed task returns the answer, times out or is cancelled |
| InteractionManager.InteractionManager.AnswerQuestion | src/code_rook/core/interaction.py:235-241 | accepts if and only if the question is pending, its future is waiting and the trimmed text is not empty |
| InteractionRuns.QuestionStep | src/code_rook/core/interaction.py:179-241 | how any single step may change any question |
| InteractionRuns.EveryRunIsClean | src/code_rook/core/interaction.py:85-176 | in every reachable state each queue key is an active run with a non-empty queue, pending questions are unfinished or failed to be published, and an unfinished question off the table waits no longer |
| InteractionRuns.PendingIsKeyPresence | src/code_rook/core/interaction.py:171-172 | in every reachable state `has_pending_messages` is key presence |
| InteractionRuns.UnregisterForgets | src/code_rook/core/interaction.py:89-100 | right after `unregister_run` no table and no pending question mentions the run, and none of its unfinished questions still waits |
| InteractionRuns.SteeringConserved | src/code_rook/core/interaction.py:103-120 | what was accepted since the run was last unregistered is what was drained or taken followed by what is queued, in order, under any interleaving |
| InteractionRuns.DrainModesAgree | src/code_rook/core/interaction.py:111-120 | draining one at a time until empty equals one drain in "all" mode, in messages and final state |
| InteractionRuns.FollowUpsConserved | src/code_rook/core/interaction.py:148-168 | the same conservation for extension follow-ups |
| InteractionQuestions.SettledOnce | src/code_rook/core/interaction.py:179-241 | a future that is resolved or cancelled, and an outcome, never change again |
| InteractionQuestions.AnsweredOnce | src/code_rook/core/interaction.py:235-241 | `answer` returns true at most once per question, and the future holds exactly that trimmed text |
| InteractionQuestions.MarksTell | src/code_rook/core/interaction.py:210-230 | over every run a question's branch is that of the policy it was published under, and its interrupt says whether a step cancelled its awaiting task, or else its timer reached it |
| InteractionQuestions.AskReturnsAnswer | src/code_rook/core/interaction.py:210-232 | by the steps of the run alone: a finished question returned a text if and only if it was published to wait, that text was accepted and no step cancelled it or fired its timer; it timed out if and only if the timer reached it and no cancellation did; published without a policy it never times out |
| InteractionQuestions.PendingLifetime | src/code_rook/core/interaction.py:193-232 | over every run a question is pending if and only if it was asked, has not ended past its `try`, and its run has not been unregistered since |
| InteractionQuestions.AcceptsExactly | src/code_rook/core/interaction.py:235-241 | over every run `answer` returns true if and only if the text is not blank, the question is in that lifetime, none was accepted before, and neither cancellation nor timer has reached it |
| InteractionQuestions.FailedPublication | src/code_rook/core/interaction.py:198-210 | after any run a question can fail to be published: its call has ended, yet it stays pending and an answer to it is accepted |
| InteractionQuestions.AcceptedThenTimedOut | src/code_rook/core/interaction.py:221-227 | an accepted answer is lost when the timer fires before the task resumes |
| InteractionQuestions.TimedQuestion | src/code_rook/core/interaction.py:221-223 | a reachable state in which that can happen |
| InteractionQuestions.PresetsInOrder | src/code_rook/core/interaction.py:71-77 | a preset session gets its policy's answers in order, each once |
| InteractionQuestions.PresetExhausted | src/code_rook/core/interaction.py:214-220 | the next question gets the next answer, and is refused if and only if all have been returned |
| InteractionLaws.ActiveExactly | src/code_rook/core/interaction.py:85-90 | over every run of calls a run is active if and only if it was registered and not unregistered since |
| InteractionLaws.SteerDecides | src/code_rook/core/interaction.py:103-108 | `steer` is accepted if and only if the run is so registered and the content is a non-empty list or record or a text that is not blank; the trimmed content is then appended |
| InteractionLaws.DrainHandsOut | src/code_rook/core/interaction.py:111-120 | a drain hands out the front of the queue, all of it if "all" was the mode set last and one message otherwise, and leaves the rest |
| InteractionLaws.FollowUpDecides | src/code_rook/core/interaction.py:164-168 | a follow-up is accepted if and only if the run is so registered and the message is a custom one, and is then appended |
| InteractionLaws.ModeFollows | src/code_rook/core/interaction.py:67-68 | the mode is the one set last |
| InteractionLaws.PolicyFollows | src/code_rook/core/interaction.py:71-82 | a session's policy is the one it was given last, if not cleared since |
| InteractionLaws.BindingsFollow | src/code_rook/core/interaction.py:123-135 | source and sender of a run are those bound last, if not released or unregistered since |
| InteractionLaws.QuestionsAreAsks | src/code_rook/core/interaction.py:191-197 | each question belongs to the run and session of its call of `ask` |
| InteractionLaws.PublishDecides | src/code_rook/core/interaction.py:210-230 | what a published question comes to, by the policy its session was given last: it waits, takes the next unused preset answer, or is refused |
| InteractionLaws.WakeResumes | src/code_rook/core/interaction.py:213-223 | a suspended call resumes if and only if an answer was accepted, or its task was cancelled, its timer fired or its run was unregistered |
| InteractionLaws.AnswerComesBack | src/code_rook/core/interaction.py:210-241 | a question published to wait, answered, and neither cancelled nor timed out has returned exactly that answer once its task has had a turn |
| Selection.Turn | scripts/prepare_swebench_slice.py:34-38 | one turn takes the heads of all lists, up to the limit |
| Selection.RoundRobin | scripts/run_strategy_router_experiment.py:172-180 | the loop takes exactly the first rows of the rounds and notices when they run out |
| Selection.AddRow | scripts/run_strategy_router_experiment.py:169-170 | appends a row to its group, making the group if needed |
| Selection.TakeRow | scripts/prepare_swebench_slice.py:22-24 | one row is put into its group unless it is excluded |
| Selection.FillGroups | scripts/prepare_swebench_slice.py:21-24 | each group holds its rows that are not excluded, in order |
| Selection.Select | scripts/prepare_swebench_slice.py:32-41 | an error if and only if there are too few rows |
| Selection.SelectInstances | scripts/prepare_swebench_slice.py:20-41 | the slice is a prefix of the rounds over the sorted groups |
| Selection.StratifiedItems | scripts/run_strategy_router_experiment.py:167-180 | the sample is a prefix of the rounds over the groups in order of intent |
| Selection.RoundsPermute | scripts/prepare_swebench_slice.py:33-38 | the rounds run through every row of every list once |
| Selection.RoundsInOrder | scripts/prepare_swebench_slice.py:33-38 | the rounds take every row at its turn: round by round, and in a round list by list |
| Selection.SliceListsInOrder | scripts/prepare_swebench_slice.py:30-35 | one list per eligible repository in ascending order of the hash, holding exactly its eligible rows in ascending order of theirs |
| Selection.SliceBegins | scripts/prepare_swebench_slice.py:30-38 | the slice begins with the row of least hash in the repository of least hash |
| Selection.StratifiedListsInOrder | scripts/run_strategy_router_experiment.py:168-176 | one list per intent in dictionary order, holding its rows in file order |
| Selection.SliceIsComplete | scripts/prepare_swebench_slice.py:21-38 | the rounds of the slice are a permutation of the eligible rows |
| Selection.SelectionIsExact | scripts/prepare_swebench_slice.py:20-41 | distinct rows, none excluded, exactly as many as asked for, and an error if and only if too few are eligible |
| Selection.StratifiedIsExact | scripts/run_strategy_router_experiment.py:167-180 | distinct rows, as many as asked for or all there are |
| Selection.ShareIsPrefix | scripts/prepare_swebench_slice.py:35-37 | each group contributes an initial run of its own list |
| Selection.FairShares | scripts/prepare_swebench_slice.py:33-38 | a group two or more behind another has been used up |
| Selection.SliceIsFair | scripts/prepare_swebench_slice.py:20-41 | fairness between repositories, in terms of the input rows |
| Selection.StratifiedIsFair | scripts/run_strategy_router_experiment.py:167-180 | fairness between intents, in terms of the input rows |
| Selection.SliceIgnoresOrder | scripts/prepare_swebench_slice.py:26-35 | under a collision-free hash the slice does not depend on the order of the rows |
| MacroF1.ComputeMacroF1 | scripts/run_strategy_router_experiment.py:128-146 | computes the mean of the per-label scores |
| MacroF1.CountLabel | scripts/run_strategy_router_experiment.py:132-134 | the three counts of one label |
| MacroF1.CountsMeaning | scripts/run_strategy_router_experiment.py:132-134 | the three counts are the numbers of positions of both lists with the respective equalities |
| MacroF1.HarmonicValue | scripts/run_strategy_router_experiment.py:135-145 | the harmonic mean of precision and recall times (2 tp + fp + fn) is 2 tp |
| MacroF1.F1Value | scripts/run_strategy_router_experiment.py:135-145 | a label's score is 2 tp / (2 tp + fp + fn) over those positions, and 0 without any |
| MacroF1.ScoreValue | scripts/run_strategy_router_experiment.py:128-146 | the score is the mean of these over the distinct labels, in any order, and 0 without labels |
| MacroF1.ScoreRange | scripts/run_strategy_router_experiment.py:128-146 | the score lies in [0, 1], and is 1 if and only if every label's is |
| MacroF1.ScoreIsSymmetric | scripts/run_strategy_router_experiment.py:128-146 | swapping expected and actual changes nothing |
| MacroF1.PerfectScore | scripts/run_strategy_router_experiment.py:128-146 | for non-empty lists of one length the score is 1 if and only if they are equal |
| MacroF1.PerfectCondition | scripts/run_strategy_router_experiment.py:128-146 | for lists of any lengths the score is 1 if and only if there is a label, the lists agree where both have an entry, and every label is paired with itself somewhere |
| MacroF1.PerfectWithoutEqualLengths | scripts/run_strategy_router_experiment.py:132-134 | repeating known labels behind the shorter list keeps a perfect score, for all lists |
| SpendGuard.RunBlocks | scripts/run_strategy_router_experiment.py:207-242 | the executed blocks are the prefix of method-by-repeat order up to the first the guard stops, and that is the only prefix the guard allows; nothing later runs although `break` leaves the inner loop only |
| SpendGuard.StopsOnce | scripts/run_strategy_router_experiment.py:211-215 | the guard allows one prefix of the blocks and no other |
| SpendGuard.BlockRuns | scripts/run_strategy_router_experiment.py:211-215 | a block runs after those before it if and only if the guard is off, or the limit is not reached and another block like the last stays within it |
| SpendGuard.UnenforcedRunsAll | scripts/run_strategy_router_experiment.py:211-215 | without the guard every block runs |
| SpendGuard.BlocksInOrder | scripts/run_strategy_router_experiment.py:208-209 | the blocks are all of them, method by method and repeat by repeat, each with its own cost |
| SpendGuard.CostConcat | scripts/run_strategy_router_experiment.py:210-242 | the spend is the sum of the block costs |
| SpendGuard.SpendBound | scripts/run_strategy_router_experiment.py:211-215 | after every executed block the spend is below the limit plus that block's cost, and after one whose predecessor cost something at most the limit plus the increase over it |
| SpendGuard.SteadyCosts | scripts/run_strategy_router_experiment.py:211-215 | a last block no dearer than its predecessor stays within the limit |
| Compare.IndexResults | src/code_rook/benchmark/compare.py:106-112 | succeeds if and only if no task id repeats |
| Compare.FindTransitions | src/code_rook/benchmark/compare.py:166-190 | the loop finds the regressions and improvements among the common tasks |
| Compare.CompareReports | src/code_rook/benchmark/compare.py:153-217 | an error if and only if a report repeats a task id, else the comparison |
| Compare.TransitionsExactly | src/code_rook/benchmark/compare.py:166-190 | a task is a regression if and only if it passed in the baseline and not in the candidate, an improvement the other way round; with the candidate's category and both failures in place |
| Compare.TasksListed | src/code_rook/benchmark/compare.py:161-165 | common and one-sided tasks are exactly those, once each in dictionary order |
| Compare.DeltasExactly | src/code_rook/benchmark/compare.py:116-121 | a class has a delta if and only if a failing result has it, and the delta is the difference of their numbers |
| Compare.SwapReports | src/code_rook/benchmark/compare.py:158-217 | swapping the reports swaps regressions and improvements and the one-sided tasks, and negates every delta |
| Compare.NetTransitions | src/code_rook/benchmark/compare.py:166-190 | over any ids improvements minus regressions is the change in passed tasks |
| Compare.NetChange | src/code_rook/benchmark/compare.py:158-190 | the same for the common tasks of two reports |
| Compare.FailuresPlusPassed | src/code_rook/benchmark/compare.py:116-121 | every result either passed or is counted in one failure class |
| Compare.DeltasBalance | src/code_rook/benchmark/compare.py:116-217 | for equal task sets the failure-class deltas sum to regressions minus improvements |
| BlobRanges.PartsTile | scripts/prefetch_swebench_image.py:44-57 | parts and inner ranges tile the blob in order, none over 4 MiB |
| BlobRanges.TileCovers | scripts/prefetch_swebench_image.py:56-57 | a tiling holds every offset and its ranges ascend without overlap |
| BlobRanges.EveryByteOnce | scripts/prefetch_swebench_image.py:43-57 | for every size each byte lies in exactly one requested range, with valid inclusive ends |
| BlobRanges.InnerExactly | scripts/prefetch_swebench_image.py:56-57 | the k-th range begins k times 4 MiB after the start and ends where the next begins, or at the end |
| BlobRanges.PartExactly | scripts/prefetch_swebench_image.py:49-57 | the ranges of a part reach 8 MiB far, or to the end of the blob |
| BlobRanges.RangeAccepted | scripts/prefetch_swebench_image.py:61-73 | which response is accepted as the body, and what each other one is refused for |
| BlobRanges.Attempt | scripts/prefetch_swebench_image.py:55-73 | one attempt puts the bodies of the part's ranges together, or ends with the first error |
| BlobRanges.Fetch | scripts/prefetch_swebench_image.py:48-80 | the first of three attempts that gets through, each from scratch, or the error of the last |
| BlobRanges.FetchedSlice | scripts/prefetch_swebench_image.py:55-73 | if whatever passes the checks for the ranges is true, what is put together is that slice of the blob |
| BlobRanges.HonestSlice | scripts/prefetch_swebench_image.py:59-73 | honest answers to the ranges always pass the checks and put the slice together |
| BlobRanges.TriesLength | scripts/prefetch_swebench_image.py:53-80 | a part that comes through has its exact length, whatever the registry answers |
| BlobRanges.TriesSlice | scripts/prefetch_swebench_image.py:53-80 | if nothing wrong passes the checks in the attempts made, a part that comes through is its slice, and it comes through if any of the three attempts would meet honest answers |
| BlobRanges.GivenUp | scripts/prefetch_swebench_image.py:53-80 | a part is given up if and only if all three attempts fail, with the error of the last |
| BlobRanges.Assemble | scripts/prefetch_swebench_image.py:82-86 | the parts in order, fetched or reused, and the ranges requested are exactly those of the parts not reused |
| BlobRanges.AssembledBlob | scripts/prefetch_swebench_image.py:82-91 | what is assembled has the size asked for, and is the blob when the parts reused are sound and the others can be had; nothing is asked of the registry for reused parts |
| BlobRanges.RequestedOnce | scripts/prefetch_swebench_image.py:50-57 | a byte is requested if and only if its part is not reused, and the ranges ascend without overlap |
| BlobRanges.RequestedExactly | scripts/prefetch_swebench_image.py:44-57 | a byte is requested if and only if no file of its part's length stands for the part, in offsets alone |
| BlobRanges.NothingReused | scripts/prefetch_swebench_image.py:44-57 | with nothing on disk the whole tiling is requested |
| BlobRanges.DownloadBlob | scripts/prefetch_swebench_image.py:82-92 | what is accepted has the size and the digest; it is the blob whenever the parts reused from disk are sound and, for each other part, nothing wrong passes the checks and one of three attempts meets honest answers |
| FileReferences.Classify | src/code_rook/core/input_context.py:59-81 | exact paths fill their slots, names get an empty slot, the rest is rejected |
| FileReferences.SeeFile | src/code_rook/core/input_context.py:88-102 | one file extends every unsaturated list it matches and no other |
| FileReferences.WalkOnce | src/code_rook/core/input_context.py:84-104 | despite saturation and early exit every list is the first two hits of the name's full walk |
| FileReferences.SaturatedStays | src/code_rook/core/input_context.py:103-104 | once all lists are saturated nothing later changes them |
| FileReferences.Fill | src/code_rook/core/input_context.py:105-109 | single matches go into their own slots, the rest is unresolved |
| FileReferences.FilledIsFinal | src/code_rook/core/input_context.py:105-109 | the filled slots hold each reference's own answer, in order |
| FileReferences.ResolveFileReferences | src/code_rook/core/input_context.py:52-115 | the result is that of independent full walks, deduplicated, at most eight, or the strict error |
| FileReferences.ResolutionMeaning | src/code_rook/core/input_context.py:110-115 | at most eight distinct labels, each some reference's answer and none left out below eight; the strict form fails if and only if some reference has no answer |
| FileReferences.WithinMeaning | src/code_rook/core/input_context.py:91 | the match test is the substring test |
| FileReferences.ResolutionOfOne | src/code_rook/core/input_context.py:72-109 | a name resolves to a label if and only if exactly one walked file inside the workspace has it in its file name and that is its label; an existing file to itself; nothing else to anything |
| FileReferences.ResolutionOrder | src/code_rook/core/input_context.py:115 | the labels stand in the order in which references first resolve to them, and none left out comes before one that is there |
| FileReferences.StrictErrorNames | src/code_rook/core/input_context.py:110-114 | the strict error names exactly the references without an answer, once each |
| Sequences.FilterSort | src/code_rook/core/capabilities.py:164-195 | sorting stably and then filtering is filtering and then sorting stably |
| Sequences.SortAgree | src/code_rook/core/capabilities.py:164-195 | two orders that agree on the elements sort them identically |
| Sequences.SortIgnoresOrder | scripts/prepare_swebench_slice.py:30-35 | without ties the order of arrival does not show in the sorted result |
| Sequences.DedupOrder | src/code_rook/core/input_context.py:115 | deduplication keeps first occurrences in their order |
| Text.TrimMeaning | src/code_rook/core/interaction.py:237 | trimming removes exactly a blank prefix and a blank suffix |
| Text.TrimBlank | src/code_rook/core/interaction.py:104 | nothing is left by trimming if and only if all is white space |
| Text.LeqMeaning | src/code_rook/core/capabilities.py:188-194 | the order of ids is dictionary order: the first difference decides, or the shorter text comes first |
| Text.LinesOfJoined | web/src/api.ts:105-109 | splitting at line feeds undoes joining with them |
| Text.JoinedLines | web/src/api.ts:105-109 | joining with line feeds undoes splitting at them |
| Text.SpacesCompared | src/code_rook/core/interaction.py:104 | the white space of the two languages differs in exactly six characters |
| Text.SortedNamesUnique | scripts/run_strategy_router_experiment.py:129 | the sorted labels depend only on which labels there are |

## Left out

- React state, rendering, HTTP requests, sessions and authentication: `setEvents` is a plain assignment to the cache.
- UTF-8 decoding and its state across chunks: the model starts from decoded text.
- JSON syntax, and every field of an event but its number, kind, phase and tool-use id.
- Event-stream fields other than `data`, and changing the selected thread in mid-stream.
- The server's polling and keep-alive timing: a connection is what was written and how much of it arrived.
- The event store behind the server: that log entries are served in order, from at or before the first one after the cursor, is the premise of the reconnect theorems.
- Sharing of group objects: a group in the input of the tool grouping is extended in place by the source, while entries are values here.
- The provider objects, the `stability` field and the string form of a kind.
- Activation and cleanup callbacks that call back into the kernel or raise; the activation itself is the flag whether it left a cleanup.
- The bodies of follow-up sources and extension senders, `send_extension_message`, and what the event bus does with a published question.
- Deep copies of queued messages, and collisions between question ids.
- The steps that cancel a task or fire its timer are steps of the model but belong to asyncio; they have no method of their own.
- SHA-256 itself, for selection and for blob digests.
- Floating-point rounding in scores and costs, and how a provider's cost is priced.
- Metrics, category summaries and gate reasons of a report comparison, and report rendering.
- Path resolution, case folding and the extraction of references from a prompt.
- The pauses between download attempts, the clock behind the 30-second limit (a failed response here), the thread pool, and hard links to sibling caches.
- That the selectors look at nothing but id and group.
- Workspace boundary checks, the daemon lock, command lines, Docker, Git and model calls.
