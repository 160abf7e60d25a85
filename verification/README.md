# Aseman, verified

A Dafny model of the protocols and algorithms Aseman's correctness rests on, and proofs
about every run of them. Storage, clocks, networks, backends and policies appear as
parameters or as steps that may happen in any order; a step is one message, one read,
one commit or one effect, and calls may stop between any two.

| files | component |
|---|---|
| `Decide`, `DecideProtocol` | the optimistic transaction every store change goes through, and its serial order |
| `Coordination`, `LeaseProtocol` | fenced singleton leases: rules, storage and replica, and N replicas racing |
| `Vmm`, `VmmService`, `VmmProtocol`, `VmmLimits` | the VMM's workload records: rules, service loops, node, commanders, observers and executors together, and exactly when that holds |
| `Operations`, `OperationProtocol` | operation records: cancel and finish, and their races |
| `PublicAction`, `PublicActionProtocol` | public mutations under idempotency keys |
| `Federation`, `FederationProtocol` | federated requests: envelopes, nonces, answers, purges |
| `Proofs`, `ProofProtocol` | signed proofs and their one use |
| `TokenBucket`, `RateLimiter`, `RateLimiterRuns` | the rate limiter, over real numbers |
| `Capability`, `Revocation`, `GrantCodec` | grants: chains, delegation, revocation, storage |
| `GuestKv`, `Documents` | the flat guest table as separate maps, and documents in it |
| `EventDecoders`, `EventStreams` | the two event-stream decoders, and the streams they read |
| `Wrappers`, `Collections`, `ByteOrder` | shared values and facts |

A protocol module has a state, a `Move` for everything that can happen, a step relation,
an invariant with a lemma that every step keeps it, and theorems over whole runs. Where
the source has a loop or an object that changes in place, the model has a method or a
class, proved against the same functions the protocol uses.

What does not hold as one might read it, and exactly when it does:

- A federated source and nonce can execute twice, and a call can forget another call's
  nonce, after a purge that overtakes a delayed call (`DelayedDuplicateExecutesTwice`) or
  precedes a nonce issued again with an expiry more than a tick later
  (`ReissuedNonceExecutesTwice`). The
  promises survive a purge if and only if it is not harmful (`SafeIffNotHarmful`). If
  purges stay behind the start of every call at work, they hold in every run if and only
  if no nonce is issued again with an expiry more than a tick later (`PromptSafeIff`).
- A federated caller can be told another request's answer. Nobody is if and only if no
  request id is used under two nonces (`TruthfulIff`). What Aseman sends meets both
  conditions (`SentAreSound`); what other peers send need not.
- A proof can authenticate twice after a purge that overtakes a delayed copy
  (`DelayedCopyAuthenticatesTwice`), and again exactly the harmless purges are safe
  (`SafeIffNotHarmful`); prompt ones always are (`PromptRunAtMostOnce`).
- Work can begin inside the safety margin, although it is promised to run with room to
  spare: a lease just acquired or renewed is not held against the margin. It does if and
  only if the time to live does not exceed the margin, or the expiry hits the largest
  storable time (`FreshWorkInsideMarginIff`).
- The VMM desires only what the node recorded if and only if no other client changes
  desired state and the node never provisions a workload with another state than it
  recorded (`RefinesIff`).
- The applied generation never goes back if and only if the backend reports the
  generation it acted on (`AppliedStandsIff`).
- A restore can act on a record of a newer generation than its own
  (`SupersededRestoreActs`): it is made before the check that it is superseded. It does
  not if and only if nothing newer was committed by then (`RestoreGenerations`).
- A sweep of idle rate-limit buckets is invisible if and only if both tiers refill within
  the idle time (`InvisibleIff`); the defaults do. What an identity's own bucket lets
  through keeps to the rate under sweeps if and only if its tier does
  (`RateSurvivesSweepsIff`). The same is exact of what the identity is allowed as long as
  there is no node-wide gate; a gate no wider than the tier keeps the bound by itself
  (`ServedRateIff`).
- A rejected check is free for its identity if and only if the identity's own bucket
  rejected it (`RejectionIsFreeIff`): the node-wide bucket is asked second.
- The reported wait is enough if and only if the cap of one hour did not shorten it
  (`ReportedWait`).
- A revocation names every descendant if and only if there are at most ten thousand
  (`ClosureExactIff`); that none of them is live holds regardless (`RevokedForGood`).
- Deleting a document path empties it if and only if at most ten thousand records lie
  below it (`DeletesAllIff`), because an unbounded listing is cut there.
- Documents of different keys can overlap. They do if and only if one key with its
  separator is a prefix of the other with its own (`DocumentsOverlapIff`), so never
  between keys without colons.
- A nested object of a document need not read back as written. Merging loses members of
  the object stored at its own path if and only if ten thousand records of the document
  come before it and it does not cover that object (`NestedReadBackIff`). A member with a
  dot in its name can overwrite it (`DottedNamesCollide`); without such names it cannot
  (`RecordsDistinct`). Objects the new document does not have stay where they were
  (`StaleStays`).
- The two event decoders differ on a carriage return and newline cut between two chunks
  (`CutPairDiffers`); with every pair in one chunk, or none, they agree
  (`ReturnsMakeNoDifference`, `DecodersAgree`).
- Linearizability needs the commit to cover the read the decision was made on
  (`SplitReadIsNotSerializable`). The storage profile declared for these tables promises
  that.

Where code and comments differ, the model follows the code: `Singleton` keeps its lease
when a renewal reports an error, although the comment on `run` says otherwise; exclusion
holds all the same.

## Model

| member | source | states |
|---|---|---|
| Decide.Row.Decide | crates/aseman-capsule/src/auto.rs:63-85 | One call of the retry loop against arbitrary rivals and faults: at most one of its commits lands, an answer is the operation's own on exactly the row it committed onto, and a refusal or eight lost races leave the row as the rivals left it |
| Decide.Row.Interfere | crates/aseman-capsule/src/auto.rs:63-85 | What rival writers leave in the row, and how far they move its revision |
| DecideProtocol.PointKeepsInv | crates/aseman-capsule/src/auto.rs:63-85 | A decision that settles takes the next place in the serial order, and everything already explained by that order stays explained |
| DecideProtocol.RephaseKeepsInv | crates/aseman-capsule/src/auto.rs:63-85 | Failing, losing a race and reading for a write take no place in the serial order |
| DecideProtocol.StepKeepsInv | crates/aseman-capsule/src/auto.rs:63-85 | Every step of any number of interleaved calls keeps the run equal to its serial order |
| DecideProtocol.RunKeepsInv | crates/aseman-capsule/src/auto.rs:63-85 | The same over whole runs |
| DecideProtocol.Linearizable | crates/aseman-capsule/src/auto.rs:63-85 | Any set of concurrent decide calls is equivalent to a serial order that explains every answer, refusal and failure and the final row, has each call at most once, and respects real time |
| DecideProtocol.SplitReadIsNotSerializable | crates/aseman-storage/src/engine.rs:264-311 | If the commit check covers only a second read, two increments can both answer 1, and no serial order of any calls, at any positions, gives both those answers |
| DecideProtocol.SerialGives | crates/aseman-capsule/src/auto.rs:63-85 | Every answer of a serialized run is given at some position of its order |
| DecideProtocol.SplitReadReachesIt | crates/aseman-storage/src/engine.rs:264-311 | A concrete run that reaches that state, so the serializable profile is needed |
| DecideProtocol.IncrementsCount | crates/aseman-capsule/src/auto.rs:63-85 | In any serial order, the nth increment answers n |
| Coordination.WorkingIsInsideTheMargin | crates/aseman-domain/src/coordination.rs:150-165 | A holder may go on exactly while its expiry is more than the margin away |
| Coordination.RenewsFromHalf | crates/aseman-domain/src/coordination.rs:150-165 | A holder renews exactly from half of the time between its acquisition and the margin on, and before that keeps working as it is |
| Coordination.AcquisitionMeans | crates/aseman-domain/src/coordination.rs:204-234 | What an acquisition comes to, row by row: another's unexpired lease stays and is named with its expiry, anything else becomes the caller's at the next token, from now to the time to live |
| Coordination.StorageCoordination.Acquire | crates/aseman-capsule/src/coordination.rs:48-100 | An acquisition is granted over nothing, over an expired row or over the caller's own; it takes the next token and changes only that row, whether or not the answer arrives |
| Coordination.StorageCoordination.Renew | crates/aseman-capsule/src/coordination.rs:102-135 | A renewal extends exactly the unexpired row with the same instance and token, to the time to live from now, and keeps its acquisition |
| Coordination.ReleaseGivesUp | crates/aseman-capsule/src/coordination.rs:137-159 | A release leaves its own row the same grant, over at the later of its acquisition and now, and any other row as it is |
| Coordination.ReleasedThenTaken | crates/aseman-capsule/src/coordination.rs:137-159 | From then on any instance that asks is granted the next token |
| Coordination.StorageCoordination.Release | crates/aseman-capsule/src/coordination.rs:137-159 | The method gives up exactly the caller's own row in that way and touches nothing else |
| Coordination.StorageCoordination.Accept | crates/aseman-capsule/src/coordination.rs:187-212 | A destination accepts a token exactly when it has accepted no larger one, and then remembers it |
| Coordination.Singleton.Resign | crates/aseman-application/src/singleton.rs:94-100 | The lease is forgotten before the release is tried, whatever it answers; one that reaches the storage gives the row up |
| Coordination.FreshWorkInsideMarginIff | crates/aseman-application/src/singleton.rs:112-151 | Work right after an acquisition or renewal begins inside the margin if and only if the time to live does not exceed the margin, or the expiry hits the largest storable time |
| Coordination.Singleton.StandingPass | crates/aseman-application/src/singleton.rs:102-138 | Inside the margin the row is given up; before half of the time nothing is written; from half on the row is renewed exactly if it is still the holder's and unexpired. Work runs only under the lease held at the end, right after an acquisition or renewal inside the margin exactly when the time to live is too short; an unreadable clock drops the lease, a failed renewal keeps it |
| Coordination.Singleton.AcquirePass | crates/aseman-application/src/singleton.rs:140-152 | A replica holds a lease after acquiring exactly when it runs, at a token above the old row's, taken from another instance only after that row's expiry |
| LeaseProtocol.StoreKeepsBeliefs | crates/aseman-capsule/src/coordination.rs:48-159 | Whatever an up-to-date transaction writes leaves every other replica's belief true |
| LeaseProtocol.StepKeepsLeases | crates/aseman-capsule/src/coordination.rs:48-159 | Every step of any number of replicas keeps the lease invariant, including answers lost after commit and commits that land after their replica gave up |
| LeaseProtocol.StepKeepsFence | crates/aseman-capsule/src/coordination.rs:187-212 | Every step keeps the fence equal to the last token landed, and landed tokens in order |
| LeaseProtocol.RunKeepsInv | crates/aseman-application/src/singleton.rs:75-152 | Both invariants in every reachable state |
| LeaseProtocol.Exclusion | crates/aseman-application/src/singleton.rs:102-152 | A replica whose lease is unexpired owns the stored row under the same token, so no two replicas hold unexpired leases |
| LeaseProtocol.StepHandover | crates/aseman-capsule/src/coordination.rs:48-98 | One step hands the row to another instance only past its expiry, at the next token |
| LeaseProtocol.HandoverNeedsExpiry | crates/aseman-domain/src/coordination.rs:204-234 | A transaction that would hand the row over read it as expired |
| LeaseProtocol.TakeoverAfterExpiry | crates/aseman-capsule/src/coordination.rs:48-98 | A lease changes hands only once the provider's clock has passed its expiry, and at the next token |
| LeaseProtocol.TokensRise | crates/aseman-capsule/src/coordination.rs:71-98 | Tokens never go back, rise strictly when the instance changes, and the grant behind a token never changes |
| LeaseProtocol.FencedOrder | crates/aseman-capsule/src/coordination.rs:187-212 | Once an effect landed, nothing under a smaller token lands after it, and a later effect of another replica carries a strictly later grant |
| LeaseProtocol.ReleaseCommits | crates/aseman-capsule/src/coordination.rs:137-159 | A release that commits on its own row gives it up at the time it read |
| LeaseProtocol.StepKeepsReleased | crates/aseman-capsule/src/coordination.rs:48-159 | Every step keeps a given-up row over and believed in by nobody, until a lease is granted |
| LeaseProtocol.RunKeepsReleased | crates/aseman-capsule/src/coordination.rs:48-159 | The same over whole runs |
| LeaseProtocol.ReleasedIsFree | crates/aseman-capsule/src/coordination.rs:137-159 | In every run a lease released and not taken since is free: over by the provider's clock, and whoever asks is granted the next token |
| LeaseProtocol.RunExtends | crates/aseman-capsule/src/coordination.rs:137-159 | Grants, landed effects and the clock only grow along a run |
| Vmm.RefusedIff | crates/aseman-application/src/vmm.rs:326-341 | Exactly when a fresh change is let through: expected version, not deleted, resume only from paused, pause only from running or paused |
| Vmm.RefusedWith | crates/aseman-application/src/vmm.rs:326-341 | Which refusal is given: unexpected version, then resuming what is not paused, then a deleted workload, then pausing what is stopped |
| Vmm.ChangeKeepsObservations | crates/aseman-application/src/vmm.rs:349-440 | A change keeps everything observed and is at its generation: a command sets its state and keeps the spec, an update sets the spec given and keeps the state, a restore runs the workload with the spec it has |
| Vmm.ObservationKeepsDesired | crates/aseman-application/src/vmm.rs:691-700 | An observation write is that observation, newer than the one before, marks what a step applied, and keeps desired state and spec |
| Vmm.ReachedIff | crates/aseman-domain/src/vmm.rs:276-306 | When reconciliation has nothing left to do: running or paused as seen at this very generation, deleted and gone by it or never seen, stopped and not seen live |
| Vmm.ActionFor | crates/aseman-domain/src/vmm.rs:276-306 | Which action is taken, exactly: delete, stop, resume, restart, pause or start, by what is desired and what was seen |
| Vmm.ReconciliationConverges | crates/aseman-domain/src/vmm.rs:276-306 | With a backend that does as asked, nothing is left to do after one action, or after two if the workload is to be paused and is not up |
| VmmService.Service.Save | crates/aseman-application/src/vmm.rs:504-514 | A save lands exactly when the version is the expected one, and moves it by one |
| VmmService.Service.Page | crates/aseman-capsule/src/vmm.rs:236-282 | A page is the next operations after the cursor, newest first, with a cursor exactly when more remain; a cursor that names nothing has an empty page after it |
| VmmService.PageSearched | crates/aseman-application/src/vmm.rs:180-214 | Going through a page of a store that grows anywhere: what is found is not older than anything recorded for the generation at the start, and otherwise what is left lies behind the page |
| VmmService.Service.OperationFor | crates/aseman-application/src/vmm.rs:180-214 | While others record operations that sort anywhere and move through their states, the search finds one of the generation that is not older than any there was when it began, and fails only if there was none |
| VmmService.PlacedInOrder | crates/aseman-capsule/src/vmm.rs:284-297 | Recording an operation adds it where it sorts and loses nothing |
| VmmService.Service.Change | crates/aseman-application/src/vmm.rs:313-440 | A command, spec update or restore commits exactly when newer, not refused, supported and unraced, and then the record has that change's spec, state and generation, whether or not its operation is recorded and the caller told; a replay answers an operation recorded for the generation, an older generation the current one; everything else changes nothing, with its error |
| VmmService.Service.TryObservation | crates/aseman-application/src/vmm.rs:690-716 | One attempt of the observation loop: refused, landed on the record it read, or lost |
| VmmService.Service.RecordObservation | crates/aseman-application/src/vmm.rs:683-721 | The five-attempt loop leaves the record and the answer that attempting again after every lost race comes to |
| VmmService.TriedMeans | crates/aseman-application/src/vmm.rs:683-721 | Every attempt before the last lost a race; that observation landed unraced on a record that accepts it, keeping desired state and spec, or that record refuses it, as missing, too new or too old, and nothing is written, or all races were lost |
| VmmService.QuietVisit | crates/aseman-application/src/vmm.rs:885-915 | Without rivals a report is recorded unless it is old; a workload no longer reported, last seen pending, up or paused and not to be deleted, is recorded as lost at its generation and the next sequence; nothing else changes |
| VmmService.Workloads.Page | crates/aseman-capsule/src/vmm.rs:165-187 | A page of workloads: the next ids in byte order after the cursor, with a cursor exactly when more remain |
| VmmService.PageAdvances | crates/aseman-capsule/src/vmm.rs:165-187 | What is beyond a page is exactly what is beyond the cursor it hands out, so no workload is skipped or visited twice |
| VmmService.Workloads.Visit | crates/aseman-application/src/vmm.rs:885-915 | One workload gets the backend's report, or is marked lost if its page showed it live, through the retry loop against writers before and during it |
| VmmService.Workloads.Observe | crates/aseman-application/src/vmm.rs:858-919 | Page by page and against rival writers, a pass leaves every record as its own visit does, counts recorded and lost exactly, and names exactly the instances nobody desires; it is given up exactly at the first workload that keeps changing, later ones untouched |
| VmmProtocol.CommandFor | crates/aseman-application/src/lib.rs:160-168 | The command the node picks always leads to the state it recorded |
| VmmProtocol.LoadedIsStored | crates/aseman-capsule/src/vmm.rs:202-222 | A compare-and-set on the version alone compares the whole record |
| VmmProtocol.SaveKeeps | crates/aseman-application/src/vmm.rs:349-362 | A commander's save keeps the record invariant |
| VmmProtocol.SaveObservedKeeps | crates/aseman-application/src/vmm.rs:690-716 | An observer's save keeps the record invariant |
| VmmProtocol.StepKeepsRecords | crates/aseman-application/src/vmm.rs:313-837 | Every step of commanders, observers, executors and reconcilers keeps versions, generations and applied generations in order |
| VmmProtocol.StepKeepsDesired | crates/aseman-application/src/lib.rs:159-180 | Every step keeps what the VMM desires inside what the node recorded |
| VmmProtocol.RunKeepsInv | crates/aseman-application/src/vmm.rs:313-837 | Both invariants in every reachable state |
| VmmProtocol.StepKeepsCaused | crates/aseman-application/src/vmm.rs:313-721 | Every step keeps each commit exactly what the change or observation it was made for makes of the one before |
| VmmProtocol.StepKeepsSent | crates/aseman-application/src/lib.rs:159-180 | Every step keeps each change one that the node sent or another client asked for |
| VmmProtocol.RunKeepsCauses | crates/aseman-application/src/vmm.rs:313-721 | Both over whole runs |
| VmmProtocol.NoLostUpdates | crates/aseman-application/src/vmm.rs:313-721 | Commits are never lost: versions are a chain of plus one, and every commit has exactly the spec, state, generation or observation of the change or report it was made for, which somebody did send, and keeps the rest |
| VmmProtocol.HistoryOrder | crates/aseman-application/src/vmm.rs:683-721 | Along any history: generations do not fall and determine desired state and spec, deletion is final, observations only get newer |
| VmmProtocol.CommitsStand | crates/aseman-application/src/vmm.rs:349-354 | The same between any two commits of any run |
| VmmProtocol.LogOnlyGrows | crates/aseman-application/src/vmm.rs:504-514 | What was committed, and what the backend was asked to do, stays in the history |
| VmmProtocol.NodeRefinement | crates/aseman-application/src/lib.rs:159-180 | With commands lost, repeated and reordered, while only the node writes and provisions what it recorded: the VMM's generation never falls, never passes the node's, and its desired state is exactly the node's at that generation |
| VmmLimits.RefinesIff | crates/aseman-application/src/vmm.rs:371-401 | In every run the VMM desires only what the node recorded, if and only if nobody else changes desired state and the node provisions only what it recorded |
| VmmLimits.RefinementFails | crates/aseman-application/src/vmm.rs:371-401 | A concrete run for each way the condition can fail |
| VmmProtocol.StepGenerations | crates/aseman-application/src/vmm.rs:725-761 | Every reconciliation step acts on a committed record whose desired generation is the operation's; operation and applied generations never exceed the desired one |
| VmmProtocol.RestoreGenerations | crates/aseman-application/src/vmm.rs:820-828 | A restore acts on a committed record of its own or a newer generation, of its own exactly when nothing newer was committed by then |
| VmmLimits.SupersededRestoreActs | crates/aseman-application/src/vmm.rs:820-828 | A concrete run in which a superseded restore acts on a record of a newer generation |
| VmmProtocol.ConvergeKeepsGoals | crates/aseman-application/src/vmm.rs:725-761 | A backend step, or finding that none is needed, is for what the operation's own generation desired |
| VmmProtocol.StepKeepsGoals | crates/aseman-application/src/vmm.rs:725-837 | Every step keeps goals, successes and applied generations true to the committed history |
| VmmProtocol.SuccessIsReal | crates/aseman-application/src/vmm.rs:725-761 | An operation is finished as done only after its own generation's desired state, and an observation that leaves nothing to do for it, were committed |
| VmmProtocol.AppliedNeverFalls | crates/aseman-application/src/vmm.rs:683-721 | With a backend that reports the generation it acted on, the applied generation never goes back |
| VmmLimits.AppliedStandsIff | crates/aseman-application/src/vmm.rs:683-721 | In every run the applied generation never goes back, if and only if the backend reports the generation it acted on |
| VmmLimits.AppliedFalls | crates/aseman-application/src/vmm.rs:725-761 | A concrete run in which it goes back |
| Operations.Row.Replace | crates/aseman-capsule/src/vmm.rs:298-319 | A record is replaced exactly when its state is the one named |
| Operations.EvolvingUsesUp | crates/aseman-domain/src/vmm.rs:314-326 | Every legal change uses up one of at most two an operation has |
| Operations.Row.Cancel | crates/aseman-application/src/vmm.rs:556-582 | Cancelling ends in a cancelled record nobody interfered with, or in finding it finished; its five attempts always suffice |
| Operations.FinishedReports | crates/aseman-application/src/vmm.rs:641-660 | An outcome leaves the operation succeeded with that very result, or failed with that very error, and otherwise the same |
| Operations.Row.Finish | crates/aseman-application/src/vmm.rs:641-680 | While the operation runs its own result or error is stored; otherwise what stands is kept and answered |
| OperationProtocol.StoreKeepsInv | crates/aseman-capsule/src/vmm.rs:298-319 | A replacement that names only the state continues the operation's life as if it had named the record |
| OperationProtocol.StepKeepsInv | crates/aseman-application/src/vmm.rs:769-837 | Every step of any number of executors and cancellers keeps the operation's life legal |
| OperationProtocol.RunKeepsInv | crates/aseman-application/src/vmm.rs:769-837 | The same over whole runs |
| OperationProtocol.StepKeepsOutcomes | crates/aseman-application/src/vmm.rs:641-680 | Every step keeps every stored result and error one that some executor came to |
| OperationProtocol.Finality | crates/aseman-application/src/vmm.rs:641-680 | A terminal record is never touched again, the operation stays the same one, and the result or error that stands is the one of an outcome some executor of it reported |
| OperationProtocol.AnswersStand | crates/aseman-application/src/vmm.rs:662-670 | Every record answered was stored, and one answered as terminal stands from then on |
| PublicAction.ClaimKeysSeparate | crates/aseman-capsule/src/auto.rs:262-264 | Two requests share a claim row exactly when subject and key agree |
| PublicAction.FramingSeparates | crates/aseman-application/src/public_action.rs:224-232 | The digested bytes determine route, action and body |
| PublicAction.Idempotency.Claim | crates/aseman-capsule/src/auto.rs:267-300 | The first request takes the claim; any other is told, by the stored digest and completion, that the request differs, is in progress or is completed with that response, and changes nothing |
| PublicAction.Idempotency.Complete | crates/aseman-capsule/src/auto.rs:302-314 | Completing stores the response in the row of that key, if there is one |
| PublicAction.Idempotency.Release | crates/aseman-capsule/src/auto.rs:316-329 | Releasing removes the row unless it is completed |
| PublicAction.Idempotency.ExecuteMutation | crates/aseman-application/src/public_action.rs:181-219 | The effect runs exactly when the claim was free; a success is replayed from then on, a failure leaves no trace, and no other row changes |
| PublicActionProtocol.OwnStepKeepsInv | crates/aseman-application/src/public_action.rs:181-219 | A step that touches one call and its row keeps everything if it keeps that call and that row |
| PublicActionProtocol.StepKeepsInv | crates/aseman-application/src/public_action.rs:181-219 | Every step of any number of requests, with failures, lost acknowledgements and crashes, keeps claims, effects and answers consistent |
| PublicActionProtocol.RunKeepsInv | crates/aseman-application/src/public_action.rs:181-219 | The same over whole runs |
| PublicActionProtocol.AtMostOnce | crates/aseman-application/src/public_action.rs:181-219 | At most one effect succeeds under a subject and key |
| PublicActionProtocol.AnswersAreEffects | crates/aseman-application/src/public_action.rs:188-210 | Every 200 carries the bytes of an effect under its key, for the same digest |
| PublicActionProtocol.SameResponse | crates/aseman-application/src/public_action.rs:188-210 | All 200 answers under a key are identical |
| PublicActionProtocol.StepTouchesOwnRow | crates/aseman-capsule/src/auto.rs:302-329 | A step changes only its own row; a row goes only when its own request releases it after a failed effect; a completed row stays |
| PublicActionProtocol.CompletedStands | crates/aseman-capsule/src/auto.rs:302-329 | A completed claim is never changed or removed in any later state |
| Federation.AcceptedIff | crates/aseman-domain/src/federation.rs:117-165 | An envelope is accepted exactly when well formed, unseen and unexpired |
| Federation.CheckIsFirstFailed | crates/aseman-domain/src/federation.rs:117-165 | A refused envelope is refused for the first check in the list that it does not pass |
| Federation.NamesMean | crates/aseman-application/src/federation.rs:177-250 | Which texts name a target or a subject |
| Federation.NonceKeysSeparate | crates/aseman-capsule/src/federation.rs:47-49 | Envelopes share a nonce record exactly when source and nonce agree |
| Federation.SentIsAccepted | crates/aseman-application/src/federation.rs:100-147 | What a node sends is accepted at first sight for a minute, exactly when it names an action, and names a readable subject and target |
| Federation.OutgoingSeparates | crates/aseman-application/src/federation.rs:100-147 | Whatever is different about two requests shows in their envelopes |
| Federation.NewestStands | crates/aseman-capsule/src/federation.rs:71-112 | However descriptors are delayed, repeated and reordered, the first of the highest sequence received stands |
| Federation.Guard.RememberNonce | crates/aseman-capsule/src/federation.rs:168-185 | A nonce is first exactly when it is not recorded, and is then recorded until the envelope expires |
| Federation.Guard.RecordAnswer | crates/aseman-capsule/src/federation.rs:206-229 | The first answer recorded stands |
| Federation.Guard.PurgeExpired | crates/aseman-capsule/src/federation.rs:231-241 | A purge removes exactly the nonces and answers that expired before it, and counts them |
| Federation.Guard.Serve | crates/aseman-application/src/federation.rs:177-250 | The effect runs exactly for an unanswered, first-seen, acceptable and admitted request; a success is recorded, a failed effect leaves no trace, a refusal keeps the nonce and names the first thing that was wrong |
| FederationProtocol.StepKeepsOnce | crates/aseman-application/src/federation.rs:177-250 | Every step but a harmful purge keeps executions single per source and nonce, and nonces with the call that recorded them |
| FederationProtocol.StepKeepsRecords | crates/aseman-application/src/federation.rs:177-250 | Every step at all keeps what is recorded and told an execution's own answer |
| FederationProtocol.RunKeepsRecords | crates/aseman-application/src/federation.rs:177-250 | The same over whole runs |
| FederationProtocol.ContinuationKeepsInv | crates/aseman-application/src/federation.rs:177-250 | Both invariants in every state of a run without harmful purges |
| FederationProtocol.FederatedAtMostOnce | crates/aseman-application/src/federation.rs:177-250 | For any set of issued envelopes, over every interleaving, failure and crash and every purge that is not harmful: at most one execution per source and nonce, and only the call that recorded a nonce forgets it |
| FederationProtocol.OncePerSourceAndNonce | crates/aseman-capsule/src/federation.rs:47-49 | Two executions for the same source and nonce, whatever else their envelopes say, are the same one |
| FederationProtocol.AnswerStands | crates/aseman-capsule/src/federation.rs:206-241 | Over any run: until a purge passes its expiry a recorded answer stays the one recorded, and every call with that request id that looks it up is told it |
| FederationProtocol.AnswerStandsUnexpired | crates/aseman-capsule/src/federation.rs:206-241 | In particular while the clock has not passed the expiry |
| FederationProtocol.TruthfulIff | crates/aseman-application/src/federation.rs:177-189 | Everybody is told the answer of their own source and nonce in every run, if and only if no request id is used under two nonces |
| FederationProtocol.PairedIsTruthful | crates/aseman-application/src/federation.rs:177-189 | The one half, in every state of every run |
| FederationProtocol.UnpairedIsMisled | crates/aseman-application/src/federation.rs:177-189 | The other half: a run in which a second nonce under a request id is told another's answer |
| FederationProtocol.PromptPurgeIsHarmless | crates/aseman-capsule/src/federation.rs:231-241 | A purge no further than the start of any call at work is harmless if a nonce always stands for the same expiry, to the tick |
| FederationProtocol.ForgetsAnother | crates/aseman-capsule/src/federation.rs:187-194 | After a purge under a call at work, that call can forget another's nonce |
| FederationProtocol.ExecutesAgain | crates/aseman-capsule/src/federation.rs:168-185 | After a purge of a used nonce, a delayed call can execute under it again |
| FederationProtocol.ExecutesReissue | crates/aseman-capsule/src/federation.rs:168-185 | So can an envelope that arrives only then |
| FederationProtocol.HarmfulBreaks | crates/aseman-capsule/src/federation.rs:231-241 | Every harmful purge has a continuation that breaks a promise |
| FederationProtocol.SafeIffNotHarmful | crates/aseman-capsule/src/federation.rs:231-241 | Where request ids pair with nonces: from any good state the promises hold in every continuation of a purge without further harmful ones, if and only if it is not harmful |
| FederationProtocol.PromptRunKeepsInv | crates/aseman-capsule/src/federation.rs:231-241 | Prompt purging keeps both invariants if a nonce always stands for the same expiry, to the tick |
| FederationProtocol.PromptSafeIff | crates/aseman-capsule/src/federation.rs:231-241 | Every run with prompt purges keeps the promises, if and only if no nonce is issued again with an expiry more than a tick later |
| FederationProtocol.SentAreSound | crates/aseman-application/src/federation.rs:100-147 | What a node sends meets both conditions as long as request ids are not reused |
| FederationProtocol.DelayedDuplicateExecutesTwice | crates/aseman-application/src/federation.rs:177-250 | For every well-formed envelope, a concrete run in which it executes twice |
| FederationProtocol.ReissuedNonceExecutesTwice | crates/aseman-application/src/federation.rs:177-250 | For every nonce issued with two expiries more than a step apart, a concrete run in which it executes twice though no call was at work during the purge |
| Proofs.RetentionCoversWindow | crates/aseman-domain/src/identity.rs:261-289 | A nonce is retained exactly as long as its proof could still pass |
| Proofs.PassesIff | crates/aseman-application/src/identity.rs:62-99 | Exactly when a proof passes every check before replay |
| Proofs.WindowFailure | crates/aseman-domain/src/identity.rs:261-289 | Which of the window's checks failed |
| Proofs.FailureIsFirst | crates/aseman-application/src/identity.rs:56-110 | A failed proof is answered with the first check in the list that it does not pass |
| Proofs.NonceKeysSeparate | crates/aseman-capsule/src/auto.rs:165-172 | Proofs share a nonce record exactly when key and nonce agree |
| Proofs.Authenticator.RecordNonce | crates/aseman-capsule/src/auto.rs:165-198 | A nonce is recorded exactly when it is not live, and its retention only rises |
| Proofs.Authenticator.Authenticate | crates/aseman-application/src/identity.rs:56-110 | The first failing check is answered and consumes nothing; a success consumes the nonce and makes the proof a replay for as long as it could pass |
| ProofProtocol.StepKeepsInv | crates/aseman-capsule/src/auto.rs:165-198 | Every step but a harmful purge keeps accepted proofs spent |
| ProofProtocol.ContinuationKeepsInv | crates/aseman-capsule/src/auto.rs:165-198 | The same over every run without harmful purges, from any good state |
| ProofProtocol.ProofAtMostOnce | crates/aseman-application/src/identity.rs:56-110 | In every run without harmful purges no proof authenticates twice, with racing first uses and other proofs of the same nonce |
| ProofProtocol.PromptRunAtMostOnce | crates/aseman-capsule/src/auto.rs:109-120 | In every run whose purges stay behind the start of every call at work, no proof authenticates twice |
| ProofProtocol.PromptPurgeIsHarmless | crates/aseman-capsule/src/auto.rs:109-120 | A purge no further back than the start of any call at work is harmless |
| ProofProtocol.AuthenticatesAgain | crates/aseman-capsule/src/auto.rs:165-198 | After a harmful purge the delayed copy authenticates again |
| ProofProtocol.SafeIffNotHarmful | crates/aseman-capsule/src/auto.rs:109-120 | From any good state the promise holds in every continuation of a purge without further harmful ones, if and only if it is not harmful |
| ProofProtocol.DelayedCopyAuthenticatesTwice | crates/aseman-application/src/identity.rs:56-110 | For every proof inside its window, a concrete run in which it authenticates twice |
| Capability.IntersectionIsMeet | crates/aseman-domain/src/capability.rs:48-65 | The intersection of selectors covers exactly what both cover and lies within both |
| Capability.NeverAmplifies | crates/aseman-domain/src/capability.rs:126-183 | Whatever a chain authorizes its subject to, every ancestor was granted, may delegate and is live for, each issued by the holder of the next, whose window holds the first one's; chains respect the root's depth budget |
| Capability.LinksOnlyNarrow | crates/aseman-domain/src/capability.rs:126-166 | Going up a checked chain, actions, resources and depth only widen |
| Capability.CheckChain | crates/aseman-domain/src/capability.rs:147-166 | A chain passes exactly when it is in order; otherwise the fault named is the first in the order of the checks |
| Capability.DelegationAttenuates | crates/aseman-domain/src/capability.rs:207-268 | A delegated grant stays inside its parent |
| Capability.ChildWindow | crates/aseman-domain/src/capability.rs:248-268 | A delegated grant is live exactly while both the request and the parent allow |
| Capability.Collect | crates/aseman-domain/src/capability.rs:227-240 | The loop over offered actions keeps exactly the delegable ones, or answers the offence of the first offending action in byte order |
| Capability.ExtendChain | crates/aseman-domain/src/capability.rs:147-166 | An attenuating child extends a good chain exactly while it is live |
| Capability.ChildIsBestowed | crates/aseman-domain/src/capability.rs:241-268 | The child is the requested subject's, with exactly the actions requested, passed on and registered, of them exactly those requested to pass on again, on what request and parent cover, at the least of both depths |
| Capability.Delegate | crates/aseman-domain/src/capability.rs:207-268 | Exactly one answer for every request: the first refusal in the order of the checks, or that child, which extends the chain exactly while it is live |
| Revocation.Chain | crates/aseman-application/src/capability.rs:24-36 | The chain of a grant: it first, at most sixteen grants |
| Revocation.ChainOf | crates/aseman-application/src/capability.rs:24-36 | The upward walk computes the chain, or none when a link is missing or it is too long |
| Revocation.ChainClimbs | crates/aseman-application/src/capability.rs:24-36 | The chain's grants are the stored ancestors in order |
| Revocation.ChainIsAll | crates/aseman-application/src/capability.rs:24-36 | A loaded chain has every ancestor |
| Revocation.OnChainIffDescends | crates/aseman-application/src/capability.rs:24-36 | A grant descends from another exactly when that one is on its chain |
| Revocation.RevokedAt | crates/aseman-capsule/src/capability.rs:251-270 | Revoking sets the earlier of the time asked and the time there was, and changes nothing else |
| Revocation.Grants.Revoke | crates/aseman-capsule/src/capability.rs:251-270 | The loop leaves the grant revoked at the earlier of the time asked and the time there was, or lost eight races; with rivals at a time somebody asked for, never later; nothing else changes, an unknown grant is not found |
| Revocation.RevokedForGood | crates/aseman-application/src/capability.rs:225-230 | After a revocation no descendant, present or future, is live at that time or later in any later store |
| Revocation.AddChildren | crates/aseman-application/src/capability.rs:205-213 | Adding children keeps the closure free of duplicates and queues exactly the new ones, up to the cap |
| Revocation.RevocationClosure | crates/aseman-application/src/capability.rs:198-218 | The downward walk over a growing store: no duplicates, only descendants, and below the cap all that were there at the start |
| Revocation.ClosedHoldsDescendant | crates/aseman-application/src/capability.rs:198-218 | A set closed under children holds every descendant |
| Revocation.ClosureExactIff | crates/aseman-application/src/capability.rs:198-218 | On a store at rest the closure is exactly the descendants if and only if there are at most ten thousand |
| Revocation.RevocationDuality | crates/aseman-application/src/capability.rs:24-36 | A grant is in the closure exactly when the revoked one is on its chain, and then is never live again |
| GrantCodec.Fields | crates/aseman-capsule/src/capability.rs:40-98 | A grant can be stored exactly when its times fit in microseconds |
| GrantCodec.TimeSurvives | crates/aseman-capsule/src/capability.rs:140-146 | A time in microseconds reads back as the same milliseconds |
| GrantCodec.KindSurvives | crates/aseman-capsule/src/capability.rs:113-122 | A subject kind is found again from its spelling |
| GrantCodec.NamesSurvive | crates/aseman-capsule/src/capability.rs:124-138 | A set of names is read back from its stored list |
| GrantCodec.ReadableIff | crates/aseman-capsule/src/capability.rs:98-177 | Exactly which stored documents can be read as a grant |
| GrantCodec.GrantRoundTrip | crates/aseman-capsule/src/capability.rs:98-177 | A stored grant reads back unchanged: identifiers as sixteen bytes, subjects, name sets and policy version included |
| GuestKv.KeysSeparate | crates/aseman-capsule/src/guest_kv.rs:100-104 | A row key determines creature, namespace and name |
| GuestKv.PutRefines | crates/aseman-capsule/src/guest_kv.rs:114-130 | Writing a row updates one creature's map in one namespace and nothing else |
| GuestKv.DeleteRefines | crates/aseman-capsule/src/guest_kv.rs:132-138 | Deleting a row removes one name of that map and nothing else |
| GuestKv.Table.Get | crates/aseman-capsule/src/guest_kv.rs:106-112 | A read is a lookup in the creature's map |
| GuestKv.Table.Put | crates/aseman-capsule/src/guest_kv.rs:114-130 | The method refines the map update and keeps every other map |
| GuestKv.Table.Delete | crates/aseman-capsule/src/guest_kv.rs:132-138 | The method refines the removal, answers whether the name existed, and keeps every other map |
| ByteOrder.First | crates/aseman-capsule/src/guest_kv.rs:141-164 | The first names in byte order, each once, up to the limit |
| GuestKv.Take | crates/aseman-storage/src/memory.rs:179 | How many rows a listing may have: the limit as long as it is within the guest bound, ten thousand without one |
| GuestKv.Table.List | crates/aseman-capsule/src/guest_kv.rs:141-164 | The names with the prefix in byte order, up to the limit the provider honours, with their values |
| ByteOrder.ListsAllIff | crates/aseman-storage/src/memory.rs:179 | A listing is complete exactly when no more match than it may take |
| Documents.Merge | crates/aseman-contracts/src/documents.rs:135-146 | The in-place merge computes the merged object |
| Documents.MergedMember | crates/aseman-contracts/src/documents.rs:135-146 | What a merge means for each member: the new value wins unless both are objects, which merge in turn; other members stay |
| Documents.MergedTwice | crates/aseman-contracts/src/documents.rs:135-146 | Merging the same object twice is merging it once |
| Documents.Index | crates/aseman-contracts/src/documents.rs:164-191 | The recursive indexing pushes exactly the records of the document, in order |
| Documents.RecordsInside | crates/aseman-contracts/src/documents.rs:164-191 | The merged object is written once, first, and every other record lies strictly below its path |
| GuestKv.Table.PutJson | crates/aseman-capsule/src/guest_kv.rs:198-235 | Text that is not an object changes nothing; otherwise exactly the records it is indexed into, merged with what the listing found, are written, and every other map is kept |
| GuestKv.Table.GetJson | crates/aseman-capsule/src/guest_kv.rs:236-243 | Reading a path answers the object stored there, or an empty one |
| GuestKv.PutThenGet | crates/aseman-capsule/src/guest_kv.rs:198-243 | The object read back at the path written is the new one, merged into the old one if asked to, even when the listing it was merged from was cut |
| Documents.PartWritten | crates/aseman-contracts/src/documents.rs:164-191 | Every nested object gets a record of its own, merged with what is stored at its own path |
| Documents.LeafWritten | crates/aseman-contracts/src/documents.rs:164-191 | Every leaf gets a record with its own value |
| Documents.RecordIsPart | crates/aseman-contracts/src/documents.rs:164-191 | And nothing else is written: every record is for a part of the document that is not null, at its path |
| Documents.RecordsDistinct | crates/aseman-contracts/src/documents.rs:164-191 | Without dots in member names no record is written twice |
| Documents.MergedIsNewIff | crates/aseman-contracts/src/documents.rs:135-146 | A merge leaves no trace of the old object if and only if the new one covers it, member by member |
| ByteOrder.ListedIff | crates/aseman-storage/src/memory.rs:179 | A name is listed if and only if fewer names come before it than the listing may take |
| GuestKv.RecordReadBack | crates/aseman-capsule/src/guest_kv.rs:224-243 | The last record written under a path is what is read back there |
| GuestKv.NestedReadBackIff | crates/aseman-capsule/src/guest_kv.rs:198-243 | At every nested path written once: without merging the new object is read back; merging, it is merged into the one stored at that path if and only if fewer than ten thousand records come before it or it covers that one anyway |
| GuestKv.StaleStays | crates/aseman-capsule/src/guest_kv.rs:224-243 | A path below a document that the document does not write keeps the object it had |
| GuestKv.DottedNamesCollide | crates/aseman-capsule/src/guest_kv.rs:224-243 | A document whose dotted member overwrites a nested object, which reads back empty |
| GuestKv.WritesStayInside | crates/aseman-capsule/src/guest_kv.rs:206-235 | Writing a document touches no name outside its prefix |
| GuestKv.Table.DeleteJson | crates/aseman-capsule/src/guest_kv.rs:244-262 | Deleting a path removes the record and what the listing found below it, and keeps every other map |
| GuestKv.DeletesAllIff | crates/aseman-capsule/src/guest_kv.rs:244-262 | It removes exactly the record and everything below it if and only if at most ten thousand records are below it |
| GuestKv.DeletedReadsEmpty | crates/aseman-capsule/src/guest_kv.rs:244-262 | After a deletion that was not cut nothing reads back at the path or anywhere below it |
| GuestKv.DeletesNothingElse | crates/aseman-capsule/src/guest_kv.rs:244-262 | What is neither at the path nor below it is left alone |
| GuestKv.DocumentsOverlapIff | crates/aseman-capsule/src/guest_kv.rs:244-247 | Documents of two keys overlap if and only if one key with its separator is a prefix of the other with its own |
| GuestKv.NestedKeysOverlap | crates/aseman-capsule/src/guest_kv.rs:244-247 | Keys with colons can contain one another |
| GuestKv.DocumentsSeparate | crates/aseman-capsule/src/guest_kv.rs:244-247 | Documents of colon-free keys overlap only if the keys are equal |
| EventDecoders.BlockThenRest | apps/aseman-client/generated/public_v1.py:480-492 | Lines up to a blank one are one event, read afresh after it |
| EventDecoders.OneBlock | apps/aseman-client/generated/public-v1.ts:28-41 | A block between boundaries reads the same by lines |
| EventDecoders.LastBlock | apps/aseman-client/generated/public-v1.ts:536-537 | So does what is left at the end of the stream |
| EventDecoders.BlocksAreLines | apps/aseman-client/generated/public-v1.ts:522-538 | Cutting a text at blank lines and going line by line read the same events |
| EventDecoders.DecodeEvent | apps/aseman-client/generated/public-v1.ts:28-46 | The block decoder's loop computes the block's event, or none without data |
| EventDecoders.TakeBlock | apps/aseman-client/generated/public-v1.ts:528-534 | A complete block in the buffer is decoded the same whatever arrives later |
| EventDecoders.Drain | apps/aseman-client/generated/public-v1.ts:528-534 | The inner loop emits every complete block and leaves no boundary |
| EventDecoders.ChunkedEvents | apps/aseman-client/generated/public-v1.ts:522-538 | The events do not depend on how the stream is cut into chunks |
| EventDecoders.LineEvents | apps/aseman-client/generated/public_v1.py:475-507 | The line decoder's loop computes the events of the lines |
| EventDecoders.RawLinesSplit | apps/aseman-client/generated/public_v1.py:478-479 | Without carriage returns, stripped lines are the split text but for a last blank one |
| EventDecoders.DecodersAgree | apps/aseman-client/generated/public_v1.py:475-507 | For every stream without carriage returns and every cut into chunks both decoders yield the same ids, types and data |
| EventStreams.FieldReads | apps/aseman-client/generated/public-v1.ts:28-46 | A field written as name, colon, space and value is read back as that value, further spaces included |
| EventStreams.SpaceIsOptional | apps/aseman-client/generated/public-v1.ts:36 | The space may be left out unless the value begins with one |
| EventStreams.OthersIgnored | apps/aseman-client/generated/public_v1.py:486-500 | Comments and fields of other names change nothing |
| EventStreams.BareField | apps/aseman-client/generated/public-v1.ts:28-46 | A field name alone is an empty value |
| EventStreams.LinesReadBack | apps/aseman-client/generated/public_v1.py:475-507 | By lines, the stream of any events reads back as those events |
| EventStreams.StreamReadsBack | apps/aseman-client/generated/public-v1.ts:522-538 | The round trip: any ids, types and data lines, sent as a stream and cut anyhow, are decoded by both decoders to exactly those events, data joined by newlines |
| EventStreams.ReturnsMakeNoDifference | apps/aseman-client/generated/public-v1.ts:522-538 | Lines that end in carriage return and newline read the same in both, with no pair cut between chunks |
| EventStreams.CutPairDiffers | apps/aseman-client/generated/public-v1.ts:522-534 | For every line of data, a stream with a pair cut between two chunks on which the two differ |
| TokenBucket.Sanitized | apps/aseman-node/src/ratelimit.rs:199-214 | Any configured tier becomes one that refills and holds a token; a sane one is unchanged |
| TokenBucket.Fresh | apps/aseman-node/src/ratelimit.rs:303-312 | A new bucket is full |
| TokenBucket.Balance | apps/aseman-node/src/ratelimit.rs:317-326 | Tokens stay between zero and the capacity |
| TokenBucket.AfterAttempt | apps/aseman-node/src/ratelimit.rs:317-337 | An attempt keeps the bucket valid |
| TokenBucket.Bucket.TryAcquire | apps/aseman-node/src/ratelimit.rs:317-337 | An attempt succeeds exactly when a token is there, takes one, and otherwise reports a positive wait |
| TokenBucket.BalanceLater | apps/aseman-node/src/ratelimit.rs:317-326 | A later balance depends only on the balance now |
| TokenBucket.AttemptBalance | apps/aseman-node/src/ratelimit.rs:327-336 | An attempt takes exactly the token it was given |
| TokenBucket.AdmittedFrom | apps/aseman-node/src/ratelimit.rs:331-336 | A rejected bucket admits again exactly from the computed wait on |
| TokenBucket.ProbeKeepsBalance | apps/aseman-node/src/ratelimit.rs:317-337 | A rejected probe changes no later balance |
| TokenBucket.ProbeKeepsDeadline | apps/aseman-node/src/ratelimit.rs:331-336 | Nor does it move the time of the next token |
| TokenBucket.WaitIsExact | apps/aseman-node/src/ratelimit.rs:317-337 | After a rejection, any probes before the wait are all rejected and change nothing, and an attempt succeeds exactly from the wait on |
| TokenBucket.ReportedWait | apps/aseman-node/src/ratelimit.rs:331-336 | Nothing succeeds before the reported wait, and an attempt at its end succeeds if and only if the one-hour cap did not shorten it |
| TokenBucket.BurstCosts | apps/aseman-node/src/ratelimit.rs:317-337 | A burst goes through in full exactly when the bucket holds it, and costs that much |
| TokenBucket.BurstAdmits | apps/aseman-node/src/ratelimit.rs:317-337 | Of a burst exactly as many go through as the bucket holds whole tokens |
| TokenBucket.DrainTellsFull | apps/aseman-node/src/ratelimit.rs:317-337 | A full drain succeeds exactly from a full bucket |
| RateLimiter.DefaultConfig | apps/aseman-node/src/ratelimit.rs:234-257 | The defaults are usable and both tiers refill within the idle time |
| RateLimiter.BucketsSeparate | apps/aseman-node/src/ratelimit.rs:393-404 | Callers share a bucket exactly when they are the same user or anonymous from the same address |
| RateLimiter.AfterCheck | apps/aseman-node/src/ratelimit.rs:406-447 | A check keeps every bucket valid |
| RateLimiter.AfterEvict | apps/aseman-node/src/ratelimit.rs:450-454 | A sweep keeps every bucket valid |
| RateLimiter.Service.CheckAt | apps/aseman-node/src/ratelimit.rs:406-447 | The method decides and changes the state as specified and counts its decisions |
| RateLimiter.CheckLevels | apps/aseman-node/src/ratelimit.rs:406-447 | A check charges the caller's bucket by the token it got and nobody else's, and the node-wide one exactly if it is allowed |
| RateLimiter.RejectionMeans | apps/aseman-node/src/ratelimit.rs:406-447 | A rejected caller is told which bucket was out, its own first, and that bucket's wait at its own tier's rate, an hour at most |
| RateLimiter.LevelLater | apps/aseman-node/src/ratelimit.rs:317-326 | An identity's level later depends only on its level now |
| RateLimiterRuns.EvictKeepsLevel | apps/aseman-node/src/ratelimit.rs:450-454 | With a forgettable tier, a sweep changes nobody's level |
| RateLimiterRuns.SweepsAreInvisible | apps/aseman-node/src/ratelimit.rs:406-454 | With both tiers forgettable, sweeps at any moments change no decision of any call sequence |
| RateLimiterRuns.RunOfOne | apps/aseman-node/src/ratelimit.rs:406-447 | An identity's own checks pass exactly as its bucket alone would admit them |
| RateLimiterRuns.SweepShows | apps/aseman-node/src/ratelimit.rs:450-454 | If a tier is not forgettable, a sweep gives some sequence another answer |
| RateLimiterRuns.InvisibleIff | apps/aseman-node/src/ratelimit.rs:406-454 | Sweeping is invisible to every call sequence if and only if both tiers refill within the idle time |
| RateLimiterRuns.PassesAtMost | apps/aseman-node/src/ratelimit.rs:317-337 | What a bucket lets through is at most what it held plus its refill |
| RateLimiterRuns.AllowancesAtMost | apps/aseman-node/src/ratelimit.rs:406-447 | What the node lets through is at most what the node-wide bucket held plus its refill |
| RateLimiterRuns.RateBound | apps/aseman-node/src/ratelimit.rs:406-454 | In every window, after any history, one identity gets at most burst plus rate times length, provided its tier refills within the idle time or no sweep falls in the window; all together get at most the global burst plus rate times length, sweeps or not |
| RateLimiterRuns.NewcomerBurst | apps/aseman-node/src/ratelimit.rs:393-404 | A verified user that is new gets exactly the whole tokens of the authenticated burst at one moment, an anonymous address those of the anonymous one |
| RateLimiterRuns.RateByClass | apps/aseman-node/src/ratelimit.rs:393-447 | The rate bound in two halves: users by the authenticated tier, addresses by the anonymous one |
| RateLimiterRuns.DefaultLimits | apps/aseman-node/src/ratelimit.rs:234-257 | The bounds under the defaults, in numbers |
| RateLimiterRuns.DefaultBurst | apps/aseman-node/src/ratelimit.rs:234-257 | The bursts under the defaults, in numbers |
| RateLimiterRuns.TelltalePasses | apps/aseman-node/src/ratelimit.rs:406-454 | A drain, a sweep and another drain all go through |
| RateLimiterRuns.SweptWindow | apps/aseman-node/src/ratelimit.rs:450-454 | A window with a sweep in which an identity's bucket lets more through, if its tier does not refill within the idle time |
| RateLimiterRuns.RateSurvivesSweepsIff | apps/aseman-node/src/ratelimit.rs:406-454 | What an identity's own bucket lets through keeps to its rate in every window with sweeps, if and only if its tier refills within the idle time |
| RateLimiterRuns.ServedAtMost | apps/aseman-node/src/ratelimit.rs:406-447 | What an identity is allowed is at most what its bucket lets through, and all of it without a node-wide gate |
| RateLimiterRuns.ServedRateIff | apps/aseman-node/src/ratelimit.rs:406-454 | What an identity is allowed keeps to its rate under sweeps if its tier refills within the idle time or the node-wide gate is no wider than the tier; without a gate if and only if the tier does |
| RateLimiterRuns.RejectionIsFreeIff | apps/aseman-node/src/ratelimit.rs:424-444 | A rejected check costs its identity nothing if and only if its own bucket rejected it |

## Left out

- Storage engines, SQL, consensus: a row is read and committed as the `serializable` profile promises; how providers keep that promise is not modelled.
- TLS, HTTP, sockets, process control, file-backed blobs: I/O with little state to reason about.
- Signatures, digests, the spelling of JSON: answers of the environment; payloads are compared as text.
- Policy evaluation and key epochs: a yes or no from the environment.
- Floating point and durations: the limiter is over real numbers, without rounding; the limiter's map is updated one whole check at a time.
- Integer widths: generations, versions, sequences and microseconds are unbounded except where the model says otherwise (lease tokens, stored grant times).
- VmmService.Workloads.Observe: does not model workloads created while the pass runs, which it may or may not meet, nor a store or event log that fails in the middle of it.
- VmmService.Service.OperationFor: does not model operations recorded behind the cursor without end, under which the search need not end.
- VMM reconcile: that it opens no second operation for a workload is claimed nowhere, since it looks at the newest page of operations only; the model lets it open one at any time.
- VMM backend liveness: whether a workload converges depends on the backend.
- VMM idempotency keys at the HTTP edge, event logs, data-plane submissions, files and usage: they would only add easier members.
- GuestKv.Table.PutJson: does not model how JSON text is parsed and written; the codec is a parameter, and reading back what was written is asked of it.
- RateLimiterRuns.ServedRateIff: does not say exactly when the bound on what is allowed holds with a node-wide gate wider than the tier; there it says only that a tier that refills within the idle time is enough.
- EventDecoders.DecodersAgree: does not model carriage returns elsewhere than before a newline, nor decoding bytes to text; `EventStreams.ReturnsMakeNoDifference` has the pairs.
- Federation forwarding, workload descriptors, challenges, key rotation, sessions, creature, entity, gateway, metering and token-lock repositories: the same patterns with easier claims.
