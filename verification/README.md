# Verified model of the UPF session control plane and the BESS core

This project models the parts of a 5G user plane function that are hardest to get right, and proves
what they promise. The control plane (`pfcpiface/`, Go) keeps PFCP sessions: it parses packet
detection, forwarding and QoS rules (PDRs, FARs, QERs), programs them into a datapath in batches
whose commands take effect concurrently, and shares one pool of UE addresses among all
associations. The datapath core (`bess/core/`, C++) connects modules by gates, orders them, lays
out per-packet metadata and hands out DMA memory.

`dafny verify dfyconfig.toml` checks everything.

## What is where

| file | what it models |
|---|---|
| `Wrappers.dfy` | `Option` and `Result` |
| `Bits.dfy` | powers of two and bitwise operations on natural numbers |
| `Ports.dfy` | port ranges compiled to ternary rules and to pairs of them |
| `Rules.dfy` | PDRs, FARs, QERs, the datapath entries they become, and the entry-equality tests |
| `Packets.dfy` | which packets a PDR describes, and which its datapath entries match |
| `RuleLists.dfy` | create, update, remove and `heldVersions` on a session's rule lists |
| `Datapath.dfy`, `Rollback.dfy` | batches of commands, histories of what took effect, and when a restore is exact |
| `Modification.dfy`, `ModificationSafety.dfy`, `ModificationHandler.dfy` | the session modification handler and its rollback |
| `AcceptedRules.dfy`, `RefusedRules.dfy` | what a message, accepted or refused, does to the session's rules and sends, in terms of the message alone |
| `Changes.dfy`, `AcceptedModification.dfy`, `AcceptedInStep.dfy` | what an accepted modification leaves in the datapath |
| `Workers.dfy` | the workers of a batch: from the datapath's answers to the reports, and back to what took effect |
| `QerMarking.dfy` | the choice of the session-level QER |
| `Slices.dfy`, `SessionSlices.dfy` | the same handler over Go slices that share arrays |
| `IpPool.dfy` | the address pool, its construction from a subnet, and `inc` |
| `Association.dfy`, `Teardown.dfy` | any number of associations with handlers and teardowns, as one transition system, and how teardowns are ordered against handlers |
| `AddressSafety.dfy`, `AddressRuns.dfy`, `QuietReleases.dfy` | which addresses are free or given away |
| `NamedSessions.dfy`, `Programmed.dfy`, `Progress.dfy` | that no session, entry or address is forgotten, that what a session names is programmed, and that handlers and teardowns end |
| `Notify.dfy` | the notification socket shared by the listener and `Exit` |
| `Teid.dfy` | the TEID generator |
| `MemoryPool.dfy` | `DmaMemoryPool` |
| `Priority.dfy`, `Gates.dfy` | input-gate priorities and numbering; the gate structure under connect, disconnect and destroy |
| `Offsets.dfy`, `Metadata.dfy`, `OffsetArrays.dfy` | metadata offsets in int8 arithmetic, the packing of scope components, and the offsets and bytes the modules see |

## The main results

- A refused modification leaves the datapath exactly as it was, whatever part of its writes and
  deletes took effect and in whatever order, once the two rollback batches have finished
  (`RefusedModificationLeavesDatapath`). It is so in every run if and only if the session's own
  rules agree wherever two of them share a datapath key (`RollbackExactIffRulesAgree`);
  `DisagreeingSession` is a session and a run for which it is not.
- An accepted message leaves the session with exactly the rules it had and the message created, less
  those it removes, each in the version of the last update that names it and in the old order
  (`AcceptedRulesAre`); exactly which messages are accepted, and what their batches and those of a
  refused one contain, is said likewise in terms of the message (`BatchesAre`, `RefusedBatchesAre`).
- The datapath entries of a PDR match a packet if and only if the PDR describes it, and then exactly one
  of them does (`EntriesMatchDescribed`).
- An accepted modification leaves the FAR table equal to the session's FARs (`AcceptedFarsInStep`).
  For PDR and QER entries the like is false: an entry the session stops naming without removing it
  stays (`AbandonedEntryStays`), as when an update moves a PDR (`MovedPdrAbandonsEntry`). When no two
  of the session's rules share a key, the datapath ends with exactly the rules the session is left
  with, values included, if and only if every PDR keeps its keys, every QER its level and every PDR
  that is not written its first QER (`AcceptedInStepIff`).
- A batch whose calls all fail at their deadline counts as one that succeeded, though none of it may
  have taken effect (`FailedCallsLookLikeSuccess`). What the answers say is that a batch is certain
  to have finished exactly when every command of it was answered as done (`CertainToFinishIff`), and
  then both results above follow from the answers alone (`RestoredWhenAnswered`,
  `CompletedWhenAnswered`), also where a batch is rejected for a rule that does not translate and so
  has no command (`TranslatedAreAnswered`).
- The handler over slices writes no array that existed before it, so a refused message leaves the
  stored session unchanged down to spare capacity (`SessionSlices.Modify`, which has no `modifies`
  clause), and it publishes what the handler over values does.
- No free or reassigned address belongs to a session with a rule programmed or on its way, in every
  run of establishments, modifications, deletions and teardowns in which finished removals were
  answered, no report response deletes a session, and no modification forgets an entry it did not see
  removed (`AddressesAreSafe`). Each condition is needed: four runs, each with one step that does
  not meet it, end with a live rule's address free (`ReportFreesLiveAddress`,
  `UnansweredDeletionFreesLiveAddress`, `MoveFreesLiveAddress`, `TimedOutModificationFreesLiveAddress`).
  Of any run at all it is so if and only if each step that gives an address back finds its session
  without one or without a live rule (`SafeIffReleasesQuiet`).
- Nothing is forgotten. In every run each address held belongs to a session that an association names,
  in its store, its handler or its teardown, or that a teardown gave up (`HeldAddressIsNamed`); in every
  covered run so does each entry that is programmed or on its way (`LiveEntryIsNamed`). A session is given
  up only after its removal ran out of time twice (`GivenUpRanOutTwice`). In covered runs without such
  time-outs and rejections what a session names is programmed, or will be (`NamedEntriesAreProgrammed`).
- Handlers and teardowns always have a step to take and each step brings them closer to their end
  (`Progress.dfy`). The listener for notifications dials again from every state until the exit, and stops
  only for the exit (`DialsAgain`, `StopsOnlyForExit`).
- The session-level QER is meant to be one that all PDRs refer to. That is false
  (`StaleCandidateIsChosen`, `UnrelatedQerIsMarked`): when any candidate is eligible, it is so if and only
  if some eligible QER common to all PDRs beats every eligible candidate that is not
  (`ChosenIsCommonIff`); when none is, the first QER is marked, whatever it is.
- Teardown is linearised against the handlers (`LateHandlerChangesNothing`, `ClosedStaysEmpty`), and
  the gauge counts the stored sessions.
- The free list of the memory pool is determined by the set of free bytes, so freeing everything in
  any order restores it (`CanonicalIsUnique`, `FreeAll`), and `Alloc` fails only if nothing fits.
- On acyclic graphs priorities are longest paths, where paths are cut short by the priorities that
  earlier updates left. The numbering is a bijection, and upstream gates come first when all gates are
  fresh. Over left-over priorities that is false (`StaleOrder`): the priorities increase downstream if
  and only if what was left is overtaken (`IncreasingIffOvertaken`). No priority exceeds the number of
  input gates, on any graph. Gate connections stay two-sided under every operation.
- No aligned offset below the one a metadata component gets is clear of its placed neighbours, and it
  gets no space only if no aligned offset is (`NothingLower`).
- Metadata placement is safe when the placed neighbours are in the same order by offset and by end,
  and `SafeIffNoneReachesPast` says exactly when it is safe otherwise. For a whole layout the promise
  "components that share a module do not overlap" is false: `TangleOverlaps` gives six components,
  in an order the degree sort can produce, that always end up overlapping. `LayoutHasNoOverlap`
  proves it whenever any two earlier neighbours of a component share a module themselves. Then every
  byte of a module belongs to one component (`AssignOffsets`), and no two attributes of a module
  overlap (`AttributesAreApart`).

## Assumptions

- Commands on one datapath key take effect in the order in which their batches were issued; within
  a batch, and across keys, in any order. This is `InIssueOrder` in `Datapath.dfy` and the queue of
  a slot in `Association.dfy`.
- The datapath does what it answers: a command answered as done took effect (`Truthful`). Results that
  speak of a finished batch, such as `Finished` in `Datapath.dfy` and `Completed` in `Changes.dfy`,
  are about batches every command of which took effect. A batch that completes gives that only if
  every command of it was answered, which `Workers.dfy` states as `EachAnswered` and
  `Association.dfy` as the flag `answered` of a step.
- No datapath module refuses to delete a rule it holds, as the rollback and the teardown rely on.
- `Association.dfy` keys a datapath entry by session and entry: the entries of two sessions are
  disjoint. Local SEIDs drawn for new sessions are unused on all associations.
- The rules of a message carry the session's own SEID, as parsing stamps it (`StampedMessage`).
- What the undo of a refused modification removes and writes back covers what the modification wrote;
  `Association.dfy` has it as the guard of `SendUndo`, and `WritesCovered` proves it of the rules.
- Hugepages are disjoint and aligned to 4096 bytes.

Where a promise turned out false of the code, the code is modelled as it is, with an input that shows
it and the condition under which it holds: the metadata layout (`TangleOverlaps`), entries left behind
by an update that moves a PDR (`MovedPdrAbandonsEntry`), the entry test on PDRs without keys
(`KeylessPdrsDisagree`), the rollback when the session's own rules disagree (`DisagreeingSession`),
batches that count as done though no call was answered (`FailedCallsLookLikeSuccess`), the address of a
live rule freed by a report response, by a deletion whose calls failed, or after a modification that
forgot the rule (`AddressRuns.dfy`), the numbering of gates by an update that is not the first
(`StaleOrder`), the session-level QER that not all PDRs refer to (`StaleCandidateIsChosen`,
`UnrelatedQerIsMarked`), and the rounding of sizes next to 2^64, which makes `Alloc` give
out an address that stays free (`AlignCeilCovers`, `DmaMemoryPool.Alloc`).

## Model

| member | source | states |
|---|---|---|
| `Ports.PortMask` | pfcpiface/parse_pdr.go:158-177 | the mask is that of the widest aligned block that starts at the port and stays within the end; port 0 gets a block of one |
| `Ports.MaxPortOfBlock` | pfcpiface/parse_pdr.go:152-156 | for an aligned block the 16-bit sum does not wrap and gives its last port |
| `Ports.BuildTernaryRules` | pfcpiface/parse_pdr.go:150-188 | terminates with at most 32 aligned prefix blocks that match each port of the range exactly once and no other port; nothing for an inverted range |
| `Ports.AsTrivialTernaryMatch` | pfcpiface/parse_pdr.go:98-106 | succeeds exactly for wildcard and exact ranges, and then is the one rule the exact strategy gives |
| `Ports.ExactMatchesAccepted` | pfcpiface/parse_pdr.go:116-148 | the exact strategy's rules match each accepted port once, under both wildcard spellings, and no other |
| `Ports.AsComplexTernaryMatches` | pfcpiface/parse_pdr.go:116-148 | either strategy gives rules that match each accepted port once and no other; only the exact one refuses |
| `Ports.PairsCount` | pfcpiface/parse_pdr.go:261-282 | a pair of ports matches as many built rules as the range rules its range port matches, if the other port matches the fixed rule |
| `Ports.BuildRulesFromRange` | pfcpiface/parse_pdr.go:261-282 | the loop builds those pairs in order |
| `Ports.PortRulesExact` | pfcpiface/parse_pdr.go:205-259 | refused exactly for two true ranges or one too wide; otherwise a pair accepted by both ranges matches exactly one rule and any other pair none |
| `Ports.CreatePortRangeCartesianProduct` | pfcpiface/parse_pdr.go:205-259 | computes that compilation |
| `Ports.PortRulesInNumbers` | pfcpiface/parse_pdr.go:60-259 | for every pair of ranges, in numbers: refused exactly for two ranges of several ports or for one with a 16-bit width above 100, and otherwise a pair of ports matches one rule if each is unrestricted or in its range, and none if not |
| `Ports.AnyPortCompiles` | pfcpiface/parse_pdr.go:77-106 | 0-0 and 0-65535 compile alike on either side, and two such ranges to the one rule that matches every pair |
| `Ports.RangeCompiles` | pfcpiface/parse_pdr.go:205-282 | a range of up to 100 ports beside a single or any port compiles, on either side, to one rule per port in ascending order |
| `Rules.PortRulesMember` | pfcpiface/parse_pdr.go:205-282 | a rule is emitted exactly when each of its halves is in its own range's compilation |
| `Rules.PdrEntryIdentity` | pfcpiface/parse_pdr.go:345-360 | PDRs that pass the test have the same delete keys, and PDRs with the same keys pass it unless they have none |
| `Rules.PdrWithoutKeys` | pfcpiface/parse_pdr.go:205-259 | a PDR has no key exactly when its ports do not translate or one range is inverted |
| `Rules.KeylessPdrsDisagree` | pfcpiface/parse_pdr.go:345-360 | two PDRs whose port range is too wide to translate, so that they have no keys, and that the test tells apart |
| `Rules.QerEntryIdentity` | pfcpiface/parse_qer.go:38-40 | for versions of one QER the level decides whether the entries are the same |
| `Packets.EntriesMatchDescribed` | pfcpiface/bess.go:1131-1202 | a packet has the PDR's interface, tunnel, addresses, protocol and ports under their masks if and only if an entry of the PDR matches it, and then one entry does |
| `Packets.UntranslatedMatchesNothing` | pfcpiface/bess.go:1131-1202 | a PDR whose ports do not translate matches no packet |
| `Packets.ProgrammedValues` | pfcpiface/bess.go:1131-1577 | what each entry of a PDR, a FAR and a QER of either level holds, uplink under access and downlink under core |
| `RuleLists.Update` | pfcpiface/session_pdr.go:45-54 | replaces the first rule with the ID, reports whether there was one |
| `RuleLists.Remove` | pfcpiface/session_pdr.go:57-66 | takes out the first rule with the ID and returns it, or changes nothing |
| `RuleLists.UpdatesKeepIds` | pfcpiface/session_qer.go:23-32 | updates never change the ID at a position |
| `RuleLists.UpdatesTouchExactly` | pfcpiface/messages_session.go:447-508 | after all updates a position holds the last update naming its ID if it is the first with that ID, and is unchanged otherwise |
| `RuleLists.FoundTouchesAlike` | pfcpiface/messages_session.go:447-508 | the updates that were skipped as not found touch nothing |
| `RuleLists.HeldVersions` | pfcpiface/sessions.go:61-82 | everything past kept, then exactly the touched positions before it in order |
| `RuleLists.HeldPositionsAreTouched` | pfcpiface/sessions.go:61-82 | sound and complete: a kept position is listed exactly when an update changed it, in its final version |
| `Datapath.LastCommandDecides` | pfcpiface/bess.go:169-248 | a key ends as its last command left it |
| `Datapath.LastInLatestBatch` | pfcpiface/bess.go:169-248 | the last command on a key comes from the latest finished batch that names it, or a later one |
| `Datapath.GRPCJoin` | pfcpiface/bess.go:1860-1881 | completes exactly when all reports precede the timer, succeeds exactly when they are all good |
| `Rollback.RestoreIsExact` | pfcpiface/messages_session.go:533-615 | batches that end with a covering removal and a restore, both finished, leave the table as it was in every history |
| `Rollback.RestoreExactIffRulesAgree` | pfcpiface/messages_session.go:533-615 | exact in every run if and only if the restored rules agree on shared keys |
| `Rollback.DisagreeingRun` | pfcpiface/messages_session.go:533-615 | a run, in which no command takes effect twice, that ends elsewhere whenever they do not |
| `Modification.ParseCreates` | pfcpiface/messages_session.go:406-441 | appends the parsed rules in order, or fails at the first that does not parse |
| `Modification.ParseUpdates` | pfcpiface/messages_session.go:447-508 | applies the updates in order and collects those that found their rule |
| `Modification.RemoveAll` | pfcpiface/messages_session.go:630-670 | removes and collects the rules in order; fails exactly when an ID does not parse or is not held |
| `Modification.MovedRules` | pfcpiface/messages_session.go:577-587 | the updated rules whose entry is not that of the session's own version |
| `Modification.RejectsIff` | pfcpiface/bess.go:169-248 | a batch is rejected exactly when all its reports come before the timer and one of them is bad |
| `ModificationSafety.RuleCovered` | pfcpiface/messages_session.go:549-603 | every written rule has the keys of a rule the rollback removes or restores |
| `ModificationSafety.WritesCovered` | pfcpiface/messages_session.go:549-603 | every key the message writes is removed or rewritten by the rollback |
| `ModificationSafety.RefusedBatchesRestore` | pfcpiface/messages_session.go:335-350 | the batches of every refusal after the first write end with that removal and restore |
| `ModificationSafety.RefusedModificationLeavesDatapath` | pfcpiface/messages_session.go:520-615 | the datapath ends exactly as before a refused message, for every history in which the rollback's batches finish |
| `ModificationSafety.RollbackExactIffRulesAgree` | pfcpiface/messages_session.go:520-615 | so in every run if and only if the session's rules agree on shared keys |
| `ModificationSafety.DisagreeingSession` | pfcpiface/messages_session.go:520-615 | two PDRs with one match and different FARs, and a refused message after which the datapath differs in some run |
| `Changes.MirrorsIffTidy` | pfcpiface/messages_session.go:617-683 | for rules that share no key, writing and then removing leaves exactly the images that are left if and only if each rule's own change is tidy |
| `AcceptedModification.AcceptedKeys` | pfcpiface/messages_session.go:617-681 | the keys left by an accepted message are those held or written less those removed |
| `AcceptedModification.HeldIsRestOrGone` | pfcpiface/messages_session.go:626-676 | every rule held once the message is applied is left or removed |
| `AcceptedModification.AcceptedKeysInStepIff` | pfcpiface/messages_session.go:617-683 | datapath and session have the same keys exactly when no removed key is still named, every former key is named or removed, and every named key was there or written |
| `AcceptedModification.AbandonedEntryStays` | pfcpiface/messages_session.go:447-683 | for any session and any accepted message, an entry the session stops naming without removing it stays in the datapath |
| `AcceptedModification.MovedPdrAbandonsEntry` | pfcpiface/messages_session.go:447-466 | for example the entry of a session's one PDR when an update moves it |
| `AcceptedModification.AcceptedFarsInStep` | pfcpiface/sessions.go:61-82 | with distinct FAR IDs the session's part of the FAR table equals its FAR list after an accepted message |
| `AcceptedModification.AcceptedStamped` | pfcpiface/messages_session.go:402-670 | written, removed and remaining rules carry the session's SEID |
| `AcceptedRules.AcceptedRulesAre` | pfcpiface/messages_session.go:402-683 | with distinct IDs an accepted message leaves, for PDRs, FARs and QERs, exactly the rules held or created and not removed, in order, each equal to the last update that names it or else to itself, but for the QER level and QER list the marking sets |
| `AcceptedRules.LeavesEach` | pfcpiface/messages_session.go:402-683 | no rule of a removed ID is left, and of every other ID exactly one |
| `AcceptedRules.AcceptedUnlessBad` | pfcpiface/messages_session.go:402-681 | a message that does not parse sends nothing; one that parses and removes rules that are there, each once, is accepted if no worker reports a failure |
| `AcceptedRules.BatchesAre` | pfcpiface/messages_session.go:510-681 | accepted if and only if the removals name rules that are there, each once, and neither batch is rejected; the first writes exactly the rules created or updated and the second deletes exactly those removed, each once and in its final version, and a refused message has sent the first and, if nothing was wrong before it, the second |
| `RefusedRules.RefusedBatchesAre` | pfcpiface/messages_session.go:549-615 | a refusal removes exactly the rules the message created and the updated ones whose entry is not that of the session's own version, and then writes exactly the rules the session had |
| `RefusedRules.RemovalSparesUnmoved` | pfcpiface/messages_session.go:577-587 | a PDR in that removal was created, or its keys are not those of the session's own version |
| `AcceptedInStep.PdrTidyIff` | pfcpiface/messages_session.go:447-466 | a PDR's change is tidy exactly when its keys are kept, and its first QER if it stays unwritten |
| `AcceptedInStep.QerTidyIff` | pfcpiface/messages_session.go:489-531 | a QER's change is tidy exactly when its level is kept |
| `AcceptedInStep.AcceptedInStepIff` | pfcpiface/messages_session.go:402-683 | for rules that share no key, the datapath has exactly the rules the session is left with, values included, if and only if those hold of every PDR and QER |
| `ModificationHandler.Upf.Send` | pfcpiface/bess.go:169-248 | one batch; rejected exactly if it had calls and its join completed and reported a failure, finished exactly if it had none or the join completed |
| `ModificationHandler.Upf.RollbackRules` | pfcpiface/messages_session.go:574-603 | created rules and updated rules that moved |
| `ModificationHandler.Upf.RollBack` | pfcpiface/messages_session.go:605-614 | sends the removal and then the restore |
| `ModificationHandler.Upf.Edit` | pfcpiface/messages_session.go:402-531 | creates, updates, marking and held versions, or the first parse failure |
| `ModificationHandler.Upf.RemoveRules` | pfcpiface/messages_session.go:626-676 | all removals of the message, or the first failure |
| `ModificationHandler.Upf.Delete` | pfcpiface/messages_session.go:626-681 | the removals and their batch, rejected or not |
| `ModificationHandler.Upf.Program` | pfcpiface/messages_session.go:617-681 | writes, deletes or rolls back with exactly the batches the decision lists |
| `ModificationHandler.Upf.Modify` | pfcpiface/messages_session.go:378-681 | accepted exactly as decided; a refusal leaves the datapath in every history |
| `ModificationHandler.Upf.HandleModification` | pfcpiface/messages_session.go:301-698 | all four answers: not found, releasing, rejected with the store unchanged and the datapath restored, accepted with the new rules published |
| `ModificationHandler.RefusalLeavesDatapath` | pfcpiface/messages_session.go:335-350 | every refusal is of that kind |
| `Workers.Work` | pfcpiface/bess.go:1106-1433 | a worker reports its rule as programmed exactly if it translates and no command of it was refused |
| `Workers.MissingRuleIsGood` | pfcpiface/bess.go:1062-1111 | a worker that deletes is content with success, a failed call and error 2; one that adds only with success and a failed call |
| `Workers.AnsweredBatchFinishes` | pfcpiface/bess.go:1056-1105 | a batch that succeeds without a failed call was answered throughout and finished: every command took effect |
| `Workers.TranslatedAreAnswered` | pfcpiface/messages_session.go:595-608 | every command was answered if no call failed and every rule that translates was reported as programmed, whatever becomes of the others |
| `Workers.CertainToFinishIff` | pfcpiface/bess.go:1056-1105 | a batch is certain to have finished exactly when some worker was answered for each of its commands |
| `Workers.FailedCallsLookLikeSuccess` | pfcpiface/bess.go:1056-1072 | a batch every call of which fails completes and succeeds, and fits a history in which none of it took effect |
| `Workers.RestoredWhenAnswered` | pfcpiface/messages_session.go:520-615 | a refused message leaves the datapath as it was if every command of both rollback batches was answered as done, whether or not a batch was rejected |
| `Workers.CompletedWhenAnswered` | pfcpiface/messages_session.go:617-681 | both batches of an accepted message finished if every command of them was answered as done |
| `Slices.CloneSlice` | pfcpiface/sessions.go:92-98 | a fresh array of the same capacity and contents |
| `Slices.Append` | pfcpiface/session_pdr.go:40-42 | in place into spare capacity or into a fresh array; the old header sees no change |
| `Slices.UpdateFirst` | pfcpiface/session_far.go:110-124 | assigns in place, so every header over the array sees it |
| `Slices.RemoveFirst` | pfcpiface/session_far.go:127-136 | shifts in place; a header of the old length sees the last element twice |
| `SessionSlices.CreatePdr` | pfcpiface/session_pdr.go:40-42 | the cells hold the old PDRs and the new one, with a list array of its own |
| `SessionSlices.UpdatePdr` | pfcpiface/session_pdr.go:45-54 | the cells hold the updated list; no other list array is touched |
| `SessionSlices.RemovePdr` | pfcpiface/session_pdr.go:57-66 | the cells hold the list without the first PDR of the ID |
| `QerMarking.Intersect` | pfcpiface/session_qer.go:35-45 | the elements of one list that are in the other, in order |
| `QerMarking.Narrow` | pfcpiface/session_qer.go:70-95 | what is common to candidates and list overwrites the front of the candidates and the rest stays, list by list, until nothing is common |
| `QerMarking.CommonStays` | pfcpiface/session_qer.go:70-95 | an ID in all lists stays a candidate, and every candidate is in the last PDR's list |
| `QerMarking.Choose` | pfcpiface/session_qer.go:68-132 | none exactly without candidates; otherwise the last of the eligible candidates with the greatest uplink limit, or the first QER with ID 0 if there is no eligible one |
| `QerMarking.ChosenIsCommonIff` | pfcpiface/session_qer.go:68-132 | the chosen QER is in every PDR's list if and only if some eligible one is that beats all eligible candidates that are not |
| `QerMarking.SharedChoiceIsCommon` | pfcpiface/session_qer.go:68-132 | so it is when every PDR has all IDs of the last one |
| `QerMarking.StaleCandidateIsChosen` | pfcpiface/session_qer.go:86-95 | two PDRs, one without QER 2, for which QER 2 is chosen |
| `QerMarking.UnrelatedQerIsMarked` | pfcpiface/session_qer.go:105-132 | a QER no PDR refers to is marked when every candidate guarantees a rate |
| `SessionSlices.MoveToEnd` | pfcpiface/session_qer.go:133-140 | the session QER's ID moves to the end of the list in place |
| `SessionSlices.MovedToEndKeeps` | pfcpiface/session_qer.go:133-140 | the list keeps its elements and the order of the others, and the ID comes last if it is there |
| `SessionSlices.MarkPdrs` | pfcpiface/session_qer.go:133-141 | every PDR's list is so reordered and nothing else changes |
| `SessionSlices.MarkSessionQer` | pfcpiface/session_qer.go:68-142 | the writes for whatever QER was chosen are those of the value model's marking, inside arrays reached by the session |
| `SessionSlices.ClonePdrs` | pfcpiface/sessions.go:92-106 | same PDRs and capacity, fresh array, fresh lists |
| `SessionSlices.Clone` | pfcpiface/sessions.go:92-106 | the clone holds the same rules and reaches only fresh arrays |
| `SessionSlices.Edit` | pfcpiface/messages_session.go:378-510 | creates, updates and marking on a clone write no array that existed |
| `SessionSlices.RemoveRules` | pfcpiface/messages_session.go:626-676 | in-place removals give the remaining rules, or fail as the value model does |
| `SessionSlices.Modify` | pfcpiface/messages_session.go:378-683 | accepted or refused, nothing that existed has changed; accepted, the slices hold the rules to publish |
| `SessionSlices.HandleModification` | pfcpiface/messages_session.go:353-683 | a refusal leaves every stored session, an acceptance all the others, down to the arrays |
| `SessionSlices.PublishesAsDecided` | pfcpiface/messages_session.go:617-683 | the slice handler accepts and publishes exactly as the value handler decides |
| `SessionSlices.UpdateWithoutClone` | pfcpiface/sessions.go:84-91 | without the clone an update is seen by the stored session at once |
| `IpPool.AllocKeepsPartition` | pfcpiface/ip_pool.go:50-75 | an allocation keeps free and held addresses a partition |
| `IpPool.ReleaseKeepsPartition` | pfcpiface/ip_pool.go:83-105 | so does a release |
| `IpPool.RunKeepsPartition` | pfcpiface/ip_pool.go:50-105 | conservation over every run |
| `IpPool.AddressIsKept` | pfcpiface/ip_pool.go:50-75 | a session keeps one address until it is released |
| `IpPool.QueuePosition` | pfcpiface/ip_pool.go:50-105 | a free address moves up by one with each fresh allocation and by nothing else |
| `IpPool.ReleasedAddressWaits` | pfcpiface/ip_pool.go:83-105 | an address released while n are free is not given out by the next n fresh allocations |
| `IpPool.IPPool.LookupOrAllocIP` | pfcpiface/ip_pool.go:50-75 | the held address, or the first free one, or failure exactly when there is neither |
| `IpPool.IPPool.Release` | pfcpiface/ip_pool.go:83-105 | returns the session's address to the back of the queue, if it held one |
| `IpPool.IncIsSuccessor` | pfcpiface/utils.go:56-63 | the byte-wise carry is the next number, wrapping from all ones to zero |
| `IpPool.IncInPlace` | pfcpiface/utils.go:56-63 | the loop computes it in place |
| `IpPool.ContainsIsInterval` | pfcpiface/ip_pool.go:24-48 | masked equality byte by byte is membership in an interval |
| `IpPool.Walk` | pfcpiface/ip_pool.go:34-38 | the walk ends, also where it wraps, with every address of the subnet in ascending order |
| `IpPool.NewIPPool` | pfcpiface/ip_pool.go:24-48 | for addresses of n bits and every prefix length p from 1 to n-1 exactly the 2^(n-p)-2 host addresses in ascending order; an error for n |
| `IpPool.PrefixZeroNeverLeaves` | pfcpiface/ip_pool.go:24-48 | for prefix length 0 every address is in the subnet, so the walk has no end |
| `TeardownOrder.HandlerStepKeeps` | pfcpiface/messages_session.go:27-798 | every handler step keeps the association's invariant |
| `TeardownOrder.TeardownStepKeeps` | pfcpiface/conn.go:290-393 | every teardown step keeps it |
| `TeardownOrder.RunKeepsOrder` | pfcpiface/conn.go:290-393 | it holds in every state of every run |
| `TeardownOrder.GaugeCountsStoredSessions` | pfcpiface/sessions.go:109-146 | between handlers the gauge equals the number of stored sessions |
| `TeardownOrder.LateHandlerChangesNothing` | pfcpiface/conn.go:301-305 | after the snapshot a handler's steps change neither its association nor anything shared |
| `TeardownOrder.TeardownRemovesEveryStoredSession` | pfcpiface/conn.go:301-330 | past its snapshot a teardown has exactly the stored sessions left, each once |
| `TeardownOrder.ClosedForever` | pfcpiface/conn.go:284-341 | a closed association stays closed |
| `TeardownOrder.ClosedStaysEmpty` | pfcpiface/conn.go:290-341 | once closed, store and gauge stay empty |
| `AddressSafety.ModifyStepSafe` | pfcpiface/messages_session.go:301-698 | every step of a modification keeps the address invariant, its removals and its rollback included, if it stops naming only entries whose removal was answered |
| `AddressSafety.HandlerStepSafe` | pfcpiface/messages_session.go:27-798 | every covered handler step keeps it, including a rejected establishment kept because its rollback timed out |
| `AddressSafety.TeardownStepSafe` | pfcpiface/conn.go:301-393 | every teardown step keeps it, including addresses held after two unfinished removals |
| `AddressSafety.StepKeepsInv` | pfcpiface/conn.go:301-393 | every covered step of any association or of the datapath keeps it |
| `AddressSafety.RunKeepsInv` | pfcpiface/conn.go:301-393 | it holds in every state of every covered run |
| `AddressSafety.AddressesAreSafe` | pfcpiface/conn.go:301-393 | no free or reassigned address belongs to a session with a rule programmed or in flight, and the pool is conserved |
| `AddressSafety.ReleaseIsSafeIff` | pfcpiface/conn.go:309-328 | releasing an address is safe exactly when the session holds none or has no live entry |
| `AddressSafety.ReportIsSafeIff` | pfcpiface/messages_session.go:936-946 | the local deletion on a report response, which does not wait, is safe exactly in that case |
| `AddressRuns.ReportFreesLiveAddress` | pfcpiface/messages_session.go:936-946 | from every initial state with an address, a run, all covered but for a report response, that ends with a live rule's address free |
| `AddressRuns.UnansweredDeletionFreesLiveAddress` | pfcpiface/messages_session.go:776-785 | likewise a deletion that counts as finished though its calls failed |
| `AddressRuns.TimedOutModificationFreesLiveAddress` | pfcpiface/messages_session.go:678-683 | likewise a modification whose removal ran out of time, followed by a finished deletion |
| `AddressRuns.MoveFreesLiveAddress` | pfcpiface/messages_session.go:447-466 | likewise an answered modification that moves a rule, followed by a finished deletion |
| `QuietReleases.StepKeepsHeld` | pfcpiface/conn.go:301-393 | every step whatsoever, if its release is quiet, keeps every session's hold on its address |
| `QuietReleases.UnquietIsUnsafe` | pfcpiface/conn.go:309-328 | a release that is not quiet frees a live rule's address at once |
| `QuietReleases.SafeIffReleasesQuiet` | pfcpiface/messages_session.go:27-946 | a run keeps every live rule's address out of the free and reassigned ones if and only if every step that gives one back finds its session without an address or without a live entry |
| `NamedSessions.StepKeepsNames` | pfcpiface/conn.go:301-393 | a session named in a store, a handler or a teardown stays named under every step that neither gives its address back nor gives it up |
| `NamedSessions.HeldAddressIsNamed` | pfcpiface/messages_session.go:27-946 | in every state of every run an address held belongs to a session that is named or was given up |
| `NamedSessions.CoveredIsQuiet` | pfcpiface/messages_session.go:27-798 | a covered step gives an address back only when no entry of its session is live |
| `NamedSessions.LiveEntryIsNamed` | pfcpiface/messages_session.go:27-798 | in every state of every covered run an entry programmed or on its way is among those some association names for its session, or the session was given up |
| `NamedSessions.GivenUpRanOutTwice` | pfcpiface/conn.go:343-393 | a session is given up only after its removal by one teardown ran out of time twice |
| `Programmed.NamedEntriesAreProgrammed` | pfcpiface/messages_session.go:27-798 | in every state of a covered run without time-outs each entry that a session names is programmed or will be by the last command on its way |
| `Progress.TeardownAdvances` | pfcpiface/conn.go:290-393 | every step of a teardown lowers its measure, so it ends |
| `Progress.TeardownIsNotStuck` | pfcpiface/conn.go:290-393 | until it is closed it has a step, given the lock |
| `Progress.HandlerAdvances` | pfcpiface/messages_session.go:27-946 | every step of a handler but an allocation brings it closer to releasing the lock |
| `Progress.HandlerIsNotStuck` | pfcpiface/messages_session.go:27-946 | and it has one until then |
| `Progress.MessagesAreServed` | pfcpiface/messages_session.go:27-798 | on an open association any unused SEID can be established, and a stored session modified or deleted with what the store holds |
| `Progress.AllocationGives` | pfcpiface/ip_pool.go:50-75 | a session that asks for an address keeps its own or gets the first free one, if there is one, and no other is affected |
| `Notify.StepKeepsInv` | pfcpiface/bess.go:755-862 | each step of listener and exit keeps: at most the listener's own connection is open, and registered once adopted |
| `Notify.RunKeepsInv` | pfcpiface/bess.go:755-862 | it holds in every state of every interleaving |
| `Notify.ExitedForever` | pfcpiface/bess.go:250-262 | nothing is adopted after the exit |
| `Notify.ExitLeavesNothingOpen` | pfcpiface/bess.go:250-262 | once the exit has released the lock no adopted connection is open, ever after |
| `Notify.StoppedLeavesNothingOpen` | pfcpiface/bess.go:755-798 | every dialled connection is closed when the listener stops |
| `Notify.ClosesOnlyOpen` | pfcpiface/bess.go:852-862 | the registered connection is open whenever it is closed under the lock |
| `Notify.StopsOnlyForExit` | pfcpiface/bess.go:755-798 | the listener has stopped only in states after the exit closed its channel |
| `Notify.MoveTowardsDial` | pfcpiface/bess.go:755-798 | without an exit every move brings it one closer to its next dial, and a dial leads to a connection or to a pause |
| `Notify.DialsAgain` | pfcpiface/bess.go:755-798 | from every state of every run without an exit its own moves lead back to dialling |
| `Notify.MoveTowardsStop` | pfcpiface/bess.go:755-862 | after the exit every move brings it one closer to its end |
| `Notify.OnlyMovesMove` | pfcpiface/bess.go:755-862 | nothing else moves it, and until it has stopped it has a move |
| `Teid.FTEIDGenerator.UpdateOffset` | pfcpiface/fteid.go:72-75 | the next offset in the cycle, without 32-bit overflow |
| `Teid.FTEIDGenerator.Allocate` | pfcpiface/fteid.go:31-51 | the first unused ID from the cursor on, each offset looked at once; fails exactly when all are in use |
| `Teid.FTEIDGenerator.FreeID` | pfcpiface/fteid.go:53-60 | the ID is unused afterwards, the others are as before |
| `Teid.FTEIDGenerator.IsAllocated` | pfcpiface/fteid.go:62-70 | whether the ID is in use |
| `Teid.WalkIsUnique` | pfcpiface/fteid.go:31-51 | the first free offset is one offset |
| `MemoryPool.CanonicalIsUnique` | bess/core/memory.cc:464-507 | sorted, disjoint, never-touching lists of the same bytes are equal |
| `MemoryPool.RunNeedsRegion` | bess/core/memory.cc:379-404 | a run of free bytes lies in one region |
| `MemoryPool.AlignCeilCovers` | bess/core/memory.cc:379-381 | in 64-bit arithmetic the rounded size covers the request exactly up to 2^64-4096 |
| `MemoryPool.InsertRegion` | bess/core/memory.cc:464-507 | inserting at the lower bound and merging keeps the list canonical and adds exactly the bytes |
| `MemoryPool.CarveSpec` | bess/core/memory.cc:386-399 | taking the front of a region keeps the list canonical and removes exactly the bytes |
| `MemoryPool.DmaMemoryPool.AddRegion` | bess/core/memory.cc:464-507 | the same on the pool's regions |
| `MemoryPool.TakePages` | bess/core/memory.cc:331-353 | large pages first, then small ones, and no more of them than make up the size, merged |
| `MemoryPool.DmaMemoryPool.constructor` | bess/core/memory.cc:331-366 | initialized exactly when the pages on offer make up the size; its regions are the pages taken, merged |
| `MemoryPool.DmaMemoryPool.Alloc` | bess/core/memory.cc:379-404 | fails exactly when no free run is as long as the rounded size, and otherwise takes the lowest such run; a size above 2^64-4096 gets an address that stays free |
| `MemoryPool.DmaMemoryPool.Take` | bess/core/memory.cc:386-399 | moves bytes from the free regions to the live blocks |
| `MemoryPool.DmaMemoryPool.AllocUpto` | bess/core/memory.cc:406-428 | gives what was asked exactly when a free run of the rounded size exists, and then takes that size from the lowest; otherwise the whole longest free run, and nothing only if nothing is free; exactly those bytes stop being free |
| `MemoryPool.DmaMemoryPool.Free` | bess/core/memory.cc:430-442 | the block's bytes are free again; a null argument changes nothing |
| `MemoryPool.DmaMemoryPool.AllFreed` | bess/core/memory.cc:368-377 | with no live block the regions are the initial ones |
| `MemoryPool.AllocThenFree` | bess/core/memory.cc:379-442 | restores the identical state |
| `MemoryPool.FreeAll` | bess/core/memory.cc:430-507 | freeing every block in any order restores the initial regions |
| `Priority.PropagateIGatePriority` | bess/core/module_graph.cc:96-120 | ends on every graph; priorities only rise, are lengths of open walks and at most the number of input gates, and on acyclic graphs no edge from a raised gate is left behind |
| `Priority.SetIGatePriority` | bess/core/module_graph.cc:122-143 | one task module's pass |
| `Priority.AssignPriorities` | bess/core/module_graph.cc:204-225 | after all passes over whatever was left each priority is the length of the longest open walk or what was left, on acyclic graphs |
| `Priority.FreshIsOpen` | bess/core/module_graph.cc:122-143 | over fresh gates every walk is open |
| `Priority.WalkStopsAtTasks` | bess/core/module_graph.cc:96-120 | a walk begins at an output gate of a task module, follows connections, and goes through no task module |
| `Priority.WalkKeepsUp` | bess/core/module_graph.cc:96-143 | along an open walk the priorities are at least the hops |
| `Priority.LongestIsUnique` | bess/core/module_graph.cc:96-143 | that number is one number |
| `Priority.CollectGates` | bess/core/module_graph.cc:145-168 | exactly the connected input and output gates |
| `Priority.NumberIGates` | bess/core/module_graph.cc:145-184 | a bijection onto 0 up to the count, ascending with priority |
| `Priority.NumberOGates` | bess/core/module_graph.cc:145-184 | a bijection onto the numbers that follow |
| `Priority.SetUniqueGateIdx` | bess/core/module_graph.cc:145-184 | together a bijection onto 0 up to the gate count |
| `Priority.UpstreamFirst` | bess/core/module_graph.cc:145-184 | if priorities increase along the edges of the task modules' walks, upstream gates have the lower numbers |
| `Priority.IncreasingIffOvertaken` | bess/core/module_graph.cc:204-225 | they increase if and only if, downstream of each gate on a walk, more was left or an open walk makes more hops than was left there |
| `Priority.FreshIsOvertaken` | bess/core/module_graph.cc:204-225 | as is always so over fresh gates |
| `Priority.UpdateTaskGraph` | bess/core/module_graph.cc:204-225 | all connected gates get distinct numbers from 0, input gates first; on acyclic graphs every input gate on a task module's walk comes before those it feeds, if what was left is overtaken or all gates are fresh |
| `Priority.StaleOrder` | bess/core/module_graph.cc:122-143 | two updates, with a connection made in between, after which a gate has a higher number than the gate it feeds |
| `Gates.IGate.RemoveOgate` | bess/core/gate.cc:221-229 | takes out the first occurrence |
| `Gates.ConnectGate` | bess/core/module.cc:285-321 | busy exactly if the output gate is active; otherwise the connections are the old ones and the new one, consistent on both sides |
| `Gates.DisconnectGate` | bess/core/module.cc:323-348 | exactly that output gate's connection is gone, and its input gate with it if it was the last |
| `Gates.DisconnectModulesUpstream` | bess/core/module.cc:369-397 | exactly the connections into the input gate are gone |
| `Gates.IGateHasUpstream` | bess/core/module.cc:323-348 | an input gate is there exactly when some output gate is connected to it |
| `Gates.Destroy` | bess/core/module.cc:350-367 | the module has no gate left, no other gate refers to it, and all other connections are unchanged |
| `Gates.ModuleGraph.CreateModule` | bess/core/module_graph.cc:250-298 | a module without gates keeps the graph consistent |
| `Gates.ModuleGraph.DestroyModule` | bess/core/module_graph.cc:300-314 | the graph without the module is consistent and otherwise unchanged |
| `Gates.ModuleGraph.ConnectModules` | bess/core/module_graph.cc:327-352 | the bounds checks, then as `ConnectGate` |
| `Gates.ModuleGraph.DisconnectModule` | bess/core/module_graph.cc:354-364 | the bounds check, then as `DisconnectGate` |
| `Offsets.AlignCeilPow2IsNextPower` | bess/core/utils/common.h:78-88 | the bit smearing gives the power of two from v up to, not including, 2v |
| `Offsets.ComputeNextOffsetIsFirstAligned` | bess/core/metadata.cc:53-66 | the int8, uint32 and uint64 arithmetic gives the first aligned offset that fits, or no space, also where the sum wraps at 128 |
| `Offsets.NextOffsetInNumbers` | bess/core/metadata.cc:53-66 | in numbers: the first multiple of the rounded size if it ends within 128 bytes, -3 if not |
| `Metadata.DisjointFrom` | bess/core/metadata.cc:114-123 | whether the two components share no module |
| `Metadata.Neighbours` | bess/core/metadata.cc:366-375 | the queue holds exactly the assigned components that share a module |
| `Metadata.FirstFit` | bess/core/metadata.cc:377-393 | the queue loop, ties in any order, passes neighbours lowest first and stops where there is room below all others |
| `Metadata.Place` | bess/core/metadata.cc:364-396 | the offset of one component is such a first fit |
| `Metadata.SafeIffNoneReachesPast` | bess/core/metadata.cc:377-393 | an offset found overlaps no neighbour exactly when none of those passed reaches beyond it |
| `Metadata.StaggeredNeighboursAreSafe` | bess/core/metadata.cc:377-393 | with neighbours in the same order by offset and by end, as disjoint ones are, the result is no space, or within the area and overlapping none |
| `Metadata.NothingLower` | bess/core/metadata.cc:364-396 | every aligned offset in the area below the one found overlaps a neighbour; every one does if no space is found |
| `Metadata.NextAdvances` | bess/core/metadata.cc:53-66 | the next offset is aligned, past the neighbour, with room, or no space |
| `Metadata.AssignOne` | bess/core/metadata.cc:348-397 | invalid, single-module and placed components each get their outcome |
| `Metadata.OutcomesBounded` | bess/core/metadata.cc:343-397 | in every layout each assigned component has a marker or an aligned place within the area |
| `Metadata.LayoutHasNoOverlap` | bess/core/metadata.cc:343-397 | components that share a module do not overlap if any two earlier neighbours of a component share one |
| `Metadata.StaggeredLayoutHasNoOverlap` | bess/core/metadata.cc:343-397 | they do not overlap either if the earlier neighbours of each component are in the same order by offset and by end |
| `Metadata.TangleOverlaps` | bess/core/metadata.cc:343-397 | six components, in an order by degree, whose layout always overlaps |
| `OffsetArrays.FillOffsetArrays` | bess/core/metadata.cc:301-341 | components with one module are marked as not to be written, each byte of a module goes to the last component that claims it, and each attribute of a module gets the offset, or the marker by its access mode, of the last component of its name |
| `OffsetArrays.GivenInNumbers` | bess/core/metadata.cc:301-341 | the first attribute of a component's name in a module gets an offset exactly if it is among the first 16; of an invalid component -2 if it is only read and -1 if not, of a component with one module -1, otherwise its offset |
| `OffsetArrays.AssignOffsets` | bess/core/metadata.cc:343-400 | every component gets its outcome, nothing else changes, no two overlap if earlier neighbours share, and the arrays are filled accordingly |
| `OffsetArrays.OwnerIffClaims` | bess/core/metadata.cc:301-341 | in a layout without overlap no two components claim a byte of one module |
| `OffsetArrays.AttributesAreApart` | bess/core/metadata.cc:301-341 | in a layout without overlap two attributes of one module with offsets of their own have no byte in common |

## Left out

- PFCP decoding, gRPC and protobuf, sockets, timers, metrics, logging and configuration: messages are parsed rule lists, and datapath answers and time-outs are inputs.
- SessionSlices.MarkSessionQer: the writes are those of any choice; `QerMarking.Choose` is the source's, and the handlers take any marking.
- What a FAR's action value or a QER's meter parameters are computed to be; they are part of a rule.
- End markers, digest reports and slice meters.
- The establishment, deletion and report handlers are modelled as steps over sets of entries, not over rule lists.
- AddressSafety.AddressesAreSafe: leaves out report responses that delete a session, removals that count as finished though a call failed, moves, and removals or undos of a modification that ran out of time; `AddressRuns.dfy` shows what happens there, and `QuietReleases.SafeIffReleasesQuiet` is the exact condition for runs with such steps.
- AcceptedModification.AcceptedFarsInStep: for distinct FAR IDs only; with repeated IDs one entry cannot equal two FARs.
- IpPool.NewIPPool: the prefix length is at least 1; at 0 the source's walk does not end, as `PrefixZeroNeverLeaves` shows.
- MemoryPool.DmaMemoryPool.AllocUpto: sizes up to 2^64-4096; above that the source passes the rounded size 0 to `Alloc`, whose check of a positive size aborts the process.
- MemoryPool.DmaMemoryPool.constructor: hugepage system calls and NUMA policy; the pages the system has to give are inputs.
- Priority.AssignPriorities: priorities are unbounded integers; since none exceeds what was left or the number of input gates, 32 bits are enough for fewer than 2^32 - 1 of them.
- Gates: hooks, the `mergeable_` flag, the flag that records changes, out-of-memory returns, and names of modules; the set of modules stands for the map of names.
- SessionSlices.HandleModification: the store is passed and returned as a map of slice headers; the class of `ModificationHandler.dfy` has it as a field.
- OffsetArrays.AssignOffsets: how scope components are found is not modelled; components and the attributes modules registered are inputs.
- Metadata.LayoutHasNoOverlap: the condition is sufficient, as is that of `StaggeredLayoutHasNoOverlap`; per placement `SafeIffNoneReachesPast` is exact.
- TEIDs are never released by a handler; the generator stands alone.
