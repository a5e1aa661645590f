# Verified model of the HOPR component crates

The crates implement parts of a HOPR node: the graph that packets are routed over, the manager and
factory of payment tickets, the connector to the chain, and the forwarder that prices session
targets.  This project models the parts whose correctness depends on state kept over many calls, and
proves what they promise.

| file | what it models |
|---|---|
| `SimplePaths.dfy` | the resumable depth-first search that enumerates weighted simple paths |
| `IndexCounter.dfy` | the lock-free counter behind outgoing ticket indices, one atomic operation at a time |
| `OutgoingIndices.dfy` | the tracker of those counters and its durable store, over process lifetimes |
| `TicketQueue.dfy` | queues of incoming tickets and the value cache kept beside them |
| `Redemption.dfy` | arriving, neglected and redeemed tickets of one channel, interleaved |
| `IncomingChannels.dfy` | the ticket manager's map of channel queues and its synchronization with the chain |
| `ChannelGraph.dfy` | node indices, the index from path slots back to nodes, reachability |
| `AccountBackend.dfy` | the indexed and the scanning account backend |
| `NonceSequencer.dfy` | the nonces of submitted transactions |
| `AckRate.dfy` | the decayed acknowledgement rate |
| `TargetPattern.dfy`, `Text.dfy` | the parser, printer and matcher of session target patterns |
| `Wrappers.dfy`, `Distinct.dfy` | optional values and maxima, sequences without duplicates |

State that the source changes in place is a class here.  The methods of a class are proved against
functions on values (`Model()` ties the two together), and the theorems are about those functions:
invariants of every sequence of calls, and an independent description of what the calls are for.
What comes from outside becomes a parameter: the order a shuffle delivers, the keys a store refuses,
the outcome of a redemption, the pending count and the time a submission observes.

## Where the code and its documentation differ

- `increment_at_least` and `next_outgoing_ticket_index` are documented never to return an index
  twice.  At `MAX_TICKET_INDEX` the returned value saturates, so it is returned again
  (`SaturationReissues`); `Allocation` says that nothing else is.
- A save that reads an index while another caller takes one, and clears the dirty flag after that
  caller has set it, leaves a clean entry whose last index is not stored
  (`ticket-manager/src/utils.rs:140-149`).  `InterruptedSave` states exactly when, and
  `OvertakenSaveReissues` shows the index returned again after a restart.  A stale index that another
  save writes in between does the same without any call (`StaleWriteUncovers`).  In `OutgoingIndices` a
  save is one step.
- The completion of a redemption takes a ticket that is no longer at the head of its queue to have
  been neglected (`ticket-manager/src/manager.rs:340-349`).  A ticket that arrives with a smaller
  index has the same effect: `OvertakenTicketIsRedeemedTwice`.  `ConservationIsExact` states when the
  books balance, in any interleaving.
- Indices are forgotten when the first index of the next epoch retires their key, and when a restart
  does not find the channel open: `EarlierEpochReissues`, `ClosedAtBootReissues`.  `ReissueIsExact` and
  `RestartIsExact` state exactly when that makes the next index no larger.
- A clean entry is not always stored: `EventKeepsInStep` names the three events that break it.
  `PurgedWhileCleanReissues` and `RetrackedIsUnsaved` are runs in which a save succeeds all the same.
- A pattern that the parser accepted need not print back to itself: `ParsedPatternReadsBack` states
  when, `RootDotHidesAnAddress` names a family for which it does not.
- A subdomain pattern also matches a name with an empty label in front of the suffix
  (`EmptyLabelMatches`), and `MatchIsSubdomain` says that it matches no other name that is not a
  subdomain.
- Pruning a queue of several epochs may stop too early: `PruneStopsAtTheFirstRedeemable`; `PruneIsExact`
  states when it does not.

## Main results

1. `SimplePaths.Query.SearchIsExact`, with `PathIterator.Next`: the search yields exactly the solutions.
2. `IndexCounter.Machine.Allocation`: what concurrent callers of the counter are given.
3. `IndexCounter.Machine.InterruptedSave`: exactly when a save among others covers what was returned.
4. `OutgoingIndices.NeverReissued`, `NeverReissuedOnceSaved`, `ReissueIsExact`, `RestartIsExact`: which
   indices are never issued again, over process lifetimes.
5. `OutgoingIndices.CleanIsStored`: what a clean entry is worth.
6. `TicketQueue.Cached.RunKeepsValid` and `FastPathIsExact`: the value cache is the scan.
7. `Redemption.EveryRunIsManaged`: exclusivity, one epoch and an exact cache, in every interleaving.
8. `Redemption.EveryRunConserves` and `ConservationIsExact`: tickets and value are conserved, and when.
9. `Redemption.EveryRunReportsInOrder`, `Channel.InsertKeepsLatest` and `Machine.RunKeepsEpoch`: results in
   natural order, and which tickets stay when epochs change.
10. `IncomingChannels.TicketManager.SyncFromIncomingChannels`: what a synchronization retains.
11. `ChannelGraph.Graph.RunKeepsValid` and `ResolveIsExact`: slots and indices over all writes.
12. `ChannelGraph.InnerGraph.ReachableEdges`: exactly the edges that can be reached.
13. `AccountBackend.IndexedRefinesScanning` and `Tables.InsertKeepsExact`: the index is the scan.
14. `NonceSequencer.State.NextNonce`, `ResyncIsJustified`, `ResyncIsDue`: the nonce from one submission
    to the next.
15. `NonceSequencer.State.NonceCountsTransactions`: how far it advances.
16. `AckRate.SilenceDemotes`, `AcknowledgementRecovers` and `CountersAreDecayedSums`: a silent peer is
    demoted whatever its history, an answering one recovers, and what the counters are.
17. `TargetPattern.RoundTrip` and `ParsedPatternReadsBack`: when a pattern reads back; `NetworkIsUnion` and
    the lemmas beside it: what a pattern matches.

## Model

| member | source | states |
|---|---|---|
| SimplePaths.Query.SearchIsExact | graph/src/petgraph/algorithm.rs:116-191 | for every graph, targets, exclusions, bounds, cost function and shuffle, the search yields exactly the answers, each choice of edges once: traces along out-edges from the source, with `costs[i+1] == costFn(costs[i], weight, i)`, that end in a target, visit no node twice and no excluded one, have no cost below the minimum after the source, and have the requested number of intermediate nodes |
| SimplePaths.Query.SolutionIsAnswer | graph/src/petgraph/algorithm.rs:137-168 | the solutions that the search is proved against are those answers |
| SimplePaths.Query.ExploreIsExact | graph/src/petgraph/algorithm.rs:137-188 | below any branch, what the search yields from some of its edges is the set of solutions that continue the branch through one of them |
| SimplePaths.Query.ExploreIsDistinct | graph/src/petgraph/algorithm.rs:137-188 | no path is yielded twice |
| SimplePaths.Query.CutOffsAreLossless | graph/src/petgraph/algorithm.rs:171-171 | if some solution goes on beyond an edge, then neither the length cut-off nor the "unvisited target left" cut-off stops the search there |
| SimplePaths.Query.BranchStep | graph/src/petgraph/algorithm.rs:142-158 | an edge is skipped exactly when its target is on the path or excluded or its cost is less than the minimum, which is exactly when following it would leave the set of branches |
| SimplePaths.Query.OrderIsOut | graph/src/petgraph/algorithm.rs:173-174 | shuffled edges are the out-edges of the node, each once |
| SimplePaths.Query.Follow | graph/src/petgraph/algorithm.rs:139-182 | taking an edge off the stack yields what it finds, leaves the rest pending, and lowers the number of turns the loop still takes |
| SimplePaths.Query.ItemsAreExact | graph/src/petgraph/algorithm.rs:163-168 | the (nodes, cost) pairs handed out are those of the answers, one for each choice of edges |
| SimplePaths.PathIterator.constructor | graph/src/petgraph/algorithm.rs:124-135 | everything the search will yield is pending at first |
| SimplePaths.PathIterator.Next | graph/src/petgraph/algorithm.rs:137-191 | one call terminates, removes the first pending path and returns its nodes and cost, or returns nothing once none is pending; the three stacks stay equally long |
| SimplePaths.PathIterator.Follow | graph/src/petgraph/algorithm.rs:139-182 | the turn of the loop that takes an edge pushes onto the three stacks exactly when the search enters the edge's target, and yields exactly the path the edge completes |
| SimplePaths.PathIterator.Backtrack | graph/src/petgraph/algorithm.rs:183-188 | the turn that pops the three stacks loses nothing pending and brings the end closer |
| SimplePaths.Collect | graph/src/petgraph/algorithm.rs:96-192 | a drained search returns one pair for each answer and nothing else |
| IndexCounter.Machine.Allocation | ticket-manager/src/utils.rs:32-50 | in every interleaving of the atomic operations of any number of callers, two calls return the same index if and only if both return the maximum; none returns less than its caller's minimum (capped) or the start; and none below the maximum is a value that a lifting caller skipped |
| IndexCounter.Machine.RunKeepsInv | ticket-manager/src/utils.rs:38-83 | the counter never decreases and every value taken from it has one use, in every interleaving |
| IndexCounter.Machine.Uninterrupted | ticket-manager/src/utils.rs:38-50 | an undisturbed call takes the larger of counter and minimum, leaves the counter one above, and marks the entry dirty if the index is within bounds |
| IndexCounter.Machine.UninterruptedSet | ticket-manager/src/utils.rs:57-63 | an undisturbed `set` raises the counter to the new value and marks the entry dirty only if that was an increase |
| IndexCounter.Machine.SaveAtOnceIsUninterrupted | ticket-manager/src/utils.rs:140-149 | an undisturbed save stores the capped index of a dirty entry and marks it clean, and leaves a clean one alone |
| IndexCounter.Machine.UninterruptedSavesCover | ticket-manager/src/utils.rs:140-149 | while each save runs undisturbed, a clean entry has every returned index below the maximum covered by the store |
| IndexCounter.Machine.InterruptedSave | ticket-manager/src/utils.rs:140-149 | a save with any other callers and saves between its steps, none of which writes the store between its write and its end, leaves the entry clean with the index it read stored, and covers every returned index if and only if no call both took and returned an index below the maximum within the save |
| IndexCounter.OvertakenSaveReissues | ticket-manager/src/utils.rs:140-149 | an interleaving in which the next save skips the entry and a restart returns the same index again |
| IndexCounter.SaturationReissues | ticket-manager/src/utils.rs:37-50 | two calls on a counter that has reached the maximum both return it |
| IndexCounter.StaleWriteUncovers | ticket-manager/src/utils.rs:140-149 | a save in which no call runs, but another one's stale index is written before its end, leaves the entry clean and a returned index not covered |
| OutgoingIndices.EntryFollowsMachine | ticket-manager/src/utils.rs:38-63 | entries change as the undisturbed atomic operations change them |
| OutgoingIndices.NeverReissued | ticket-manager/src/factory.rs:126-148 | over any number of process lifetimes, whatever is issued for a channel and epoch after an index below the maximum is larger, as long as no event in between makes the tracker forget it: the first index of the next epoch, or a restart that does not find the channel open or a larger index stored |
| OutgoingIndices.NeverReissuedOnceSaved | ticket-manager/src/factory.rs:126-160 | once a save of the same lifetime has succeeded, crashes do no harm: whatever is issued later is larger, in any lifetime, unless the key is retired or a synchronization misses the channel |
| OutgoingIndices.ReissueIsExact | ticket-manager/src/factory.rs:130-148 | in one lifetime the next issue of a key is larger if and only if the first index of the next epoch did not retire it in between, or a synchronization brought it back from the store or the chain after that, or the channel's ticket index is larger |
| OutgoingIndices.RestartIsExact | ticket-manager/src/factory.rs:174-222 | the first index after a restart is above a given one if and only if the restart recovers that, from the store for a channel it finds open or from the channel itself, and nothing retires it, or a later synchronization brings it back, or the channel's ticket index is larger |
| OutgoingIndices.EventKeepsPast | ticket-manager/src/factory.rs:130-230 | a counter past an index stays past it if and only if the event does not forget it; one that is not gets past it by an issue, by a synchronization that finds a larger index stored or on the chain, and by a restart that does |
| OutgoingIndices.IssueReadsPast | ticket-manager/src/factory.rs:133-137 | what is issued is above an index below the maximum if and only if the counter is past it or the channel's ticket index is larger |
| OutgoingIndices.EventKeepsSecured | ticket-manager/src/utils.rs:91-167 | for every event, if and only if: when a stored index stays stored and its key tracked, when an unsaved one can still be saved, and what a successful save or a restart secures |
| OutgoingIndices.StaysSecured | ticket-manager/src/utils.rs:91-167 | an issued index stays savable up to the save of its lifetime and secured from then on, unless an event loses it |
| OutgoingIndices.RemovedIsExact | ticket-manager/src/factory.rs:140-145 | a key is marked removed if and only if the first index of the next epoch retired it in this lifetime and no save since could delete it |
| OutgoingIndices.CleanIsStored | ticket-manager/src/utils.rs:128-150 | in every run a clean entry holds the index that is stored, unless one of three events of the current lifetime breaks that |
| OutgoingIndices.EventKeepsInStep | ticket-manager/src/utils.rs:128-160 | an event breaks that if and only if it is a synchronization that misses the channel of a clean entry, an issue that lifts a clean entry past the maximum, or a save that deletes a retired key tracked again; a restart restores it always |
| OutgoingIndices.IssueKeepsInStep | ticket-manager/src/utils.rs:38-50 | issuing breaks that if and only if the channel's ticket index lifts a clean entry from below the maximum past it |
| OutgoingIndices.RestartResumes | ticket-manager/src/factory.rs:201-222 | the first index after a restart is the larger of the stored index and the channel's ticket index, capped |
| OutgoingIndices.Factory.SaveMirrors | ticket-manager/src/utils.rs:128-166 | after a successful save the store has every tracked index except those of keys that were marked removed, which it has not; nothing is dirty or marked any more |
| OutgoingIndices.Factory.SyncStep | ticket-manager/src/factory.rs:201-222 | handling one open channel lifts its entry to the maximum of tracked, stored and on-chain index, and leaves other entries alone |
| OutgoingIndices.LateSaveReissues | ticket-manager/src/factory.rs:126-148 | a run in which an index issued before a crash is issued again although the channel stays open, nothing is retired and a save of the next lifetime succeeds |
| OutgoingIndices.EarlierEpochReissues | ticket-manager/src/factory.rs:143-145 | a run in which returning to an earlier epoch issues an index again in one lifetime |
| OutgoingIndices.ClosedAtBootReissues | ticket-manager/src/factory.rs:184-199 | a run in which a saved index is issued again because a synchronization did not find the channel open |
| OutgoingIndices.PurgedWhileCleanReissues | ticket-manager/src/factory.rs:184-199 | a run in which a synchronization purges the index of a clean entry, a later save succeeds without storing it although the channel is open again, and a restart issues it again |
| OutgoingIndices.RetrackedIsUnsaved | ticket-manager/src/utils.rs:140-160 | a run in which a successful save deletes the index of a retired key that is tracked again, and leaves its entry clean |
| OutgoingIndices.OutgoingIndexCache.NextAtLeast | ticket-manager/src/utils.rs:95-100 | returns an index of at least the minimum and updates that entry only, created if missing |
| OutgoingIndices.OutgoingIndexCache.Upsert | ticket-manager/src/utils.rs:109-114 | the entry becomes the maximum of what it was and the given index, and that is returned, capped |
| OutgoingIndices.OutgoingIndexCache.Remove | ticket-manager/src/utils.rs:119-126 | removes the entry and remembers the key if there was one |
| OutgoingIndices.OutgoingIndexCache.WriteDirty | ticket-manager/src/utils.rs:140-150 | writes and cleans exactly the dirty entries that the store accepts, and reports failure if and only if it refused one |
| OutgoingIndices.OutgoingIndexCache.DeleteRemoved | ticket-manager/src/utils.rs:152-160 | deletes exactly the removed keys that the store accepts, and keeps the others for the next save |
| OutgoingIndices.OutgoingIndexCache.Save | ticket-manager/src/utils.rs:131-166 | both of these, going on after failures; no failure is reported if and only if the store refused nothing |
| OutgoingIndices.TicketFactory.NextOutgoingTicketIndex | ticket-manager/src/factory.rs:130-148 | issues an index, and retires the previous epoch's entry when it is the first of its epoch |
| OutgoingIndices.TicketFactory.SaveOutgoingIndices | ticket-manager/src/factory.rs:155-160 | the save of the tracker into the store, with its success |
| OutgoingIndices.TicketFactory.SyncFromOutgoingChannels | ticket-manager/src/factory.rs:174-230 | stored indices of channels not open in that epoch are deleted; entries of open channels are lifted to the maximum of tracked, stored and on-chain index and marked dirty only if that raised them; nothing else changes |
| TicketQueue.Cached.RunKeepsValid | ticket-manager/src/backend/mod.rs:74-127 | after any pushes, pops and drains, of any number of epochs, the queue is in natural order, the cached value of each epoch is what a scan of the queue computes, and the tracked epoch is that of the tickets when they have one |
| TicketQueue.Cached.TotalValueIsScan | ticket-manager/src/backend/mod.rs:118-126 | the total with a cache equals the scanned total for every epoch and minimum index, which is the sum of the selected tickets |
| TicketQueue.Cached.FastPathIsExact | ticket-manager/src/utils.rs:195-233 | in a single-epoch queue the path without a peek, the path with a peek and the sum of all queued tickets agree |
| TicketQueue.Cached.UnrealizedFromIsExact | ticket-manager/src/utils.rs:212-233 | from a minimum index on, the value is the sum of the tickets from there |
| TicketQueue.TotalIsUnordered | ticket-manager/src/traits.rs:93-108 | the total does not depend on the order in which the queue is visited |
| TicketQueue.TotalIsSelected | ticket-manager/src/traits.rs:93-108 | a total is the sum of the selected tickets |
| TicketQueue.SelectedAreExact | ticket-manager/src/traits.rs:98-106 | those are exactly the tickets of that epoch from that index on, with that index |
| TicketQueue.PushingTracksLatest | ticket-manager/src/backend/mod.rs:85-87 | pushing tracks the latest epoch, whatever the order |
| TicketQueue.OrderIsNatural | ticket-manager/src/traits.rs:49-49 | tickets are ordered totally, by epoch first and index second |
| TicketQueue.InsertKeepsSorted | ticket-manager/src/backend/memory.rs:86-97 | a pushed ticket comes out in natural order with the others |
| TicketQueue.InsertAdds | ticket-manager/src/backend/memory.rs:86-89 | pushing adds the ticket and its amount, and loses none |
| TicketQueue.MemoryTicketQueue.Pop | ticket-manager/src/backend/memory.rs:91-93 | removes and returns the ticket that precedes all others, if there is one, and keeps the queue in order |
| TicketQueue.MemoryTicketQueue.Peek | ticket-manager/src/backend/memory.rs:95-97 | returns the ticket that precedes all others and changes nothing |
| TicketQueue.ValueCachedQueue.constructor | ticket-manager/src/backend/mod.rs:37-55 | in whatever order the existing tickets are visited, the new cache agrees with them, and the tracked epoch is theirs if they have one only |
| TicketQueue.ValueCachedQueue.Push | ticket-manager/src/backend/mod.rs:85-93 | queue, cache and tracked epoch after a push |
| TicketQueue.ValueCachedQueue.Pop | ticket-manager/src/backend/mod.rs:95-108 | queue, cache and tracked epoch after a pop, and the smallest ticket |
| TicketQueue.ValueCachedQueue.Drain | ticket-manager/src/traits.rs:84-90 | returns all tickets in natural order and leaves what popping each of them leaves |
| TicketQueue.ValueCachedQueue.TotalValue | ticket-manager/src/backend/mod.rs:118-126 | the total of an epoch from an index on, whether it is taken from an agreeing cache or scanned |
| TicketQueue.ValueCachedQueue.CachedUnrealizedValue | ticket-manager/src/backend/mod.rs:66-71 | the cached value of the tracked epoch, zero without one |
| Redemption.EveryRunConserves | ticket-manager/src/manager.rs:255-481 | in every interleaving in which no ticket is put in front of the one in flight: every ticket that arrived is queued, reported or neglected, once; arrived value equals queued, redeemed, rejected and neglected value; redeemed and rejected value are those of the reported results |
| Redemption.EveryRunIsManaged | ticket-manager/src/manager.rs:255-481 | in every interleaving at all: one stream at most, holding the lock; the queue holds tickets of one epoch, its cache is exact, and the path without a peek gives the sum of all queued tickets |
| Redemption.ConservationIsExact | ticket-manager/src/manager.rs:309-350 | in every interleaving at all: every ticket is accounted for once if and only if no result is reported for a ticket that is neither at the head of the queue nor neglected; value is conserved if and only if no redemption or rejection takes back more than was neglected, and it never shrinks |
| Redemption.EveryRunReportsInOrder | ticket-manager/src/manager.rs:244-254 | results come out in natural ticket order while no smaller ticket arrives |
| Redemption.OvertakenTicketIsRedeemedTwice | ticket-manager/src/manager.rs:317-349 | a smaller ticket that arrives during a redemption makes the manager redeem one ticket twice and book more than it received |
| Redemption.Channel.InsertKeepsValid | ticket-manager/src/manager.rs:458-481 | an arriving ticket of any epoch leaves the cache exact, and a queue of one epoch with one epoch |
| Redemption.Channel.InsertKeepsLatest | ticket-manager/src/manager.rs:458-481 | of what is queued and what arrives, exactly the tickets of the latest epoch stay queued, the rest is returned and its sum booked as neglected, and the arrival counts as winning |
| Redemption.Channel.InsertConserves | ticket-manager/src/manager.rs:458-481 | an arriving ticket adds its value to the books and itself to the queued and neglected tickets, and counts as winning, whichever branch it takes |
| Redemption.Channel.NeglectSplits | ticket-manager/src/manager.rs:394-409 | neglecting takes a front off the queue, books its value as neglected and changes no total |
| Redemption.Channel.NeglectIsExact | ticket-manager/src/manager.rs:366-414 | that front is exactly the tickets up to the given index |
| Redemption.Channel.NeglectKeepsValid | ticket-manager/src/manager.rs:394-409 | so does neglecting |
| Redemption.Channel.CompleteKeepsValid | ticket-manager/src/manager.rs:309-350 | so does the completion of a redemption, whatever became of its ticket |
| Redemption.Channel.CompleteConserves | ticket-manager/src/manager.rs:309-349 | completion never lowers the total, and keeps it if and only if the ticket is still at the head, or enough was neglected to take its value back, or its value was too low |
| Redemption.Machine.ReportBalancesTickets | ticket-manager/src/manager.rs:309-350 | reporting a result keeps every ticket accounted for exactly once if and only if the ticket is still at the head of the queue or was neglected |
| Redemption.Machine.RunKeepsExclusive | ticket-manager/src/manager.rs:103-115 | the redeem lock is held exactly while a stream is alive, and there is one at most |
| Redemption.Machine.RunKeepsEpoch | ticket-manager/src/manager.rs:458-481 | over any interleaving in which the queue is not empty, its epoch does not fall and is at least that of every ticket that arrives |
| Redemption.Machine.FinishReportsTheAnswer | ticket-manager/src/manager.rs:290-307 | a ticket below the minimum is reported as too low, any other as the chain answers, and without an answer the stream ends and reports nothing |
| Redemption.Machine.RunRespectsMinimum | ticket-manager/src/manager.rs:290-305 | no ticket below what every stream asks for is redeemed or rejected, over any interleaving |
| Redemption.Machine.OpenAndDrop | ticket-manager/src/manager.rs:111-115 | a stream is opened if and only if there is none, and dropping it ends it |
| Redemption.Machine.PollTakesTheNext | ticket-manager/src/manager.rs:284-288 | a stream takes the next ticket of the queue, one at a time, and ends when there is none |
| Redemption.Machine.NeglectIsARun | ticket-manager/src/manager.rs:394-409 | neglecting pops one ticket at a time, between which others may peek; with nothing in between it takes off the front up to the index |
| Redemption.Machine.RunKeepsManaged | ticket-manager/src/manager.rs:284-481 | one epoch and an exact cache over any interleaving, from any state that has them |
| Redemption.Machine.TicketsBalanceExactly | ticket-manager/src/manager.rs:309-350 | the exact condition for the ticket balance over any interleaving, from any state that has it |
| Redemption.Machine.RunBooks | ticket-manager/src/manager.rs:309-350 | over any interleaving from any state, booked value never falls behind what arrived, and stays level with it if and only if nothing is overbooked |
| Redemption.Machine.RunConserves | ticket-manager/src/manager.rs:284-481 | conservation of tickets and value, without overtaking, over any interleaving from any state that has it; the compensating subtraction never underflows |
| Redemption.Machine.RunInOrder | ticket-manager/src/manager.rs:284-364 | reported tickets precede the one in flight and that the queued ones, over any interleaving |
| Redemption.ChannelTicketQueue.Insert | ticket-manager/src/manager.rs:451-484 | the books and queue after an arriving ticket: the latest epoch stays queued, the rest is returned and booked |
| Redemption.ChannelTicketQueue.Neglect | ticket-manager/src/manager.rs:373-414 | the books and queue after neglecting, and the neglected tickets in natural order |
| Redemption.ChannelTicketQueue.TryLock | ticket-manager/src/manager.rs:263-271 | the lock is held afterwards, and was acquired if and only if it was free |
| Redemption.ChannelTicketQueue.Complete | ticket-manager/src/manager.rs:309-350 | the books and queue after a redemption, rejection or too low value |
| IncomingChannels.TicketManager.SyncFromIncomingChannels | ticket-manager/src/manager.rs:139-216 | the stored tickets are split, none lost or duplicated, into the returned ones and the retained ones; map and store then have the keys of the channels not closed; with one epoch in each queue, a ticket is retained if and only if its channel has an entry that is not closed, and for every such entry neither the ticket's epoch nor its index is below the channel's; the retained ones are exactly the redeemable tickets of those channels if the queues are prunable, as they are with one epoch each, and, with one entry for each channel, only if they are |
| IncomingChannels.TicketManager.PurgeClosed | ticket-manager/src/manager.rs:154-174 | the queues of other channels are deleted and their tickets returned |
| IncomingChannels.TicketManager.DeleteQueue | ticket-manager/src/backend/memory.rs:27-36 | a deleted queue is gone from store and map, and its tickets are returned |
| IncomingChannels.TicketManager.OpenAndPrune | ticket-manager/src/manager.rs:176-208 | opening a channel's queue pops a front off it, up to the first redeemable ticket, and returns that front |
| IncomingChannels.PopUnredeemable | ticket-manager/src/manager.rs:189-199 | the loop returns a front of the queue and leaves it starting with a redeemable ticket, if any |
| IncomingChannels.PruneIsExact | ticket-manager/src/manager.rs:188-199 | the loop leaves redeemable tickets only if and only if no redeemable ticket of the queue precedes an unredeemable one |
| IncomingChannels.SingleEpochIsPrunable | ticket-manager/src/manager.rs:188-199 | a queue of one epoch is so ordered |
| IncomingChannels.PruneKeepsRedeemables | ticket-manager/src/manager.rs:188-199 | the loop never drops a redeemable ticket |
| IncomingChannels.PruneStopsAtTheFirstRedeemable | ticket-manager/src/manager.rs:188-199 | with two epochs in a queue it can leave an unredeemable ticket behind |
| IncomingChannels.LoadIsValid | ticket-manager/src/backend/mod.rs:37-55 | a loaded queue has an exact cache, and the right tracked epoch when it has one |
| IncomingChannels.OpenedBalances | ticket-manager/src/utils.rs:246-257 | the books of an opened queue balance, its stored tickets counted as winning |
| IncomingChannels.OpeningIsExact | ticket-manager/src/manager.rs:182-207 | opening drops exactly the unredeemable tickets if and only if the queue is prunable |
| IncomingChannels.TicketManager.InsertIncomingTicket | ticket-manager/src/manager.rs:445-512 | in map and store the tickets of the latest epoch stay queued, of the channel's and the arriving one, and the rest is returned and booked; it is refused, and nothing changes, if and only if the channel is unknown to the map but has stored tickets |
| IncomingChannels.TicketManager.NeglectTickets | ticket-manager/src/manager.rs:373-414 | a front of the channel's queue is returned and gone from map and store, which in a queue of one epoch is exactly the tickets up to the index; an unknown channel is refused and nothing changes; queues of one epoch stay so |
| IncomingChannels.TicketManager.CompleteRedemption | ticket-manager/src/manager.rs:309-350 | map and store after the end of a redemption stay consistent, and queues of one epoch stay so |
| IncomingChannels.TicketManager.RemainingStake | ticket-manager/src/factory.rs:314-330 | with a queue of one epoch the balance less the value of every queued ticket, floored at zero; the whole balance without a queue |
| ChannelGraph.Graph.RunKeepsValid | graph/src/petgraph/graph.rs:225-348 | over any writes, slots list exactly the live indices whose keys encode to them, with no empty entry and no duplicate; edges join live vertices, one at most in each direction; an index keeps its key and is never live again once retired |
| ChannelGraph.Graph.ResolveIsExact | graph/src/petgraph/mod.rs:47-72 | a slot resolves to a vertex if and only if it is not padding and that vertex alone, among the live ones, encodes to it |
| ChannelGraph.NewIsValid | graph/src/petgraph/graph.rs:120-144 | a new graph has these properties |
| ChannelGraph.EncodeCollides | graph/src/petgraph/mod.rs:37-45 | no key encodes to padding, and two keys share a slot if and only if their first eight bytes agree or both read as at most one |
| ChannelGraph.EncodeByPosition | graph/src/petgraph/mod.rs:37-45 | the slot is the leading eight bytes read most significant first, and 1 instead of 0 |
| ChannelGraph.BigEndianIsInjective | graph/src/petgraph/mod.rs:38-41 | different leading bytes read as different numbers |
| ChannelGraph.AddNodeLooksUp | graph/src/petgraph/graph.rs:230-237 | adding a node changes no observation between any two keys |
| ChannelGraph.RemoveNodeLooksUp | graph/src/petgraph/graph.rs:254-273 | removing a node removes the observations of its edges and no others |
| ChannelGraph.AddEdgeLooksUp | graph/src/petgraph/graph.rs:275-293 | adding an edge gives default observations to that pair if both nodes exist and it had none, and changes nothing else |
| ChannelGraph.RemoveEdgeLooksUp | graph/src/petgraph/graph.rs:295-304 | removing an edge removes that pair's observations and no others |
| ChannelGraph.UpsertEdgeLooksUp | graph/src/petgraph/graph.rs:306-347 | upserting an edge applies the update to that pair's observations, or to the default ones, and changes nothing else |
| ChannelGraph.InnerGraph.ClaimSlot | graph/src/petgraph/graph.rs:42-47 | the index is listed once under its slot |
| ChannelGraph.InnerGraph.ReleaseSlot | graph/src/petgraph/graph.rs:50-58 | the index is no longer listed, and an entry that would be empty is dropped |
| ChannelGraph.InnerGraph.AddNode | graph/src/petgraph/graph.rs:230-237 | the graph's fields after adding a node |
| ChannelGraph.InnerGraph.RemoveNode | graph/src/petgraph/graph.rs:254-273 | the graph's fields after removing a node: its vertex stays, without key, slot or edges |
| ChannelGraph.InnerGraph.Detach | graph/src/petgraph/graph.rs:258-271 | removing the collected edges one by one, self-loops twice, removes exactly those at the vertex |
| ChannelGraph.InnerGraph.AddEdge | graph/src/petgraph/graph.rs:275-293 | the graph's fields after adding an edge; it succeeds if and only if both nodes exist |
| ChannelGraph.InnerGraph.RemoveEdge | graph/src/petgraph/graph.rs:295-304 | the graph's fields after removing an edge |
| ChannelGraph.InnerGraph.UpsertEdge | graph/src/petgraph/graph.rs:312-347 | the graph's fields after upserting an edge |
| ChannelGraph.InnerGraph.ReachableEdges | graph/src/petgraph/graph.rs:369-395 | exactly the edges whose source can be reached from the owner by a walk, each once in edge order, as source key, destination key and observations; the second condition, on the destination, excludes none of them |
| ChannelGraph.InnerGraph.Bfs | graph/src/petgraph/graph.rs:375-379 | the search terminates and visits exactly the vertices reachable by a walk |
| AccountBackend.IndexedRefinesScanning | connector/src/backend/tempdb.rs:100-188 | after any inserts and updates that never take another account's key or address, the indexed backend gives, for each id, key and address, the only answer that the scanning one can give |
| AccountBackend.Tables.InsertKeepsExact | connector/src/backend/tempdb.rs:100-132 | an insert keeps both secondary tables inverse to the account table if and only if no other account has the key or address |
| AccountBackend.Tables.RunKeepsExact | connector/src/backend/tempdb.rs:100-132 | so do any number of such inserts |
| AccountBackend.Tables.ExactTablesAnswerAsScans | connector/src/backend/tempdb.rs:160-188 | with inverse tables an index lookup is the one possible result of a scan, whatever its order |
| AccountBackend.ClashLosesAnAccount | connector/src/backend/tempdb.rs:112-118 | when two accounts share a key and one moves away, the index loses the account that every scan finds |
| AccountBackend.InMemoryBackend.InsertAccount | connector/src/backend/mod.rs:73-75 | stores the account under its id and returns the previous one |
| AccountBackend.InMemoryBackend.GetAccountByKey | connector/src/backend/mod.rs:85-91 | returns a stored account with the key, or nothing if and only if there is none |
| AccountBackend.InMemoryBackend.GetAccountByAddress | connector/src/backend/mod.rs:93-99 | the same by address |
| AccountBackend.TempDbBackend.InsertAccount | connector/src/backend/tempdb.rs:100-132 | the three tables after an insert, and the previous account |
| AccountBackend.TempDbBackend.GetAccountByKey | connector/src/backend/tempdb.rs:160-173 | the account the index names, which is what a scan finds while the tables are inverse |
| AccountBackend.TempDbBackend.GetAccountByAddress | connector/src/backend/tempdb.rs:175-188 | the same by address |
| NonceSequencer.State.NextNonce | connector/src/connector/sequencer.rs:140-181 | between two submissions of a signer, whatever the others do, the next nonce by the kind of result: the larger of the pending count and the successor of the last one after a new tracking id or a refusal that says the nonce is taken; of the pending count and the last one after a failure before submission, a deduplicated retry, a refusal before broadcast or one for lack of means; and exactly the pending count after any other failure or on a resynchronization |
| NonceSequencer.ConsumedByKind | connector/src/connector/sequencer.rs:279-297 | which kinds of result use the nonce, and which spare it |
| NonceSequencer.State.ResyncIsJustified | connector/src/connector/sequencer.rs:230-275 | the nonce is lowered only after every request of the signer, for at least the tolerance, saw the same pending count below it |
| NonceSequencer.State.ResyncIsDue | connector/src/connector/sequencer.rs:230-275 | and it is lowered as soon as that has lasted for the tolerance |
| NonceSequencer.State.GapsAreWitnessed | connector/src/connector/sequencer.rs:258-275 | a recorded gap was opened by a request at that time, and has been seen unchanged since |
| NonceSequencer.State.GapKeepsItsAge | connector/src/connector/sequencer.rs:258-275 | a gap that is seen again keeps the time it was first seen |
| NonceSequencer.State.OthersLeaveAlone | connector/src/connector/sequencer.rs:124-191 | requests of other signers, or that do not reach the chain, leave a signer's nonce and gap alone |
| NonceSequencer.State.NonceCountsTransactions | connector/src/connector/sequencer.rs:158-181 | whatever other signers submit in between, a signer's nonce advances, without resynchronizations, raises and unknown outcomes, by exactly the number of tracking ids first issued to it and of refusals that mean its nonce is taken |
| NonceSequencer.TransactionSequencer.NonceGapAge | connector/src/connector/sequencer.rs:258-275 | how long the nonce has been ahead of the same pending count; forgets a closed gap and restarts one whose count moved |
| NonceSequencer.TransactionSequencer.SyncNonce | connector/src/connector/sequencer.rs:230-253 | the nonce to sign with, and the signer's nonce and gap afterwards |
| NonceSequencer.TransactionSequencer.RecordIssuedTxId | connector/src/connector/sequencer.rs:216-226 | true if and only if the id is new; it is known afterwards |
| NonceSequencer.TransactionSequencer.Handle | connector/src/connector/sequencer.rs:132-181 | the nonce a request is signed with, if it gets that far, and the sequencer's state after it |
| AckRate.SilenceDemotes | graph/src/weight.rs:110-155 | after any history of reports of at most V packets with no more acknowledgements than packets, k silent reports of at least V packets leave a reported rate of at most 0.9 to the power k |
| AckRate.AcknowledgementRecovers | graph/src/weight.rs:110-155 | after any such history, k fully acknowledged reports of at least V packets bring the reported rate to at least one less 0.9 to the power k |
| AckRate.CountersAreDecayedSums | graph/src/weight.rs:110-115 | over any reports both counters are what they were, decayed, plus the sum of the reported numbers, each decayed once for every later report |
| AckRate.PerfectPeer | graph/src/weight.rs:110-155 | a peer that acknowledges everything has rate one, from enough volume on |
| AckRate.RateIsRatio | graph/src/weight.rs:153-155 | the rate is given if and only if the decayed volume is at least one packet, and is the ratio of the counters |
| AckRate.TwentyTwoReportsDemote | graph/src/petgraph/graph.rs:89-89 | that bound is below the default threshold if and only if k is at least 22 |
| AckRate.Counts.HistoryIsBounded | graph/src/weight.rs:120-126 | the decay bounds the weight of the past by ten times the largest report |
| AckRate.Counts.SilenceDecays | graph/src/weight.rs:110-115 | silent reports decay the acknowledgements geometrically and keep the volume up |
| AckRate.TransportImmediates.RecordConformance | graph/src/weight.rs:110-115 | both counters are decayed before the report is added |
| TargetPattern.RoundTrip | session-server-forwarder/src/target_pattern.rs:242-345 | a pattern parses back from its printed form if and only if its names are lowercase, non-empty, of DNS characters and without a dot at the end, and an exact name does not read as an IP address |
| TargetPattern.ParsedPatternReadsBack | session-server-forwarder/src/target_pattern.rs:242-345 | a parsed pattern prints back to itself if and only if its name keeps no dot at the end and does not read as an address |
| TargetPattern.RootDotHidesAnAddress | session-server-forwarder/src/target_pattern.rs:308-312 | an address with a root dot is parsed as a name that prints as the address |
| TargetPattern.ParseParts | session-server-forwarder/src/target_pattern.rs:251-314 | whatever colons the host contains, the text is parsed as protocol, host and port, in any letter case of the protocol, and fails for the reason of the first of protocol, port and host that does |
| TargetPattern.ParseIgnoresCaseAndSpace | session-server-forwarder/src/target_pattern.rs:246-277 | neither the case of the protocol nor space around a pattern changes how it parses |
| TargetPattern.MatchesItsTargetOnly | session-server-forwarder/src/target_pattern.rs:106-160 | the pattern that names every part of a target matches exactly the targets that equal it up to the spelling of the name |
| TargetPattern.NetworkIsUnion | session-server-forwarder/src/target_pattern.rs:154-154 | a block matches exactly what the addresses in it match |
| TargetPattern.AnyProtocolIsUnion | session-server-forwarder/src/target_pattern.rs:123-130 | any protocol matches exactly what the protocols match |
| TargetPattern.AnyPortIsUnion | session-server-forwarder/src/target_pattern.rs:132-139 | any port matches exactly what the ports match |
| TargetPattern.AnyServiceIsUnion | session-server-forwarder/src/target_pattern.rs:109-111 | any service matches exactly what the services match |
| TargetPattern.OpenPatterns | session-server-forwarder/src/target_pattern.rs:106-144 | any host matches every stream that protocol and port admit, and the open pattern every target |
| TargetPattern.PartsAreIndependent | session-server-forwarder/src/target_pattern.rs:112-118 | protocol, host and port are asked for one by one |
| TargetPattern.HostKinds | session-server-forwarder/src/target_pattern.rs:143-158 | names and suffixes match named hosts only, addresses and blocks only the others |
| TargetPattern.WrittenNameMatches | session-server-forwarder/src/target_pattern.rs:145-145 | a rule written with a name matches the target of that name, however it is spelled |
| TargetPattern.WrittenSuffixMatches | session-server-forwarder/src/target_pattern.rs:146-152 | a rule written with a leading wildcard label matches every name that continues the rest to the left |
| TargetPattern.SubdomainMatches | session-server-forwarder/src/target_pattern.rs:146-152 | a subdomain pattern matches exactly the names that are some text, a dot and the suffix, regardless of case and a root dot |
| TargetPattern.MatchIsSubdomain | session-server-forwarder/src/target_pattern.rs:146-152 | a name is a subdomain, with a label of its own in front of the suffix, if and only if the pattern matches it and that label is not empty |
| TargetPattern.EmptyLabelMatches | session-server-forwarder/src/target_pattern.rs:146-152 | a dot and the suffix match the subdomain pattern, although that is no subdomain |
| TargetPattern.SpellingDoesNotMatter | session-server-forwarder/src/target_pattern.rs:162-170 | neither a root dot appended to a name without one nor the case of its letters changes which patterns match |
| Text.SplitFirstAt | session-server-forwarder/src/target_pattern.rs:254-256 | text split at the first colon gives back what was joined there |
| Text.SplitLastAt | session-server-forwarder/src/target_pattern.rs:279-281 | and text split at the last one what was joined last |
| Text.TrimIgnoresSpace | session-server-forwarder/src/target_pattern.rs:246-246 | space around a text is trimmed, whatever the text |
| Text.NumberRoundTrip | session-server-forwarder/src/target_pattern.rs:283-290 | a printed number is read back as that number |

## Left out

- Machine integers: ticket indices are not wrapped at 64 bits, `max_intermediate_nodes + 2` does not
  overflow, and balances are natural numbers whose sums do not saturate.  Subtraction saturates as in
  the source.
- Races between `next_at_least` and `remove` on one key, and a shared entry that outlives its removal:
  `OutgoingIndices` keeps entries by value under their key, so concurrent calls are modelled on one
  entry only, in `IndexCounter`, where the value that `set` returns is not recorded.
- Store failures other than refused writes and deletions during a save.
- OutgoingIndices.NeverReissued: takes each save as one step, because the code issues an index again
  otherwise, as `OvertakenSaveReissues` shows.
- IndexCounter.Machine.InterruptedSave: supposes that no other save writes the store between the write
  of this one and its end, because the code stores a stale index otherwise, as `StaleWriteUncovers` shows.
- The memory model: atomic operations interleave in one order for all threads, while the source uses
  relaxed and release-acquire operations on the index and the dirty flag.
- The order in which an opened queue of several epochs is visited: `Loaded` takes the natural one, on which
  its tracked epoch then depends.
- The ticket that the chain returns after a redemption is taken to be the one that was submitted.
- The order of redeemable tickets is defined outside the repository; it is taken to be total, by epoch
  and index first.
- The inside of library types: binary heaps, concurrent and bidirectional maps, the free list of
  removed edges (a removed edge's position stays empty here), caches with eviction and expiry, database
  transactions, the redb ticket queue.
- A synchronization that replaces a channel's queue while a redeem stream still holds the old one.
- `ticket_stats`, ticket building and winning probabilities.
- `set_node_health`, edge scoring, latency and loss averages: they rest on floating point and on types
  defined outside the repository.  The acknowledgement rate is over real numbers, without rounding.
- Reading and printing IP addresses and address blocks: `IpText.Lawful` says what is supposed of it.
  Patterns are sequences of bytes, and only ASCII whitespace is trimmed.
- The chain client, its streams, subscriptions and timeouts; channel tables of the account backends;
  allow lists, configuration, drawing of graphs, sockets: they would only add easy members.
