# Verification of the live-room queue

This project models the core of the live-room queue daemon in Dafny and proves
what it keeps over whole runs. It covers five parts and the way they fit
together.

* **Waiting list** (`Ring`, `WaitingList`, `Qlist`, `StableOrder`, `QueueRuns`,
  `RepairedOrder`): the circular list of `qlist.c` with its sentinel and its
  one-entry cache, on real nodes with `prev` and `next`. The class methods are
  proved equal to functions on the units in forward order; the functions are
  proved to keep the stable sort by weight of the viewers still waiting.
* **Message handling** (`Callbacks`, `MessageRuns`): `liveroom_info_recv`, from
  messages to weights to the list, who is waiting after any messages, and in what
  order.
* **Hash table** (`HashTable`, `HashModel`, `HashRefinement`, `HashTraversal`):
  the chained table of `hash.c` on linked entries and an array of heads, with
  links written through, recycled entries, growth in place and traversal while
  popping. It refines a finite map.
* **Priority queue** (`PriQueue`, `HeapModel`, `HeapOrder`): the array heap of
  `pri_queue.c`, for any comparator.
* **Engine** (`EngineTime`, `Engine`, `EngineSafety`, `EngineAtomic`,
  `EngineOvertaking`, `EngineOrder`, `EngineFull`, `EngineRaces`, `FdModel`,
  `FdPoll`, `EnginePass`, `EngineStop`, `EngineDemands`, `EngineProgress`,
  `SelectEngine`): `select.c`. The timer
  protocol is a transition system in which threads, callbacks and the engine
  interleave freely. `SelectEngine` is the engine's code on its own fields, over
  the priority queue and the hash table above; its class invariant says that the
  fields are in a state the protocol reaches, and each method's contract states
  the whole new state, up to that of `select_engine_perform` for any number of
  passes, given what happens outside (`EnginePass`). What these states mean is
  proved about the history: what is asked for is served (`EngineDemands`), due
  events fire and the loop goes on (`EngineProgress`), a stop ends it
  (`EngineStop`).

Each class holds the fields of the C structure it models, plus ghost fields for
the sequence or map it stands for. Its methods are proved against pure
functions; the main theorems are lemmas about those functions.

## Where code and intent part

The code is modelled as written. Where it falls short of what its comments
promise, a lemma or contract says under which condition, and only under which,
the promise holds. Unless noted, another lemma gives a run that breaks it.

* `__heap_sort` compares the parent with the slot being filled and not with the
  saved element (pri_queue.c:389), so an element rises one level at most.
  `HeapOrder.TwoStaysBelowThree` is a run; `HeapOrder.PushKeepsHeapIff`,
  `RemovalKeepsHeapIff` and `RunStaysHeapIff` are the exact conditions, which a
  caller can check by looking at the grandparent of the slot. The functions
  ending in `Intended` compare the saved element, and keep the heap always.
* `qlist_append` ends in a strict `>` (qlist.c:121). On any list, sorted or not,
  it rejects a newcomer exactly when the weight ties with the front unit, the last
  unit is lighter, the cached unit is not heavier, and everybody the scan passes
  behind the front is lighter: `StableOrder.RejectedIff`, and over whole runs
  `QueueRuns.NobodyTurnedAwayIff`. On a sorted list the cache plays no part: the
  weight ties with a single heaviest unit and somebody is lighter
  (`InsertionIsStable`). The runs are `SecondGovernorIsRejected` and, on a list
  out of order, `RejectedBelowTheHeaviest`. `RepairedOrder` has the list with
  `>=`, which rejects nobody.
* `qlist_append_update` overwrites a waiting viewer's data in place
  (qlist.c:186-189). The list stays the stable sort of the arrivals exactly when
  the unit still fits between its neighbours, by weight and, among equals, by
  arrival: `StableOrder.UpdateKeepsSortIff` for one update and
  `QueueRuns.ListIsStableSort` for whole runs. It fails when a waiting viewer's
  weight drops (`LighterViewerStaysInFront`), and when it rises to that of a
  later arrival ahead (`PromotedViewerStaysBehind`): that list is still sorted by
  weight. An unchanged weight always fits (`KeptWeightsStayInPlace`). Ring,
  count, uniqueness, cache and relative order need no such condition.
* `select_engine_schedule_add` adds microseconds without a carry
  (select.c:184-189). `EngineTime.NotLaterIff` and `WaitIff` say exactly when the
  comparator and the computed wait are wrong, and by how much at most;
  `WorstMisorder` attains the bound.
* Reading the clock, pushing and waking up are three steps (select.c:181-197).
  Interleaved with the engine they let it pop an event whose callback never ran:
  `EngineRaces` has two such runs, one for each gap, and one in which an event then fires twice.
  Over every interleaving this
  happens exactly when an event pushed since the last peek has risen to the root
  (`EngineOvertaking.WrongPopIff`), and what was fired is what was popped exactly
  when no pop meets such a root (`MatchedIff`). When the three are one step it
  never happens (`EngineAtomic.PoppedIsFired`).
* The event queue has room for 50 and never grows, and a rejected event is lost
  without the caller being told: exactly when 50 are pending
  (`EngineFull.DroppedIffFull`; the run is `FiftyFirstIsDropped`).
* A stored key is cut to 30 bytes (hash.c:200) and a longer one never matches
  itself again: on every table a run can reach, a pushed value is found again
  exactly when its key fits (`HashRefinement.FoundAgainIff`), and the table is a
  map throughout a run exactly when every pushed key fits (`RunRefinesIff`).
  There is no separate run.
* `hash_create` computes `size * 4 / 3` in 32 bits (hash.c:111). The array is a
  power of two always, and as large as the load factor asks for exactly below
  2^30: `HashModel.MaskFor`, without a separate run.
* `hash_peek` reads through a null pointer when the key is absent
  (hash.c:256-258). `HashTable.Table.Peek` requires the key to be there.

## Model

| member | source | states |
|---|---|---|
| Ring.Node.constructor | source/utils/utils.h:73-76 | a new node is a ring of its own |
| Ring.AppendRear | source/utils/utils.h:79-84 | the four assignments turn a ring into the ring with the new node after `dst`, whether `dst` is a unit or the sentinel |
| Ring.AppendAhead | source/utils/utils.h:87-92 | the same in front of `dst` |
| Ring.Subtract | source/utils/utils.h:94-97 | the two assignments turn a ring into the ring without `dst` |
| Ring.SpliceIsRing | source/utils/utils.h:79-92 | whatever order links are written in, these neighbours make a ring: `next` and `prev` inverse, sentinel once, nodes distinct |
| Ring.SpliceOutIsRing | source/utils/utils.h:94-97 | the same for a bypassed node |
| Qlist.BliveQlist.constructor | source/utils/qlist.c:129-143 | the new list is empty, its cache too |
| Qlist.BliveQlist.StateWellFormed | source/utils/qlist.c:24-35 | in every valid state anchorages are unique and the cache is null or a unit on the ring |
| Qlist.BliveQlist.Search | source/utils/qlist.c:38-66 | cached or not, the search returns the unit with the anchorage exactly when one is waiting, and caches what it found |
| Qlist.BliveQlist.Append | source/utils/qlist.c:68-126 | the ring becomes the ring with the unit where the model inserts it, or an error is returned and no link is touched |
| Qlist.BliveQlist.AppendInside | source/utils/qlist.c:95-108 | the cached unit narrows the range to be scanned on the side its weight allows |
| Qlist.BliveQlist.AppendInRange | source/utils/qlist.c:110-125 | the walk ends inside the range, never reads the sentinel as a unit, and links in behind the unit it stops at or fails |
| Qlist.BliveQlist.AnchorageExistence | source/utils/qlist.c:167-176 | True exactly when the anchorage is waiting |
| Qlist.BliveQlist.AppendUpdate | source/utils/qlist.c:178-212 | valid list in, valid list out, sorted or not; new state and error code are those of the model |
| Qlist.BliveQlist.Overwrite | source/utils/qlist.c:186-189 | only the data of the waiting unit changes, in its place |
| Qlist.BliveQlist.Insert | source/utils/qlist.c:191-208 | the count goes up exactly when the unit was linked in; the cache is untouched |
| Qlist.BliveQlist.Remove | source/utils/qlist.c:214-235 | valid list in, valid list out; the unit leaves, the cache is cleared, or BLIVE_ERR_RESOURCE and nothing changes |
| Qlist.BliveQlist.Foreach | source/utils/qlist.c:237-266 | callbacks run in forward or inverted order up to the first refusal, with the three error codes |
| WaitingList.VisitedIsPrefix | source/utils/qlist.c:251-265 | a traversal visits a prefix, and stops short of the end only after a refusal |
| WaitingList.AppendUpdatedWellFormed | source/utils/qlist.c:178-212 | queueing keeps anchorages unique and the cache on the list, sorted or not, rejected or not |
| WaitingList.SubtractedWellFormed | source/utils/qlist.c:214-235 | cancelling does too, and the viewer is gone |
| StableOrder.StableSortIsUnique | source/utils/qlist.c:68-126 | the stable sort, defined without any insertion, determines the list |
| StableOrder.ScanSplits | source/utils/qlist.c:100-125 | on a sorted list, with any cached unit, the scan stops where stable insertion would |
| StableOrder.RejectedIff | source/utils/qlist.c:68-126 | on any list and with any cached unit, an insertion fails exactly when the weight ties with the front unit, the last unit is lighter, the cached one not heavier, and everybody the scan passes behind the front is lighter |
| StableOrder.InsertionIsStable | source/utils/qlist.c:68-126 | on a sorted list, for any cache, the cache-narrowed insertion is plain stable insertion, and fails exactly when the new weight ties with a single heaviest unit and somebody is lighter |
| StableOrder.RejectsWhenSorted | source/utils/qlist.c:95-125 | on a sorted list the two conditions are the same, so that the cache plays no part |
| StableOrder.RepairedInserts | source/utils/qlist.c:120-125 | with `>=` no insertion fails, on any list, and whoever was accepted goes to the same place |
| StableOrder.RepairedInsertionIsStable | source/utils/qlist.c:120-125 | with `>=`, on a sorted list, every insertion is plain stable insertion |
| StableOrder.InsertKeepsStableSort | source/utils/qlist.c:84-124 | inserting there keeps the list the stable sort of the arrivals |
| QueueRuns.StepRefinesIff | source/utils/qlist.c:178-235 | one request does to list and cache what the reference does to the arrivals exactly when it leaves a waiting viewer where the new data belongs; the error code is the reference's in any case |
| QueueRuns.RunRefines | source/utils/qlist.c:178-235 | the same over any run whose requests leave waiting viewers in place, from any state |
| QueueRuns.RunStaysSortedIff | source/utils/qlist.c:178-235 | from any stable sort, the list is the stable sort of the arrivals throughout a run exactly when every request leaves a waiting viewer in place |
| QueueRuns.KeptWeightsStayInPlace | source/utils/qlist.c:186-189 | runs in which waiting viewers ask again with an unchanged weight meet that condition |
| QueueRuns.ListIsStableSort | source/utils/qlist.c:178-235 | from the empty list, the list is throughout a run the stable sort, heaviest first, of the admitted viewers still waiting exactly when every request leaves a waiting viewer in place; then the error codes are exactly the reference's |
| StableOrder.ServedBefore | source/utils/qlist.c:84-124 | in a stable sort a viewer is ahead of another exactly when heavier, or equally heavy and earlier |
| StableOrder.UpdateKeepsSortedIff | source/utils/qlist.c:186-189 | an update in place keeps the list sorted by weight exactly when the new weight fits between the neighbours |
| StableOrder.UpdateKeepsSortIff | source/utils/qlist.c:186-189 | it keeps the list the stable sort of the arrivals exactly when the unit in front is heavier, or equal and earlier, and the unit behind lighter, or equal and later |
| StableOrder.RankedIsSort | source/utils/qlist.c:84-124 | a list in which everybody outranks all behind, by weight and then arrival, is the stable sort |
| QueueRuns.StepKeepsOrder | source/utils/qlist.c:178-235 | no request reorders two viewers who wait before and after it, on any list |
| QueueRuns.RunKeepsOrder | source/utils/qlist.c:178-235 | nor does any run, for viewers who wait throughout |
| QueueRuns.NobodyTurnedAwayIff | source/utils/qlist.c:178-212 | from any list, whatever weights change, nobody is rejected in a run exactly when no request of an absent viewer meets the condition of RejectedIff |
| QueueRuns.SecondGovernorIsRejected | source/utils/qlist.c:120-125 | weights 5, 3, 5 in turn: the third request fails |
| QueueRuns.RejectedBelowTheHeaviest | source/utils/qlist.c:95-125 | after updates have put the list out of order, a newcomer of weight 5 is rejected although somebody weighs 9 |
| QueueRuns.LighterViewerStaysInFront | source/utils/qlist.c:186-189 | a viewer whose weight drops from 5 to 1 stays ahead of one of weight 3 |
| QueueRuns.PromotedViewerStaysBehind | source/utils/qlist.c:186-189 | a viewer who rises to the weight of a later arrival ahead stays behind it |
| QueueRuns.PromotedViewerCameFirst | source/utils/qlist.c:186-189 | although the reference has the viewer first |
| RepairedOrder.RepairedStepRefinesIff | source/utils/qlist.c:178-235 | with `>=`, one request does to the list what it does to the arrivals exactly when it leaves a waiting viewer in place, and fails only for an absent viewer's cancellation |
| RepairedOrder.RepairedListIsStableSort | source/utils/qlist.c:68-126 | with `>=`, the list is throughout a run the stable sort of everybody waiting exactly when every request leaves a waiting viewer in place; then no request is rejected |
| RepairedOrder.AcceptedRunIsRepaired | source/utils/qlist.c:120-125 | from any list and with any weights, a run as written in which nobody is rejected equals the repaired one, state and codes |
| RepairedOrder.RepairedRejectsNobody | source/utils/qlist.c:120-125 | with `>=`, from any list and whatever weights change, no run rejects anybody |
| RepairedOrder.SameUnlessRejected | source/utils/qlist.c:120-125 | from any list, a run as written equals the repaired one, state and codes, exactly when nobody is rejected in it |
| RepairedOrder.AcceptedStaysInPlace | source/utils/qlist.c:178-235 | if such a run leaves waiting viewers in place, so does the repaired one |
| Callbacks.BliveQueue.LiveroomInfoRecv | source/callbacks.c:70-151 | a message changes the list as its request does in the model; short reads, disabled kinds and other messages change nothing |
| Callbacks.BliveQueue.Handle | source/callbacks.c:82-150 | the two weight branches and the cancellation |
| Callbacks.WeightTable | source/callbacks.c:91-112 | the eight weights of the comment, by kind of message and fleet level, with fleet priority on, and the two without |
| Callbacks.RankIsWeight | source/callbacks.c:92-112 | with fleet priority, weight order is fleet rank order |
| MessageRuns.CancelRemoves | source/callbacks.c:82-86 | a cancellation takes the viewer out, leaves the others and their order, and clears the cache; for an absent viewer nothing changes |
| MessageRuns.OthersChangeNothing | source/callbacks.c:76-149 | a short read, a danmu or gift message of a kind switched off, and a message of any other kind change nothing |
| MessageRuns.AdmittedUpdates | source/callbacks.c:113-116 | an admitted message of a waiting viewer replaces the viewer's data, with the weight of the message, in place |
| MessageRuns.AdmittedJoins | source/callbacks.c:113-116 | an admitted message of an absent viewer adds the viewer with that weight and leaves the others and their order, or is rejected and changes nothing, exactly under the condition of RejectedIff |
| MessageRuns.MessagesAreRequests | source/callbacks.c:70-151 | receiving messages one after another does what the requests they are turned into do |
| MessageRuns.WaitingAsAsked | source/callbacks.c:70-151 | from any list and over any messages, a viewer is waiting with what the last accepted message asked for, or not at all; exactly so if nobody is turned away |
| MessageRuns.CancelledAreGone | source/callbacks.c:82-86 | whoever's last accepted message is a cancellation, or who sent none, is not waiting |
| MessageRuns.OthersAreWaiting | source/callbacks.c:88-147 | if nobody is turned away, everybody else is, with the last message's data and weight |
| Callbacks.FleetThenArrival | source/callbacks.c:70-151 | with fleet priority, after any messages that leave waiting viewers in place, the admitted viewers queued by danmu with a known fleet level stand by fleet rank and then by arrival |
| Callbacks.EverybodyIsDanmu | source/callbacks.c:89-117 | after danmu messages of known levels only, those are all of them |
| Callbacks.RepairedFleetThenArrival | source/callbacks.c:70-151 | with `>=` in qlist.c, under the same condition, this holds of every viewer still waiting |
| Callbacks.FirstComeFirstServed | source/callbacks.c:89-117 | without fleet priority, after danmu messages of any level, the list is the arrival order and, even as written, nobody is rejected |
| HashModel.MaskIsMod | source/utils/hash.c:177 | masking selects the bucket `hash % size` for every power-of-two size |
| HashModel.MaskFor | source/utils/hash.c:94-117 | the array is a power of two of at most 2^31 for every 32-bit size, and large enough exactly below 2^30 |
| HashModel.RoundUp | source/utils/hash.c:112-116 | the loop ends, its shift never overflows, and it finds the least sufficient power of two |
| HashModel.DoublingKeepsTotal | source/utils/hash.c:70-91 | doubling neither loses nor duplicates an entry |
| HashTable.Table.constructor | source/utils/hash.c:94-131 | a valid table of empty buckets, as many as hash_create computes for the size asked for, no entry live or free |
| HashTable.Table.FindLink | source/utils/hash.c:165-191 | the walk returns the link in front of the first match, or the null link that ends the bucket |
| HashTable.Table.Peek | source/utils/hash.c:252-261 | the value stored under a present key |
| HashTable.Table.TakeNode | source/utils/hash.c:193-200 | a recycled entry is as good as a fresh one: null value, no successor, cut key |
| HashTable.Table.Write | source/utils/hash.c:201 | a write through a link changes the bucket it hangs in and no other |
| HashTable.Table.Store | source/utils/hash.c:208-235 | insertion and replacement, with the old value, on a table that may be overloaded by one |
| HashTable.Table.StoreNew | source/utils/hash.c:193-204 | the entry joins its bucket's end, the count goes up, the old value is null |
| HashTable.Table.Overwrite | source/utils/hash.c:232-235 | replacement changes one value and nothing else |
| HashTable.Table.Push | source/utils/hash.c:208-243 | buckets and old value are the model's; every live entry is in the bucket of its hash, the free ones are apart from them, and `count <= max` holds again |
| HashTable.Table.Pop | source/utils/hash.c:246-249 | the entry leaves its chain and joins the free list, no other chain changes, the old value is returned |
| HashTable.Table.Delete | source/utils/hash.c:222-231 | the chain surgery of a deletion, value nulled, count lowered |
| HashTable.Table.ExpandArray | source/utils/hash.c:70-91 | in a new array, every entry in exactly one bucket, under the new mask; live and free entries as before |
| HashTable.MoveEntry | source/utils/hash.c:83-84 | one entry moves to the head of its new bucket, the chains moved before stay intact |
| HashTable.Table.LiveIsChained | source/utils/hash.c:165-243 | the live entries are those on the chains, each on the one of its hash, with a value |
| HashTable.Table.ForEach | source/utils/hash.c:269-283 | with a callback that pops no entry but the one it is called on, every entry live at the start is visited once, in table order, although popped entries are relinked meanwhile |
| HashTable.Table.Balance | source/utils/hash.c:236-239 | the array doubles exactly when it has fewer buckets than entries |
| HashTable.Table.Visit | source/utils/hash.c:274-281 | the successor read before the callback is still the next entry to visit after it |
| HashRefinement.DoublingRefines | source/utils/hash.c:70-91 | a doubled table holds the same map |
| HashRefinement.PushRefines | source/utils/hash.c:208-243 | a push is a map update, and leaves room |
| HashRefinement.PopRefines | source/utils/hash.c:246-249 | a pop is a map removal |
| HashRefinement.RunRefinesMap | source/utils/hash.c:165-249 | over any run that pushes keys of at most 30 characters and deletes any, returned values, lookups and count are the map's |
| HashRefinement.RunRefinesIff | source/utils/hash.c:165-249 | the table holds the map throughout a run exactly when every key pushed has at most 30 characters |
| HashRefinement.ReachableIsSound | source/utils/hash.c:165-249 | every run on a new table, with keys of any length, ends with each entry in the bucket of its hash, keys of at most 30 characters and the load below the size |
| HashRefinement.NewTableIsEmptyMap | source/utils/hash.c:94-131 | a new table holds the empty map |
| HashRefinement.FoundAgainIff | source/utils/hash.c:200 | on every such table, cut keys in it or not, a pushed value is found again exactly when its key has at most 30 characters |
| HashTraversal.SweepStep | source/utils/hash.c:276-280 | popping the current key removes the current entry and no other |
| HashTraversal.SweepRefines | source/utils/hash.c:269-283 | at every point of a traversal the table holds the map without the keys popped so far |
| HashTraversal.TraversalMeetsAll | source/utils/hash.c:269-283 | a traversal meets the bindings of the map, each once |
| PriQueue.PriQueue.constructor | source/utils/pri_queue.c:63-79 | an empty heap of the given capacity |
| PriQueue.PriQueue.HeapSort | source/utils/pri_queue.c:379-402 | the loop, on the whole array, with the comparison as written |
| PriQueue.PriQueue.HeapPush | source/utils/pri_queue.c:259-284 | the model's push, or BLIVE_ERR_RESOURCE and nothing changes |
| PriQueue.PriQueue.Push | source/utils/pri_queue.c:144-174 | the second attempt after a rejection changes nothing |
| PriQueue.PriQueue.Peek | source/utils/pri_queue.c:117-142 | the root, or BLIVE_ERR_RESOURCE |
| PriQueue.PriQueue.SiftDown | source/utils/pri_queue.c:336-360 | the hole-moving loop leaves array and hole as the model does |
| PriQueue.PriQueue.HeapRemove | source/utils/pri_queue.c:313-371 | the element at any valid index, null and no change for any other |
| PriQueue.PriQueue.PopTryWait | source/utils/pri_queue.c:221-251 | the root, or BLIVE_ERR_RESOURCE and no change |
| HeapModel.PushAddsOne | source/utils/pri_queue.c:259-284 | a push onto any array, as written or as intended, adds exactly the new element |
| HeapModel.InnerRemoval | source/utils/pri_queue.c:313-371 | removing any slot but the last takes out exactly its element, on any array |
| HeapModel.RemovalTakesOneIff | source/utils/pri_queue.c:313-371 | any removal does, except exactly when the slot is the last and its element outranks its parent; as intended it always does |
| HeapModel.ParentIsLost | source/utils/pri_queue.c:362-371 | in that case the parent leaves the heap instead |
| HeapOrder.SinkRests | source/utils/pri_queue.c:336-360 | where the hole comes to rest the tail fits below, and above if the hole has moved |
| HeapOrder.IntendedRiseOrders | source/utils/pri_queue.c:379-402 | comparing the saved element restores the heap from any single slot that is too low |
| HeapOrder.RiseOrdersIff | source/utils/pri_queue.c:387-399 | as written it is restored exactly when one level is enough |
| HeapOrder.PushKeepsHeapIff | source/utils/pri_queue.c:259-284 | as written a push keeps the heap exactly when the grandparent of the new slot outranks the element; as intended always |
| HeapOrder.RemovalKeepsHeapIff | source/utils/pri_queue.c:313-371 | as written a removal at any index keeps it exactly when the slot is the last or its grandparent outranks the tail; as intended always |
| HeapOrder.RootOutranksAll | source/utils/pri_queue.c:291-294 | the root of a heap compares no worse than anything in it |
| HeapOrder.PushKeepsRoot | source/utils/pri_queue.c:259-284 | on any array, heap or not, the root stays if it compares no worse than the new element |
| HeapOrder.PushRootIff | source/utils/pri_queue.c:259-284 | on any array, as written, the new element becomes the root exactly when every pair on its path to the root is out of order |
| HeapOrder.HeapRootChangesIff | source/utils/pri_queue.c:387-396 | on a heap this is so only below the root: no push onto three or more elements changes the root, whatever is pushed |
| HeapOrder.RootSurvivesIff | source/utils/pri_queue.c:259-284 | as intended, the root outlives any series of pushes exactly when it compares no worse than all of them |
| HeapOrder.DrainReturnsAll | source/utils/pri_queue.c:301-305 | as written and on any array, heap or not, popping until it is empty returns all it holds |
| HeapOrder.DrainIsSorted | source/utils/pri_queue.c:301-305 | popping a heap until it is empty returns all it holds in comparator order, for the code as written |
| HeapOrder.RunConservesItems | source/utils/pri_queue.c:221-284 | as written, over any run of pushes and pops on any array, what was there and what was pushed is popped or still there |
| HeapOrder.IntendedQueueSorts | source/utils/pri_queue.c:144-174 | as intended, whatever is pushed comes out again in comparator order |
| HeapOrder.RunStaysHeapIff | source/utils/pri_queue.c:221-284 | over any run of pushes and pops, the code as written has a heap throughout exactly when every push meets the grandparent condition |
| HeapOrder.TwoStaysBelowThree | source/utils/pri_queue.c:389-395 | pushing 5, 4, 3, 2 leaves 3 above 2 |
| EngineTime.NotLaterIsTotalPreorder | source/utils/select.c:396-409 | the event comparator is a total preorder |
| EngineTime.ScheduledIsExact | source/utils/select.c:181-193 | an event is due exactly the timeout after now; its microsecond field is in range exactly when no carry was due |
| EngineTime.NotLaterIff | source/utils/select.c:396-409 | which pairs the comparator misorders, that it does so by at most 999,998 microseconds, and that it is exact on carried times |
| EngineTime.WorstMisorder | source/utils/select.c:184-189 | the bound is reached |
| EngineTime.WaitIff | source/utils/select.c:237-249 | the wait never exceeds the time left, falls short of it by at most 999,998 microseconds, when exactly, and is exact on carried times |
| EngineTime.ExpiredComesFirst | source/utils/select.c:181-193 | nothing scheduled after a wait is over precedes the event waited for, missing carry or not |
| EngineSafety.StepConserves | source/utils/select.c:203-279 | every step of every thread keeps accepted events popped or pending, and the peeked event pending |
| EngineSafety.StepTracks | source/utils/select.c:228-263 | every step keeps the root the peeked event unless an event queued since precedes it |
| EngineSafety.StepAnnounces | source/utils/select.c:320-333 | every step keeps each event queued during select announced by a message or a pending reload |
| EngineSafety.StepIsTimed | source/utils/select.c:168-263 | every step keeps deadlines well formed, and fired events due but for the missing carry |
| EngineSafety.RunKeepsInvariant | source/utils/select.c:168-333 | these hold over every interleaving |
| EngineSafety.NoLostWakeUp | source/utils/select.c:196-258 | in select, if the root is not what was peeked at, a message is unread or a scheduler is between its push and its reload |
| EngineSafety.WrongPopNeedsEarlierEvent | source/utils/select.c:260-266 | after a callback the queue is never empty, and the root is another event only if one that precedes it was queued since the peek |
| EngineOvertaking.WrongPopIff | source/utils/select.c:181-266 | over every interleaving, the event popped after a timeout is the one that fired exactly when no event pushed since the last peek, with room in the queue, rose to the root |
| EngineOvertaking.MatchedIff | source/utils/select.c:181-266 | over every interleaving, the events popped are throughout those fired, in order, exactly when no pop meets such a root |
| EngineOvertaking.FiresOnceUnlessOvertaken | source/utils/select.c:181-266 | over every interleaving in which no pop meets such a root, no event fires twice, and outside of a firing accepted events are the fired plus the pending ones |
| EngineOrder.QueueStaysHeapIff | source/utils/select.c:168-266 | over every interleaving, the event queue is a heap throughout exactly when the grandparent of the slot precedes each event pushed |
| EngineOrder.FiringFollowsDeadlines | source/utils/select.c:168-266 | while it does, and with clock reading, push and wake-up in one step, events fire in the comparator's order and before everything pending: by deadline up to 999,998 microseconds, exactly on carried times |
| EngineFull.DroppedIffFull | source/utils/select.c:196 | in every reachable state, an event offered to the queue is lost exactly when 50 are pending |
| EngineFull.FiftyFirstIsDropped | source/utils/select.c:168-201 | of 51 calls with nothing fired in between, the last is lost |
| EngineSafety.EventsAccountedFor | source/utils/select.c:168-279 | accepted events are popped or pending, and no callback runs before its time but for the missing carry |
| EngineAtomic.RunKeepsAtomic | source/utils/select.c:168-333 | the stronger invariant when scheduling is one step |
| EngineAtomic.PoppedIsFired | source/utils/select.c:260-266 | with clock reading, push and wake-up in one step, the event popped after a timeout is the one whose callback just ran, whatever the callback scheduled |
| EngineAtomic.FiresAtMostOnce | source/utils/select.c:168-279 | with the three in one step, no event fires twice, every call's event was accepted or dropped, and outside of a firing accepted events are the fired plus the pending ones |
| EngineRaces.TimeOutBetweenPushAndWakeUp | source/utils/select.c:196-197 | a run in which select times out between push and wake-up, and the wrong event is popped |
| EngineRaces.PushLongAfterReadingTheClock | source/utils/select.c:181-196 | a run in which the push comes late after the clock reading, with the same outcome and no wake-up due |
| EngineRaces.OneEventFiresTwice | source/utils/select.c:196-263 | the first run goes on to run the same callback again |
| FdModel.AtoiUndoesDecimal | source/utils/select.c:411-414 | the hash function reads back the descriptor its key was printed from |
| FdModel.DecimalIsInjective | source/utils/select.c:352-356 | distinct descriptors have distinct keys |
| FdModel.DescriptorKeyFits | source/utils/select.c:352-357 | a descriptor's key is never cut by the table |
| FdModel.OnceMeansOnce | source/utils/select.c:469-497 | over any run of adds, deletes and passes, a registration for one call is called at most once per time it was added |
| FdPoll.FdTable.constructor | source/utils/select.c:99-103 | no registrations, in 256 buckets |
| FdPoll.FdTable.FdAdd | source/utils/select.c:335-361 | the descriptor's registration is added or replaced, no other changes |
| FdPoll.FdTable.FdDel | source/utils/select.c:363-379 | the registration goes, or BLIVE_ERR_NOTEXSIT and nothing changes |
| FdPoll.FdTable.FireReadable | source/utils/select.c:469-497 | every readable registration is called exactly once, no other is, and the temporary ones among them are gone |
| SelectEngine.Create | source/utils/select.c:74-119 | the new engine is in the protocol's initial state with the pipe registered |
| SelectEngine.SelectEngine.EngineReload | source/utils/select.c:320-333 | a message goes into the pipe exactly when the lock is taken |
| SelectEngine.SelectEngine.ScheduleAdd | source/utils/select.c:168-201 | a negative timeout is refused and changes nothing; otherwise queue, pipe and counters move as the protocol's scheduling step, full queue included |
| SelectEngine.SelectEngine.FdAdd | source/utils/select.c:121-150 | a negative descriptor is refused; otherwise the registration is made, for any descriptor, and a restart goes into the pipe exactly when the lock is taken |
| SelectEngine.SelectEngine.FdDel | source/utils/select.c:152-166 | the same for a deletion, which succeeds for unknown descriptors too |
| SelectEngine.SelectEngine.RequestStop | source/utils/select.c:281-295 | a stop message is queued |
| SelectEngine.SelectEngine.GrantAll | source/utils/select.c:121-201 | any sequence of scheduling, stopping, adding and deleting descriptors, with the whole new state and table; the manage callback stays registered if the sequence spares it |
| SelectEngine.SelectEngine.BeginPass | source/utils/select.c:221-252 | lock, peek and the computed wait are the protocol's steps; no wait is set exactly when nothing is pending |
| SelectEngine.SelectEngine.Select | source/utils/select.c:254-258 | a timeout is reported only with an empty pipe and after the whole wait; the pipe is reported exactly when it holds a message |
| SelectEngine.SelectEngine.FireAndPop | source/utils/select.c:260-266 | the pop after the callback returns the event that fired, and never fails; every call of the callback has made its event, with its deadline, which is scheduled or, for want of room, dropped; its stops are in the pipe, its additions and deletions registered |
| SelectEngine.SelectEngine.ManageFdCallback | source/utils/select.c:449-467 | the loop empties the pipe, and clears `need_continue` exactly when a stop was in it |
| SelectEngine.SelectEngine.BeginWait | source/utils/select.c:216-254 | the first half of a pass, with other threads scheduling, stopping, adding and deleting while the engine is in select; if the registrations changed, the pipe is not empty |
| SelectEngine.SelectEngine.TakeReadable | source/utils/select.c:267-269 | the callbacks due are those of the readable registrations, in table order, the manage callback among them exactly when the pipe is readable; temporary ones are gone |
| SelectEngine.SelectEngine.RunCallbacks | source/utils/select.c:480-493 | the engine's state after the callbacks of a pass, each of which may schedule events and ask for a stop |
| EngineDemands.DemandsQueue | source/utils/select.c:168-201 | every call that is not refused makes an event of its own, due when it should be; the events that fit are scheduled and pending, the others dropped, in the order of the calls |
| EngineDemands.DemandsTell | source/utils/select.c:320-333 | every call, addition and deletion leaves a restart in the pipe exactly when the lock is taken, every stop request a stop, in order |
| EngineDemands.DemandsRegister | source/utils/select.c:335-379 | the descriptor table holds the registrations that the additions and deletions, one after another, leave |
| EngineDemands.NoLostWakeUpForFds | source/utils/select.c:121-166 | while the engine is in select, a change of the registrations leaves a message in the pipe |
| EngineDemands.FiringServes | source/utils/select.c:260-266 | an event fires, the root is popped, and all that the callback asks for is scheduled or dropped, announced and registered |
| EngineDemands.CallsQueue | source/utils/select.c:480-493 | so is every call of every callback of a descriptor |
| EngineDemands.UnmanagedPipe | source/utils/select.c:480-493 | without the callback of the pipe its messages stay, and those of the callbacks join them |
| EngineDemands.ManagedPipe | source/utils/select.c:449-493 | with it they are gone, but for those of later callbacks, and the loop goes on exactly if no stop was among them |
| EngineProgress.PassFires | source/utils/select.c:216-266 | with an event pending, no message, nothing readable and no signal, the pass fires the root after exactly the computed wait and pops once, and serves what the callback asks for |
| EngineProgress.PassCallsBack | source/utils/select.c:267-269 | if something is readable, exactly the readable registrations are called back, each once, the temporary ones among them are gone, and no event fires |
| EngineProgress.PassServesCalls | source/utils/select.c:216-269 | in such a pass all calls of other threads and of callbacks are served, in this order |
| EngineProgress.PassInterrupted | source/utils/select.c:270-273 | an interrupted pass changes nothing but the time and what the engine has peeked at |
| EngineProgress.PassBlocksIff | source/utils/select.c:228-254 | select blocks for good exactly when nothing is pending, readable or written, and no signal arrives |
| EngineProgress.PerformedOne | source/utils/select.c:216-274 | the loop makes a pass when no stop was asked for |
| EngineProgress.PerformedOn | source/utils/select.c:216-274 | after any number of passes the loop does with the rest what it would do if it began there |
| EngineProgress.LoopFires | source/utils/select.c:216-274 | as long as events are pending, the loop fires and pops one in every turn in which nothing but time ends the wait, and goes on |
| EngineProgress.LoopDrains | source/utils/select.c:216-274 | if the callbacks schedule nothing, the events that fire are the ones popped, and the first that draining the queue returns |
| EngineProgress.EarliestFire | source/utils/select.c:216-274 | from a heap these are the earliest by the comparator, in order, and precede all that stay pending |
| SelectEngine.SelectEngine.RootFiresNext | source/utils/select.c:216-266 | in every state the engine reaches, a pass whose wait only time can end fires the root |
| EngineStop.CallsHonourStop | source/utils/select.c:449-493 | among the callbacks of a pass, that of the pipe, run once, honours a stop that was in it; without one, only a stop asked for by another callback clears `need_continue` |
| EngineStop.StopEndsPass | source/utils/select.c:216-274 | a stop in the pipe when a pass begins ends the loop with that pass, whatever else is readable and whatever other threads and callbacks ask for, as long as nobody else registers or deletes the read end of the pipe |
| EngineStop.StopEndsLoop | source/utils/select.c:216-276 | the loop then does this pass and no other, and `need_continue` is true again |
| EngineStop.StopNeedsAsking | source/utils/select.c:216-274 | without a stop in the pipe, only one asked for during the pass can end the loop |
| SelectEngine.SelectEngine.Dispatch | source/utils/select.c:267-269 | the pass over the descriptor table as a whole: new engine state and new table |
| SelectEngine.SelectEngine.EndPass | source/utils/select.c:260-273 | new state and table after select has returned, for each of its outcomes |
| SelectEngine.SelectEngine.Resume | source/utils/select.c:254-273 | the second half of a pass, select included |
| SelectEngine.SelectEngine.Pass | source/utils/select.c:216-274 | new state and table of a whole pass; a reachable state stays reachable |
| SelectEngine.SelectEngine.Perform | source/utils/select.c:203-279 | whatever descriptors become readable and whatever other threads and callbacks schedule, stop, add and delete (but for the additions and deletions left out below), the loop ends in the state and table computed pass by pass, which the protocol reaches when scheduling is one step: the fired events are the popped ones, accepted events are fired or pending, a stop that was in the pipe has ended it, and with an empty pipe, enough events pending and turns in which nothing but time ends the wait, one more event has fired per turn |

## Left out

* The HTTP server, page injection, JSON parsing, configuration, danmu reception,
  black and white lists and text rendering: input and output around the modelled
  core. `send_gift_callback` has no body.
* The Windows socket pair and "%I64d" keys, and real `select`, `recv` and `send`:
  their outcomes are parameters. `select` is taken to use `tv_sec` and `tv_usec`
  as their total, also when the latter exceeds a million.
* The clock is taken to be monotone.
* Which descriptors `__fd_set_foreach` puts into the set: what select reports
  readable is a parameter, and entries that are not registered are ignored.
* The value `select_engine_perform` returns.
* Blocking and timed pops: the engine uses neither.
* Stopping and destroying the engine from outside, and destruction of every
  structure.
* Access to the descriptor table while the engine iterates over it, by other
  threads or by the callbacks it runs.
* `hash_foreach` returning early: both its callbacks refuse null values only,
  and there are none.
* Allocation failure, leaks (the rejected unit and the dropped event are never
  freed), null arguments, logging, and the locks of list and queue: every
  operation on them is one step.
* Wrap-around of `elem_num`, `count`, `max` and heap indices, which take more
  memory than there is.
* `hashfunc_default`: the hash is any function.
* Callbacks.FleetThenArrival: compares viewers of fleet levels below FLEET_LV_MAX, because others have no rank, after messages that leave waiting viewers in place, because the list is no stable sort otherwise.
* EngineSafety.WrongPopNeedsEarlierEvent: one direction; EngineOvertaking.WrongPopIff is the exact statement.
* PriQueue.PriQueue.Push: leaves out the reallocation of a full adaptive queue (pri_queue.c:158-165), which shrinks the array without telling the limit, because every later access is undefined in C; the model keeps the array and rejects.
* HashTable.Table.Peek: requires the key, because the source dereferences null without it.
* HashTable.Table.ForEach: the callback pops no entry but its own, as the engine's does; an entry with a cut key may be visited but not popped, because its key finds another entry or none.
* HashTable.Table.Store: find_entry's insertion half is part of its callers' model, as a link into the table is only handed out within one call.
* SelectEngine.SelectEngine.Perform: other threads add and delete descriptors only while the engine is in select, and callbacks of descriptors do not, because the source iterates over the table unprotected; nobody registers or deletes the read end of the pipe, because that would replace the manage callback.
* EngineOrder.FiringFollowsDeadlines: assumes that every push fits, because the code as written serves out of order otherwise, and scheduling in one step, because a late push can belong in the past.
* EngineAtomic.PoppedIsFired: takes clock reading, push and wake-up as one step, because the runs in EngineRaces show it false otherwise; EngineOvertaking.WrongPopIff is the statement for every interleaving.
