# Peerbit, proved

A model of the parts of Peerbit where state is kept by hand and means something simple, with proofs
that it means that.

**Set reconciliation** (`packages/utils/rateless-iblt`). An encoder streams coded symbols; a decoder
takes its own symbols out of them and peels what is left; a sketch is a fixed number of coded symbols.
`Words` and `CodedSymbols` say what a cell is: the sum, in an abelian group, of the symbols whose index
sequence contains its index. `Encoders` proves the encoder, with its binary heap, to produce just that.
`Peeling` is the invariant of the decoder, on values; `Decoders` and `Sketches` are the classes;
`Reconciliation` runs whole sessions. Hashes and symbols are sets of bits under symmetric difference,
so the group laws are proved, and collections are multisets. The one hypothesis is `Clean`: no cell that
the decoder looks at in the session, when it arrives or when a symbol is taken out of it, looks like one
symbol, or like nothing, unless it is. Where no part of the difference is false at all (`NoFalsePure`)
that holds of every session, as it does if one side has all that the other has
(`Peeling.OneSideIsNeverFalse`). What a decoder finds is then determined by the cells alone: all but the
largest part of the difference that each of them counts either not at all or more than once
(`Peeling.StateStops`). Symbols may be repeated, but a difference that holds one twice is then
never decoded (`Peeling.NumSaysAll`). Index sequences start at 0 and increase.

**Flooding** (`packages/transport/stream`). `Flooding` is a transition system: a bag of copies of a
seek message without receivers and of acknowledgements, over any finite network with symmetric links.
Its results are about every run: safety, an explicit bound on the number of steps, completeness, and
that learned routes have no dead ends. `DirectStreams` proves the handlers of one peer to do what the
system takes a peer to do. `RouteTables` is the table of routes with its lists, `NearestRoutes` what
following the first of them comes to after a flood, and `PubSubs` the three maps of subscriptions
(`packages/transport/pubsub`).

**The log** (`packages/log`). `LogEntries` is the graph of entries, `EntryIndexes` the index with its
head flags and its length, `LogCuts` and `Logs` recursive deletion and joining, `LogTurns` what the
join of one entry does to the flags of any log, `LogExacts` when a join leaves them exact, `LogLattices`
what joins come to in logs without cuts, `LogFailures` and `FailedJoins` what is left of one that fails.
`LogWitnesses` are runs that leave flags wrong. Every entry is taken to be later than those it points to,
which the creation of an entry checks (`Clocks.CheckedEntryFits`), and to be the only one with its hash.
`HeadsCaches` is the persisted cache of heads, `Clocks` the hybrid logical clock, `Trims` trimming to a
length.

What the source updates in place is a class whose methods are proved against functions on values;
what is proved of those functions is stated as lemmas. The asynchronous methods are taken to be atomic.

## Where the code does less than one may expect

Each of these is a lemma or a run of the classes, with the exact condition where there is one.

- A symbol added to an encoder after its first coded symbol silences the encoder: every coded symbol
  from then on is zero (`Reconciliation.StreamWithLateSymbol`).
- A symbol that is twice on one side cancels itself: with one symbol on the other side it looks like
  that one alone (`Peeling.RepeatedIsFalse`), and a decoder that has seen one cell of the two takes that
  one for the sender's, and says it is done (`Reconciliation.Misled`). Of one cell a decoder is right
  exactly if the cell is not false (`Reconciliation.OneCell`).
- Of two different symbols with the same hash, one on each side, nothing is found and the decoder says it
  is done; this happens exactly if the hashes are the same (`Reconciliation.OneAgainstOne`).
- A recursive cut deletes all that is below it exactly if each ancestor is indexed, has a block, and is
  pointed to by no two entries other than cuts, and by none outside (`LogCuts.CutIsComplete`). What two
  entries share stays even if both are deleted (`LogCuts.SharedStays`, `LogCuts.DiamondStays`).
- A cut is remembered only while it is a head (`LogJoins.CutIsForgotten`): later, what it has cut may be
  joined again, and become a head although something points to it (`LogWitnesses.ReturnsAsHead`); so may
  what has been trimmed (`LogExacts.JoinOneExact`). Heads stay free of pointers exactly if no join puts as
  a head what something points to (`LogExacts.JoinKeepsHeads`).
- With cuts, an entry that nothing points to may be left without its head flag. There are two ways: a
  deletion leaves it with pointers of cuts alone (`EntryIndexes.DeleteExact`), or it is put with the wrong
  head argument (`EntryIndexes.PutExact`), which a join gives it when it passes over another entry that
  is already cut (`LogWitnesses.CutHidesHead`). Over runs these are all (`EntryIndexes.RunExact`). When a
  join leaves the flags exact says `LogExacts.JoinExact`.
- A join that fails may leave entries without their flag: one that it has put on its way to a missing
  one (`LogWitnesses.HalfJoined`), or one that has been marked as no head for the entry that fails
  (`LogWitnesses.MarkedThenFailed`). It leaves the heads right exactly if neither is so
  (`FailedJoins.FailedJoin`), also when it has put something (`LogWitnesses.PutThenFailed`). The next
  successful join of the same entries sets them right (`LogLattices.FailureIsHealed`).
- A log that is opened again starts a new clock, and may then refuse to append on its own heads, if
  they are ahead of the physical clock, or that has been set back (`Clocks.AppendAfterOpening`).
- The heads cache loses a head that is added again while the chain of removed heads still holds it
  (`HeadsCaches.UpdateIsExact`), and may drop one when it starts again of itself, exactly if an update
  repeats heads so that there are fewer different ones than heads (`HeadsCaches.AllHeadsMayLose`).
- Trimming passes over all but one of the entries of the same wall time, also if the filter keeps that
  one (`Trims.TrimReachesLength`).
- Cleaning up expired routes loses the routes to the one other target from the same peer
  (`RouteTables.CleanupLosesOther`); a route that is confirmed is not sorted in again
  (`RouteTables.ConfirmedIsNotMoved`), and a shorter way through a neighbour that is known by a longer
  one is not heeded within a session (`RouteTables.AddedIsThere`).
- A subscription message on several topics is rejected as a whole if it is old on one
  (`PubSubs.TakenAsAWhole`, `PubSubs.RejectedAsAWhole`, `PubSubs.LatestIsNoted`), and unsubscribing from
  a topic makes the node take old messages of the peers on it again, on any topic
  (`PubSubs.UngatedLetsOldIn`).

## Model

| member | source | states |
|---|---|---|
| CodedSymbols.CellOfUnion | packages/utils/rateless-iblt/src/encoding.rs:83-89 | the coded symbol of two collections together is the sum of theirs |
| CodedSymbols.CellOfOne | packages/utils/rateless-iblt/src/encoding.rs:315-335 | a lone symbol contributes itself to exactly the cells its index sequence hits |
| CodedSymbols.HitsIffIterate | packages/utils/rateless-iblt/src/encoding.rs:70-81 | an index is hit exactly if some number of `next_index` steps arrives at it, from index 0 with the hash of the symbol as the seed |
| CodedSymbols.TotalUnion | packages/utils/rateless-iblt/src/encoding.rs:83-89 | the fold of a multiset does not depend on the order: it adds up over unions |
| Encoders.RootBound | packages/utils/rateless-iblt/src/encoding.rs:147-183 | the root of the queue waits at the least index of all the mappings |
| Encoders.SwapUp | packages/utils/rateless-iblt/src/encoding.rs:117-127 | swapping a child with its larger parent moves the one violation of the heap order up |
| Encoders.SwapDown | packages/utils/rateless-iblt/src/encoding.rs:242-260 | swapping a parent with its smaller child moves the one violation down |
| Encoders.ReindexedIndexed | packages/utils/rateless-iblt/src/encoding.rs:208-224 | after a source is removed the queue, re-indexed, is a permutation of the remaining sources with their indices |
| Encoders.RemoveFirstContents | packages/utils/rateless-iblt/src/encoding.rs:196-206 | removing the first match takes exactly one copy out of the collection |
| Encoders.Encoder.AddHashedSymbolWithMapping | packages/utils/rateless-iblt/src/encoding.rs:108-128 | the new source is queued at its index, the heap order holds again and the queue is indexed right |
| Encoders.Encoder.AddHashedSymbol | packages/utils/rateless-iblt/src/encoding.rs:130-138 | queues the symbol with a mapping at index 0, seeded with its hash; before the first coded symbol that keeps the encoder in step, later the symbol stalls it |
| Encoders.Encoder.HeapifyDown | packages/utils/rateless-iblt/src/encoding.rs:242-260 | makes a heap from an entry on out of one below it; the queue is a permutation |
| Encoders.Encoder.BuildQueueHeap | packages/utils/rateless-iblt/src/encoding.rs:234-240 | makes a heap of any queue, bottom up, as a permutation |
| Encoders.Encoder.MoveRootOn | packages/utils/rateless-iblt/src/encoding.rs:156-178 | moves the root symbol, and no other, on to its next index; the queue is a heap of the mappings again |
| Encoders.Encoder.Drain | packages/utils/rateless-iblt/src/encoding.rs:155-179 | the inner loop ends, having counted in every symbol that is due once, and no other |
| Encoders.Encoder.ApplyWindow | packages/utils/rateless-iblt/src/encoding.rs:147-183 | a stalled encoder leaves the cell as it is; any other counts in what waits at the window and moves just that on |
| Encoders.Encoder.ApplyWindowInStep | packages/utils/rateless-iblt/src/encoding.rs:147-183 | adds to, or takes from, the cell exactly the fold of the symbols whose index sequence contains the window |
| Encoders.Encoder.ProduceNextCodedSymbol | packages/utils/rateless-iblt/src/encoding.rs:185-194 | the i-th coded symbol is the fold of all symbols hit by i |
| Encoders.Encoder.RemoveSymbol | packages/utils/rateless-iblt/src/encoding.rs:196-232 | one copy goes, the rest stay in their order and at their indices, and the encoder stays in step; an unknown symbol changes nothing |
| Encoders.Encoder.InStepRuns | packages/utils/rateless-iblt/src/encoding.rs:185-194 | an encoder whose symbols are in step is never stalled: its root is not behind the window |
| Peeling.One | packages/utils/rateless-iblt/src/encoding.rs:307-312 | a cell that counts one symbol is pure, shows that symbol, and its sign says of which side it is |
| Peeling.CellTells | packages/utils/rateless-iblt/src/encoding.rs:307-312 | a cell that is not false is pure exactly if it counts one symbol, and empty exactly if it counts none |
| Peeling.FalseCells | packages/utils/rateless-iblt/src/encoding.rs:307-312 | what a false cell is, in its own fields: it counts two symbols or more, and its count and xor of hashes are zero, or its count is 1 or -1 and its xor of hashes is the hash of its xor of symbols |
| Peeling.NextCell | packages/utils/rateless-iblt/src/encoding.rs:342-376 | what the next scheduled cell says is so: its count is 1, -1 or 0, and the symbol it shows is an undecoded difference of that side |
| Peeling.SpreadDone | packages/utils/rateless-iblt/src/encoding.rs:315-335 | the loop of `apply_new_symbol` changes exactly the cells that the symbol hits |
| Peeling.PeelIn | packages/utils/rateless-iblt/src/encoding.rs:346-356 | taking a symbol out of the residual is taking it out of the cells it hits |
| Peeling.StepPure | packages/utils/rateless-iblt/src/encoding.rs:315-384 | decoding one symbol keeps the peeling invariant: residual cells, genuine differences that are there once, each cell scheduled once, cells counted once, no false cell to come |
| Peeling.StepEmpty | packages/utils/rateless-iblt/src/encoding.rs:369-371 | counting an emptied cell keeps the peeling invariant |
| Peeling.StepArrive | packages/utils/rateless-iblt/src/encoding.rs:300-313 | a new cell keeps the peeling invariant |
| Peeling.ArrivedCell | packages/utils/rateless-iblt/src/encoding.rs:300-305 | taking the receiver's own, and the already decoded, symbols out of a cell leaves the residual of the undecoded difference |
| Peeling.DoneIsAll | packages/utils/rateless-iblt/src/encoding.rs:386-388 | if all cells are empty nothing is left undecoded, for every symbol hits cell 0 |
| Peeling.StateDone | packages/utils/rateless-iblt/src/encoding.rs:386-388 | with nothing scheduled, all cells are counted exactly if the difference has been decoded |
| Peeling.StateStops | packages/utils/rateless-iblt/src/encoding.rs:337-388 | when nothing is scheduled, what is not decoded is the largest part of the difference that each cell counts either not at all or more than once; all has been decoded exactly if no part is such |
| Peeling.LargestIsOne | packages/utils/rateless-iblt/src/encoding.rs:337-388 | there is only one such part: what is decoded does not depend on the order |
| Peeling.NumSaysAll | packages/utils/rateless-iblt/src/encoding.rs:386-388 | `decoded` holds only if exactly the difference has been decoded, also while cells are scheduled, and only of a difference without a symbol twice |
| Peeling.DoneBound | packages/utils/rateless-iblt/src/encoding.rs:337-384 | no more cells are counted than there are, which ends the loop of `try_decode` |
| Peeling.NoFalsePureIsClean | packages/utils/rateless-iblt/src/encoding.rs:307-366 | where no part of the difference is false, no run meets a false cell |
| Peeling.OneSideIsNeverFalse | packages/utils/rateless-iblt/src/encoding.rs:307-366 | no part of a difference that is all on one side is false, whatever the hash |
| Peeling.RepeatedIsFalse | packages/utils/rateless-iblt/src/encoding.rs:307-312 | a symbol twice on one side and any symbol on the other have a part that looks like one symbol and is not |
| Peeling.RepeatedMisleads | packages/utils/rateless-iblt/src/encoding.rs:300-388 | the one cell of a difference with a symbol twice on one side and one on the other shows that one, on the wrong side, and is empty once it has been taken out |
| Decoders.Decoder.constructor | packages/utils/rateless-iblt/src/encoding.rs:272-282 | a new decoder is fresh |
| Decoders.Decoder.FromEncoder | packages/utils/rateless-iblt/src/encoding.rs:263-270 | `to_decoder` of an encoder that has produced nothing gives a fresh decoder with its symbols |
| Decoders.Decoder.AddCodedSymbol | packages/utils/rateless-iblt/src/encoding.rs:300-313 | the next cell of the stream keeps the decoder valid; any first cell, false or not, is the one cell of a fresh decoder without its own symbols |
| Decoders.Decoder.ApplyNewSymbol | packages/utils/rateless-iblt/src/encoding.rs:315-335 | spreads the symbol over its cells, schedules those that become pure, and returns the mapping past the last cell |
| Decoders.Decoder.Take | packages/utils/rateless-iblt/src/encoding.rs:342-368 | the symbol of a cell of count 1 goes to remote, of count -1 to local, and out of all cells, and the cells this makes pure are scheduled, in order; whether or not it is genuine |
| Decoders.Decoder.Process | packages/utils/rateless-iblt/src/encoding.rs:342-379 | one turn of the loop: keeps the invariant, or what is known of the one cell, and counts one more cell; the degree is never invalid |
| Decoders.Decoder.TryDecode | packages/utils/rateless-iblt/src/encoding.rs:337-384 | always ends with Ok; without false cells `decoded` holds afterwards exactly if remote and local are the two differences, and exactly if no part of them stops the peeling, and else the largest such part is left; of one cell, false or not, exactly if it is pure or empty, and then they are what it shows |
| Decoders.Decoder.DecodedIsExact | packages/utils/rateless-iblt/src/encoding.rs:386-388 | at any moment `decoded` implies that remote and local are exactly the differences, and that these hold no symbol twice |
| Reconciliation.Stream | packages/utils/rateless-iblt/src/encoding.rs:185-194 | the stream of an encoder, cell by cell, whatever the order of insertion |
| Reconciliation.StreamWithRemoval | packages/utils/rateless-iblt/src/encoding.rs:196-232 | after a removal the stream is that of the collection without one copy of the symbol |
| Reconciliation.StreamWithLateSymbol | packages/utils/rateless-iblt/src/encoding.rs:130-183 | a symbol added after the first coded symbol stalls the encoder: all later coded symbols are zero |
| Reconciliation.Connect | packages/utils/rateless-iblt/src/encoding.rs:263-298 | sender and receiver set up from two lists of symbols, with repetitions, are connected for every session that meets no false cell |
| Reconciliation.Run | packages/utils/rateless-iblt/src/encoding.rs:300-384 | any interleaving of sending and decoding keeps them connected, and decoding last is complete |
| Reconciliation.Reconcile | packages/utils/rateless-iblt/src/encoding.rs:300-396 | whole sessions: `decoded` implies exactly A\B and B\A, with no symbol twice; after trying it holds exactly if no part of them is counted by each cell sent either not at all or more than once, and what is not found is the largest such part |
| Reconciliation.OneCell | packages/utils/rateless-iblt/src/encoding.rs:300-388 | a session of one cell, whatever the hash: what the decoder says and has found is right exactly if the cell is not false |
| Reconciliation.OneAgainstOne | packages/utils/rateless-iblt/src/encoding.rs:300-388 | one symbol against another, one cell: nothing is found, and it says so, exactly unless the two have the same hash |
| Reconciliation.DecodeTwo | packages/utils/rateless-iblt/src/encoding.rs:65-396 | a session of two cells in which two symbols with different index sequences are told apart, and exactly both are found |
| Reconciliation.Misled | packages/utils/rateless-iblt/src/encoding.rs:300-388 | the sender has a symbol twice, the receiver another one: after one cell `decoded` holds, and remote is what only the receiver has |
| Reconciliation.ConnectedIsSound | packages/utils/rateless-iblt/src/encoding.rs:386-396 | what has been decoded is always part of the differences |
| Sketches.SketchIsStream | packages/utils/rateless-iblt/src/sketch.rs:31-44 | cell i of a sketch is the i-th coded symbol of the encoder |
| Sketches.SketchAdd | packages/utils/rateless-iblt/src/sketch.rs:31-44 | adding counts one symbol in |
| Sketches.SketchRemove | packages/utils/rateless-iblt/src/sketch.rs:46-59 | removing takes a symbol out, or counts it out |
| Sketches.AddRemoveInverse | packages/utils/rateless-iblt/src/sketch.rs:31-59 | adding and removing the same symbol undo each other in either order |
| Sketches.SpreadCommutes | packages/utils/rateless-iblt/src/sketch.rs:31-59 | operations on two symbols commute |
| Sketches.SubtractedCell | packages/utils/rateless-iblt/src/sketch.rs:75-85 | the difference of two cells is the residual of the two set differences |
| Sketches.Sketch.AddHashedSymbol | packages/utils/rateless-iblt/src/sketch.rs:31-44 | changes exactly the cells that the symbol hits, by the symbol |
| Sketches.Sketch.RemoveHashedSymbol | packages/utils/rateless-iblt/src/sketch.rs:46-59 | the same, the other way |
| Sketches.Sketch.Subtract | packages/utils/rateless-iblt/src/sketch.rs:75-85 | sketches of different size are refused and unchanged; else the result is the signed sketch of A\B against B\A |
| Sketches.Sketch.Decode | packages/utils/rateless-iblt/src/sketch.rs:87-100 | with at least one cell, `is_decoded` exactly if `fwd` and `rev` are the two sides of what the sketch counts, also if something is counted in and out, and exactly if no part of it stops the peeling; else the largest such part is missing |
| Flooding.TracesAreSimplePaths | packages/transport/stream/src/index.ts:1293-1340 | copies are signed along simple paths from the publisher; an acknowledgement stands where its remaining hops say, and is new to its receiver |
| Flooding.NeverStuck | packages/transport/stream/src/index.ts:1357-1411 | as long as something is on its way a step is possible |
| Flooding.FloodTerminates | packages/transport/stream/src/index.ts:1203-1276 | an explicit bound on the number of deliveries of every run |
| Flooding.FloodIsSafe | packages/transport/stream/src/index.ts:1203-1276 | at every moment: `data` at most once a peer, never at the publisher, at most `redundancy` relays, only connected peers |
| Flooding.FloodIsComplete | packages/transport/stream/src/index.ts:1203-1276 | when no copy is on its way, exactly the peers connected to the publisher have raised `data` |
| Flooding.RoutesLeadOn | packages/transport/stream/src/index.ts:1781-1803 | the neighbour of a stored route is the target or has stored routes that lead on to it |
| Flooding.OriginKnowsAll | packages/transport/stream/src/index.ts:1357-1411 | when nothing is on its way, stored routes lead from the publisher to every peer connected to it |
| NearestRoutes.RunKeepsFirsts | packages/transport/stream/src/index.ts:1357-1411 | in every run there is one first acknowledgement of a target: where it has been it has stored its route, and no other route is as short |
| NearestRoutes.NearestArrives | packages/transport/stream/src/index.ts:1781-1803 | after a flood, what is sent from its publisher along nearest routes, whichever of them at every hop, is at its target in fewer hops than there are peers |
| NearestRoutes.PickArrives | packages/transport/stream/src/routes.ts:394-484 | a list with the shortest stored route through each neighbour: without redundancy exactly one neighbour is picked, and from there the message arrives |
| NearestRoutes.ListsInOrder | packages/transport/stream/src/routes.ts:87-205 | when a list is such a one: added to in one session, it holds the shortest stored route through each neighbour exactly if the first that came through each was the shortest |
| Flooding.RunMeasure | packages/transport/stream/src/index.ts:1203-1276 | every delivery lowers the measure |
| DirectStreams.DirectStream.Publish | packages/transport/stream/src/index.ts:1835-1969 | a seek message goes to every neighbour, is marked seen, and awaits acknowledgements |
| DirectStreams.DirectStream.OnDataMessage | packages/transport/stream/src/index.ts:1203-1276 | does exactly what the transition system takes a peer to do with a copy; that is, spelled out: nothing for a copy it has signed, or has seen as often as the redundancy; else it raises the first, acknowledges to the last signer, and relays one copy to each neighbour that has not signed |
| DirectStreams.DirectStream.Forward | packages/transport/stream/src/index.ts:1255-1275 | relays, if it may, to exactly the neighbours that have not signed |
| DirectStreams.DirectStream.OnAck | packages/transport/stream/src/index.ts:1357-1411 | once: stores the route if the message awaits acknowledgements, and hands the acknowledgement back along the trace |
| RouteTables.SortOrders | packages/transport/stream/src/routes.ts:17-33 | sorting gives the full order, nearer first and live before expired, and keeps the multiset |
| RouteTables.AddedIsGood | packages/transport/stream/src/routes.ts:87-205 | whatever is added, a list stays non-empty and sorted by distance, with at most one live route a neighbour, of the latest session |
| RouteTables.AddedIsThere | packages/transport/stream/src/routes.ts:87-205 | afterwards there is a route through the neighbour as short as the added one, exactly unless a longer one was known and the session is not new |
| RouteTables.AddedIsDirect | packages/transport/stream/src/routes.ts:112-120 | the routes to a neighbour stay at -1 through itself, and all others at 0 or more |
| RouteTables.AddedDirectIsFirst | packages/transport/stream/src/routes.ts:112-205 | to a neighbour the direct route is the first of the list, and of the new session if there is one |
| RouteTables.AddedRecords | packages/transport/stream/src/routes.ts:121-205 | the sessions that are kept, the new route with its distance, session and expiry, and which of the three answers is given, in terms of what was known |
| RouteTables.OthersAreKept | packages/transport/stream/src/routes.ts:87-205 | a route through another neighbour is in the list exactly if it was, but for the expiry that a new session gives to live ones |
| RouteTables.ConfirmedIsNotMoved | packages/transport/stream/src/routes.ts:168-184 | a route confirmed at the same distance is not moved: the full order holds exactly if no route before it is as near |
| RouteTables.RemovedIsGone | packages/transport/stream/src/routes.ts:212-247 | removal purges a peer as origin, target and neighbour; every other route stays, as often as it was, with the sessions of its target |
| RouteTables.CleanupLeaves | packages/transport/stream/src/routes.ts:60-86 | of the target itself exactly the routes that have not expired are left, with its sessions; it goes exactly if there are none; other origins stay |
| RouteTables.CleanupLosesOther | packages/transport/stream/src/routes.ts:60-86 | when cleaning up loses the unexpired routes to another target: exactly if there are two targets and all routes to the first have expired |
| RouteTables.PicksAreFirst | packages/transport/stream/src/routes.ts:419-476 | of the live routes to a target a first part in order of distance is picked, none as far as the redundancy |
| RouteTables.PicksAreBounded | packages/transport/stream/src/routes.ts:419-476 | no more live routes than the redundancy |
| RouteTables.PicksAreEnough | packages/transport/stream/src/routes.ts:419-476 | the picking stops no earlier than at the redundancy, the direct route or the last near enough live route |
| RouteTables.ClosestIsPicked | packages/transport/stream/src/routes.ts:453-463 | the closest route has been found exactly if one at 0 or nearer, of no later session, is picked |
| RouteTables.PassedOver | packages/transport/stream/src/routes.ts:423-436 | before the last picked route exactly those are passed over, in messages from here, that have expired while a live one as near comes before them |
| RouteTables.MarkThrough | packages/transport/stream/src/routes.ts:441-451 | exactly the neighbours of the picked routes are marked as ways to the target |
| RouteTables.MarkSession | packages/transport/stream/src/routes.ts:441-451 | the session by which a neighbour is marked is that of a picked route through it |
| RouteTables.Routes.Add | packages/transport/stream/src/routes.ts:87-205 | the new table and the answer, with all other targets as they were; from here to a neighbour the first route is the direct one, at -1 and live unless of an old session, and else the new route has the distance given |
| RouteTables.Routes.Remove | packages/transport/stream/src/routes.ts:212-247 | the table without the peer; returns exactly the targets from here that have lost all routes |
| RouteTables.Routes.Cleanup | packages/transport/stream/src/routes.ts:60-86 | leaves out expired routes, and the whole origin when one other target is left |
| RouteTables.Routes.ReachableByAny | packages/transport/stream/src/routes.ts:265-295 | looking at the first route is looking at all of them |
| RouteTables.Routes.GetFanout | packages/transport/stream/src/routes.ts:394-484 | there is no answer exactly if the table does not suffice for some receiver; else each receiver goes through exactly its picked neighbours, from here at least one, each with the session of such a route |
| RouteTables.ReachDirectly | packages/transport/stream/src/routes.ts:87-484 | a neighbour that is added at whatever distance is reached through itself and no other, with any redundancy |
| PubSubs.SubscribedKeeps | packages/transport/pubsub/src/index.ts:604-641 | subscribing keeps the three maps in agreement |
| PubSubs.UnsubscribedKeeps | packages/transport/pubsub/src/index.ts:351-368 | unsubscribing keeps the three maps in agreement |
| PubSubs.ReceivedKeeps | packages/transport/pubsub/src/index.ts:597-690 | every subscription message keeps the three maps in agreement |
| PubSubs.ForgottenIsGone | packages/transport/pubsub/src/index.ts:433-454 | a peer that is reset is in no topic and in none of the maps; nothing else changes |
| PubSubs.OneDecides | packages/transport/pubsub/src/index.ts:456-479 | a message on one topic is taken if it is not older than the last one, and then decides membership |
| PubSubs.TakenAsAWhole | packages/transport/pubsub/src/index.ts:456-479 | a message on several topics decides on each of them exactly if it is old on none |
| PubSubs.LaterSessionReplaces | packages/transport/pubsub/src/index.ts:604-641 | the stored session and time of a member stay, unless a subscription is taken that is of a later session, or the first, and are then those of the message |
| PubSubs.OthersLeave | packages/transport/pubsub/src/index.ts:456-690 | a message that is not about the peer and the topic leaves membership and the last message |
| PubSubs.RunSettles | packages/transport/pubsub/src/index.ts:153-690 | after any run of deliveries, unsubscribing, tracking and losing peers the last noted message is the latest since its sender was last forgotten, and agrees with membership |
| PubSubs.NothingDecides | packages/transport/pubsub/src/index.ts:153-690 | without any message since then membership is what it was then |
| PubSubs.LatestDecides | packages/transport/pubsub/src/index.ts:153-690 | convergence of messages on one topic each: in any order, with repetitions, resets and unsubscribing in between, the latest since its sender was last forgotten decides |
| PubSubs.RunTakes | packages/transport/pubsub/src/index.ts:153-690 | messages on any number of topics, after any run: the last that is noted is the latest of those taken since its sender was last forgotten, and decides |
| PubSubs.LatestIsNoted | packages/transport/pubsub/src/index.ts:153-690 | messages on any number of topics: the latest is the one that is noted and decides exactly if it was old on none of its topics when it came |
| PubSubs.RejectedAsAWhole | packages/transport/pubsub/src/index.ts:456-479 | a run in which the latest message on a topic does not decide, for it is old on another of its topics |
| PubSubs.UngatedLetsOldIn | packages/transport/pubsub/src/index.ts:153-176 | a message on another topic that is rejected is taken after the node has unsubscribed, exactly if its sender is on the topic that the node leaves |
| PubSubs.DirectSub.Subscribe | packages/transport/pubsub/src/index.ts:107-120 | the first subscription tracks the topic and is announced, later ones are counted |
| PubSubs.DirectSub.Unsubscribe | packages/transport/pubsub/src/index.ts:153-204 | leaves the topic after as many calls as subscriptions, or by force; forgets the last messages of the peers on it |
| PubSubs.DirectSub.DeletePeerFromTopic | packages/transport/pubsub/src/index.ts:351-368 | takes the peer out of the three maps, and says if it was a member |
| PubSubs.DirectSub.RemoveSubscriptions | packages/transport/pubsub/src/index.ts:433-454 | the state without the peer; reports exactly the topics it was a member of |
| PubSubs.DirectSub.SubscriptionMessageIsLatest | packages/transport/pubsub/src/index.ts:456-479 | notes the message on all topics if it is old on none, else changes nothing |
| PubSubs.DirectSub.OnSubscriptionMessage | packages/transport/pubsub/src/index.ts:597-690 | the whole new state |
| LogEntries.ClosedHasAncestors | packages/log/src/log.ts:790-823 | a set closed under `next` holds all ancestors of its entries |
| LogEntries.AncestorsExist | packages/log/src/log.ts:790-823 | ancestors are earlier than the entry, which ends the recursion |
| EntryIndexes.PutKeeps | packages/log/src/entry-index.ts:281-375 | putting keeps heads unreferenced, and on logs without cuts keeps them exactly the unreferenced entries |
| EntryIndexes.PutExact | packages/log/src/entry-index.ts:281-436 | cuts allowed: putting leaves heads unreferenced exactly if what is put as a head is; it keeps the flags exact exactly if the head argument is right |
| EntryIndexes.DeleteKeeps | packages/log/src/entry-index.ts:377-399 | so does deleting |
| EntryIndexes.DeleteExact | packages/log/src/entry-index.ts:377-436 | cuts allowed: a deletion keeps the flags exact exactly if nothing that the entry points to is left with pointers of cuts alone |
| EntryIndexes.RunKeeps | packages/log/src/entry-index.ts:281-399 | after every run of `put` and `delete` a head is not referenced; without cuts the heads are exactly the unreferenced entries |
| EntryIndexes.RunExact | packages/log/src/entry-index.ts:281-399 | cuts allowed, any head arguments: all through a run the heads are exactly the unreferenced entries, exactly if every head argument is right and every deletion meets the condition of `EntryIndexes.DeleteExact` |
| EntryIndexes.CutLeavesNoHead | packages/log/src/entry-index.ts:405-436 | the least run in which it is not so: even after the cut has gone, an entry that nothing points to is no head |
| EntryIndexes.EntryIndex.PutEntry | packages/log/src/entry-index.ts:281-375 | the new index and store; the length is the number of entries |
| EntryIndexes.EntryIndex.DeleteEntry | packages/log/src/entry-index.ts:377-399 | the new index and store; the length is the number of entries; deleting twice is deleting once |
| EntryIndexes.EntryIndex.UpdateNextHeadProperty | packages/log/src/entry-index.ts:405-436 | the loop over `next` changes exactly the flags that it should |
| LogCuts.DoomedAreAncestors | packages/log/src/log.ts:893-933 | everything that is deleted is indexed and an ancestor of where the deletion starts |
| LogCuts.CutIsSafe | packages/log/src/log.ts:893-933 | no entry that stays, other than cuts, points to one that a cut deletes |
| LogCuts.CutIsComplete | packages/log/src/log.ts:893-933 | all proper ancestors are deleted exactly if each is indexed, has a block, and has at most one entry pointing to it that is no cut, an ancestor too |
| LogCuts.SharedStays | packages/log/src/log.ts:893-933 | an entry that two entries point to, neither a cut, is not deleted from anywhere, even if both go |
| LogCuts.DiamondStays | packages/log/src/log.ts:893-933 | a log in which both go and the shared entry stays |
| Logs.Log.PrepareDeleteRecursively | packages/log/src/log.ts:893-933 | the stack loop ends and yields exactly the doomed entries, with or without the first |
| Logs.Log.DeleteAll | packages/log/src/log.ts:873-890 | the index and the store without the entries, and the head flags as deleting them one by one leaves them |
| Logs.Log.DeleteRecursively | packages/log/src/log.ts:873-890 | the index without exactly the doomed entries |
| Logs.Log.ProcessEntry | packages/log/src/log.ts:861-871 | a cut dooms what is below it, itself not; an append dooms nothing |
| Logs.Log.PutAndProcess | packages/log/src/log.ts:828-857 | a cut deletes exactly what is below it from the index and the store; no entry that is left, other than cuts, has lost what it points to |
| LogJoins.PutFlags | packages/log/src/log.ts:828-832 | an entry put after all it points to keeps the flags right but for itself, and settles those of what it points to |
| LogJoins.CutIsForgotten | packages/log/src/log.ts:771-787 | after an append has been put, a cut still stops a join exactly if some head that cuts the entry is not pointed to by the append |
| Logs.Log.JoinRecursively | packages/log/src/log.ts:739-859 | ends; an entry that is there or already cut changes nothing. In any log (`Turn`): only ancestors come or go; heads stay unreferenced exactly unless the entry is put as a head while something other than a cut points to it; if no cuts come, those of before lose the flag exactly if something that comes points to them, and what comes is no head and pointed to, but for the entry itself. The turn of a cut puts it, and takes exactly what is below it from the index and the store. Without cuts: it fails exactly if an ancestor is nowhere to be found, and at once exactly if it has put nothing |
| Logs.Log.Collect | packages/log/src/log.ts:640-697 | the entries to join, all others being indexed already, or the one that is missing, before anything has changed |
| Logs.Log.MarkHeads | packages/log/src/log.ts:700-709 | which entries are to be heads; none that is not is pointed to by no other of the entries |
| LogJoins.MarkedTops | packages/log/src/log.ts:700-709 | an entry that no other of the list points to is to be a head, and none is that such an entry points to |
| LogJoins.MarkedByOrder | packages/log/src/log.ts:700-709 | for others it depends on the order: the last of a chain given newest first is to be a head, given oldest first it is not |
| Logs.Log.Join | packages/log/src/log.ts:618-731 | leads turn by turn, of `JoinRecursively` on the entries it has found, from the index and the store to the new ones; without cuts to the index united with the ancestors of what is joined, or it fails |
| LogTurns.TurnPut | packages/log/src/log.ts:790-859 | putting an entry, and deleting what it cuts, ends its turn as `Turn` says |
| LogTurns.CutStaysOut | packages/log/src/log.ts:771-787 | a turn that succeeds leaves out exactly the entry that a later cut of the same graph, which is a head, points to; a cut of another graph stops nothing |
| LogExacts.JoinExact | packages/log/src/log.ts:618-859 | a join that brings no cuts, into a log that may hold some, whether it fails or not, leaves exact flags exact exactly if each entry put had the right head argument or is pointed to later, and all that the failing turn has put is pointed to |
| LogExacts.JoinOneExact | packages/log/src/log.ts:618-859 | the join of one entry keeps exact flags exact exactly if there is no need for it, or nothing but cuts points to the entry |
| LogExacts.JoinKeepsHeads | packages/log/src/log.ts:618-859 | any join, bringing cuts or not: heads are unreferenced all through it exactly if no turn puts as a head what something other than a cut points to |
| LogLattices.SuccessIsJoin | packages/log/src/log.ts:618-859 | a join that succeeds yields the canonical index of the union, even after attempts that have failed half way |
| LogLattices.FailureIsHealed | packages/log/src/log.ts:739-859 | a join that fails and is repeated until it succeeds comes to what it would have come to at once |
| FailedJoins.JoinFailsExactly | packages/log/src/log.ts:618-859 | a join fails exactly if an ancestor of one of its entries is neither indexed nor has a block, and at the first of these entries |
| FailedJoins.FailedJoin | packages/log/src/log.ts:618-859 | a failed join of any number of entries leaves a canonical index canonical exactly if the turn that fails puts nothing, as the first entries not indexed lead to the missing one, and something points to all put before as no head; all of it known before the call |
| LogWitnesses.HalfJoined | packages/log/src/log.ts:618-859 | the join of one entry that points to one handed over and to a missing one leaves the first unflagged, though nothing points to it |
| LogWitnesses.MarkedThenFailed | packages/log/src/log.ts:618-859 | a join whose failing turn puts nothing, and which leaves the flags wrong: the entry before was marked as no head |
| LogWitnesses.PutThenFailed | packages/log/src/log.ts:618-859 | a join that puts an entry, fails, and leaves the flags right |
| LogWitnesses.CutHidesHead | packages/log/src/log.ts:700-787 | a join that succeeds and deletes nothing, after which an entry is no head though nothing points to it: it was marked for one that is already cut |
| LogWitnesses.ReturnsAsHead | packages/log/src/log.ts:739-859 | a run with a cut after which an entry is a head though something points to it |
| LogWitnesses.JoinCut | packages/log/src/log.ts:618-890 | the join of one cut, into any log: afterwards the index and the store are those of before with the cut and without exactly what is below it |
| LogLattices.JoinLaws | packages/log/src/log.ts:618-859 | joins commute, are idempotent, and joining in turn is joining at once |
| LogLattices.HeadsSuffice | packages/log/src/log.ts:618-859 | joining the heads of another log unites the two logs |
| LogLattices.JoinInAnyOrder | packages/log/src/log.ts:618-859 | two replicas that join the same in different orders end up equal |
| LogLattices.AppendIsOneHead | packages/log/src/log.ts:461-568 | an entry that points to all heads becomes the one head |
| LogLattices.Append | packages/log/src/log.ts:536-568 | the canonical index with one more entry, the only head |
| HeadsCaches.UpdateIsExact | packages/log/src/heads-cache.ts:157-234 | an update is the intended change of the list exactly if it adds nothing again that the chain of removed heads holds, but to remove it at once |
| HeadsCaches.UpdatedMeans | packages/log/src/heads-cache.ts:175-232 | when the cache starts again, exactly the added heads that are not removed are listed; otherwise all that were listed stay, but for those removed, and none but the added come; nothing is rewritten while less than half of it has been removed |
| HeadsCaches.RunIsExact | packages/log/src/heads-cache.ts:157-234 | after any run that adds no removed hash again, the cached heads are those added and not removed since the last reset |
| HeadsCaches.CompactionKeepsLive | packages/log/src/heads-cache.ts:219-231 | rewriting the chains leaves the list of heads as it is, in its order |
| HeadsCaches.UpdatedIsLean | packages/log/src/heads-cache.ts:217-231 | after every update nothing has been removed, or twice that is below what has been added |
| HeadsCaches.StoredIsBounded | packages/log/src/heads-cache.ts:193-232 | stored hashes, live or not, are fewer than three times the live heads, if no head is added twice |
| HeadsCaches.RunIsBounded | packages/log/src/heads-cache.ts:157-232 | so they are after every run that adds each hash once since the last reset, whatever it removes; or nothing is stored |
| HeadsCaches.AllHeadsAreAll | packages/log/src/heads-cache.ts:164-180 | what an automatic reset starts again with are all the heads exactly if there are as many different ones |
| HeadsCaches.AllHeadsMayLose | packages/log/src/heads-cache.ts:164-180 | so a cache that lists the heads loses one by it exactly if the update repeats so many that there are fewer different ones |
| HeadsCaches.PushedChain | packages/log/src/heads-cache.ts:64-88 | a new chunk goes to the front of its chain, the chains that were there stay, and the counters stay right |
| HeadsCaches.HeadsCache.GetHashes | packages/log/src/heads-cache.ts:250-268 | the chunk chain is acyclic, so the loop ends, with all hashes but the filtered ones |
| HeadsCaches.HeadsCache.GetCachedHeads | packages/log/src/heads-cache.ts:243-275 | the added heads without the removed ones |
| HeadsCaches.HeadsCache.UpdateHashes | packages/log/src/heads-cache.ts:64-88 | one more chunk in one chain, the other unchanged |
| HeadsCaches.HeadsCache.CheckResets | packages/log/src/heads-cache.ts:164-180 | an update starts the cache again if it is told to, or, if it is not told, exactly if the cache is loaded, all that is added are heads of the index, and they are as many or more |
| HeadsCaches.HeadsCache.UpdateCachedHeads | packages/log/src/heads-cache.ts:157-234 | the new contents of both chains; what was there before is carried over exactly unless `CheckResets` says so, so an update before loading drops no stored head; memory and store agree, counters included |
| HeadsCaches.HeadsCache.LoadLastHeadsPath | packages/log/src/heads-cache.ts:353-373 | finds paths and counters that agree with the store |
| HeadsCaches.HeadsCache.Restart | packages/log/src/heads-cache.ts:296-352 | closing and loading again restores paths, counters and heads |
| HeadsCaches.Replay | packages/log/src/heads-cache.ts:157-373 | a cache restarted after every call of a run, with the resets it makes of itself, reads as the run should leave it, within the bound on what is stored |
| Clocks.CompareIsOrder | packages/log/src/clock.ts:75-88 | `compare` is a total order and `bigger` its maximum |
| Clocks.TickAdvances | packages/log/src/clock.ts:150-172 | an update is later than both timestamps, within the configured bound, or 64 bits if there is none, also across the rollover, and leads physical time by no more than the offset and one tick |
| Clocks.TickIsLeast | packages/log/src/clock.ts:150-172 | it is the least such timestamp |
| Clocks.TickFails | packages/log/src/clock.ts:137-172 | exactly when each of the errors is raised |
| Clocks.HLC.Update | packages/log/src/clock.ts:150-172 | the result, and a clock that is unchanged on failure |
| Clocks.CausalityIsKept | packages/log/src/clock.ts:133-172 | in every run of any number of replicas what is caused later has a later timestamp |
| Clocks.LeadIsBounded | packages/log/src/clock.ts:137-172 | in every run no timestamp leads the physical time of its event by more than the offset and one tick |
| Clocks.CheckedEntryFits | packages/log/src/entry-v0.ts:461-473 | an entry that passes the check keeps every entry later than those it points to |
| Clocks.AppendPasses | packages/log/src/entry-v0.ts:461-473 | as long as the clock is kept, an entry appended on anything in the log passes the check |
| Clocks.AppendAfterOpening | packages/log/src/log.ts:181-181 | after opening again the check passes exactly if no head is ahead of the physical clock, or, if that has not gone on or has been set back, exactly if all are before the first tick of the new clock |
| Trims.WalkMore | packages/log/src/log-sorting.ts:52-65 | going on by wall time passes over no wall time, and comes to an earliest entry of each |
| Trims.TrimDropsOldest | packages/log/src/trim.ts:121-289 | with distinct wall times a trim drops the oldest: as many of the trimmable entries as needed, or as there are |
| Trims.TrimReachesLength | packages/log/src/trim.ts:121-289 | with any filter: as many entries go as are needed, or as there are wall times whose earliest entry may be trimmed; between those where each earliest entry may be and those where some may, which is one number if they agree |
| Trims.TrimWithoutFilter | packages/log/src/trim.ts:121-289 | without a filter the length is reached exactly if there are wall times enough |
| Trims.First | packages/log/src/entry-index.ts:214-260 | the first entry in the order of the log after a wall time |
| Trims.TrimTask | packages/log/src/trim.ts:121-289 | the loop ends, wrap-around included, having deleted what may be trimmed of a walk from the oldest on, until the length was reached |

## Left out

- The formula of `RandomMapping::next_index` in 64-bit floats, and its wrap-around: any strictly increasing sequence that starts at 0 stands for it.
- Overflow of the `i64` counts of cells and of the `u64` counters of the heads cache: they are unbounded.
- Hash functions, signatures, encryption, serialization and content addresses: hashes are given, checks succeed, content addresses are unique.
- `Decoder::reset`, and adding symbols to a decoder after the first cell: nothing is proved of a decoder that is used again.
- Reconciliation.Reconcile: asks that the session meets no false cell (`Clean`), since with 64-bit hashes a sum of several symbols may look like one; what a decoder makes of a false cell is stated for sessions of one cell (`Reconciliation.OneCell`).
- Sketches.Sketch.Decode: asks the same of the cells of the sketch, and honest hashes of what it counts.
- `Error::DecodeFailed`, which no code returns; `InvalidDegree` is shown never to be returned.
- Seek messages with receivers, acknowledged and silent delivery, and the one-byte bound on the number of signers.
- Flooding: one message; links do not change during a run, no message is lost, and the seen cache forgets nothing; the `routes` of the transition system are a set, `RouteTables` is the table with its order and its expiry.
- NearestRoutes.PickArrives: speaks of the stored routes of one flood and of redundancy 1; when the list of a table is as it asks says `NearestRoutes.ListsInOrder`, for one session; with more redundancy a message goes other ways too.
- Timers, retries, dialling, pruning of connections and health checks; the table of routes is given the time.
- `getPrunable`, `getDependent`, `removeNeighbour`, `updateSession` and the counts of the table of routes: they would add easy members.
- Events of the pubsub, the answers to requests for subscribers, and the relaying of subscription messages.
- Remote loading of entries: the block store is taken to hold what can be loaded. The cache of ten entries in front of the index, gid shadowing, `onChange` and `canAppend` callbacks, and `reset` joins.
- Concurrent joins and the `_joining` map: a join is one step.
- Logs.Log.JoinRecursively: what the turn of a cut leaves is stated outright; of a join that brings several cuts, or nested ones, that each turn does just that, only ancestors come or go, and when heads stay free of pointers, as what is left in the end depends on the order. Whether an entry that a cut's deletions leave has its flag is stated deletion by deletion (`EntryIndexes.DeleteExact`).
- The update of the clock that a join makes, and its errors: `Clocks` has the clock alone.
- LogLattices.Append: the entry, with its signature and its hash, is given, and points to the heads; entries that cut are `Logs.Log.PutAndProcess`.
- Trimming by bytes or by time, and the cached progress of a trim with a cache id; the filter is taken to depend on the gid alone, as its cache by gid supposes.
- A heads cache without a store, and a store that fails between the two writes of an update.
- Chunk ids of the heads cache are drawn in increasing order: of random ids the model keeps that none is drawn twice.
- `FirstWriteWins`, the other order of a log.
