# GATT discovery of the GoPro controller

This project models the Bluetooth Low Energy client of the GoPro CAN bus controller and proves what
it promises: the discovery engine and peer table of `peer.c`, the GAP event handler of `gap.c` and
the two traversals of `gatt.c`. Check it with `dafny verify dfyconfig.toml`.

How it is built, bottom up:

- `Gatt`, `SortedList`, `Discovery`: the records, the early-exit walk, and what every function of
  `peer.c` computes for one peer, as functions on values.
- `Remote`: a remote device as a flat attribute table, and what its server answers by handle range.
- `Snapshots`, `Runs`, `Assertions`, `Exactness`, `Completion`, `Termination`, `Accounting`,
  `Ranges`, `Procedures`, `ServiceMap`: what one callback does to each stage of a discovery, and from
  there the theorems about whole runs. `Selection` and `Callbacks` say, for any tree and on its
  handles alone, which procedure is started next, where an item goes, and what is answered and
  reported. `Witnesses`, `Assertions`, `EndlessDiscovery` and `TwoLinks`
  hold concrete runs for what the code does not guarantee.
- `PeerTable` and `LinkBounds`: any number of links sharing the pools, every interleaving.
- `PeerHeap`: the code itself, on linked blocks from four pools; each method is proved to compute
  the function in `Discovery` or `PeerTable`. `PeerBlocks` and `HostRuns` carry the theorems over
  runs to the blocks; `PeerDb.args` is the stack's record of the argument registered with the
  procedure it last accepted on each connection.
- `Subscription` and `GattClient`: the traversals, as a specification and as loops over the lists.
- `Gap`, `WriteLog`, `CameraRecord` and `GapHandler`: the event machine, the writes it makes, the
  record it keeps, and the handler in memory. `Advertising`: the payload format and the two loops over it.

The stack is an adversary within its contract: it accepts or refuses each procedure; for an accepted
one it delivers items with status 0 and then one terminator, which may be an error at any time; it
goes silent when a callback returns non-zero. What it answers to a procedure started inside a
callback is the parameter `rc`. `Runs` lets the items be arbitrary. From `Exactness` on the stack is
truthful: items come in the order of the attribute table and "done" only after the last one (ATT
answers are in ascending handle order). A trace in each peer logs the procedures asked for and the
completion callbacks made.

A database is well formed if service ranges are disjoint and ascend, and within a service each
declaration precedes its value, the value its descriptors, and those the next declaration
(Bluetooth Core Specification, Vol 3, Part G, section 2.5).

Where the code is not what one might expect, the model follows the code and says exactly when it
matters:

- Characteristics and descriptors are linked without keeping what follows: nothing is lost if and
  only if the place is the head or the end of the list (`Accounting.ChrAddAccount`,
  `Accounting.DscAddAccount`), with an example of a leak.
- A characteristic that is delivered again is not recognised: the first of its service is stored
  twice, any other replaces its stored node and all that followed it (`Accounting.RecognisedIff`,
  `Accounting.RedeliveryReplaces`).
- A discovery that stores a characteristic with value handle 0 can end without a report
  (`Runs.CompletionReportedOnce`, `Witnesses.ValueHandleZeroStalls`).
- An item whose service or characteristic is not found comes to an `assert(0)` before anything is
  changed (peer.c:123, 132 and 323). ESP-IDF compiles assertions in by default, and the settings of
  the project do not say otherwise. `Runs.Run` therefore has both builds: with assertions such a
  callback stops the program, without them it reports that something is unknown (`Runs.UnknownIff`).
  Only descriptors can come to it (`Assertions.FailsOnlyUnnested`), with value handle 0 or
  overlapping services for instance (`Assertions.ValueHandleZeroAsserts`,
  `Assertions.OverlapAsserts`), and none a truthful stack delivers (`Ranges.OwnersAlwaysFound`). The
  methods of `PeerHeap` follow the code built without assertions.
- A service with room for characteristics but none is asked about for ever
  (`Completion.CompletesIffPopulated`, `EndlessDiscovery.UnpopulatedNeverEnds`).
- After a refused descriptor procedure the cursor is set although completion was reported
  (`Runs.CursorZeroIff`, `Witnesses.CursorAfterRefusal`).
- With several links the camera record can mix two of them (`Gap.PairedIffNewest`,
  `TwoLinks.TwoLinksMixed`).
- The last entry of a list of UUIDs with an odd number of bytes is completed with the byte after the
  list. A well-formed payload is read beyond if and only if it ends there
  (`Advertising.ReadsInsideIff`, with a concrete payload in `Advertising.OddListReadBeyond`; for any
  payload `Advertising.ReadableIff`).
- The encryption-change event is read through the connect member of the event; both members begin
  with a status and a connection handle, so it is the handle of the link.
- The value written to a client configuration descriptor is the notify property bit, 0x10, while
  Vol 3, Part G, section 3.3.3.3 uses bit 0; nothing is claimed about what the remote makes of it.

## Model

| member | source | states |
|---|---|---|
| `SortedList.FindIsMembership` | GoProCanBusController/components/ble_gopro/peer.c:68-108 | On an ascending list the early-exit walk splits the keys into the smaller ones and the rest, so the block before the stop is the greatest smaller one, and the find built on it succeeds exactly when the key is in the list, at the only place it can be (also peer.c:255-295 and 423-463) |
| `Ranges.OwnerIsUnique` | GoProCanBusController/components/ble_gopro/peer.c:465-479 | With disjoint ranges the range lookup returns a service if and only if the handle lies in that service's range |
| `PeerHeap.DscFind` | GoProCanBusController/components/ble_gopro/peer.c:86-108 | The pointer walk over the descriptors returns the block at the position the key walk determines, or null, together with the block before it |
| `PeerHeap.ChrFind` | GoProCanBusController/components/ble_gopro/peer.c:273-295 | The same for characteristics, by value handle |
| `PeerHeap.SvcFind` | GoProCanBusController/components/ble_gopro/peer.c:441-463 | The same for services, by start handle |
| `PeerHeap.SvcFindRange` | GoProCanBusController/components/ble_gopro/peer.c:465-479 | The walk finds the first service whose range holds the handle, or null if there is none |
| `PeerHeap.PeerDb.SvcAdd` | GoProCanBusController/components/ble_gopro/peer.c:537-566 | For any arrival order: an already known start handle changes nothing, an empty pool gives ENOMEM, otherwise one block moves from the pool to its ordered place; every list stays a proper list and no other tree changes |
| `PeerHeap.PeerDb.ChrAdd` | GoProCanBusController/components/ble_gopro/peer.c:310-349 | Unknown service, known handle, empty pool or a new block linked where the walk stopped, with whatever followed dropping out of the list, exactly as the assignment to the next pointer does |
| `PeerHeap.PeerDb.DscAdd` | GoProCanBusController/components/ble_gopro/peer.c:110-159 | The same for descriptors, after the lookups of the owning service and characteristic |
| `Callbacks.ChrPlaced` | GoProCanBusController/components/ble_gopro/peer.c:317-348 | For any tree and item, said on the handles: which service and which place in its list the walks stop at, and from there known, out of memory, or the new list, where all that followed is lost unless the place is the head |
| `Callbacks.DscPlaced` | GoProCanBusController/components/ble_gopro/peer.c:117-158 | The same for descriptors, from the first service with the value handle in its range |
| `Callbacks.DscRecognised` | GoProCanBusController/components/ble_gopro/peer.c:137-141 | In an ascending list a descriptor that is delivered again is recognised: success, and nothing changes |
| `ServiceMap.ArrivalsRefine` | GoProCanBusController/components/ble_gopro/peer.c:537-566 | For any sequence of services in any order with any duplicates, the ordered list is the first-arrival-wins map by start handle; all are taken if and only if the pool has a block for each new start handle |
| `ServiceMap.FirstWinsIs` | GoProCanBusController/components/ble_gopro/peer.c:543-548 | That map without a fold: an old entry stays, a new one is the first delivered service with its start handle, and nothing else is in it |
| `Accounting.SvcAddConserves` | GoProCanBusController/components/ble_gopro/peer.c:550-563 | Adding a service keeps free blocks plus tree nodes of every pool, for any order of arrival |
| `Accounting.ChrAddAccount` | GoProCanBusController/components/ble_gopro/peer.c:337-346 | Adding a characteristic keeps free blocks plus tree nodes of every pool if and only if its service is unknown, it is known, the pool is empty, or it is linked at the head or the end of its list; otherwise what followed is lost |
| `Accounting.DscAddAccount` | GoProCanBusController/components/ble_gopro/peer.c:147-156 | The same for descriptors |
| `Accounting.OutOfOrderLeaks` | GoProCanBusController/components/ble_gopro/peer.c:345 | A concrete out-of-order delivery after which a block is neither free nor in any tree |
| `Accounting.RecognisedIff` | GoProCanBusController/components/ble_gopro/peer.c:327-335 | A delivered characteristic is taken for a known one if and only if the search for its declaration handle among the value handles ends at an equal one |
| `Accounting.RedeliveryReplaces` | GoProCanBusController/components/ble_gopro/peer.c:327-346 | In an ordered tree a stored characteristic that is delivered again is never recognised: the first of its service is stored twice, any other replaces its stored node, and that node and all that followed are lost |
| `PeerHeap.PeerDb.ChrDelete` | GoProCanBusController/components/ble_gopro/peer.c:297-308 | A characteristic taken off its list goes back to the pool with all its descriptors, each once |
| `PeerHeap.PeerDb.SvcDelete` | GoProCanBusController/components/ble_gopro/peer.c:568-579 | A service goes back with everything below it, each block once |
| `PeerHeap.PeerDb.ChrEndHandle` | GoProCanBusController/components/ble_gopro/peer.c:236-247 | The end is one below the next declaration, with 16-bit wrap-around, or the end of the service |
| `PeerHeap.PeerDb.DiscDscs` | GoProCanBusController/components/ble_gopro/peer.c:161-194 | The nested walk starts a procedure for the first characteristic in list order that has room, has no descriptors yet and is not before the cursor, or completes; a refused start reports and then sets the cursor again |
| `PeerHeap.PeerDb.DiscChrs` | GoProCanBusController/components/ble_gopro/peer.c:389-415 | The walk selects the first service that can hold characteristics and has none, or goes on to the descriptors |
| `Selection.AsksForChrs` | GoProCanBusController/components/ble_gopro/peer.c:398-413 | For any tree: the first service in the list whose end is above its start and that has no characteristic is asked about, with its range; a refusal is reported with the stack's status; the whole new state |
| `Selection.ThenForDscs` | GoProCanBusController/components/ble_gopro/peer.c:398-414 | For any tree: descriptors are looked for if there is no such service |
| `Selection.AsksForDscs` | GoProCanBusController/components/ble_gopro/peer.c:171-192 | For any tree: the first characteristic in list order whose value handle is below its last one, that has no descriptor and is not declared before the cursor is asked about, from its value handle to its last; the whole new state, with the cursor set also after a refusal |
| `Selection.ThenReports` | GoProCanBusController/components/ble_gopro/peer.c:193 | For any tree: if there is no such characteristic success is reported |
| `PeerHeap.PeerDb.SvcDisced` | GoProCanBusController/components/ble_gopro/peer.c:581-615 | The service callback on every status: result, tree, cursor, reports, started procedure and pools |
| `PeerHeap.PeerDb.ChrDisced` | GoProCanBusController/components/ble_gopro/peer.c:351-387 | The characteristic callback on every status |
| `PeerHeap.PeerDb.DscDisced` | GoProCanBusController/components/ble_gopro/peer.c:196-234 | The descriptor callback on every status |
| `PeerHeap.PeerDb.Callback` | GoProCanBusController/components/ble_gopro/peer.c:196-234 | Whichever callback runs, with the registered argument and the handle of the connection, the heap stays valid, the table changes at this peer only and as the specification says, and the argument is registered again with a procedure the stack accepts (also peer.c:351-387 and 581-615) |
| `Callbacks.ErrorPassedOn` | GoProCanBusController/components/ble_gopro/peer.c:225-233 | An error of the stack on any procedure is answered and reported as it is, once and only if a callback is stored; cursor 0, tree and pools as they were (also peer.c:378-386 and 606-614) |
| `Callbacks.DonePassesOn` | GoProCanBusController/components/ble_gopro/peer.c:215-223 | "Done" is answered with success whatever the stack answers; with cursor 0 nothing happens, otherwise descriptors follow descriptors and characteristics are looked for before them (also peer.c:367-376 and 595-604) |
| `Callbacks.ItemAnswered` | GoProCanBusController/components/ble_gopro/peer.c:210-213 | An item is answered with success, out of memory or unknown; taken, it changes nothing but the tree and the pools; refused, it leaves both and the reason is reported (also peer.c:362-365 and 590-593) |
| `PeerHeap.PeerDb.PeerAdd` | GoProCanBusController/components/ble_gopro/peer.c:705-728 | EALREADY, ENOMEM or a cleared peer at the head of the list; the other peers and the pools of tree nodes are unchanged |
| `PeerHeap.PeerDb.PeerDelete` | GoProCanBusController/components/ble_gopro/peer.c:678-703 | ENOTCONN, or the peer leaves the list and every block of its tree and its own goes back to the pools |
| `PeerHeap.PeerDb.DiscAll` | GoProCanBusController/components/ble_gopro/peer.c:648-676 | ENOTCONN, or the old tree goes back to the pools, the cursor is set and discovery starts; other peers are unchanged |
| `PeerHeap.PeerDb.DiscSvcByUuid` | GoProCanBusController/components/ble_gopro/peer.c:617-646 | The same for a discovery of one service UUID |
| `PeerHeap.PeerDb.constructor` | GoProCanBusController/components/ble_gopro/peer.c:778-851 | After successful initialisation the list is empty and all blocks are free |
| `Remote.DscAnswer` | GoProCanBusController/components/ble_gopro/peer.c:176-188 | The interval computed from the tree asks an attribute table, searched by handle alone, for exactly the descriptors of that characteristic |
| `Remote.ChrAnswer` | GoProCanBusController/components/ble_gopro/peer.c:400-406 | The range of a service asks for exactly its own characteristic declarations |
| `Runs.CompletionReportedOnce` | GoProCanBusController/components/ble_gopro/peer.c:57-66 | Every run of an accepted discovery, with arbitrary items, errors, refusals and pool sizes, in a program built with assertions or without: nothing is reported while a procedure is outstanding, and exactly one report is made once none is, with no procedure started after it, if and only if the last callback was neither "done" for a descriptor procedure of value handle 0 nor, with assertions, an item whose owner is not found; then nothing is ever reported |
| `Runs.ReportedOnceOnValidHandles` | GoProCanBusController/components/ble_gopro/peer.c:57-66 | As long as no characteristic with value handle 0 is delivered, every run reports exactly once if and only if it was not stopped by an assertion on an item whose owner is not found; built without assertions every run reports exactly once |
| `Runs.UnknownIff` | GoProCanBusController/components/ble_gopro/peer.c:118-135 | Built without assertions the callback answers that something is unknown exactly for the items that would fail one: those whose service or characteristic is not found (also peer.c:318-325) |
| `Assertions.FailsOnlyUnnested` | GoProCanBusController/components/ble_gopro/peer.c:118-135 | In every run, whatever the items are, only a descriptor can come to a failing assertion, never a characteristic: exactly if the range lookup finds no service for the value handle asked about or that service has no such characteristic; and never in a tree whose services are disjoint and hold their values in ascending order (also peer.c:318-325) |
| `Assertions.ValueHandleZeroAsserts` | GoProCanBusController/components/ble_gopro/peer.c:118-124 | A concrete run with a characteristic of value handle 0 whose first descriptor stops a program built with assertions without a report, and ends one built without them with the report that something is unknown |
| `Assertions.OverlapAsserts` | GoProCanBusController/components/ble_gopro/peer.c:127-133 | The same with valid handles and two services whose ranges overlap |
| `Witnesses.ValueHandleZeroStalls` | GoProCanBusController/components/ble_gopro/peer.c:216-219 | A concrete run with a characteristic of value handle 0 that ends without a report |
| `Runs.CursorZeroIff` | GoProCanBusController/components/ble_gopro/peer.c:161-194 | When a run ends, other than at an assertion, the cursor is 0 if and only if its last callback did not find a characteristic to ask about whose procedure the stack refused |
| `Witnesses.CursorAfterRefusal` | GoProCanBusController/components/ble_gopro/peer.c:181-190 | A concrete run that was reported and ends with cursor 3 |
| `Exactness.CallbackSound` | GoProCanBusController/components/ble_gopro/peer.c:196-234 | With a stack that delivers the answer in order, each callback keeps the tree at one of the stages of building the remote database, whatever the pools hold and the stack answers |
| `Exactness.DiscoverSound` | GoProCanBusController/components/ble_gopro/peer.c:648-676 | A newly started discovery, accepted or refused, satisfies the invariant again whatever went before |
| `Exactness.LookupsSucceed` | GoProCanBusController/components/ble_gopro/peer.c:118-135 | The lookups the source asserts to succeed always do: the service of a delivered characteristic, the service and the characteristic of a delivered descriptor (also peer.c:318-325) |
| `Ranges.OwnersAlwaysFound` | GoProCanBusController/components/ble_gopro/peer.c:118-135 | Over every run on any number of links, every item a truthful stack delivers finds its service and characteristic in the peer of its connection |
| `HostRuns.ArgsStep` | GoProCanBusController/components/ble_gopro/peer.c:204-205 | Whatever happens on any link, the argument registered with each outstanding procedure stays the block of that connection's peer |
| `HostRuns.ArgumentMatches` | GoProCanBusController/components/ble_gopro/peer.c:204-205 | So the argument passed to a callback is in the list and has the handle of the connection, as the callbacks assert (also peer.c:358-359 and 588-589) |
| `Completion.CompletesIffPopulated` | GoProCanBusController/components/ble_gopro/peer.c:389-415 | With enough blocks and a stack that delivers everything, discovery comes to an end if and only if every service without characteristics starts and ends at the same handle; then the tree equals the database, the report is success, and the procedures were one per service with room and one per characteristic with room, in order |
| `Completion.SucceedsIff` | GoProCanBusController/components/ble_gopro/peer.c:648-676 | Success is reported if and only if, besides, the three pools, with the old tree given back, have a block for every node of the database |
| `EndlessDiscovery.UnpopulatedNeverEnds` | GoProCanBusController/components/ble_gopro/peer.c:400 | A concrete database with an empty service for which discovery asks the same question for ever |
| `EndlessDiscovery.LoneServiceEnds` | GoProCanBusController/components/ble_gopro/peer.c:417-421 | A concrete database with a service of one handle: success after two callbacks, and no characteristics asked for |
| `Termination.DeliveriesBounded` | GoProCanBusController/components/ble_gopro/peer.c:389-415 | For a populated database every sequence of truthful deliveries, whatever the stack refuses and however few blocks are free, is no longer than one callback per item and procedure |
| `LinkBounds.DeliveriesOnLink` | GoProCanBusController/components/ble_gopro/peer.c:389-415 | Over every interleaving of any number of links: between the start of a discovery and the next on the same link, for a populated database, there are at most that many callbacks on it, whatever happens on it and elsewhere |
| `Termination.EndsWithoutRoom` | GoProCanBusController/components/ble_gopro/peer.c:337-340 | If the pools do not have a block for every node, discovery with a stack that delivers everything ends with a report that memory ran out |
| `Termination.RoundsFall` | GoProCanBusController/components/ble_gopro/peer.c:389-415 | A characteristic procedure that delivers something lowers the number of services still without characteristics by one, with its first item |
| `Termination.RoundsEnd` | GoProCanBusController/components/ble_gopro/peer.c:398-414 | The descriptor phase begins if and only if that number is 0, that is if no service without characteristics has its end above its start |
| `Completion.CallbackConserves` | GoProCanBusController/components/ble_gopro/peer.c:110-159 | One callback leaves free blocks plus tree nodes of each pool as they were, whatever its outcome |
| `Ranges.EveryLink` | GoProCanBusController/components/ble_gopro/peer.c:57-66 | In every reachable state of every run over any number of links: each tree is in order, and a link that reported success holds exactly the part of the remote database it asked for |
| `Ranges.TreeInOrder` | GoProCanBusController/components/ble_gopro/peer.c:310-349 | At every moment services, characteristics and descriptors strictly ascend and each lies inside the range of what it belongs to |
| `Ranges.RangesTile` | GoProCanBusController/components/ble_gopro/peer.c:236-247 | The ranges of a service's characteristics are disjoint and cover it from the first declaration to its end, and nothing else |
| `Ranges.RequestsApart` | GoProCanBusController/components/ble_gopro/peer.c:176-188 | The intervals of the descriptor procedures a complete discovery makes ascend, never overlap and never leave their service |
| `Ranges.EachAskedOnce` | GoProCanBusController/components/ble_gopro/peer.c:173-177 | Each characteristic with room for descriptors is the subject of exactly one of those procedures |
| `Procedures.EveryTrace` | GoProCanBusController/components/ble_gopro/peer.c:161-194 | Over every run, on every link and at every moment, also after errors, refusals and exhausted pools: the descriptor requests made are the first ones of a complete discovery, ascend, never overlap and never leave their service; the outstanding one is the last and marked by the cursor; a discovery that is over left accepted starts, at most one refused start and the report |
| `Procedures.NeverAskedTwice` | GoProCanBusController/components/ble_gopro/peer.c:173-177 | In no run is a characteristic asked about twice |
| `Procedures.EachAskedOnSuccess` | GoProCanBusController/components/ble_gopro/peer.c:173-177 | A discovery that reported success has asked about every characteristic with room |
| `Procedures.CursorRises` | GoProCanBusController/components/ble_gopro/peer.c:188 | In every run the cursor strictly rises from one descriptor procedure to the next |
| `PeerTable.LookupAfterAdd` | GoProCanBusController/components/ble_gopro/peer.c:705-728 | Adding is insertion into a bounded map by connection handle: never a second peer for a handle, no other entry touched, exactly when it fails with which code, and the new peer, cleared, at the head |
| `PeerTable.LookupAfterDelete` | GoProCanBusController/components/ble_gopro/peer.c:678-703 | Deletion removes that handle and no other |
| `PeerTable.LookupAfterDiscover` | GoProCanBusController/components/ble_gopro/peer.c:648-676 | ENOTCONN for a handle without a peer, changing nothing; otherwise the stack's status, and that peer has an empty tree, cursor 1, the callback given and the procedure asked for as its trace; every other peer as it was (also peer.c:617-646) |
| `PeerTable.OthersUntouched` | GoProCanBusController/components/ble_gopro/peer.c:648-703 | Adding, deleting, rediscovering or a callback for one handle, possible or not, leaves every other peer's whole state unchanged |
| `PeerTable.RunsKeepInv` | GoProCanBusController/components/ble_gopro/peer.c:660-664 | Over every interleaving on any number of links, with errors, refusals, restarts, deletions and exhausted pools: handles stay unique, each of the four pools' free blocks plus blocks in use equal its capacity, and every link's tree is sound |
| `PeerBlocks.NoBlockLost` | GoProCanBusController/components/ble_gopro/peer.c:297-349 | In a valid heap no block is at two list positions or both free and listed, and the counts add up to the pool sizes if and only if every block is free or at exactly one position |
| `HostRuns.Serve` | GoProCanBusController/components/ble_gopro/peer.c:581-615 | One call by the host, of any kind, takes the heap where the specification's step goes; a callback gets the argument registered with its procedure |
| `HostRuns.ServeAll` | GoProCanBusController/components/ble_gopro/peer.c:778-851 | After every run from initialisation the lists are acyclic and disjoint, each block of the four pools is free or at exactly one list position, and the registered arguments are right |
| `Subscription.WritesAre` | GoProCanBusController/components/ble_gopro/gatt.c:75-137 | A handle is in the list of writes if and only if it is a descriptor with UUID 0x2902 of a characteristic with bit 0x10 in its properties in a service with UUID 0xFEA6 |
| `Subscription.WritesAscend` | GoProCanBusController/components/ble_gopro/gatt.c:75-137 | On a tree in order the writes strictly ascend, so each is made once |
| `Subscription.CommandHandleIsLeast` | GoProCanBusController/components/ble_gopro/gatt.c:151-166 | On a tree in order the chosen handle is the least value handle with the command UUID, byte for byte, and none is chosen if and only if there is none |
| `Subscription.ConsoleWrites` | GoProCanBusController/components/ble_gopro/gatt.c:98-124 | A concrete tree with characteristics that notify, indicate, do both, or belong to another service: its two writes and its command handle (also gatt.c:151-166) |
| `GattClient.SubscribeToCharacteristics` | GoProCanBusController/components/ble_gopro/gatt.c:63-139 | The three nested loops over the lists in memory attempt exactly those writes, in that order, with value 0x10 on the peer's connection |
| `GattClient.AssignCommandHandle` | GoProCanBusController/components/ble_gopro/gatt.c:141-168 | The camera's command handle becomes the first one found in list order, or stays |
| `GapHandler.Handler.OnGapEvent` | GoProCanBusController/components/ble_gopro/gap.c:180-235 | Link establishment, disconnection and encryption change on the table in memory and the camera record do what the event machine says |
| `GapHandler.Handler.OnGattEvent` | GoProCanBusController/components/ble_gopro/gap.c:28-41 | A callback that reports success is followed by the subscription writes and the command handle; one that reports failure changes neither |
| `WriteLog.WritesFollowSuccess` | GoProCanBusController/components/ble_gopro/gap.c:33-41 | Over every run an event leads to writes if and only if it is a callback after which discovery on its link has succeeded; then they are exactly those the remote's database asks for, on that link, with value 0x10, in ascending order |
| `CameraRecord.RecordAfter` | GoProCanBusController/components/ble_gopro/gap.c:180-235 | Every event, from every reachable state: the connection handle changes with an established link only; the command handle becomes the least of the remote's database with a callback after which discovery has succeeded on a remote that has one, and changes with no other event, be it a link that comes or goes, a start, a failure or a success without it (also gap.c:28-41) |
| `CameraRecord.CommandIsLastFound` | GoProCanBusController/components/ble_gopro/gap.c:28-41 | After every run the command handle is that of the last such callback, or the first value there was |
| `Gap.HandlesAreLive` | GoProCanBusController/components/ble_gopro/gap.c:180-217 | Over every sequence of events every peer in the table belongs to a live link |
| `Gap.TableIsLiveIff` | GoProCanBusController/components/ble_gopro/gap.c:191-195 | Over every sequence of events the peers are those of all live links at every moment if and only if there are never more live links than the table can hold |
| `Gap.CameraIsPaired` | GoProCanBusController/components/ble_gopro/gap.c:39-41 | Over every run with at most one live link at a time: once discovery has succeeded on a camera with the command characteristic, the record names that link and the least such value handle of the camera's database |
| `Gap.PairedIffNewest` | GoProCanBusController/components/ble_gopro/gap.c:185 | With any number of links, right after a success report on a link the record names that link if and only if it was the one established last; the command handle is that link's in any case |
| `TwoLinks.TwoLinksMixed` | GoProCanBusController/components/ble_gopro/gap.c:185 | A concrete run with two links after which the record has the connection of one and the command handle of the other |
| `TwoLinks.LateLink` | GoProCanBusController/components/ble_gopro/gap.c:185 | A concrete run: a link established after success on another takes the connection and leaves the command handle |
| `TwoLinks.FailedAgain` | GoProCanBusController/components/ble_gopro/gap.c:30-35 | A concrete run: discovery started again and ended by an error leaves the record |
| `GapHandler.HandleAll` | GoProCanBusController/components/ble_gopro/gap.c:180-235 | After every run of the handler in memory from initialisation no block is lost, the listed peers are those of the live links if the table always suffices, with one link at a time the camera record is right, and the writes made are those of each success in turn, for the database of its remote |
| `Advertising.DecodeEncode` | GoProCanBusController/components/ble_gopro/gap.c:101-118 | Decoding is the inverse of encoding for every list of structures and any padding that starts with 0 |
| `Advertising.EncodeDecode` | GoProCanBusController/components/ble_gopro/gap.c:101-118 | Whatever decodes is the encoding of its structures followed by such padding |
| `Advertising.HasGoPro` | GoProCanBusController/components/ble_gopro/gap.c:109-116 | The loop over one list of UUIDs finds 0xFEA6 if and only if it is one of the byte pairs the loop forms, low byte first; the end of its reads is the one that decides whether it stays inside |
| `Advertising.IsGoPro` | GoProCanBusController/components/ble_gopro/gap.c:97-118 | On every payload it does not read beyond, malformed or not, the first loop terminates, answers whether some list of type 0x02 or 0x03 shows 0xFEA6, and looks at the index just below `Looked` and at none above |
| `Advertising.ReadableIff` | GoProCanBusController/components/ble_gopro/gap.c:102-117 | The payloads not read beyond are exactly those with `Looked` at most their length; `Looked` is computed for every payload, malformed or not |
| `Advertising.ReadsInsideIff` | GoProCanBusController/components/ble_gopro/gap.c:109-111 | A well-formed payload is read beyond if and only if nothing follows its last structure and that is a list of UUIDs with an odd number of bytes |
| `Advertising.OddListReadBeyond` | GoProCanBusController/components/ble_gopro/gap.c:110 | A concrete well-formed payload of three bytes of which the loop looks at a fourth |
| `Advertising.FindsGoProIff` | GoProCanBusController/components/ble_gopro/gap.c:109-116 | On a payload that decodes that is so if and only if some list has the entry, or a list with an odd number of bytes runs into the length byte of what follows |
| `Advertising.OneList` | GoProCanBusController/components/ble_gopro/gap.c:109-112 | A payload of one list with one entry: found if and only if its type is 0x02 or 0x03 and its bytes are 0xA6 and 0xFE in this order |
| `Advertising.AdvertisedIff` | GoProCanBusController/components/ble_gopro/gap.c:97-118 | For any structures, encoded and padded, whose length fits one byte the latter cannot happen: the answer is whether some list has the entry; and the loop stays inside the payload if and only if that does not end in a list with an odd number of bytes |
| `Advertising.LocalNames` | GoProCanBusController/components/ble_gopro/gap.c:129-162 | On every payload it does not copy from beyond, the second loop leaves each name buffer as the structures of its type say, in order, and looks for types and names at the index just below `NamesLooked` and at none above; if the payload decodes, the first buffer holds the last name of type 0x09 and the second that of type 0x08, cut to 30 bytes, and is blank without one |
| `Advertising.NamesReadableIff` | GoProCanBusController/components/ble_gopro/gap.c:135-153 | The payloads from beyond whose end the second loop copies nothing are exactly those with `NamesLooked` at most their length; it is computed for every payload |
| `Advertising.NamesInAre` | GoProCanBusController/components/ble_gopro/gap.c:134-162 | On a payload that decodes the second loop copies nothing from beyond, and visits the structures the first one does |
| `Advertising.NamesByType` | GoProCanBusController/components/ble_gopro/gap.c:140-153 | The same of the bytes the buffers get: complete names by type 0x09, shortened ones by type 0x08 |
| `Advertising.NameIsLast` | GoProCanBusController/components/ble_gopro/gap.c:140-153 | What is read from the buffer is the last structure of its type cut to 30 bytes, with a NUL inside the 31 bytes |
| `Advertising.CompleteNameAbc` | GoProCanBusController/components/ble_gopro/gap.c:140-146 | A concrete payload with a complete name: the first buffer has it, the second is empty |

## Left out

- Exactness.CallbackSound: assumes items in ascending handle order and none twice, since the code appends without keeping what follows; what happens otherwise is in `Accounting`.
- PeerTable.RunsKeepInv: deletes and restarts happen only while no procedure is outstanding on that link, since the code does not cancel one and the stack would call back with a dangling peer or service.
- PeerHeap.PeerDb.ChrDisced: requires, for an item, that the current service pointer is one that may be followed; `Exactness.CallbackSound` shows it always is.
- PeerHeap.PeerDb.SvcDisced: requires that the callback is for the peer's own connection handle, which the source asserts.
- PeerHeap.PeerDb.constructor: models successful initialisation only, not failing allocation or calling it twice.
- Gap.HandlesAreLive: disconnection and encryption change come only while no GATT procedure is outstanding on the link.
- Advertising.IsGoPro: excludes exactly the payloads on which the loop reads beyond their end, since what it finds there is not part of the model; `Advertising.ReadableIff` and `Advertising.ReadsInsideIff` say which they are.
- Advertising.HasGoPro: excludes exactly the lists whose last entry would be completed from beyond the payload.
- Advertising.LocalNames: excludes exactly the payloads from beyond whose end it copies (`Advertising.NamesReadableIff`), and does not model the log lines, among them the dump of UUIDs of types 0x02, 0x03 and 0x16.
- The pools are sets of blocks: the memory layout, block headers and the error path of giving back a foreign block (EOS) are not modelled.
- The application's context pointer of the completion callback; the callback itself is an entry of the trace, handled right after the GATT callback that made it.
- Whether the stack accepts a subscription write, which is only logged.
- Security initiation and termination requests: they come back as later events. The encryption status is not looked at by the code.
- The UUID lookups (`peer_svc_find_uuid` and its relatives), `peer_traverse_all`, `peer_set_addr`, sending commands, scanning and connecting.
- 32-bit UUIDs, which no ATT answer contains.
- Logging, Wi-Fi, HTTP, UDP, storage, the button task and everything else outside `ble_gopro`.
- NimBLE itself is not part of this model; its list macros, pool functions and constants are taken at their documented meaning.
