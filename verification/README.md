# Game server model

A Dafny model of the stateful cores of a C++ game server's CHANNEL daemon and of its shared
packet code, with proofs of what these cores are for: trades neither create nor destroy items,
bytes survive any chunking of the stream, one kill gives one reward, and so on. Run
`dafny verify dfyconfig.toml` to check everything.

## Layout

Each subject has a functional part (what one call, one loop or one run means, with the theorems
about it) and, where the C++ code updates state in place, a class whose methods run the same
steps on fields and loops and are proved equal to the functional part.

| file | subject | class |
|---|---|---|
| `InventoryTable.dfy` | table `character_inventory`, the SQL statements of a trade, holdings | |
| `TradeSwap.dfy` | `TradeService::Execute` and its helpers | `Connection` |
| `TradeCommit.dfy`, `TradeFaults.dfy` | when a swap commits, and what faults do to it | |
| `TradeProtocol.dfy` | trade sessions and the calls on them | `TradeService` |
| `TradeClosing.dfy` | what each call on a session changes; closed sessions stay closed | |
| `TradeRuns.dfy`, `TradeConsent.dfy`, `TradeSymmetry.dfy` | whole runs of the trade handlers | |
| `Slots.dfy`, `Inventory.dfy` | slots of one inventory | `Inventory` |
| `GroundDrops.dfy` | drops on the ground, routing to typed inventories | `InventoryManager`, `MapInstance` |
| `DropRuns.dfy` | whole runs on ground and bags | |
| `Framing.dfy` | packet framing, reassembly, body fields | `ChannelSession` |
| `Sending.dfy` | send queue and write interest | `SendSession` |
| `Experience.dfy` | level-up loop | `CharacterStat` |
| `MonsterLife.dfy`, `Loot.dfy`, `Monsters.dfy` | hits, deaths, respawns, rewards and drops | `Monster`, `MapInstance` |
| `DropTable.dfy` | weighted drop selection | `DropManager` |
| `Collision.dfy`, `DistanceCuts.dfy` | collision tests and distance cuts | |
| `Targeting.dfy` | target selection, damage | |
| `Workers.dfy` | worker queue and round robin | `WorkerThread`, `ThreadPool` |
| `QuickSlots.dfy` | quick slots | `QuickSlotManager` |

## Conventions of the model

* Integers are unbounded except where the width matters: the 16-bit packet length and type, the
  8-bit field length, the 1024-byte bound. C++ division on `int` is `TruncDiv`. Multi-byte header
  fields are little-endian, as on the hosts the server is built for.
* Geometry uses exact reals. The length of a vector, as in a circumscribed radius or a span, is any
  r >= 0 with r * r = w * w + h * h.
* What comes from outside is a parameter: the fate of each database statement (`Faults`), the
  answers of `send`, the raw numbers of the random engine, the time `now`, the template tables.
  A list of `send` answers that runs out stands for EAGAIN, since the loop then returns.
* Trade sessions live at addresses of an explicit heap (0 is `nullptr`, addresses are not handed
  out twice), so that `delete` and dangling pointers can be talked about. A player is an object
  with an id, and objects are compared exactly where the code compares pointers. After a reconnect
  another object has the same id.
* An uploaded amount is an `int` of any sign, because that is what reaches SQL. MySQL reports
  changed rows, so a zero amount affects no row and aborts the swap.
* Unordered maps are Dafny maps. Where a loop over one reports in iteration order, the contract
  allows every order.
* `std::sort` appears as an insertion sort; the order it sorts by is total on distinct ids, so the
  sorted list is unique.
* Fields the C++ constructors leave unset start at explicit values (drop ids at 0).

## What the code does not do

Some expected properties are false of the code. The lemma named gives the exact condition or a
concrete counterexample.

* A trade conserves items only as long as a character has one row per item: the UPDATE statements
  reach every row of the item, and the DELETE erases rows in debt (`TransferConservesIff`,
  `TwoStacksDuplicate`, `DebtIsErased`). Trades themselves keep the one-row invariant.
* Uploads and ready calls are booked on a side by comparing objects, the decision to trade compares
  ids, and nothing closes a session when a player disconnects. A requester who reconnects can
  therefore trade without the partner being ready, and his uploads are charged to the partner
  (`ReconnectBreaksAgreement`, `ReconnectChargesPartner`). The swaps of a run are agreed by both
  players exactly under the condition of `RunAgreesIff`, and offers are their owners' uploads exactly
  under that of `RunKeepsOwnIff`. What holds without either is `RunConserves`.
* `Start` does not look for open sessions. The registry stays symmetric throughout a run exactly
  when every start finds both players free of third parties (`RunStaysSymmetricIff`,
  `SecondTradeBreaksSymmetry`); the theorems about conservation and agreement need no such
  assumption.
* Closing a session erases the entries of both its members, also of one who has meanwhile started
  another trade (`CancelCloses`); that other session then stays open without him.
* A failed pickup may already have stored a part of the drop (`PickupConservesIff`,
  `FailedPickupDuplicates`).
* Fields over 255 bytes and bodies over 1020 bytes do not survive the wire
  (`FieldsRoundTripIff`, `PacketsRoundTripIff`, `MessagesRoundTripIff`, `LongFieldIsLost`,
  `LongPacketIsLost`).
* A monster whose template has no positive health is alive without health until its first hit
  (`HealthAgreesIff`).
* The drop odds are the weights exactly when no weight is negative (`ExactPartitionIff`,
  `NegativeWeightSkews`).
* The squared contact limit 1000 misses hits of all but small monsters near their position, among
  them hits of every monster that comes with the server (`ContactCutSafeIff`,
  `ShippedMonstersAreSkipped`, `RoundMonsterIsSkipped`). The fast radius loses hits that the safe one
  keeps (`FastRadiusLosesHit`).
* The comment at `WorkerThread.cpp:52-54` promises that queued tasks are finished after `Stop`; the
  loop condition ends the worker first (`StopDrainsIff`, `StopCanLeaveTasks`). `Stop` does not take
  the mutex, so a push that has passed its check is still accepted afterwards (`StopRefusesIff`,
  `StopCanAcceptLate`).
* A new inventory has one slot more than its current size (`NewTableRoom`).
* `SelectNextInventorySlotPos` reports a failed fetch as success and leaves slot 0; the call then
  inserts there or fails on the primary key (`FetchErrorFailsSwap`; `FetchErrorInsertsIff` and
  `InsertedOnTopIff` say which, for one call).
* The lower clamp 30 of the level rate is never reached: the penalty branch comes first
  (`RateRange`).

## Model

| member | source | states |
|---|---|---|
| `InventoryTable.NextSlot` | SERVER/src/CHANNEL/service/TradeService.cpp:684 | MAX(slot_pos) + 1 lies above every slot in use, so its key is always free |
| `InventoryTable.NextSlotIsTop` | SERVER/src/CHANNEL/service/TradeService.cpp:684 | the slot handed out is 0 in an empty inventory and otherwise lies right above a slot in use |
| `InventoryTable.HeldOfOwner` | docs/db/schema.sql:91-100 | with one row per item a character holds what that row says, and that is its only row |
| `TradeSwap.DecreaseEffect` | SERVER/src/CHANNEL/service/TradeService.cpp:407-425 | on any table a successful decrease takes the amount once per row that could pay it and erases the debts its DELETE finds, seen by any group of characters and for any item |
| `TradeSwap.IncreaseEffect` | SERVER/src/CHANNEL/service/TradeService.cpp:427-467 | a successful increase adds the amount once per row of the item, or once in the inserted row, seen by any group and for any item |
| `TradeSwap.InsertedWhereReported` | SERVER/src/CHANNEL/service/TradeService.cpp:448-464 | one call: an inserted row stands on a key that was free and is named by the slot index handed back; otherwise the offer is unchanged |
| `TradeSwap.FetchErrorInsertsIff` | SERVER/src/CHANNEL/service/TradeService.cpp:734-748 | one call, for an item without a row and no statement error: it succeeds exactly if the fetch worked or slot 0 is free |
| `TradeSwap.InsertedOnTopIff` | SERVER/src/CHANNEL/service/TradeService.cpp:734-748 | one call: the inserted row lies above every slot in use exactly if the fetch worked or all slots in use are negative |
| `TradeSwap.FetchErrorFailsSwap` | SERVER/src/CHANNEL/service/TradeService.cpp:734-748 | a table and a failed fetch for which an increase fails that succeeds without the fault |
| `TradeSwap.TransferConservesIff` | SERVER/src/CHANNEL/service/TradeService.cpp:203-220 | on any table and for any amount, one transfer keeps the total of giver and taker exactly when what is taken plus the erased debts equals what is credited |
| `TradeSwap.TransferConservesByRows` | SERVER/src/CHANNEL/service/TradeService.cpp:203-220 | where no debt is erased the total is kept exactly when as many rows are charged as are credited |
| `TradeSwap.TwoStacksDuplicate` | SERVER/src/CHANNEL/service/TradeService.cpp:569 | a table with two stacks on the taker side on which a committed transfer changes the total |
| `TradeSwap.DebtIsErased` | SERVER/src/CHANNEL/service/TradeService.cpp:818 | a table with a row in debt on which one row is charged, one is credited and the total still changes |
| `TradeSwap.IncreaseKeepsOneRow` | SERVER/src/CHANNEL/service/TradeService.cpp:427-467 | the one-row-per-item invariant survives every increase, successful or not |
| `TradeSwap.MoveOneEffect` | SERVER/src/CHANNEL/service/TradeService.cpp:203-219 | one round moves exactly the amount from giver to taker for every group and item, and keeps one row per item |
| `TradeSwap.MoveAllEffect` | SERVER/src/CHANNEL/service/TradeService.cpp:201-219 | a loop that completes moves exactly the summed offer of every item from giver to taker, for every group of characters |
| `TradeSwap.ExecuteNetEffect` | SERVER/src/CHANNEL/service/TradeService.cpp:164-257 | after a commit every group of characters holds, of every item, what it held plus what its members received minus what they gave; one row per item survives |
| `TradeSwap.ExecuteFrame` | SERVER/src/CHANNEL/service/TradeService.cpp:164-257 | no row of any third character is added, changed or removed, whether the swap commits or not |
| `TradeSwap.ExecuteKeepsPositive` | SERVER/src/CHANNEL/service/TradeService.cpp:164-257 | counts stay positive when positive amounts are swapped |
| `TradeCommit.MoveOneCommitsIff` | SERVER/src/CHANNEL/service/TradeService.cpp:625 | without faults one round succeeds, for any amount, exactly when the amount is not zero and the giver has a row of the item that covers it; the credit never fails, as a free slot always exists |
| `TradeCommit.MoveAllCommitsIff` | SERVER/src/CHANNEL/service/TradeService.cpp:201-219 | without faults a loop over positive amounts completes exactly when the giver can pay the summed offer of every item at the start |
| `TradeCommit.ExecuteCommitsIffPositive` | SERVER/src/CHANNEL/service/TradeService.cpp:164-257 | without faults and for positive amounts: commits exactly when A holds its summed offer of every item and B its own counting what A just gave |
| `TradeCommit.MoveAllCommitsIffGivable` | SERVER/src/CHANNEL/service/TradeService.cpp:201-219 | the same for any amounts: no amount is zero, and for each offer the row is there, not emptied by an earlier offer, and covers the offers so far |
| `TradeCommit.ExecuteCommitsIff` | SERVER/src/CHANNEL/service/TradeService.cpp:164-257 | without faults, for any amounts, zero and negative included: the exact condition, stated on the table before the trade |
| `TradeFaults.CommitsUnderFaultsIff` | SERVER/src/CHANNEL/service/TradeService.cpp:164-257 | with any statement errors but no failed fetches: a swap commits exactly if it would without errors and none of the statements it then runs fails; the outcome is the same as without errors, or the old table |
| `TradeFaults.ExecuteStatements` | SERVER/src/CHANNEL/service/TradeService.cpp:164-257 | with any faults: a swap that commits met no statement error, and its outcome depends only on the statements it ran |
| `TradeFaults.IncreaseCommitsIff` | SERVER/src/CHANNEL/service/TradeService.cpp:427-467 | without faults a credit fails exactly if there is a row and the amount is zero |
| `TradeSwap.MoveAllKeepsTerms` | SERVER/src/CHANNEL/service/TradeService.cpp:461-464 | a swap rewrites nothing of an offer but its slot index |
| `TradeDatabase.Connection.UpdateCountMinus` | SERVER/src/CHANNEL/service/TradeService.cpp:615-673 | statement, affected-row check and return code of the guarded UPDATE |
| `TradeDatabase.Connection.UpdateCountPlus` | SERVER/src/CHANNEL/service/TradeService.cpp:560-613 | statement, affected-row check and return code of the crediting UPDATE |
| `TradeDatabase.Connection.DeleteEmptyRows` | SERVER/src/CHANNEL/service/TradeService.cpp:808-856 | removes rows whose count is not positive; zero affected rows is no error |
| `TradeDatabase.Connection.SelectItem` | SERVER/src/CHANNEL/service/TradeService.cpp:469-558 | tells whether any row of the item exists; a failed fetch is an error |
| `TradeDatabase.Connection.SelectNextSlot` | SERVER/src/CHANNEL/service/TradeService.cpp:675-753 | next free slot; a failed fetch is reported as success and keeps the slot passed in |
| `TradeDatabase.Connection.InsertItem` | SERVER/src/CHANNEL/service/TradeService.cpp:755-806 | inserts the row unless its primary key is taken |
| `TradeDatabase.Connection.Decrease` | SERVER/src/CHANNEL/service/TradeService.cpp:407-425 | the statements of DecreaseItem on the connection have the functional meaning, faults included |
| `TradeDatabase.Connection.Increase` | SERVER/src/CHANNEL/service/TradeService.cpp:427-467 | the statements of IncreaseItem have the functional meaning and return the slot written into the offer |
| `TradeDatabase.Connection.MoveOffers` | SERVER/src/CHANNEL/service/TradeService.cpp:201-219 | either loop of Execute, stopping at the first offer that cannot be moved, equals its recursive meaning |
| `TradeDatabase.Connection.RunSwap` | SERVER/src/CHANNEL/service/TradeService.cpp:164-257 | the transaction on mutable state: wherever it fails the table is back as it was before START TRANSACTION; outcome, table and rewritten offers are those of the functional Execute |
| `TradeProtocol.Start` | SERVER/src/CHANNEL/service/TradeService.cpp:47-98 | any start, successful or not, keeps the session heap free of dangling pointers |
| `TradeProtocol.Ready` | SERVER/src/CHANNEL/service/TradeService.cpp:128-162 | keeps the heap safe; a traded session is still the one the player is registered in |
| `TradeProtocol.DeleteSession` | SERVER/src/CHANNEL/service/TradeService.cpp:304-315 | deleting any live session leaves no pointer to it, even if its players have been registered elsewhere since |
| `TradeProtocol.UploadLandsOwnIff` | SERVER/src/CHANNEL/service/TradeService.cpp:119-123 | one upload: booked on the side of its caller exactly if the object comparison agrees with the ids |
| `TradeProtocol.ReadyLandsOwnIff` | SERVER/src/CHANNEL/service/TradeService.cpp:148-152 | one ready call: its flag is set on the side of its caller exactly if the object comparison agrees with the ids, or both flags are set already |
| `TradeProtocol.ReconnectedTradesAlone` | SERVER/src/CHANNEL/service/TradeService.cpp:148-159 | from any state: a requester who has reconnected gets the swap done by his ready call alone, and his uploads are offers of the partner |
| `TradeClosing.StartRefusesIff` | SERVER/src/CHANNEL/service/TradeService.cpp:47-98 | a start is refused, and changes nothing, exactly if a player is dead, on no map, or the maps differ; otherwise both are registered in one new empty session and nobody else is touched |
| `TradeClosing.UploadAppends` | SERVER/src/CHANNEL/service/TradeService.cpp:99-126 | an upload appends to the list that the object comparison selects, touches no other session and registers nobody; without a session it is refused |
| `TradeClosing.ReadyOutcome` | SERVER/src/CHANNEL/packet/HandleTrade.cpp:344-392 | from the flags and ids of the session: which flag is set, whether the swap runs, return code, table, clock, and what a session whose swap was rolled back looks like |
| `TradeClosing.ReadyClosesIff` | SERVER/src/CHANNEL/packet/HandleTrade.cpp:344-392 | a ready call closes the session exactly if its swap commits; otherwise everybody stays registered and other sessions stay as they are |
| `TradeClosing.CancelCloses` | SERVER/src/CHANNEL/service/TradeService.cpp:259-284 | a cancel answers 0, frees the session, leaves no entry that points to it and no entry of its two members, and changes nothing else; without a session it answers -1 and only leaves a null entry |
| `TradeClosing.CancelIsFinal` | SERVER/src/CHANNEL/service/TradeService.cpp:280-284 | in any run, after a cancel by a player with a session, nobody ever uploads to, gets ready in, trades or closes that session again |
| `TradeClosing.CommitIsFinal` | SERVER/src/CHANNEL/packet/HandleTrade.cpp:344-392 | the same after a ready call that commits |
| `TradeRuns.SwapMovesOffers` | SERVER/src/CHANNEL/service/TradeService.cpp:164-257 | a commit moves exactly what was booked on the two sides of this session |
| `TradeRuns.TradeKeeps` | SERVER/src/CHANNEL/service/TradeService.cpp:155-159 | the swap step keeps the run invariant, with the committed session exempt until it is deleted |
| `TradeRuns.ReadyKeeps` | SERVER/src/CHANNEL/packet/HandleTrade.cpp:344-392 | the whole ready handler, commit and deletion included, keeps the run invariant for any caller object |
| `TradeRuns.RunKeeps` | SERVER/src/CHANNEL/service/TradeService.cpp:47-315 | the invariant over every run of connects, reconnects, start, upload, ready and cancel by any players under any faults |
| `TradeRuns.RunConserves` | SERVER/src/CHANNEL/service/TradeService.cpp:164-257 | over every run, reconnects included: one row per item, no session commits twice, holdings are initial plus what was booked on the sides of committed sessions, the supply of every item is constant |
| `TradeConsent.RunAgreesIff` | SERVER/src/CHANNEL/service/TradeService.cpp:148-159 | over every run, reconnects included: Execute ran only in sessions both of whose members had called Ready, if and only if each ready call was booked on the side of its caller, came after the partner had called Ready, or was made in a trade with oneself |
| `TradeConsent.StepAgreesIff` | SERVER/src/CHANNEL/service/TradeService.cpp:148-159 | one more call keeps that agreement exactly if it meets this condition |
| `TradeRuns.RunIsHonest` | SERVER/src/CHANNEL/service/TradeService.cpp:164-257 | corollary about holdings: over every run whose upload and ready calls are booked on the side of their caller, swaps are agreed and holdings are initial plus the uploads of committed sessions |
| `TradeConsent.RunKeepsOwnIff` | SERVER/src/CHANNEL/service/TradeService.cpp:117-123 | over every run: all open sessions list exactly the uploads of their members at every point, if and only if every upload was booked on the side of its caller |
| `TradeConsent.StepKeepsOwnIff` | SERVER/src/CHANNEL/service/TradeService.cpp:117-123 | one more call keeps that exactly if it is no upload booked on the wrong side |
| `TradeRuns.OffersAreOwnUploads` | SERVER/src/CHANNEL/service/TradeService.cpp:117-123 | after a guarded run the two lists of an open session are the uploads of its two members, in order; the exact condition is RunKeepsOwnIff |
| `TradeRuns.SteadyRunIsGuarded` | SERVER/src/CHANNEL/service/TradeService.cpp:286-302 | every run in which each id connects only as its own object meets the guard at every call |
| `TradeRuns.ReconnectBreaksAgreement` | SERVER/src/CHANNEL/service/TradeService.cpp:148-159 | a run with a reconnect in which Execute runs although the second player never called Ready |
| `TradeRuns.ReconnectChargesPartner` | SERVER/src/CHANNEL/service/TradeService.cpp:120-123 | a run with a reconnect in which an upload is booked as an offer of the other player |
| `TradeProtocol.TradeHappens` | SERVER/src/CHANNEL/packet/HandleTrade.cpp:344-392 | from any state, two players who start, upload and both get ready, in either order, get exactly the swap of those offers; the first waits, the sessions close after a commit and only then |
| `TradeSymmetry.StartKeepsSymmetryIff` | SERVER/src/CHANNEL/service/TradeService.cpp:286-302 | a start keeps the registry symmetric exactly when neither player is in a session with a third party |
| `TradeSymmetry.SecondTradeBreaksSymmetry` | SERVER/src/CHANNEL/service/TradeService.cpp:286-302 | three players and two starts after which the registry is not symmetric |
| `TradeSymmetry.StepKeepsSymmetryIff` | SERVER/src/CHANNEL/service/TradeService.cpp:47-315 | one more call or reconnect keeps a symmetric registry symmetric exactly if it is no start that finds a player in a session with a third party |
| `TradeSymmetry.RunStaysSymmetricIff` | SERVER/src/CHANNEL/service/TradeService.cpp:47-315 | whoever has an open session shares it with both its members at every point of a run, if and only if every start of the run finds both players free |
| `TradeServiceState.TradeService.CreateTradeSession` | SERVER/src/CHANNEL/service/TradeService.cpp:286-302 | registers one new session for both players |
| `TradeServiceState.TradeService.StartTrade` | SERVER/src/CHANNEL/service/TradeService.cpp:47-98 | the checks of Start and the new state on mutable fields |
| `TradeServiceState.TradeService.Find` | SERVER/src/CHANNEL/service/TradeService.cpp:111 | operator[] returns the session and inserts a null entry for an unknown player |
| `TradeServiceState.TradeService.Upload` | SERVER/src/CHANNEL/service/TradeService.cpp:99-126 | appends to the list of the side chosen by comparing objects |
| `TradeServiceState.TradeService.MarkReady` | SERVER/src/CHANNEL/service/TradeService.cpp:128-162 | sets the flag of the side chosen by comparing objects, then runs the swap exactly when the other side by id is ready |
| `TradeServiceState.TradeService.ExecuteTrade` | SERVER/src/CHANNEL/service/TradeService.cpp:164-257 | runs the transaction on the session and stores the rewritten offers |
| `TradeServiceState.TradeService.DeleteTradeSession` | SERVER/src/CHANNEL/service/TradeService.cpp:304-315 | erases both registry entries and frees the session |
| `TradeServiceState.TradeService.CancelTrade` | SERVER/src/CHANNEL/service/TradeService.cpp:259-284 | does on mutable fields what Cancel does; what that is, is CancelCloses and CancelIsFinal |
| `TradeServiceState.TradeService.HandleTradeReady` | SERVER/src/CHANNEL/packet/HandleTrade.cpp:344-392 | deletes the session after a commit and only then |
| `Slots.AddItemCapacity` | SERVER/src/CHANNEL/domain/Inventory.cpp:45-129 | returns true exactly when the count fits in the total room; otherwise exactly the room is filled; no stack passes its maximum, other items stay; a slot is opened only once every enabled stack of the item is full |
| `Slots.AddItemFillsInOrder` | SERVER/src/CHANNEL/domain/Inventory.cpp:55-126 | among the stacks, and among the empty slots, a later one changes only once every earlier one is full |
| `Slots.AddItemReplays` | SERVER/src/CHANNEL/domain/Inventory.cpp:45-129 | the reported results, replayed on the old slots, give the new slots |
| `Slots.AddItemReports` | SERVER/src/CHANNEL/domain/Inventory.cpp:45-129 | exactly the slots that change are reported, each once |
| `Slots.AddItemNamesSlots` | SERVER/src/CHANNEL/domain/Inventory.cpp:80-126 | each result names a slot of the table and its type |
| `Slots.AddItemTotal` | SERVER/src/CHANNEL/domain/Inventory.cpp:45-129 | the total of the item grows by count minus what is left over, other totals stay, whatever the return value |
| `Slots.RemoveItemTotal` | SERVER/src/CHANNEL/domain/Inventory.cpp:132-165 | removal lowers the total of its item by the count if it succeeds and changes no other total |
| `Slots.RemoveItemExact` | SERVER/src/CHANNEL/domain/Inventory.cpp:132-165 | the slot keeps place, type and flag and loses the count, or is erased if nothing is left; other slots stay; a refused removal changes nothing |
| `Slots.MoveItemTotal` | SERVER/src/CHANNEL/domain/Inventory.cpp:264-300 | a move changes no total |
| `Slots.MoveItemExact` | SERVER/src/CHANNEL/domain/Inventory.cpp:264-300 | two slots swap item and count and keep their own place, type and flag; other slots stay; a refused move changes nothing |
| `Slots.MoveBackRestores` | SERVER/src/CHANNEL/domain/Inventory.cpp:264-300 | a move that succeeded can be undone by moving back, which restores all slots |
| `Slots.Ledger` | SERVER/src/CHANNEL/domain/Inventory.cpp:45-300 | after any list of add, remove and move calls each total is initial plus added minus removed |
| `Slots.RunKeepsPlaces` | SERVER/src/CHANNEL/domain/Inventory.cpp:45-300 | over any list of calls every slot that is left has the type, place and flag it had at first |
| `Slots.PlacesOfNewTable` | SERVER/src/CHANNEL/domain/Inventory.cpp:4-300 | in an inventory from the constructor slot k says it is at k and is enabled exactly up to the current size, after any calls |
| `Slots.NewTableRoom` | SERVER/src/CHANNEL/domain/Inventory.cpp:14-24 | a new inventory has room for min(maximum, current size + 1) slots |
| `Inventory.Inventory.constructor` | SERVER/src/CHANNEL/domain/Inventory.cpp:4-26 | the slot loop builds the table of empty slots with their enable flags |
| `Inventory.Inventory.FillStacks` | SERVER/src/CHANNEL/domain/Inventory.cpp:52-90 | the first loop in place: slots, remainder and results equal the first pass |
| `Inventory.Inventory.FillEmptySlots` | SERVER/src/CHANNEL/domain/Inventory.cpp:92-126 | the second loop in place: slots, remainder and results equal the second pass |
| `Inventory.Inventory.AddItem` | SERVER/src/CHANNEL/domain/Inventory.cpp:45-129 | both loops together, results appended to the caller list |
| `Inventory.Inventory.RemoveItemBySlot` | SERVER/src/CHANNEL/domain/Inventory.cpp:132-165 | success, and the new slots; the slot goes exactly if it is emptied |
| `Inventory.Inventory.MoveItemSlot` | SERVER/src/CHANNEL/domain/Inventory.cpp:264-300 | success, the two updates reported, and the slots, which are those of MoveItemExact |
| `Inventory.Inventory.GetItemCount` | SERVER/src/CHANNEL/domain/Inventory.cpp:226-244 | exactly the counts up to the answer can be removed from the slot; 0 if the item is not there |
| `GroundDrops.AddToBagsExact` | SERVER/src/CHANNEL/manager/InventoryManager.cpp:43-81 | adding succeeds exactly when all of it fits, and stores exactly what fits, for every item |
| `GroundDrops.AddToBagsFrame` | SERVER/src/CHANNEL/manager/InventoryManager.cpp:43-81 | only the bag of the item's type changes, and only for a known item |
| `GroundDrops.TypeCodes` | SERVER/include/COMMON/Inventory_Info.h:104-131 | the code of each item type; any other name has none |
| `GroundDrops.PickupAllowed` | SERVER/src/CHANNEL/map/MapInstance.cpp:442-465 | a pickup is refused, and changes nothing, unless the drop exists, is at most 80 away, and is unowned or one's own |
| `GroundDrops.PickupFrame` | SERVER/src/CHANNEL/map/MapInstance.cpp:432-482 | a pickup takes the drop it names exactly on success and touches no other |
| `GroundDrops.PickupConservesIff` | SERVER/src/CHANNEL/map/MapInstance.cpp:432-482 | ground loses the drop exactly on success, the bags gain what fits; the sum is conserved exactly when all or nothing fits |
| `GroundDrops.FailedPickupDuplicates` | SERVER/src/CHANNEL/map/MapInstance.cpp:474-477 | a drop of eight and room for five: the pickup fails and leaves thirteen pieces |
| `GroundDrops.RemoveFromBagsExact` | SERVER/src/CHANNEL/domain/Inventory.cpp:132-165 | using items up lowers what the player carries of them by the count if it succeeds, and nothing else |
| `GroundDrops.MoveInBagsKeeps` | SERVER/src/CHANNEL/manager/InventoryManager.cpp:30-41 | moving items changes no total of the bags |
| `GroundDrops.MoveInBagsExact` | SERVER/src/CHANNEL/manager/InventoryManager.cpp:30-41 | a move swaps item and count of two slots of one bag and touches nothing else |
| `GroundDrops.RemoveFromBagsFrame` | SERVER/src/CHANNEL/domain/Inventory.cpp:132-165 | using items up touches one slot of one bag |
| `GroundDrops.ClaimsLapse` | SERVER/src/CHANNEL/map/MapInstance.cpp:540-555 | after a clean-up a drop is open to everybody in reach exactly if it has no owner or the claim has run out |
| `GroundDrops.DropLife` | SERVER/src/CHANNEL/map/MapInstance.cpp:500-555 | a spawned drop has its item and count, lies where the monster was, belongs to its owner until a clean-up a minute later and is gone at a clean-up two minutes later |
| `GroundDrops.SpawnIds` | SERVER/src/CHANNEL/map/MapInstance.cpp:500-514 | spawned drops get new ids and replace no drop |
| `GroundDrops.SpawnTotal` | SERVER/src/CHANNEL/map/MapInstance.cpp:500-514 | spawning adds exactly the rolled items to the ground |
| `GroundDrops.ExpireTotal` | SERVER/src/CHANNEL/map/MapInstance.cpp:536-555 | the clean-up takes exactly the expired drops off the ground |
| `DropRuns.StepIds` | SERVER/src/CHANNEL/map/MapInstance.cpp:432-558 | every call keeps ids below the counter and collected ids gone |
| `DropRuns.StepBalances` | SERVER/src/CHANNEL/map/MapInstance.cpp:432-558 | every call keeps ground and bags in step with the log |
| `DropRuns.StepIsLogged` | SERVER/src/CHANNEL/map/MapInstance.cpp:432-558 | which event each call logs, and when it logs none |
| `DropRuns.SpawnsAreLogged` | SERVER/src/CHANNEL/map/MapInstance.cpp:496-529 | the spawns a run logs are those it was asked for, in order |
| `DropRuns.RunLedger` | SERVER/src/CHANNEL/map/MapInstance.cpp:432-558 | over every run of spawns, pickups, additions, removals, moves and clean-ups by any players in the same bags: no drop id is collected twice, and ground and every bag equal initial plus booked changes |
| `MapDrops.InventoryManager.AddItem` | SERVER/src/CHANNEL/manager/InventoryManager.cpp:43-81 | routes to the typed inventory and updates it in place |
| `MapDrops.InventoryManager.MoveItemSlots` | SERVER/src/CHANNEL/manager/InventoryManager.cpp:30-41 | moves inside the inventory of a type, if the player has it |
| `MapDrops.MapInstance.SpawnDropItem` | SERVER/src/CHANNEL/map/MapInstance.cpp:496-529 | the spawn loop on the drop table and the id counter |
| `MapDrops.MapInstance.PickupDropItem` | SERVER/src/CHANNEL/map/MapInstance.cpp:432-482 | reach, ownership and storing decide; new ground and bags |
| `MapDrops.MapInstance.CheckDropItem` | SERVER/src/CHANNEL/map/MapInstance.cpp:531-558 | owners lose their claim, expired drops go; the removed list names each of them once, in some order |
| `Framing.Parse` | SERVER/src/COMMON/packet/PacketParser.cpp:40-78 | a complete packet is strictly shorter than the buffer and within bounds; waiting for more means fewer than 1024 bytes are held |
| `Framing.Drain` | SERVER/src/CHANNEL/app/ChannelSession.cpp:36-58 | the loop ends; what an accepting call leaves is under 1024 bytes and needs more data |
| `Framing.ParseStable` | SERVER/src/COMMON/packet/PacketParser.cpp:40-78 | a verdict other than NeedMoreData does not change when more bytes arrive |
| `Framing.DrainSplit` | SERVER/src/CHANNEL/app/ChannelSession.cpp:36-58 | draining a whole buffer equals draining a front part and then the leftover with the rest |
| `Framing.ChunkingInvariant` | SERVER/src/CHANNEL/app/ChannelSession.cpp:36-58 | for every stream and every split into chunks: same packets, same verdict and same leftover as in one call |
| `Framing.ParseMade` | SERVER/src/COMMON/packet/PacketParser.cpp:184-196 | a made packet with at most 1020 body bytes is parsed back whatever follows it |
| `Framing.PacketLayout` | SERVER/src/COMMON/packet/PacketParser.cpp:184-196 | on the wire: total length modulo 65536 and type, both little-endian, then the body |
| `Framing.PacketsRoundTripIff` | SERVER/src/COMMON/packet/PacketParser.cpp:40-78 | in any chunking, exactly the sent packets are dispatched if and only if every body has at most 1020 bytes, length wrap-around included |
| `Framing.LongPacketIsLost` | SERVER/src/COMMON/packet/PacketParser.cpp:57-60 | a packet with a body of 1021 bytes does not arrive |
| `Fields.ParseField` | SERVER/src/COMMON/packet/PacketParser.cpp:80-121 | on success the offset moves forward inside the payload and the value has at most 255 bytes |
| `Fields.ParseFieldIff` | SERVER/src/COMMON/packet/PacketParser.cpp:80-121 | reading succeeds exactly if the bytes from the offset begin with a field in the form that the byte after the length selects, and gives what that field holds |
| `Fields.MixedFormsDecode` | SERVER/src/COMMON/packet/PacketParser.cpp:80-121 | any mix of the two length forms decodes to its values |
| `Fields.ShortFormExact` | SERVER/src/COMMON/packet/PacketParser.cpp:103-107 | the one-byte length form is read back exactly when the byte after it is not zero |
| `Fields.FieldLayout` | SERVER/src/COMMON/packet/PacketParser.cpp:170-182 | a made field: its length modulo 65536, little-endian, and its bytes |
| `Fields.FieldsRoundTripIff` | SERVER/src/COMMON/packet/PacketParser.cpp:170-182 | reading a made body until the parser fails gives the fields if and only if all have at most 255 bytes |
| `Fields.LongFieldIsLost` | SERVER/src/COMMON/packet/PacketParser.cpp:100-107 | a field of 256 bytes does not come back |
| `Fields.MessagesRoundTripIff` | SERVER/src/COMMON/packet/PacketParser.cpp:170-196 | a list of messages sent in any chunking arrives with all fields if and only if each body has at most 1020 and each field at most 255 bytes |
| `Receiving.ChannelSession.TryParse` | SERVER/src/COMMON/packet/PacketParser.cpp:40-78 | erases exactly a complete packet from the front of the buffer |
| `Receiving.ChannelSession.OnBytes` | SERVER/src/CHANNEL/app/ChannelSession.cpp:36-58 | the reassembly loop: buffer, dispatched packets and return value |
| `Receiving.ParseLengthPrefixedString` | SERVER/src/COMMON/packet/PacketParser.cpp:80-121 | the offset-advancing parser equals the functional one, on failure too |
| `Receiving.BuildBody` | SERVER/src/COMMON/packet/PacketParser.cpp:170-182 | the append loop builds the concatenation of length-prefixed fields |
| `SendQueue.FlushConserves` | SERVER/src/CHANNEL/app/ChannelSession.cpp:142-193 | whatever the kernel answers, bytes taken followed by bytes pending equal the bytes pending before |
| `SendQueue.WillingKernelGetsAll` | SERVER/src/CHANNEL/app/ChannelSession.cpp:142-193 | a kernel that keeps taking bytes, with any interruptions, gets all pending bytes in order and the queue ends empty |
| `SendQueue.StepConserves` | SERVER/src/CHANNEL/app/ChannelSession.cpp:129-198 | enqueueing and flushing keep accepted bytes equal to sent then pending bytes |
| `SendQueue.RunConserves` | SERVER/src/CHANNEL/app/ChannelServer.cpp:59-77 | over every run the kernel took a prefix of the accepted stream and the rest is pending; in a live session EPOLLOUT is armed exactly when something is pending |
| `SendQueue.RunDelivers` | SERVER/src/CHANNEL/app/ChannelSession.cpp:129-198 | as long as a session lives, bytes taken followed by bytes pending are everything that was given to send |
| `SendQueue.WriteClosesIff` | SERVER/src/CHANNEL/app/ChannelServer.cpp:59-77 | a write event closes the session exactly if, after answers that took bytes or were interruptions, the kernel reports an error or takes nothing while bytes wait; otherwise it lives, armed exactly if bytes still wait |
| `SendQueue.NextAnswerDecides` | SERVER/src/CHANNEL/app/ChannelServer.cpp:59-77 | after a willing start that leaves bytes waiting EAGAIN keeps the session and an error or 0 closes it; with nothing left it is alive and disarmed; with answers run out it is alive and armed if bytes wait |
| `SendQueue.RunClosesIff` | SERVER/src/CHANNEL/app/ChannelServer.cpp:59-77 | a run closes a session exactly if one of its write events meets such a refusal |
| `Sending.SendSession.EnqueueSend` | SERVER/src/CHANNEL/app/ChannelSession.cpp:129-140 | appends the packet and arms EPOLLOUT; an empty packet is refused |
| `Sending.SendSession.FlushSend` | SERVER/src/CHANNEL/app/ChannelSession.cpp:142-193 | the send loop: queue, offset, bytes taken and return value |
| `Sending.SendSession.HandleWritable` | SERVER/src/CHANNEL/app/ChannelServer.cpp:59-77 | the handler on mutable fields: flush, close on failure, disarm when nothing is left; when it closes is WriteClosesIff |
| `Leveling.AddExpAdditive` | SERVER/src/CHANNEL/stat/CharacterStat.cpp:6-50 | two grants reach the same state as their sum |
| `Leveling.KillOrderIrrelevant` | SERVER/src/CHANNEL/stat/CharacterStat.cpp:6-50 | any reordering of a list of grants reaches the same state |
| `Leveling.SettleCanonical` | SERVER/src/CHANNEL/stat/CharacterStat.cpp:19-35 | experience is conserved, the final level is the one where the total runs out or the table ends, AP grows by 5 per level, HP and MP are refilled on a level-up |
| `Leveling.AddExpIsCanonical` | SERVER/src/CHANNEL/stat/CharacterStat.cpp:6-50 | a level is the result of a grant if and only if it is the one that fits the total |
| `Leveling.LevelRisesIff` | SERVER/src/CHANNEL/stat/CharacterStat.cpp:19-35 | a grant raises the level exactly if the table has a positive need for the present level and it is reached; a missing level is the last one |
| `CharacterStats.CharacterStat.AddExp` | SERVER/src/CHANNEL/stat/CharacterStat.cpp:6-50 | the loop on the fields and every field of the result record |
| `MonsterLife.DamageAddsUp` | SERVER/src/CHANNEL/domain/Monster.cpp:309-345 | a series of blows leaves health minus the summed positive damage, and kills exactly if that sum reaches the health |
| `MonsterLife.BlowExact` | SERVER/src/CHANNEL/domain/Monster.cpp:309-345 | the exact monster and verdict after one blow |
| `MonsterLife.RunDamageAddsUp` | SERVER/src/CHANNEL/map/MapInstance.cpp:296-332 | in any run without a respawn check on it, the health of a monster falls by the summed damage of the hits on it, whatever happens to the others |
| `MonsterLife.NewFieldIsFresh` | SERVER/src/CHANNEL/domain/Monster.cpp:16-60 | monsters made from their templates are what the run theorems start from |
| `MonsterLife.WalkExact` | SERVER/src/CHANNEL/map/MapInstance.cpp:120-132 | only the living move, and moving changes nothing but the place |
| `MonsterLife.StrikeKeeps` | SERVER/src/CHANNEL/map/MapInstance.cpp:308-329 | one hit, with its reward, keeps the life-cycle invariant |
| `MonsterLife.ReviveKeeps` | SERVER/src/CHANNEL/map/MapInstance.cpp:141-150 | one respawn check keeps it |
| `MonsterLife.RespawnsWhenDue` | SERVER/src/CHANNEL/domain/Monster.cpp:266-307 | a dead monster comes back alive, in full health and at its place of spawning exactly if the delay since its last death has passed |
| `MonsterLife.OneRewardPerLife` | SERVER/src/CHANNEL/domain/Monster.cpp:252-345 | over every run: alive exactly without a death request, health in range and alive exactly with health for monsters that have any, deaths are respawns or respawns + 1 per monster, no respawn before death plus delay, stats are the fold of the kills |
| `MonsterLife.HealthAgreesIff` | SERVER/src/CHANNEL/domain/Monster.cpp:16-60 | in every run health stays in range and alive means health left, if and only if the template gives positive health |
| `MonsterLife.StatsAreKillTotals` | SERVER/src/CHANNEL/map/MapInstance.cpp:308-323 | after every run a player has gained exactly the experience of the monsters it killed |
| `Monsters.Monster.OnDamaged` | SERVER/src/CHANNEL/domain/Monster.cpp:309-345 | true exactly on the killing hit; hits on the dead and damage <= 0 change nothing |
| `Loot.RollIsLegal` | SERVER/src/CHANNEL/manager/DropManager.cpp:201-249 | what is rolled for a kill: nothing for an unknown group, otherwise items of the two groups, and for sane groups a full selection from the common and then from the unique one, in the numbers drawn |
| `Loot.KillerOwnsDrops` | SERVER/src/CHANNEL/map/MapInstance.cpp:308-329 | exactly a killing blow leaves something, and all of it lies where the monster stood and belongs to the killer |
| `Loot.OneSelectionPerDeath` | SERVER/src/CHANNEL/map/MapInstance.cpp:308-329 | over every run: exactly one drop selection per death, in the order of deaths, each with random numbers of its own and with the items and numbers of items it must have, and the ground holds what it held plus these items |
| `Monsters.MapInstance.ResolveHit` | SERVER/src/CHANNEL/map/MapInstance.cpp:308-329 | one hit on monsters, stats, random engine and ground: experience, drop selection and drops exactly on a kill |
| `Monsters.MapInstance.ResolveSkillHit` | SERVER/src/CHANNEL/map/MapInstance.cpp:296-332 | the hit loop on the same state |
| `Monsters.StrikeAllIsRun` | SERVER/src/CHANNEL/map/MapInstance.cpp:296-332 | the hit loop is the run of its hits, to which the run theorems apply |
| `Monsters.MapInstance.SpawnMonster` | SERVER/src/CHANNEL/map/MapInstance.cpp:134-159 | the respawn loop over the monster list |
| `Monsters.AllDueRespawn` | SERVER/src/CHANNEL/map/MapInstance.cpp:134-159 | the loop brings back every monster that is due and leaves the others and all players alone |
| `DropTable.Uniform` | SERVER/src/CHANNEL/manager/DropManager.cpp:307-308 | a draw lies in its range |
| `DropTable.EveryRollSelects` | SERVER/src/CHANNEL/manager/DropManager.cpp:307-363 | every roll the code can make selects an entry of positive weight, whatever the weights, so the not-selected branch is dead |
| `DropTable.ChooseFromInterval` | SERVER/src/CHANNEL/manager/DropManager.cpp:313-360 | an entry is selected exactly by the rolls in its own interval of accumulated weight |
| `DropTable.RollsForSize` | SERVER/src/CHANNEL/manager/DropManager.cpp:313-360 | how many rolls select an entry, for any weights |
| `DropTable.ExactPartitionIff` | SERVER/src/CHANNEL/manager/DropManager.cpp:251-263 | every entry is selected by exactly its weight in rolls if and only if no weight is negative |
| `DropTable.NegativeWeightSkews` | SERVER/src/CHANNEL/manager/DropManager.cpp:251-263 | weights 3 and -1, where the first entry gets two rolls |
| `DropTable.PicksAreLegal` | SERVER/src/CHANNEL/manager/DropManager.cpp:290-372 | each result comes from a listed entry of positive weight, with a count inside its range |
| `DropTable.DuplicatesFillTheCount` | SERVER/src/CHANNEL/manager/DropManager.cpp:290-372 | with duplicates allowed exactly the drawn number of results comes out |
| `DropTable.CountWithoutRepetition` | SERVER/src/CHANNEL/manager/DropManager.cpp:353-356 | without duplicates min(drawn, entries of positive weight) results come out |
| `DropTable.DrawsAreDistinct` | SERVER/src/CHANNEL/manager/DropManager.cpp:353-356 | without duplicates results come from pairwise different positions of the group |
| `DropTable.DrawReachesIff` | SERVER/src/CHANNEL/manager/DropManager.cpp:290-372 | a sequence of results comes out of some stream of random numbers exactly if each of them can come from the working list of its round |
| `DropTable.DrawableIff` | SERVER/src/CHANNEL/manager/DropManager.cpp:313-360 | an entry can be selected exactly if it has weight and negative weights leave it a share |
| `DropTable.SelectDropItemExact` | SERVER/src/CHANNEL/manager/DropManager.cpp:265-375 | a sane group: success, number, legality and distinctness of the results |
| `DropTable.GroupNeverFailsIff` | SERVER/src/CHANNEL/manager/DropManager.cpp:265-375 | for weights that are not negative, no random numbers make a selection fail exactly if the group is well formed and no entry with weight has a bad count range |
| `DropTable.SetDropItemExact` | SERVER/src/CHANNEL/manager/DropManager.cpp:201-249 | two sane groups: first a full selection from the common group, then a full selection from the unique group, each with exactly the number of results its own draw asks for, legal and distinct where duplicates are not allowed |
| `DropTable.SetDropItemFails` | SERVER/src/CHANNEL/manager/DropManager.cpp:221-245 | any groups: with a range turned round nothing is drawn; a failing common group keeps its results and draws nothing from the unique one; a failing unique group takes nothing back |
| `DropManagers.SumOfWeights` | SERVER/src/CHANNEL/manager/DropManager.cpp:251-263 | the summing loop |
| `DropManagers.FindEntry` | SERVER/src/CHANNEL/manager/DropManager.cpp:310-371 | the scan with its running weight |
| `DropManagers.DropManager.PlayRound` | SERVER/src/CHANNEL/manager/DropManager.cpp:292-351 | one round, and how many random numbers it uses |
| `DropManagers.DropManager.PlayRounds` | SERVER/src/CHANNEL/manager/DropManager.cpp:288-374 | the drawing loop with its shrinking working vector: verdict, results and engine position |
| `DropManagers.DropManager.Select` | SERVER/src/CHANNEL/manager/DropManager.cpp:265-375 | the whole selection on the engine state |
| `DropManagers.DropManager.SetDrop` | SERVER/src/CHANNEL/manager/DropManager.cpp:201-249 | look-up of both groups and the selection on the engine state; what it selects is SetDropItemExact and SetDropItemFails |
| `Collision.RectsShare` | SERVER/include/COMMON/Collider.h:98-108 | rectangles: true exactly when the closed shapes share a point |
| `Collision.CirclesShare` | SERVER/include/COMMON/Collider.h:111-124 | circles: true exactly when the closed discs share a point |
| `Collision.RectCircleShare` | SERVER/include/COMMON/Collider.h:127-148 | rectangle and circle: true exactly when they share a point |
| `Collision.IntersectsDecidesOverlap` | SERVER/include/COMMON/Collider.h:151-171 | the dispatching test is true exactly when the two shapes share a point |
| `Collision.IntersectsSymmetric` | SERVER/include/COMMON/Collider.h:151-171 | the test does not depend on the order of its arguments, for any extents |
| `Collision.BoxCoversFront` | SERVER/include/COMMON/Collider.h:75-96 | the attack box covers exactly the points in front of the attacker within range and height |
| `Collision.SafeRadiusDropsNothing` | SERVER/include/COMMON/Collider.h:234-237 | overlapping rectangles have overlapping circumscribed circles, so this cut drops no hit |
| `DistanceCuts.RectCutIff` | SERVER/src/CHANNEL/map/MapInstance.cpp:364 | a distance cut between rectangle positions loses no hit exactly when its limit is at least their reach, offsets included |
| `DistanceCuts.CircleCutIff` | SERVER/src/CHANNEL/map/MapInstance.cpp:364 | a distance cut between a rectangle and a circle loses no hit exactly when its limit is at least the square of the span plus the radius |
| `DistanceCuts.FastCutSafeIff` | SERVER/include/COMMON/Collider.h:226-265 | the cut with the fast radius is safe exactly if the corners of the two rectangles reach no farther than the sum of their larger half sides and the extra |
| `DistanceCuts.FastRadiusLosesHit` | SERVER/include/COMMON/Collider.h:228-249 | a rectangle for which the fast radius drops a real hit |
| `DistanceCuts.ContactCutSafeIff` | SERVER/src/CHANNEL/domain/Monster.cpp:78-91 | for monsters of every shape, rectangles, circles and none: the contact limit 1000 loses no hit on the player if and only if the monster is small enough |
| `DistanceCuts.ShippedMonstersAreSkipped` | SERVER/src/CHANNEL/data/Monsters/100102.json:14-16 | the limit loses hits of each of the three monsters that come with the server |
| `DistanceCuts.RoundMonsterIsSkipped` | SERVER/src/CHANNEL/map/MapInstance.cpp:21 | and of a circle of radius 20 |
| `Ranking.TargetsAreTheLeast` | SERVER/src/CHANNEL/service/CombatService.cpp:144-211 | the result is the min(max_targets, hits) least alive-and-hit monsters by (front, id), in order, without duplicates |
| `Ranking.TargetsIgnoreListOrder` | SERVER/src/CHANNEL/service/CombatService.cpp:144-211 | any permutation of the monster list gives the same targets |
| `Targeting.BoxCandidates` | SERVER/src/CHANNEL/service/CombatService.cpp:150-160 | a box attack hits exactly the alive monsters whose shape has a point in the attacked area |
| `Targeting.TargetsAreNearest` | SERVER/src/CHANNEL/service/CombatService.cpp:183-211 | the targets are the nearest reached monsters in the direction of the attack, by position plus collider offset and then id, as many as allowed; what is left out comes after all of them |
| `Targeting.ComputeHitMonsters` | SERVER/src/CHANNEL/service/CombatService.cpp:128-213 | filter loop, sort and take: the hits are the nearest reached monsters, in order; any other direction hits nothing |
| `Damage.RateRange` | SERVER/src/CHANNEL/service/CombatService.cpp:278-291 | the rate is the fixed penalty or lies in 86..120; it is 120 exactly from 40 levels up and 100 exactly within one level |
| `Damage.RateExact` | SERVER/src/CHANNEL/service/CombatService.cpp:278-291 | the rate for every level difference: 5, 120, or 100 plus half the difference truncated toward zero |
| `Damage.RateMonotone` | SERVER/src/CHANNEL/service/CombatService.cpp:278-291 | the rate never falls with the attacker level nor rises with the defender level |
| `Damage.DamageMonotone` | SERVER/src/CHANNEL/service/CombatService.cpp:246-276 | final damage is at least 1, never falls as base damage or attacker level rise and never rises with the defender level |
| `Damage.DamageExact` | SERVER/src/CHANNEL/service/CombatService.cpp:246-276 | final damage is that percentage of the base damage, rounded down, and at least 1 |
| `WorkerQueue.RunKeeps` | SERVER/src/COMMON/thread/WorkerThread.cpp:18-64 | over every interleaving: accepted tasks are executed, then in flight, then queued, in order; after Stop at most one task is accepted and at most one taken |
| `WorkerQueue.AtMostOneMore` | SERVER/src/COMMON/thread/WorkerThread.cpp:18-64 | from Stop on at most one task is accepted, that of a push half-way through, and at most one taken, by a worker past its loop test |
| `WorkerQueue.PushesAreAccepted` | SERVER/src/COMMON/thread/WorkerThread.cpp:18-36 | over every interleaving the accepted tasks are those whose pushes passed their check, in order |
| `WorkerQueue.WorkerDrains` | SERVER/src/COMMON/thread/WorkerThread.cpp:42-63 | a running worker left alone executes its whole queue, front to back |
| `WorkerQueue.StopDrainsIff` | SERVER/src/COMMON/thread/WorkerThread.cpp:42-59 | from a stopped worker, no run ends with a task left behind exactly if no more tasks wait than the one of a worker that has passed its loop test |
| `WorkerQueue.StopCanLeaveTasks` | SERVER/src/COMMON/thread/WorkerThread.cpp:42-55 | a run that ends with an accepted task never executed |
| `WorkerQueue.StopRefusesIff` | SERVER/src/COMMON/thread/WorkerThread.cpp:18-36 | after Stop no run accepts a task exactly if Stop did not fall between the two halves of a push |
| `WorkerQueue.StopCanAcceptLate` | SERVER/src/COMMON/thread/WorkerThread.cpp:18-36 | a run that accepts a task after Stop |
| `WorkerQueue.TasksAreDealt` | SERVER/src/COMMON/thread/ThreadPool.cpp:40-44 | task k of one submitter goes to worker (next + k) modulo the number of workers, each worker getting its tasks in order |
| `WorkerQueue.TurnIsRemainder` | SERVER/src/COMMON/thread/ThreadPool.cpp:43 | the turn of the model is the remainder of the code |
| `WorkerQueue.NewPool` | SERVER/src/COMMON/thread/ThreadPool.cpp:3-18 | a pool has as many workers as asked for, or four, none of them with a task |
| `WorkerQueue.SharesAreEven` | SERVER/src/COMMON/thread/ThreadPool.cpp:40-44 | every task is handed out and the shares of any two workers differ by at most one |
| `Threads.WorkerThread.NextTask` | SERVER/src/COMMON/thread/WorkerThread.cpp:42-59 | loop test and critical section of the worker |
| `QuickSlots.SetSlotKeepsGood` | SERVER/src/CHANNEL/manager/QuickSlotManager.cpp:16-56 | keys stay 0..31, records carry their key, no two slots hold the same skill or item |
| `QuickSlots.ClearSlotKeepsGood` | SERVER/src/CHANNEL/manager/QuickSlotManager.cpp:111-119 | so does clearing |
| `QuickSlots.RunIsGood` | SERVER/src/CHANNEL/manager/QuickSlotManager.cpp:3-119 | the same over every run from Init |
| `QuickSlots.DeltaReplays` | SERVER/src/CHANNEL/manager/QuickSlotManager.cpp:16-56 | replaying the returned list on a mirror gives the server state, and the list has at most two entries |
| `QuickSlots.SetSlotMovesTarget` | SERVER/src/CHANNEL/manager/QuickSlotManager.cpp:16-56 | an accepted skill or item binding is found at its slot and nowhere else |
| `QuickSlots.SetSlotExact` | SERVER/src/CHANNEL/manager/QuickSlotManager.cpp:16-56 | slot by slot: the bound slot gets the record, another slot with the same skill or item becomes blank, every other slot stays |
| `QuickSlots.BindingStands` | SERVER/src/CHANNEL/manager/QuickSlotManager.cpp:16-119 | in any run a binding stays until its slot is written again or its target is bound elsewhere |
| `QuickSlots.ClearForgetsTarget` | SERVER/src/CHANNEL/manager/QuickSlotManager.cpp:111-119 | clearing the slot a target was bound to leaves it bound nowhere |
| `QuickSlots.ClearSlotExact` | SERVER/src/CHANNEL/manager/QuickSlotManager.cpp:111-119 | clearing blanks one slot |
| `QuickSlotManagers.QuickSlotManager.constructor` | SERVER/src/CHANNEL/manager/QuickSlotManager.cpp:3-13 | Init yields 32 blank slots in a good state |
| `QuickSlotManagers.QuickSlotManager.SetSlot` | SERVER/src/CHANNEL/manager/QuickSlotManager.cpp:16-56 | the clearing loop in any map order; the new slots and the list of changes |

## Left out

- Sockets, epoll, accept and select loops, daemons, queues, logging, configuration files.
- The MySQL C API and Redis: a statement is its effect on the table and its affected rows. Errors of START TRANSACTION, COMMIT and ROLLBACK, an exhausted connection pool and concurrent writers are not modelled.
- Null-pointer guards and the checks packet handlers make before calling a service; `TradeService::Request`, which only checks; reloading inventories after a trade.
- TradeRuns.RunIsHonest: says nothing about what a player saw when calling Ready; offers can still change after that.
- Reuse of the addresses of trade sessions by the allocator. Player objects may reuse addresses.
- `Inventory::SetSlotItem`, `HasItemBySlot`, item lists for the client; `QuickSlotManager::RemoveSlot`.
- The `type` string of drop results and of drops on the ground, which is only copied.
- `PacketParser::Parse`, which nothing in the reassembly path calls, and the integer and float fields built on the string field.
- The table of sessions by file descriptor: receiving and sending are modelled for one session; a failing `epoll_ctl` is not modelled.
- Skill cooldowns, potions, player health and contact immunity, map occupancy and the destroy request: each is a guard and an assignment.
- `IntersectArc2D` and the skill damage formula, which need square roots, cosines and float rounding; the arc test is a parameter of target selection.
- The rules of monster movement and chasing (a monster may be moved anywhere), projectiles; broadcasting; `HandleAttack` beyond target selection and damage.
- The clock is read once per call; the code reads it twice per spawned drop.
- Integer overflow of counts, weights, experience and ids.
- TradeCommit.MoveOneCommitsIff: slot positions are unbounded in the model; `slot_pos` is a smallint, so a trade can also fail when MAX + 1 leaves its range.
- Liveness: wake-ups of condition variables and progress of the kernel.
