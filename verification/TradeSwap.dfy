/** TradeService::Execute: the item swap that runs inside one database transaction.
    The functions give each call's meaning on table values; the class Connection of module
    TradeDatabase runs the same steps statement by statement on mutable state. */
module TradeSwap {
  import opened Prelude
  import opened InventoryTable

  /** An uploaded offer. A size_t amount reaches SQL as an int, so any sign is possible. */
  datatype TradeItem = TradeItem(itemId: int, invType: int, amount: int, slotIndex: int)

  /** What the database does with the n-th statement of a session. FetchError can only
      happen to a SELECT: the statement runs but reading its result fails. */
  datatype Fault = NoFault | StatementError | FetchError
  type Faults = nat -> Fault

  /** Result of one helper call; next numbers the statement that would come after it. */
  datatype Step = Step(ok: bool, table: Table, next: nat, item: TradeItem)

  /** Result of moving a list of offers. */
  datatype Batch = Batch(ok: bool, table: Table, next: nat, items: seq<TradeItem>)

  /** Result of Execute. */
  datatype Swap = Swap(ok: bool, table: Table, next: nat, aItems: seq<TradeItem>, bItems: seq<TradeItem>)

  function DecreaseItem(t: Table, f: Faults, n: nat, c: int, item: TradeItem): Step {
    if f(n).StatementError? || !SubtractAffects(t, c, item.itemId, item.amount) then
      Step(false, t, n + 1, item)
    else
      var t1 := SubtractCount(t, c, item.itemId, item.amount);
      if f(n + 1).StatementError? then Step(false, t1, n + 2, item)
      else Step(true, RemoveEmpty(t1, c, item.itemId), n + 2, item)
  }

  function IncreaseItem(t: Table, f: Faults, n: nat, c: int, item: TradeItem): Step {
    if !f(n).NoFault? then
      Step(false, t, n + 1, item)
    else if RowsOf(t, c, item.itemId) != {} then
      if f(n + 1).StatementError? || !AddAffects(t, c, item.itemId, item.amount) then
        Step(false, t, n + 2, item)
      else
        Step(true, AddCount(t, c, item.itemId, item.amount), n + 2, item)
    else if f(n + 1).StatementError? then
      Step(false, t, n + 2, item)
    else
      // A failed fetch is reported as success and leaves the caller's slot 0 in place.
      var slot := if f(n + 1).FetchError? then 0 else NextSlot(t, c, item.invType);
      var key := Key(c, item.invType, slot);
      if f(n + 2).StatementError? || key in t then
        Step(false, t, n + 3, item)
      else
        Step(true, t[key := Row(item.itemId, item.amount)], n + 3, item.(slotIndex := slot))
  }

  /** One round of either loop: take the offer from the giver, hand it to the taker. */
  function MoveOne(t: Table, f: Faults, n: nat, giver: int, taker: int, item: TradeItem): Step {
    var taken := DecreaseItem(t, f, n, giver, item);
    if !taken.ok then taken else IncreaseItem(taken.table, f, taken.next, taker, item)
  }

  function MoveAll(t: Table, f: Faults, n: nat, giver: int, taker: int, items: seq<TradeItem>): (r: Batch)
    ensures |r.items| == |items|
    decreases |items|
  {
    if items == [] then Batch(true, t, n, [])
    else
      var s := MoveOne(t, f, n, giver, taker, items[0]);
      if !s.ok then Batch(false, s.table, s.next, [s.item] + items[1..])
      else
        var rest := MoveAll(s.table, f, s.next, giver, taker, items[1..]);
        Batch(rest.ok, rest.table, rest.next, [s.item] + rest.items)
  }

  function Execute(t: Table, f: Faults, n: nat, a: int, b: int,
                   aItems: seq<TradeItem>, bItems: seq<TradeItem>): (r: Swap)
    ensures !r.ok ==> r.table == t
  {
    var first := MoveAll(t, f, n, a, b, aItems);
    if !first.ok then Swap(false, t, first.next, first.items, bItems)
    else
      var second := MoveAll(first.table, f, first.next, b, a, bItems);
      Swap(second.ok, if second.ok then second.table else t, second.next, first.items, second.items)
  }

  // ------------------------------------------------------------------ one call, any table

  /** The amount of item i that changes hands when the items are moved. */
  ghost function Offered(items: seq<TradeItem>, i: int): int {
    if items == [] then 0
    else (if items[0].itemId == i then items[0].amount else 0) + Offered(items[1..], i)
  }

  /** The rows in debt that DELETE erases although the preceding UPDATE took nothing from them. */
  function Erased(t: Table, c: int, i: int, n: int): Table {
    map k | k in t && Matches(k, t[k], c, i) && t[k].count < n && t[k].count <= 0 :: t[k]
  }

  /** What those rows hold together: zero or less. */
  ghost function Debt(t: Table, c: int, i: int, n: int): int {
    Held(Erased(t, c, i, n), iset{c}, i)
  }

  lemma SubtractEffect(t: Table, c: int, i: int, n: int, who: iset<int>, j: int)
    ensures Held(SubtractCount(t, c, i, n), who, j)
         == Held(t, who, j) - (if c in who && i == j then n * |Charged(t, c, i, n)| else 0)
  {
    var S := if c in who && i == j then Charged(t, c, i, n) else {};
    HeldShift(t, SubtractCount(t, c, i, n), who, j, S, -n);
    Negate(n, |S|);
  }

  lemma Negate(n: int, size: int)
    ensures (-n) * size == -(n * size)
  {
  }

  lemma AddEffect(t: Table, c: int, i: int, n: int, who: iset<int>, j: int)
    ensures Held(AddCount(t, c, i, n), who, j)
         == Held(t, who, j) + (if c in who && i == j then n * |RowsOf(t, c, i)| else 0)
  {
    var S := if c in who && i == j then RowsOf(t, c, i) else {};
    HeldShift(t, AddCount(t, c, i, n), who, j, S, n);
  }

  /** DELETE drops the rows that UPDATE has just emptied, and the erased debts. */
  lemma RemoveEffect(t: Table, c: int, i: int, n: int, who: iset<int>, j: int)
    ensures Held(RemoveEmpty(SubtractCount(t, c, i, n), c, i), who, j)
         == Held(SubtractCount(t, c, i, n), who, j) - (if c in who && i == j then Debt(t, c, i, n) else 0)
  {
    var u := SubtractCount(t, c, i, n);
    var dropped := map k | k in u && Matches(k, u[k], c, i) && u[k].count <= 0 :: u[k];
    HeldParts(u, dropped, who, j);
    assert u - dropped.Keys == RemoveEmpty(u, c, i);
    ErasedAreDropped(t, c, i, n, dropped, who, j);
    HeldOfOne(Erased(t, c, i, n), c, i, who, j);
  }

  lemma ErasedAreDropped(t: Table, c: int, i: int, n: int, dropped: Table, who: iset<int>, j: int)
    requires var u := SubtractCount(t, c, i, n);
      dropped == map k | k in u && Matches(k, u[k], c, i) && u[k].count <= 0 :: u[k]
    ensures Held(dropped, who, j) == Held(Erased(t, c, i, n), who, j)
  {
    HeldDrop(dropped, Erased(t, c, i, n), who, j);
  }

  /** A successful DecreaseItem takes the amount once per row that could pay it, and with it
      disappear the debts that it erases. */
  lemma DecreaseEffect(t: Table, f: Faults, n: nat, c: int, item: TradeItem, who: iset<int>, j: int)
    requires DecreaseItem(t, f, n, c, item).ok
    ensures Held(DecreaseItem(t, f, n, c, item).table, who, j) == Held(t, who, j)
         - (if c in who && item.itemId == j then item.amount * |Charged(t, c, j, item.amount)| + Debt(t, c, j, item.amount)
            else 0)
  {
    SubtractEffect(t, c, item.itemId, item.amount, who, j);
    RemoveEffect(t, c, item.itemId, item.amount, who, j);
  }

  /** How many rows IncreaseItem credits: every row of the item, or the one it inserts. */
  ghost function Credited(t: Table, c: int, i: int): nat {
    if RowsOf(t, c, i) == {} then 1 else |RowsOf(t, c, i)|
  }

  lemma IncreaseEffect(t: Table, f: Faults, n: nat, c: int, item: TradeItem, who: iset<int>, j: int)
    requires IncreaseItem(t, f, n, c, item).ok
    ensures Held(IncreaseItem(t, f, n, c, item).table, who, j) == Held(t, who, j)
         + (if c in who && item.itemId == j then item.amount * Credited(t, c, j) else 0)
  {
    if RowsOf(t, c, item.itemId) != {} {
      AddEffect(t, c, item.itemId, item.amount, who, j);
    } else {
      var slot := if f(n + 1).FetchError? then 0 else NextSlot(t, c, item.invType);
      HeldInsert(t, Key(c, item.invType, slot), Row(item.itemId, item.amount), who, j);
    }
  }

  /** The slot index handed back is where the new row is. */
  lemma InsertedWhereReported(t: Table, f: Faults, n: nat, c: int, item: TradeItem)
    requires IncreaseItem(t, f, n, c, item).ok
    ensures var r := IncreaseItem(t, f, n, c, item); var key := Key(c, item.invType, r.item.slotIndex);
      if RowsOf(t, c, item.itemId) == {} then key !in t && r.table == t[key := Row(item.itemId, item.amount)]
      else r.item == item && r.table.Keys == t.Keys
  {
  }

  /** A failed fetch of the next slot is reported as success with slot 0. For an item without a
      row the increase then succeeds exactly if key 0 happens to be free. */
  lemma FetchErrorInsertsIff(t: Table, f: Faults, n: nat, c: int, item: TradeItem)
    requires RowsOf(t, c, item.itemId) == {} && f(n).NoFault?
    requires !f(n + 1).StatementError? && !f(n + 2).StatementError?
    ensures IncreaseItem(t, f, n, c, item).ok <==> f(n + 1).NoFault? || Key(c, item.invType, 0) !in t
  {
  }

  /** And the new row lies above every slot in use, as MAX(slot_pos) + 1 should make it, exactly
      if the fetch worked or all slots in use are negative. */
  lemma InsertedOnTopIff(t: Table, f: Faults, n: nat, c: int, item: TradeItem)
    requires RowsOf(t, c, item.itemId) == {} && IncreaseItem(t, f, n, c, item).ok
    ensures (forall k :: k in InventoryOf(t, c, item.invType) ==> k.slot < IncreaseItem(t, f, n, c, item).item.slotIndex)
       <==> f(n + 1).NoFault? || (forall k :: k in InventoryOf(t, c, item.invType) ==> k.slot < 0)
  {
  }

  /** Slot 0 is taken: a swap that only had to open slot 1 fails. */
  lemma FetchErrorFailsSwap() returns (t: Table, f: Faults, item: TradeItem)
    ensures forall n :: !f(n).StatementError?
    ensures !IncreaseItem(t, f, 0, 2, item).ok && IncreaseItem(t, _ => NoFault, 0, 2, item).ok
  {
    t := map[Key(2, 0, 0) := Row(5, 1)];
    f := n => if n == 1 then FetchError else NoFault;
    item := TradeItem(7, 0, 1, 0);
    FetchErrorInsertsIff(t, f, 0, 2, item);
    FetchErrorInsertsIff(t, _ => NoFault, 0, 2, item);
  }

  /** Nothing outside the rows of one character and one item changes. */
  ghost predicate OnlyTouches(t: Table, u: Table, c: int, i: int) {
    && (forall k :: k in u && !Matches(k, u[k], c, i) ==> k in t && u[k] == t[k])
    && (forall k :: k in t && !Matches(k, t[k], c, i) ==> k in u && u[k] == t[k])
  }

  lemma DecreaseFrame(t: Table, f: Faults, n: nat, c: int, item: TradeItem)
    ensures OnlyTouches(t, DecreaseItem(t, f, n, c, item).table, c, item.itemId)
  {
  }

  lemma IncreaseFrame(t: Table, f: Faults, n: nat, c: int, item: TradeItem)
    ensures OnlyTouches(t, IncreaseItem(t, f, n, c, item).table, c, item.itemId)
  {
  }

  lemma DecreaseOthersRows(t: Table, f: Faults, n: nat, c: int, item: TradeItem, d: int, i: int)
    requires c != d
    ensures RowsOf(DecreaseItem(t, f, n, c, item).table, d, i) == RowsOf(t, d, i)
  {
    DecreaseFrame(t, f, n, c, item);
    var u := DecreaseItem(t, f, n, c, item).table;
    assert forall k :: k in RowsOf(u, d, i) <==> k in RowsOf(t, d, i);
  }

  /** The UPDATEs hit every row of the item and DELETE erases debts, so one transfer between
      different characters conserves the item exactly when what is taken and erased is what is
      credited. */
  lemma TransferConservesIff(t: Table, f: Faults, n: nat, giver: int, taker: int, item: TradeItem)
    requires giver != taker
    requires MoveOne(t, f, n, giver, taker, item).ok
    ensures Held(MoveOne(t, f, n, giver, taker, item).table, iset{giver, taker}, item.itemId)
         == Held(t, iset{giver, taker}, item.itemId)
         <==> item.amount * |Charged(t, giver, item.itemId, item.amount)| + Debt(t, giver, item.itemId, item.amount)
              == item.amount * Credited(t, taker, item.itemId)
  {
    var i, both := item.itemId, iset{giver, taker};
    var taken := DecreaseItem(t, f, n, giver, item);
    hide Held, IncreaseItem;
    DecreaseEffect(t, f, n, giver, item, both, i);
    IncreaseEffect(taken.table, f, taken.next, taker, item, both, i);
    DecreaseOthersRows(t, f, n, giver, item, taker, i);
  }

  /** Where no debt is erased only the numbers of rows count. */
  lemma TransferConservesByRows(t: Table, f: Faults, n: nat, giver: int, taker: int, item: TradeItem)
    requires giver != taker && Erased(t, giver, item.itemId, item.amount) == map[]
    requires MoveOne(t, f, n, giver, taker, item).ok
    ensures Held(MoveOne(t, f, n, giver, taker, item).table, iset{giver, taker}, item.itemId)
         == Held(t, iset{giver, taker}, item.itemId)
         <==> |Charged(t, giver, item.itemId, item.amount)| == Credited(t, taker, item.itemId)
  {
    TransferConservesIff(t, f, n, giver, taker, item);
    SameProduct(item.amount, |Charged(t, giver, item.itemId, item.amount)|, Credited(t, taker, item.itemId));
    assert Debt(t, giver, item.itemId, item.amount) == 0;
    hide Held, MoveOne;
  }

  lemma SameProduct(n: int, x: int, y: int)
    requires n != 0
    ensures n * x == n * y <==> x == y
  {
    if x < y || y < x { assert n * x - n * y == n * (x - y); }
  }

  /** Two stacks on the taker's side: giving 1 away creates 1 out of nothing. */
  lemma TwoStacksDuplicate() returns (t: Table, item: TradeItem)
    ensures PositiveCounts(t) && !OneRowPerItem(t)
    ensures MoveOne(t, _ => NoFault, 0, 1, 2, item).ok
    ensures Held(MoveOne(t, _ => NoFault, 0, 1, 2, item).table, iset{1, 2}, item.itemId)
         != Held(t, iset{1, 2}, item.itemId)
  {
    var pay, one, two := Key(1, 0, 0), Key(2, 0, 0), Key(2, 0, 1);
    t := map[pay := Row(7, 5), one := Row(7, 3), two := Row(7, 3)];
    item := TradeItem(7, 0, 1, 0);
    assert Charged(t, 1, 7, 1) == {pay};
    assert RowsOf(t, 2, 7) == {one, two};
    var taken := DecreaseItem(t, _ => NoFault, 0, 1, item);
    assert RowsOf(taken.table, 2, 7) == {one, two};
    assert Erased(t, 1, 7, 1) == map[];
    TransferConservesByRows(t, _ => NoFault, 0, 1, 2, item);
    assert one in t && two in t && t[one].itemId == t[two].itemId;
  }

  /** A row in debt on the giver's side: one row is charged and one is credited, and still the
      total changes, because the debt is erased. */
  lemma DebtIsErased() returns (t: Table, item: TradeItem)
    ensures MoveOne(t, _ => NoFault, 0, 1, 2, item).ok
    ensures |Charged(t, 1, item.itemId, item.amount)| == Credited(t, 2, item.itemId) == 1
    ensures Held(MoveOne(t, _ => NoFault, 0, 1, 2, item).table, iset{1, 2}, item.itemId)
         != Held(t, iset{1, 2}, item.itemId)
  {
    var pay, debt, row := Key(1, 0, 0), Key(1, 0, 1), Key(2, 0, 0);
    t := map[pay := Row(7, 10), debt := Row(7, -2), row := Row(7, 3)];
    item := TradeItem(7, 0, 1, 0);
    assert Charged(t, 1, 7, 1) == {pay};
    assert RowsOf(t, 2, 7) == {row};
    DecreaseOthersRows(t, _ => NoFault, 0, 1, item, 2, 7);
    var erased: Table := map[debt := Row(7, -2)];
    assert Erased(t, 1, 7, 1) == erased;
    HeldInsert(map[], debt, Row(7, -2), iset{1}, 7);
    TransferConservesIff(t, _ => NoFault, 0, 1, 2, item);
  }

  // ------------------------------------------------------------------ one row per item

  lemma OneRowMeansOneCharged(t: Table, c: int, i: int, n: int)
    requires OneRowPerItem(t) && Charged(t, c, i, n) != {}
    ensures Erased(t, c, i, n) == map[] && |Charged(t, c, i, n)| == 1
  {
    var k :| k in Charged(t, c, i, n);
    assert Charged(t, c, i, n) == {k};
    assert forall l :: l in Erased(t, c, i, n) ==> l == k;
  }

  lemma OneRowMeansOneCredited(t: Table, c: int, i: int)
    requires OneRowPerItem(t)
    ensures Credited(t, c, i) == 1
  {
    if RowsOf(t, c, i) != {} {
      var k :| k in RowsOf(t, c, i);
      assert RowsOf(t, c, i) == {k};
    }
  }

  lemma DecreaseKeepsOneRow(t: Table, f: Faults, n: nat, c: int, item: TradeItem)
    requires OneRowPerItem(t)
    ensures OneRowPerItem(DecreaseItem(t, f, n, c, item).table)
  {
  }

  lemma IncreaseKeepsOneRow(t: Table, f: Faults, n: nat, c: int, item: TradeItem)
    requires OneRowPerItem(t)
    ensures OneRowPerItem(IncreaseItem(t, f, n, c, item).table)
  {
    if RowsOf(t, c, item.itemId) == {} {
      forall k | k in t ensures !Matches(k, t[k], c, item.itemId) {
        assert k !in RowsOf(t, c, item.itemId);
      }
    }
  }

  lemma DecreaseKeepsPositive(t: Table, f: Faults, n: nat, c: int, item: TradeItem)
    requires PositiveCounts(t)
    requires DecreaseItem(t, f, n, c, item).ok
    ensures PositiveCounts(DecreaseItem(t, f, n, c, item).table)
  {
  }

  lemma IncreaseKeepsPositive(t: Table, f: Faults, n: nat, c: int, item: TradeItem)
    requires PositiveCounts(t) && item.amount > 0
    ensures PositiveCounts(IncreaseItem(t, f, n, c, item).table)
  {
  }

  /** What giver loses and taker wins, as seen by a group of characters. */
  ghost function Flow(giver: int, taker: int, who: iset<int>, n: int): int {
    (if taker in who then n else 0) - (if giver in who then n else 0)
  }

  lemma MoveOneEffect(t: Table, f: Faults, n: nat, giver: int, taker: int, item: TradeItem, who: iset<int>, j: int)
    requires OneRowPerItem(t) && MoveOne(t, f, n, giver, taker, item).ok
    ensures OneRowPerItem(MoveOne(t, f, n, giver, taker, item).table)
    ensures Held(MoveOne(t, f, n, giver, taker, item).table, who, j)
         == Held(t, who, j) + Flow(giver, taker, who, if item.itemId == j then item.amount else 0)
  {
    var taken := DecreaseItem(t, f, n, giver, item);
    OneRowMeansOneCharged(t, giver, item.itemId, item.amount);
    DecreaseKeepsOneRow(t, f, n, giver, item);
    DecreaseEffect(t, f, n, giver, item, who, j);
    OneRowMeansOneCredited(taken.table, taker, item.itemId);
    IncreaseKeepsOneRow(taken.table, f, taken.next, taker, item);
    IncreaseEffect(taken.table, f, taken.next, taker, item, who, j);
  }

  lemma {:induction false} MoveAllEffect(t: Table, f: Faults, n: nat, giver: int, taker: int,
                                         items: seq<TradeItem>, who: iset<int>, j: int)
    requires OneRowPerItem(t) && MoveAll(t, f, n, giver, taker, items).ok
    ensures OneRowPerItem(MoveAll(t, f, n, giver, taker, items).table)
    ensures Held(MoveAll(t, f, n, giver, taker, items).table, who, j)
         == Held(t, who, j) + Flow(giver, taker, who, Offered(items, j))
    decreases |items|
  {
    if items != [] {
      var s := MoveOne(t, f, n, giver, taker, items[0]);
      MoveOneEffect(t, f, n, giver, taker, items[0], who, j);
      MoveAllEffect(s.table, f, s.next, giver, taker, items[1..], who, j);
    }
  }

  /** The exact net effect of a committed trade, on any group of characters and any item: with
      who == {a} it is a's holding, with who == {a, b} the two-party total, and with everybody
      the whole supply. It holds whatever sign the amounts have, under any fault plan, and for
      a trade with oneself. */
  lemma ExecuteNetEffect(t: Table, f: Faults, n: nat, a: int, b: int,
                         aItems: seq<TradeItem>, bItems: seq<TradeItem>, who: iset<int>, j: int)
    requires OneRowPerItem(t) && Execute(t, f, n, a, b, aItems, bItems).ok
    ensures OneRowPerItem(Execute(t, f, n, a, b, aItems, bItems).table)
    ensures Held(Execute(t, f, n, a, b, aItems, bItems).table, who, j) == Held(t, who, j)
         + (if a in who then Offered(bItems, j) - Offered(aItems, j) else 0)
         + (if b in who then Offered(aItems, j) - Offered(bItems, j) else 0)
  {
    var first := MoveAll(t, f, n, a, b, aItems);
    MoveAllEffect(t, f, n, a, b, aItems, who, j);
    MoveAllEffect(first.table, f, first.next, b, a, bItems, who, j);
  }

  /** Rows of everybody else are the same before and after. */
  ghost predicate OthersUnchanged(t: Table, u: Table, a: int, b: int) {
    forall k: Key :: k.charId != a && k.charId != b ==> (k in t <==> k in u) && (k in t ==> t[k] == u[k])
  }

  lemma {:induction false} MoveAllFrame(t: Table, f: Faults, n: nat, giver: int, taker: int, items: seq<TradeItem>)
    ensures OthersUnchanged(t, MoveAll(t, f, n, giver, taker, items).table, giver, taker)
    decreases |items|
  {
    if items != [] {
      var taken := DecreaseItem(t, f, n, giver, items[0]);
      DecreaseFrame(t, f, n, giver, items[0]);
      IncreaseFrame(taken.table, f, taken.next, taker, items[0]);
      var s := MoveOne(t, f, n, giver, taker, items[0]);
      assert OthersUnchanged(t, s.table, giver, taker);
      MoveAllFrame(s.table, f, s.next, giver, taker, items[1..]);
    }
  }

  lemma ExecuteFrame(t: Table, f: Faults, n: nat, a: int, b: int, aItems: seq<TradeItem>, bItems: seq<TradeItem>)
    ensures OthersUnchanged(t, Execute(t, f, n, a, b, aItems, bItems).table, a, b)
  {
    var first := MoveAll(t, f, n, a, b, aItems);
    MoveAllFrame(t, f, n, a, b, aItems);
    MoveAllFrame(first.table, f, first.next, b, a, bItems);
  }

  ghost predicate AllPositive(items: seq<TradeItem>) {
    forall x :: x in items ==> x.amount > 0
  }

  lemma {:induction false} MoveAllKeepsPositive(t: Table, f: Faults, n: nat, giver: int, taker: int,
                                                items: seq<TradeItem>)
    requires PositiveCounts(t) && AllPositive(items) && MoveAll(t, f, n, giver, taker, items).ok
    ensures PositiveCounts(MoveAll(t, f, n, giver, taker, items).table)
    decreases |items|
  {
    if items != [] {
      var taken := DecreaseItem(t, f, n, giver, items[0]);
      DecreaseKeepsPositive(t, f, n, giver, items[0]);
      IncreaseKeepsPositive(taken.table, f, taken.next, taker, items[0]);
      var s := MoveOne(t, f, n, giver, taker, items[0]);
      MoveAllKeepsPositive(s.table, f, s.next, giver, taker, items[1..]);
    }
  }

  lemma ExecuteKeepsPositive(t: Table, f: Faults, n: nat, a: int, b: int, aItems: seq<TradeItem>,
                             bItems: seq<TradeItem>)
    requires PositiveCounts(t) && AllPositive(aItems) && AllPositive(bItems)
    ensures PositiveCounts(Execute(t, f, n, a, b, aItems, bItems).table)
  {
    var first := MoveAll(t, f, n, a, b, aItems);
    if Execute(t, f, n, a, b, aItems, bItems).ok {
      MoveAllKeepsPositive(t, f, n, a, b, aItems);
      MoveAllKeepsPositive(first.table, f, first.next, b, a, bItems);
    }
  }

  // ------------------------------------------------------------------ the terms of an offer

  /** An offer without the slot index, the one field a swap may rewrite. */
  function Terms(items: seq<TradeItem>): (r: seq<TradeItem>)
    ensures |r| == |items|
  {
    seq(|items|, k requires 0 <= k < |items| => items[k].(slotIndex := 0))
  }

  lemma TermsConcat(a: seq<TradeItem>, b: seq<TradeItem>)
    ensures Terms(a + b) == Terms(a) + Terms(b)
  {
  }

  lemma MoveOneKeepsTerms(t: Table, f: Faults, n: nat, giver: int, taker: int, item: TradeItem)
    ensures Terms([MoveOne(t, f, n, giver, taker, item).item]) == Terms([item])
  {
  }

  lemma {:induction false} MoveAllKeepsTerms(t: Table, f: Faults, n: nat, giver: int, taker: int, items: seq<TradeItem>)
    ensures Terms(MoveAll(t, f, n, giver, taker, items).items) == Terms(items)
    decreases |items|
  {
    if items != [] {
      var s := MoveOne(t, f, n, giver, taker, items[0]);
      MoveOneKeepsTerms(t, f, n, giver, taker, items[0]);
      hide MoveOne, Terms;
      MoveAllKeepsTerms(s.table, f, s.next, giver, taker, items[1..]);
      TermsConcat([items[0]], items[1..]);
      assert items == [items[0]] + items[1..];
      if s.ok {
        TermsConcat([s.item], MoveAll(s.table, f, s.next, giver, taker, items[1..]).items);
      } else {
        TermsConcat([s.item], items[1..]);
      }
    }
  }

  lemma {:induction false} OfferedByTerms(items: seq<TradeItem>, i: int)
    ensures Offered(Terms(items), i) == Offered(items, i)
  {
    if items != [] {
      OfferedByTerms(items[1..], i);
      assert Terms(items)[1..] == Terms(items[1..]);
    }
  }
}

/** The connection a trade runs on: statements change the table at once, ROLLBACK puts back
    what START TRANSACTION saw. */
module TradeDatabase {
  import opened InventoryTable
  import opened TradeSwap

  /** An UPDATE with no affected row leaves the table as it was. */
  lemma SubtractNothing(t: Table, c: int, i: int, n: int)
    requires !SubtractAffects(t, c, i, n)
    ensures SubtractCount(t, c, i, n) == t
  {
    forall k | k in t ensures SubtractCount(t, c, i, n)[k] == t[k] {
      assert n == 0 || k !in Charged(t, c, i, n);
    }
  }

  lemma AddNothing(t: Table, c: int, i: int, n: int)
    requires !AddAffects(t, c, i, n)
    ensures AddCount(t, c, i, n) == t
  {
    forall k | k in t ensures AddCount(t, c, i, n)[k] == t[k] {
      assert n == 0 || k !in RowsOf(t, c, i);
    }
  }

  /** The outcome of a loop that has moved done and still has rest to go through. */
  ghost function After(done: seq<TradeItem>, rest: Batch): Batch {
    rest.(items := done + rest.items)
  }

  lemma MoveAllStep(done: seq<TradeItem>, t: Table, f: Faults, n: nat, giver: int, taker: int, items: seq<TradeItem>)
    requires items != []
    ensures var s := MoveOne(t, f, n, giver, taker, items[0]);
      After(done, MoveAll(t, f, n, giver, taker, items))
      == if s.ok then After(done + [s.item], MoveAll(s.table, f, s.next, giver, taker, items[1..]))
         else Batch(false, s.table, s.next, done + [s.item] + items[1..])
  {
    var s := MoveOne(t, f, n, giver, taker, items[0]);
    if s.ok {
      var rest := MoveAll(s.table, f, s.next, giver, taker, items[1..]).items;
      assert done + ([s.item] + rest) == (done + [s.item]) + rest;
    } else {
      assert done + ([s.item] + items[1..]) == done + [s.item] + items[1..];
    }
  }

  class Connection {
    var table: Table
    var saved: Table
    var clock: nat
    const faults: Faults

    constructor (t: Table, f: Faults)
      ensures table == t && saved == t && clock == 0 && faults == f
    {
      table, saved, clock, faults := t, t, 0, f;
    }

    method StartTransaction()
      modifies `saved
      ensures saved == table
    {
      saved := table;
    }

    method Rollback()
      modifies `table
      ensures table == saved
    {
      table := saved;
    }

    method Commit()
      modifies `saved
      ensures saved == table
    {
      saved := table;
    }

    method UpdateCountMinus(c: int, i: int, n: int) returns (rc: int)
      modifies `table, `clock
      ensures clock == old(clock) + 1
      ensures rc == if faults(old(clock)).StatementError? || !SubtractAffects(old(table), c, i, n) then -1 else 0
      ensures table == if rc == 0 then SubtractCount(old(table), c, i, n) else old(table)
    {
      clock := clock + 1;
      if faults(clock - 1).StatementError? { return -1; }
      if !SubtractAffects(table, c, i, n) {
        SubtractNothing(table, c, i, n);
        rc := -1;
      } else {
        rc := 0;
      }
      table := SubtractCount(table, c, i, n);
    }

    method UpdateCountPlus(c: int, i: int, n: int) returns (rc: int)
      modifies `table, `clock
      ensures clock == old(clock) + 1
      ensures rc == if faults(old(clock)).StatementError? || !AddAffects(old(table), c, i, n) then -1 else 0
      ensures table == if rc == 0 then AddCount(old(table), c, i, n) else old(table)
    {
      clock := clock + 1;
      if faults(clock - 1).StatementError? { return -1; }
      if !AddAffects(table, c, i, n) {
        AddNothing(table, c, i, n);
        rc := -1;
      } else {
        rc := 0;
      }
      table := AddCount(table, c, i, n);
    }

    method DeleteEmptyRows(c: int, i: int) returns (rc: int)
      modifies `table, `clock
      ensures clock == old(clock) + 1
      ensures rc == if faults(old(clock)).StatementError? then -1 else 0
      ensures table == if rc == 0 then RemoveEmpty(old(table), c, i) else old(table)
    {
      clock := clock + 1;
      if faults(clock - 1).StatementError? { return -1; }
      table := RemoveEmpty(table, c, i);
      return 0;
    }

    method SelectItem(c: int, i: int) returns (rc: int, hasItem: bool)
      modifies `clock
      ensures clock == old(clock) + 1
      ensures rc == if faults(old(clock)).NoFault? then 0 else -1
      ensures rc == 0 ==> (hasItem <==> RowsOf(table, c, i) != {})
    {
      clock := clock + 1;
      hasItem := RowsOf(table, c, i) != {};
      rc := if faults(clock - 1).NoFault? then 0 else -1;
    }

    method SelectNextSlot(c: int, ty: int, slot: int) returns (rc: int, slot': int)
      modifies `clock
      ensures clock == old(clock) + 1
      ensures rc == if faults(old(clock)).StatementError? then -1 else 0
      ensures rc == 0 ==> slot' == if faults(old(clock)).FetchError? then slot else NextSlot(table, c, ty)
    {
      clock := clock + 1;
      rc, slot' := 0, slot;
      match faults(clock - 1)
      case StatementError => rc := -1;
      case FetchError =>
      case NoFault => slot' := NextSlot(table, c, ty);
    }

    method InsertItem(c: int, ty: int, slot: int, i: int, n: int) returns (rc: int)
      modifies `table, `clock
      ensures clock == old(clock) + 1
      ensures rc == if faults(old(clock)).StatementError? || Key(c, ty, slot) in old(table) then -1 else 0
      ensures table == if rc == 0 then old(table)[Key(c, ty, slot) := Row(i, n)] else old(table)
    {
      clock := clock + 1;
      if faults(clock - 1).StatementError? || Key(c, ty, slot) in table { return -1; }
      table := table[Key(c, ty, slot) := Row(i, n)];
      return 0;
    }

    method Decrease(c: int, item: TradeItem) returns (rc: int)
      modifies `table, `clock
      ensures rc == 0 || rc == -1
      ensures Step(rc == 0, table, clock, item) == DecreaseItem(old(table), faults, old(clock), c, item)
    {
      rc := UpdateCountMinus(c, item.itemId, item.amount);
      if rc != 0 { return -1; }
      rc := DeleteEmptyRows(c, item.itemId);
      if rc != 0 { return -1; }
      return 0;
    }

    method Increase(c: int, item: TradeItem) returns (rc: int, item': TradeItem)
      modifies `table, `clock
      ensures rc == 0 || rc == -1
      ensures Step(rc == 0, table, clock, item') == IncreaseItem(old(table), faults, old(clock), c, item)
    {
      item' := item;
      var hasItem;
      rc, hasItem := SelectItem(c, item.itemId);
      if rc != 0 { return -1, item; }
      if hasItem {
        rc := UpdateCountPlus(c, item.itemId, item.amount);
        if rc != 0 { return -1, item; }
        return 0, item;
      }
      var slot;
      rc, slot := SelectNextSlot(c, item.invType, 0);
      if rc != 0 { return -1, item; }
      rc := InsertItem(c, item.invType, slot, item.itemId, item.amount);
      if rc != 0 { return -1, item; }
      item' := item.(slotIndex := slot);
    }

    /** Either loop of Execute: it stops at the first offer that cannot be moved. */
    method MoveOffers(giver: int, taker: int, items: seq<TradeItem>) returns (rc: int, moved: seq<TradeItem>)
      modifies `table, `clock
      ensures rc == 0 || rc == -1
      ensures Batch(rc == 0, table, clock, moved) == MoveAll(old(table), faults, old(clock), giver, taker, items)
    {
      moved := [];
      for j := 0 to |items|
        invariant |moved| == j
        invariant After(moved, MoveAll(table, faults, clock, giver, taker, items[j..]))
               == MoveAll(old(table), faults, old(clock), giver, taker, items)
      {
        MoveAllStep(moved, table, faults, clock, giver, taker, items[j..]);
        assert items[j..][1..] == items[j + 1..];
        ghost var s := MoveOne(table, faults, clock, giver, taker, items[j]);
        var item := items[j];
        rc := Decrease(giver, item);
        if rc == 0 {
          rc, item := Increase(taker, item);
        }
        assert s == Step(rc == 0, table, clock, item);
        if rc != 0 {
          moved := moved + [item] + items[j + 1..];
          return -1, moved;
        }
        moved := moved + [item];
      }
      rc := 0;
    }

    /** TradeService::Execute. */
    method RunSwap(a: int, b: int, aItems: seq<TradeItem>, bItems: seq<TradeItem>)
      returns (rc: int, aMoved: seq<TradeItem>, bMoved: seq<TradeItem>)
      modifies this
      ensures rc == 0 || rc == -1
      ensures rc != 0 ==> table == old(table)
      ensures Swap(rc == 0, table, clock, aMoved, bMoved)
           == Execute(old(table), faults, old(clock), a, b, aItems, bItems)
    {
      StartTransaction();
      bMoved := bItems;
      rc, aMoved := MoveOffers(a, b, aItems);
      if rc == 0 {
        rc, bMoved := MoveOffers(b, a, bItems);
      }
      if rc != 0 {
        Rollback();
        return -1, aMoved, bMoved;
      }
      Commit();
    }
  }
}
