/** When a trade commits, in terms of what the two players held before it. */
module TradeCommit {
  import opened InventoryTable
  import opened TradeSwap

  ghost predicate NoFaults(f: Faults) {
    forall n: nat :: f(n) == NoFault
  }

  predicate HasRow(t: Table, c: int, i: int) {
    RowsOf(t, c, i) != {}
  }

  // ------------------------------------------------------------------ positive amounts

  /** c can pay the summed offer of every item on the list. */
  ghost predicate CanPay(t: Table, c: int, items: seq<TradeItem>) {
    forall x :: x in items ==> Held(t, iset{c}, x.itemId) >= Offered(items, x.itemId)
  }

  lemma DecreaseCommitsIff(t: Table, f: Faults, n: nat, c: int, item: TradeItem)
    requires OneRowPerItem(t) && NoFaults(f)
    ensures DecreaseItem(t, f, n, c, item).ok
       <==> item.amount != 0 && HasRow(t, c, item.itemId) && Held(t, iset{c}, item.itemId) >= item.amount
  {
    var i := item.itemId;
    if HasRow(t, c, i) {
      var k :| k in RowsOf(t, c, i);
      HeldOfOwner(t, c, i, k);
      assert Charged(t, c, i, item.amount) == if t[k].count >= item.amount then {k} else {};
    } else {
      assert forall k :: k in Charged(t, c, i, item.amount) ==> k in RowsOf(t, c, i);
    }
  }

  /** There is always a free slot for an item without a row. */
  lemma IncreaseSucceeds(t: Table, f: Faults, n: nat, c: int, item: TradeItem)
    requires NoFaults(f) && item.amount != 0
    ensures IncreaseItem(t, f, n, c, item).ok
  {
  }

  /** Without faults a round succeeds exactly when the giver has a row that covers the amount,
      and the amount changes it. */
  lemma MoveOneCommitsIff(t: Table, f: Faults, n: nat, giver: int, taker: int, item: TradeItem)
    requires OneRowPerItem(t) && NoFaults(f)
    ensures MoveOne(t, f, n, giver, taker, item).ok
       <==> item.amount != 0 && HasRow(t, giver, item.itemId) && Held(t, iset{giver}, item.itemId) >= item.amount
  {
    DecreaseCommitsIff(t, f, n, giver, item);
    var taken := DecreaseItem(t, f, n, giver, item);
    if taken.ok { IncreaseSucceeds(taken.table, f, taken.next, taker, item); }
  }

  lemma {:induction false} OfferedNonNegative(items: seq<TradeItem>, i: int)
    requires AllPositive(items)
    ensures Offered(items, i) >= 0
    ensures (exists x :: x in items && x.itemId == i) || Offered(items, i) == 0
  {
    if items != [] {
      OfferedNonNegative(items[1..], i);
      assert items[0] in items;
    }
  }

  /** Once the first offer is paid, the whole list was payable iff the rest still is. */
  lemma PayLater(t: Table, u: Table, c: int, items: seq<TradeItem>)
    requires items != [] && AllPositive(items)
    requires Held(t, iset{c}, items[0].itemId) >= items[0].amount
    requires forall j :: Held(u, iset{c}, j) == Held(t, iset{c}, j) - (if items[0].itemId == j then items[0].amount else 0)
    ensures CanPay(t, c, items) <==> CanPay(u, c, items[1..])
  {
    var head, tail := items[0], items[1..];
    assert items == [head] + tail;
    if CanPay(u, c, tail) {
      OfferedNonNegative(tail, head.itemId);
      forall x | x in items ensures Held(t, iset{c}, x.itemId) >= Offered(items, x.itemId) {
        if x !in tail {
          assert x == head;
        }
      }
    }
  }

  lemma {:induction false} MoveAllCommitsIff(t: Table, f: Faults, n: nat, giver: int, taker: int, items: seq<TradeItem>)
    requires OneRowPerItem(t) && NoFaults(f) && giver != taker && AllPositive(items)
    ensures MoveAll(t, f, n, giver, taker, items).ok <==> CanPay(t, giver, items)
    decreases |items|
  {
    if items != [] {
      var head := items[0];
      MoveOneCommitsIff(t, f, n, giver, taker, head);
      var s := MoveOne(t, f, n, giver, taker, head);
      if s.ok {
        forall j
          ensures Held(s.table, iset{giver}, j)
               == Held(t, iset{giver}, j) - (if head.itemId == j then head.amount else 0)
        {
          MoveOneEffect(t, f, n, giver, taker, head, iset{giver}, j);
        }
        MoveOneEffect(t, f, n, giver, taker, head, iset{giver}, 0);
        MoveAllCommitsIff(s.table, f, s.next, giver, taker, items[1..]);
        PayLater(t, s.table, giver, items);
      } else {
        assert head in items;
        OfferedNonNegative(items[1..], head.itemId);
        if !HasRow(t, giver, head.itemId) { HeldOfStranger(t, giver, head.itemId); }
      }
    }
  }

  /** b can pay its offer out of what it held plus what a has just handed over. */
  ghost predicate CanPayBack(t: Table, b: int, aItems: seq<TradeItem>, bItems: seq<TradeItem>) {
    forall y :: y in bItems ==>
      Held(t, iset{b}, y.itemId) + Offered(aItems, y.itemId) >= Offered(bItems, y.itemId)
  }

  lemma ExecuteCommitsIffPositive(t: Table, f: Faults, n: nat, a: int, b: int, aItems: seq<TradeItem>,
                                  bItems: seq<TradeItem>)
    requires OneRowPerItem(t) && NoFaults(f) && a != b && AllPositive(aItems) && AllPositive(bItems)
    ensures Execute(t, f, n, a, b, aItems, bItems).ok
       <==> CanPay(t, a, aItems) && CanPayBack(t, b, aItems, bItems)
  {
    MoveAllCommitsIff(t, f, n, a, b, aItems);
    var first := MoveAll(t, f, n, a, b, aItems);
    if first.ok {
      forall j ensures Held(first.table, iset{b}, j) == Held(t, iset{b}, j) + Offered(aItems, j) {
        MoveAllEffect(t, f, n, a, b, aItems, iset{b}, j);
      }
      MoveAllEffect(t, f, n, a, b, aItems, iset{b}, 0);
      MoveAllCommitsIff(first.table, f, first.next, b, a, bItems);
    }
  }

  // ------------------------------------------------------------------ any amounts

  /** The offers can be given one after the other by somebody who at first has rows for the items
      in has and holds the counts held: no amount is zero, and for each offer the row is there,
      no earlier offer has emptied it, and it covers all offers up to this one. */
  ghost predicate CanGive(has: int -> bool, held: int -> int, items: seq<TradeItem>) {
    forall k :: 0 <= k < |items| ==> CanGiveAt(has, held, items, k)
  }

  ghost predicate CanGiveAt(has: int -> bool, held: int -> int, items: seq<TradeItem>, k: nat)
    requires k < |items|
  {
    var i := items[k].itemId;
    && items[k].amount != 0
    && has(i)
    && (forall j :: 0 <= j < k && items[j].itemId == i ==> held(i) != Offered(items[..j + 1], i))
    && held(i) >= Offered(items[..k + 1], i)
  }

  lemma OfferedPrefix(items: seq<TradeItem>, k: nat, i: int)
    requires items != [] && k < |items|
    ensures Offered(items[..k + 1], i)
         == (if items[0].itemId == i then items[0].amount else 0) + Offered(items[1..][..k], i)
  {
    assert items[..k + 1][1..] == items[1..][..k];
  }

  /** What is left to check at a later offer once the first one has been given. */
  lemma GiveAtLater(has: int -> bool, held: int -> int, has': int -> bool, held': int -> int, items: seq<TradeItem>,
                    k: nat)
    requires items != [] && CanGiveAt(has, held, items, 0) && k < |items| - 1
    requires AfterGiving(has, held, has', held', items[0])
    ensures CanGiveAt(has, held, items, k + 1) <==> CanGiveAt(has', held', items[1..], k)
  {
    var tail, i := items[1..], items[k + 1].itemId;
    assert tail[k].itemId == i;
    OfferedPrefix(items, k + 1, i);
    OfferedPrefix(items, 0, i);
    if CanGiveAt(has', held', tail, k) {
      forall j | 0 <= j < k + 1 && items[j].itemId == i ensures held(i) != Offered(items[..j + 1], i) {
        OfferedPrefix(items, j, i);
        if j > 0 { assert tail[j - 1].itemId == i; }
      }
    }
    if CanGiveAt(has, held, items, k + 1) {
      forall j | 0 <= j < k && tail[j].itemId == i ensures held'(i) != Offered(tail[..j + 1], i) {
        assert items[j + 1].itemId == i;
        OfferedPrefix(items, j + 1, i);
      }
    }
  }

  /** Rows and holdings of somebody who has just given item: an emptied row is gone. */
  ghost predicate AfterGiving(has: int -> bool, held: int -> int, has': int -> bool, held': int -> int,
                              item: TradeItem) {
    forall i :: held'(i) == held(i) - (if item.itemId == i then item.amount else 0)
             && (has'(i) <==> if item.itemId == i then held'(i) != 0 else has(i))
  }

  lemma GiveLater(has: int -> bool, held: int -> int, has': int -> bool, held': int -> int, items: seq<TradeItem>)
    requires items != [] && CanGiveAt(has, held, items, 0)
    requires AfterGiving(has, held, has', held', items[0])
    ensures CanGive(has, held, items) <==> CanGive(has', held', items[1..])
  {
    forall k | 0 <= k < |items| - 1
      ensures CanGiveAt(has, held, items, k + 1) <==> CanGiveAt(has', held', items[1..], k)
    {
      GiveAtLater(has, held, has', held', items, k);
    }
    if CanGive(has', held', items[1..]) {
      forall k | 0 <= k < |items| ensures CanGiveAt(has, held, items, k) {
        if k > 0 { assert CanGiveAt(has', held', items[1..], k - 1); }
      }
    }
    if CanGive(has, held, items) {
      forall k | 0 <= k < |items| - 1 ensures CanGiveAt(has', held', items[1..], k) {
        assert CanGiveAt(has, held, items, k + 1);
      }
    }
  }

  /** Giving an item leaves its row unless that empties it. */
  lemma DecreaseRows(t: Table, f: Faults, n: nat, c: int, item: TradeItem, i: int)
    requires OneRowPerItem(t) && DecreaseItem(t, f, n, c, item).ok
    ensures var u := DecreaseItem(t, f, n, c, item).table;
      HasRow(u, c, i) <==> if i == item.itemId then Held(u, iset{c}, i) != 0 else HasRow(t, c, i)
  {
    var u := DecreaseItem(t, f, n, c, item).table;
    DecreaseKeepsOneRow(t, f, n, c, item);
    if i != item.itemId {
      assert forall k :: k in RowsOf(u, c, i) <==> k in RowsOf(t, c, i);
    } else if HasRow(u, c, i) {
      var k :| k in RowsOf(u, c, i);
      HeldOfOwner(u, c, i, k);
    } else {
      HeldOfStranger(u, c, i);
    }
  }

  /** Item i is on offer, in whatever amount. */
  predicate Mentions(items: seq<TradeItem>, i: int) {
    exists x :: x in items && x.itemId == i
  }

  lemma IncreaseRows(t: Table, f: Faults, n: nat, c: int, item: TradeItem, d: int, i: int)
    requires IncreaseItem(t, f, n, c, item).ok
    ensures HasRow(IncreaseItem(t, f, n, c, item).table, d, i) <==> HasRow(t, d, i) || (d == c && i == item.itemId)
  {
    var u := IncreaseItem(t, f, n, c, item).table;
    if HasRow(t, d, i) {
      var k :| k in RowsOf(t, d, i);
      assert k in RowsOf(u, d, i);
    } else if d == c && i == item.itemId {
      assert Key(c, item.invType, IncreaseItem(t, f, n, c, item).item.slotIndex) in RowsOf(u, d, i);
    } else {
      assert forall k :: k in RowsOf(u, d, i) ==> k in RowsOf(t, d, i);
    }
  }

  /** The rows of the two parties after a successful round. */
  lemma MoveOneRows(t: Table, f: Faults, n: nat, giver: int, taker: int, item: TradeItem, i: int)
    requires OneRowPerItem(t) && giver != taker && MoveOne(t, f, n, giver, taker, item).ok
    ensures var u := MoveOne(t, f, n, giver, taker, item).table;
      && (HasRow(u, giver, i) <==> if i == item.itemId then Held(u, iset{giver}, i) != 0 else HasRow(t, giver, i))
      && (HasRow(u, taker, i) <==> HasRow(t, taker, i) || i == item.itemId)
  {
    var taken := DecreaseItem(t, f, n, giver, item);
    DecreaseRows(t, f, n, giver, item, i);
    DecreaseOthersRows(t, f, n, giver, item, taker, i);
    IncreaseRows(taken.table, f, taken.next, taker, item, giver, i);
    IncreaseRows(taken.table, f, taken.next, taker, item, taker, i);
    IncreaseEffect(taken.table, f, taken.next, taker, item, iset{giver}, i);
  }

  ghost function Rows(t: Table, c: int): int -> bool {
    i => HasRow(t, c, i)
  }

  ghost function Counts(t: Table, c: int): int -> int {
    i => Held(t, iset{c}, i)
  }

  lemma {:induction false} MoveAllCommitsIffGivable(t: Table, f: Faults, n: nat, giver: int, taker: int,
                                                    items: seq<TradeItem>)
    requires OneRowPerItem(t) && NoFaults(f) && giver != taker
    ensures MoveAll(t, f, n, giver, taker, items).ok <==> CanGive(Rows(t, giver), Counts(t, giver), items)
    decreases |items|
  {
    if items != [] {
      var head := items[0];
      MoveOneCommitsIff(t, f, n, giver, taker, head);
      OfferedPrefix(items, 0, head.itemId);
      var s := MoveOne(t, f, n, giver, taker, head);
      assert s.ok <==> CanGiveAt(Rows(t, giver), Counts(t, giver), items, 0);
      if s.ok {
        MoveOneEffect(t, f, n, giver, taker, head, iset{giver}, 0);
        forall i
          ensures Held(s.table, iset{giver}, i) == Held(t, iset{giver}, i) - (if head.itemId == i then head.amount else 0)
          ensures HasRow(s.table, giver, i)
             <==> if head.itemId == i then Held(s.table, iset{giver}, i) != 0 else HasRow(t, giver, i)
        {
          MoveOneEffect(t, f, n, giver, taker, head, iset{giver}, i);
          MoveOneRows(t, f, n, giver, taker, head, i);
        }
        GiveLater(Rows(t, giver), Counts(t, giver), Rows(s.table, giver), Counts(s.table, giver), items);
        MoveAllCommitsIffGivable(s.table, f, s.next, giver, taker, items[1..]);
      }
    }
  }

  lemma {:induction false} MoveAllRows(t: Table, f: Faults, n: nat, giver: int, taker: int, items: seq<TradeItem>,
                                       i: int)
    requires OneRowPerItem(t) && giver != taker && MoveAll(t, f, n, giver, taker, items).ok
    ensures HasRow(MoveAll(t, f, n, giver, taker, items).table, taker, i) <==> HasRow(t, taker, i) || Mentions(items, i)
    decreases |items|
  {
    if items != [] {
      var s := MoveOne(t, f, n, giver, taker, items[0]);
      MoveOneEffect(t, f, n, giver, taker, items[0], iset{giver}, i);
      MoveOneRows(t, f, n, giver, taker, items[0], i);
      MoveAllRows(s.table, f, s.next, giver, taker, items[1..], i);
      assert items == [items[0]] + items[1..];
    }
  }

  /** What b has when its turn comes: its own items and those a has just handed over. */
  ghost function RowsBack(t: Table, b: int, aItems: seq<TradeItem>): int -> bool {
    i => HasRow(t, b, i) || Mentions(aItems, i)
  }

  ghost function CountsBack(t: Table, b: int, aItems: seq<TradeItem>): int -> int {
    i => Held(t, iset{b}, i) + Offered(aItems, i)
  }

  lemma SameGiving(has: int -> bool, held: int -> int, has': int -> bool, held': int -> int, items: seq<TradeItem>)
    requires forall i :: has(i) == has'(i) && held(i) == held'(i)
    ensures CanGive(has, held, items) <==> CanGive(has', held', items)
  {
    assert forall k :: 0 <= k < |items| ==> (CanGiveAt(has, held, items, k) <==> CanGiveAt(has', held', items, k));
  }

  /** The exact condition for offers of any amounts, zero and negative ones included. */
  lemma ExecuteCommitsIff(t: Table, f: Faults, n: nat, a: int, b: int, aItems: seq<TradeItem>, bItems: seq<TradeItem>)
    requires OneRowPerItem(t) && NoFaults(f) && a != b
    ensures Execute(t, f, n, a, b, aItems, bItems).ok
       <==> CanGive(Rows(t, a), Counts(t, a), aItems) && CanGive(RowsBack(t, b, aItems), CountsBack(t, b, aItems), bItems)
  {
    MoveAllCommitsIffGivable(t, f, n, a, b, aItems);
    var first := MoveAll(t, f, n, a, b, aItems);
    if first.ok {
      MoveAllEffect(t, f, n, a, b, aItems, iset{b}, 0);
      forall i
        ensures Held(first.table, iset{b}, i) == Held(t, iset{b}, i) + Offered(aItems, i)
        ensures HasRow(first.table, b, i) == (HasRow(t, b, i) || Mentions(aItems, i))
      {
        MoveAllEffect(t, f, n, a, b, aItems, iset{b}, i);
        MoveAllRows(t, f, n, a, b, aItems, i);
      }
      MoveAllCommitsIffGivable(first.table, f, first.next, b, a, bItems);
      SameGiving(Rows(first.table, b), Counts(first.table, b), RowsBack(t, b, aItems), CountsBack(t, b, aItems), bItems);
    }
  }
}
