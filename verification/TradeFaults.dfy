/** What database faults do to a swap: they can only turn a commit into a rollback. */
module TradeFaults {
  import opened Prelude
  import opened InventoryTable
  import opened TradeSwap
  import opened TradeCommit

  /** The two connections behave alike for the statements from n up to end. */
  ghost predicate Agree(f: Faults, g: Faults, n: nat, end: nat) {
    forall k: nat :: n <= k < end ==> f(k) == g(k)
  }

  /** None of the statements from n up to end fails. */
  ghost predicate NoErrors(f: Faults, n: nat, end: nat) {
    forall k: nat :: n <= k < end ==> !f(k).StatementError?
  }

  /** The two statements of a decrease. */
  lemma DecreaseStatements(t: Table, f: Faults, g: Faults, n: nat, c: int, item: TradeItem)
    ensures var r := DecreaseItem(t, f, n, c, item);
      && r.next == (if f(n).StatementError? || !SubtractAffects(t, c, item.itemId, item.amount) then n + 1 else n + 2)
      && (r.ok <==> r.next == n + 2 && NoErrors(f, n, r.next))
      && (Agree(f, g, n, r.next) ==> DecreaseItem(t, g, n, c, item) == r)
  {
    hide SubtractCount, SubtractAffects, RemoveEmpty;
    var r := DecreaseItem(t, f, n, c, item);
    if Agree(f, g, n, r.next) {
      assert f(n) == g(n);
      assert r.next > n + 1 ==> f(n + 1) == g(n + 1);
    }
    if !r.ok && r.next == n + 2 { assert f(n + 1).StatementError?; }
  }

  /** The two or three statements of an increase. */
  lemma IncreaseStatements(t: Table, f: Faults, g: Faults, n: nat, c: int, item: TradeItem)
    ensures var r := IncreaseItem(t, f, n, c, item);
      && r.next == (if !f(n).NoFault? then n + 1
                    else if RowsOf(t, c, item.itemId) != {} || f(n + 1).StatementError? then n + 2 else n + 3)
      && (r.ok ==> NoErrors(f, n, r.next))
      && (Agree(f, g, n, r.next) ==> IncreaseItem(t, g, n, c, item) == r)
  {
    hide RowsOf, AddCount, AddAffects, NextSlot;
    var r := IncreaseItem(t, f, n, c, item);
    if Agree(f, g, n, r.next) {
      assert f(n) == g(n);
      assert r.next > n + 1 ==> f(n + 1) == g(n + 1);
      assert r.next > n + 2 ==> f(n + 2) == g(n + 2);
    }
  }

  /** Without faults an item is credited unless there is a row of it and nothing to add. */
  lemma IncreaseCommitsIff(t: Table, f: Faults, n: nat, c: int, item: TradeItem)
    requires NoFaults(f)
    ensures IncreaseItem(t, f, n, c, item).ok <==> RowsOf(t, c, item.itemId) == {} || item.amount != 0
  {
  }

  lemma MoveOneStatements(t: Table, f: Faults, g: Faults, n: nat, giver: int, taker: int, item: TradeItem)
    ensures var r := MoveOne(t, f, n, giver, taker, item);
      && n < r.next && (r.ok ==> NoErrors(f, n, r.next))
      && (Agree(f, g, n, r.next) ==> MoveOne(t, g, n, giver, taker, item) == r)
  {
    var taken := DecreaseItem(t, f, n, giver, item);
    DecreaseStatements(t, f, g, n, giver, item);
    IncreaseStatements(taken.table, f, g, taken.next, taker, item);
    hide DecreaseItem, IncreaseItem;
  }

  lemma {:induction false} MoveAllStatements(t: Table, f: Faults, g: Faults, n: nat, giver: int, taker: int,
                                             items: seq<TradeItem>)
    ensures var r := MoveAll(t, f, n, giver, taker, items);
      && n <= r.next && (r.ok ==> NoErrors(f, n, r.next))
      && (Agree(f, g, n, r.next) ==> MoveAll(t, g, n, giver, taker, items) == r)
    decreases |items|
  {
    if items != [] {
      var s := MoveOne(t, f, n, giver, taker, items[0]);
      MoveOneStatements(t, f, g, n, giver, taker, items[0]);
      hide MoveOne;
      if s.ok { MoveAllStatements(s.table, f, g, s.next, giver, taker, items[1..]); }
    }
  }

  /** A swap that commits has met no statement error, and what it does depends only on the fate of
      the statements it ran. */
  lemma ExecuteStatements(t: Table, f: Faults, g: Faults, n: nat, a: int, b: int, aItems: seq<TradeItem>,
                          bItems: seq<TradeItem>)
    ensures var r := Execute(t, f, n, a, b, aItems, bItems);
      && n <= r.next && (r.ok ==> NoErrors(f, n, r.next))
      && (Agree(f, g, n, r.next) ==> Execute(t, g, n, a, b, aItems, bItems) == r)
  {
    var first := MoveAll(t, f, n, a, b, aItems);
    MoveAllStatements(t, f, g, n, a, b, aItems);
    MoveAllStatements(first.table, f, g, first.next, b, a, bItems);
    hide MoveAll;
  }

  /** With statement errors, but no failed fetches, a swap commits exactly if it would without any and
      none of its statements fails; it then does what it would have done, and otherwise nothing. */
  lemma CommitsUnderFaultsIff(t: Table, f: Faults, none: Faults, n: nat, a: int, b: int, aItems: seq<TradeItem>,
                              bItems: seq<TradeItem>)
    requires NoFaults(none) && forall k: nat :: !f(k).FetchError?
    ensures var r := Execute(t, f, n, a, b, aItems, bItems); var q := Execute(t, none, n, a, b, aItems, bItems);
      && (r.ok <==> q.ok && NoErrors(f, n, q.next))
      && if r.ok then r == q else r.table == t
  {
    var r, q := Execute(t, f, n, a, b, aItems, bItems), Execute(t, none, n, a, b, aItems, bItems);
    ExecuteStatements(t, f, none, n, a, b, aItems, bItems);
    ExecuteStatements(t, none, f, n, a, b, aItems, bItems);
    hide Execute;
    assert r.ok ==> Agree(f, none, n, r.next);
    assert NoErrors(f, n, q.next) ==> Agree(none, f, n, q.next);
  }
}
