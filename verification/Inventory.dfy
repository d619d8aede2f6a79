/** class Inventory: the slot table and the calls that update it in place. */
module Inventory {
  import opened Prelude
  import opened Slots

  datatype InventoryMeta = InventoryMeta(invType: int, maxSlots: int, currentSlots: int)

  /** What a loop that has reported done will end with, if its remaining positions give rest. */
  ghost function After(done: seq<AddItemResult>, rest: Fill): Fill {
    rest.(results := done + rest.results)
  }

  lemma TopUpStep(slots: Table, pos: int, end: int, d: AddItemData, remain: int, done: seq<AddItemResult>)
    requires pos < end && pos in slots && TakesMore(slots[pos], d)
    ensures
      var add := Min(d.maxStack - slots[pos].itemCount, remain);
      var slots1 := slots[pos := slots[pos].(itemCount := slots[pos].itemCount + add)];
      var done1 := done + [ResultAt(slots1, pos)];
      After(done, TopUp(slots, pos, end, d, remain)) ==
        if remain - add <= 0 then Fill(slots1, remain - add, done1)
        else After(done1, TopUp(slots1, pos + 1, end, d, remain - add))
  {
    var add := Min(d.maxStack - slots[pos].itemCount, remain);
    var slots1 := slots[pos := slots[pos].(itemCount := slots[pos].itemCount + add)];
    var rest := if remain - add <= 0 then [] else TopUp(slots1, pos + 1, end, d, remain - add).results;
    assert done + ([ResultAt(slots1, pos)] + rest) == (done + [ResultAt(slots1, pos)]) + rest;
  }

  lemma OpenStep(slots: Table, pos: int, end: int, d: AddItemData, remain: int, done: seq<AddItemResult>)
    requires pos < end && pos in slots && IsEmpty(slots[pos])
    ensures
      var add := Opening(d, remain);
      var slots1 := slots[pos := slots[pos].(itemId := d.itemId, itemCount := add)];
      var done1 := done + [ResultAt(slots1, pos)];
      After(done, Open(slots, pos, end, d, remain)) ==
        if remain - add <= 0 then Fill(slots1, remain - add, done1)
        else After(done1, Open(slots1, pos + 1, end, d, remain - add))
  {
    var add := Opening(d, remain);
    var slots1 := slots[pos := slots[pos].(itemId := d.itemId, itemCount := add)];
    var rest := if remain - add <= 0 then [] else Open(slots1, pos + 1, end, d, remain - add).results;
    assert done + ([ResultAt(slots1, pos)] + rest) == (done + [ResultAt(slots1, pos)]) + rest;
  }

  class Inventory {
    var slots: Table
    const invType: int
    const maxSlot: int
    const currentSlots: int

    constructor (meta: InventoryMeta)
      ensures invType == meta.invType && maxSlot == meta.maxSlots && currentSlots == meta.currentSlots
      ensures slots == NewTable(meta.invType, meta.maxSlots, meta.currentSlots)
    {
      invType, maxSlot, currentSlots := meta.invType, meta.maxSlots, meta.currentSlots;
      slots := map[];
      new;
      var i := 0;
      while i < maxSlot
        invariant if maxSlot < 0 then i == 0 else 0 <= i <= maxSlot
        invariant slots == NewTable(invType, i, currentSlots)
      {
        slots := slots[i := Slot(invType, i, 0, 0, i <= currentSlots)];
        i := i + 1;
      }
      if maxSlot < 0 {
        assert NewTable(invType, maxSlot, currentSlots) == map[];
      }
    }

    /** First loop of AddItem: top up the stacks of the item in slot order. */
    method FillStacks(d: AddItemData, count: int) returns (remain: int, results: seq<AddItemResult>)
      modifies `slots
      requires count > 0
      ensures Fill(slots, remain, results) == TopUp(old(slots), 0, maxSlot, d, count)
    {
      remain, results := count, [];
      var pos := 0;
      while pos < maxSlot
        invariant 0 <= pos && remain > 0
        invariant After(results, TopUp(slots, pos, maxSlot, d, remain)) == TopUp(old(slots), 0, maxSlot, d, count)
      {
        if pos in slots && slots[pos].isEnable && slots[pos].itemId == d.itemId && !(slots[pos].itemCount >= d.maxStack) {
          TopUpStep(slots, pos, maxSlot, d, remain, results);
          var add := Min(d.maxStack - slots[pos].itemCount, remain);
          slots := slots[pos := slots[pos].(itemCount := slots[pos].itemCount + add)];
          remain := remain - add;
          results := results + [ResultAt(slots, pos)];
          if remain <= 0 { return; }
        }
        pos := pos + 1;
      }
    }

    /** Second loop of AddItem: put what is left into the empty slots in order. */
    method FillEmptySlots(d: AddItemData, count: int) returns (remain: int, results: seq<AddItemResult>)
      modifies `slots
      requires count > 0
      ensures Fill(slots, remain, results) == Open(old(slots), 0, maxSlot, d, count)
    {
      remain, results := count, [];
      var pos := 0;
      while pos < maxSlot
        invariant 0 <= pos && remain > 0
        invariant After(results, Open(slots, pos, maxSlot, d, remain)) == Open(old(slots), 0, maxSlot, d, count)
      {
        if pos in slots && slots[pos].isEnable && slots[pos].itemId == 0 {
          OpenStep(slots, pos, maxSlot, d, remain, results);
          var add := if d.stackable then Min(d.maxStack, remain) else 1;
          slots := slots[pos := slots[pos].(itemId := d.itemId, itemCount := add)];
          remain := remain - add;
          results := results + [ResultAt(slots, pos)];
          if remain <= 0 { return; }
        }
        pos := pos + 1;
      }
    }

    method AddItem(d: AddItemData, reported: seq<AddItemResult>) returns (ok: bool, results: seq<AddItemResult>)
      modifies `slots
      ensures ok <==> Added(old(slots), maxSlot, d)
      ensures slots == Slots.AddItem(old(slots), maxSlot, d).slots
      ensures results == reported + Slots.AddItem(old(slots), maxSlot, d).results
    {
      if d.count <= 0 { return false, reported; }
      var remain, first, second := d.count, [], [];
      if d.stackable {
        remain, first := FillStacks(d, d.count);
        if remain <= 0 { return true, reported + first; }
      }
      remain, second := FillEmptySlots(d, remain);
      assert Slots.AddItem(old(slots), maxSlot, d).results == first + second;
      ok, results := remain <= 0, reported + (first + second);
    }

    method RemoveItemBySlot(pos: int, itemId: int, count: int) returns (ok: bool)
      modifies `slots
      ensures ok <==> CanRemove(old(slots), pos, itemId, count)
      ensures slots == RemoveItem(old(slots), pos, itemId, count)
      ensures ok ==> (pos in slots <==> count != old(slots)[pos].itemCount)
    {
      if pos !in slots { return false; }
      if slots[pos].itemId != itemId { return false; }
      if slots[pos].itemCount < count { return false; }
      slots := slots[pos := slots[pos].(itemCount := slots[pos].itemCount - count)];
      if slots[pos].itemCount == 0 {
        slots := slots - {pos};
        assert slots == old(slots) - {pos};
      }
      ok := true;
    }

    method MoveItemSlot(from: int, to: int, reported: seq<SlotUpdate>) returns (ok: bool, updates: seq<SlotUpdate>)
      modifies `slots
      ensures ok <==> CanMove(old(slots), from, to)
      ensures slots == MoveItem(old(slots), from, to)
      ensures ok ==> slots[from].itemId == old(slots)[to].itemId && slots[from].itemCount == old(slots)[to].itemCount
      ensures ok ==> slots[to].itemId == old(slots)[from].itemId && slots[to].itemCount == old(slots)[from].itemCount
      ensures updates == if ok then reported + [SlotUpdate(from, slots[from].itemId, slots[from].itemCount),
                                               SlotUpdate(to, slots[to].itemId, slots[to].itemCount)]
                         else reported
    {
      updates := reported;
      if from == to { return false, updates; }
      if from !in slots || to !in slots { return false, updates; }
      if slots[from].itemId == 0 { return false, updates; }
      var a, b := slots[from], slots[to];
      slots := slots[from := a.(itemId := b.itemId, itemCount := b.itemCount)];
      slots := slots[to := b.(itemId := a.itemId, itemCount := a.itemCount)];
      updates := updates + [SlotUpdate(from, slots[from].itemId, slots[from].itemCount)];
      updates := updates + [SlotUpdate(to, slots[to].itemId, slots[to].itemCount)];
      ok := true;
    }

    /** Exactly the counts up to the answer can be taken out of the slot. */
    method GetItemCount(pos: int, itemId: int) returns (count: int)
      ensures pos in slots && slots[pos].itemId == itemId ==>
        forall n :: CanRemove(slots, pos, itemId, n) <==> n <= count
      ensures !(pos in slots && slots[pos].itemId == itemId) ==> count == 0
    {
      if pos !in slots { return 0; }
      if slots[pos].itemId != itemId { return 0; }
      count := slots[pos].itemCount;
    }
  }
}
