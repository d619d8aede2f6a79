/** The meaning of the Inventory calls on slot tables. AddItem walks the slot positions twice:
    first it tops up stacks of the item, then it opens empty slots. */
module Slots {
  import opened Prelude

  datatype Slot = Slot(invType: int, slotPos: int, itemId: int, itemCount: int, isEnable: bool)
  type Table = map<int, Slot>

  datatype AddItemData = AddItemData(itemId: int, count: int, stackable: bool, maxStack: int)
  datatype AddItemResult = AddItemResult(invType: int, slotPos: int, itemId: int, itemCount: int)
  datatype SlotUpdate = SlotUpdate(slotPos: int, itemId: int, itemCount: int)

  /** Where a pass stopped: remain <= 0 means everything has been placed. */
  datatype Fill = Fill(slots: Table, remain: int, results: seq<AddItemResult>)

  // ------------------------------------------------------------------ AddItem

  predicate TakesMore(s: Slot, d: AddItemData) {
    s.isEnable && s.itemId == d.itemId && s.itemCount < d.maxStack
  }

  predicate IsEmpty(s: Slot) {
    s.isEnable && s.itemId == 0
  }

  /** The most one slot can hold of the item. */
  function Limit(d: AddItemData): int {
    if d.stackable then d.maxStack else 1
  }

  /** How many items an empty slot receives. */
  function Opening(d: AddItemData, remain: int): int {
    if d.stackable then Min(d.maxStack, remain) else 1
  }

  function ResultAt(slots: Table, pos: int): AddItemResult
    requires pos in slots
  {
    AddItemResult(slots[pos].invType, pos, slots[pos].itemId, slots[pos].itemCount)
  }

  /** Put a result in front of what the rest of the pass reports. */
  function Reported(slots: Table, pos: int, rest: Fill): Fill
    requires pos in slots
  {
    rest.(results := [ResultAt(slots, pos)] + rest.results)
  }

  /** First pass, from position pos on. */
  function TopUp(slots: Table, pos: int, end: int, d: AddItemData, remain: int): Fill
    decreases end - pos
  {
    if pos >= end then Fill(slots, remain, [])
    else if pos in slots && TakesMore(slots[pos], d) then
      var add := Min(d.maxStack - slots[pos].itemCount, remain);
      var slots1 := slots[pos := slots[pos].(itemCount := slots[pos].itemCount + add)];
      Reported(slots1, pos,
        if remain - add <= 0 then Fill(slots1, remain - add, []) else TopUp(slots1, pos + 1, end, d, remain - add))
    else TopUp(slots, pos + 1, end, d, remain)
  }

  /** Second pass, from position pos on. */
  function Open(slots: Table, pos: int, end: int, d: AddItemData, remain: int): Fill
    decreases end - pos
  {
    if pos >= end then Fill(slots, remain, [])
    else if pos in slots && IsEmpty(slots[pos]) then
      var add := Opening(d, remain);
      var slots1 := slots[pos := slots[pos].(itemId := d.itemId, itemCount := add)];
      Reported(slots1, pos,
        if remain - add <= 0 then Fill(slots1, remain - add, []) else Open(slots1, pos + 1, end, d, remain - add))
    else Open(slots, pos + 1, end, d, remain)
  }

  function Then(first: Fill, second: Fill): Fill {
    second.(results := first.results + second.results)
  }

  function AddItem(slots: Table, end: int, d: AddItemData): Fill {
    if d.count <= 0 then Fill(slots, d.count, [])
    else
      var first := if d.stackable then TopUp(slots, 0, end, d, d.count) else Fill(slots, d.count, []);
      if first.remain <= 0 then first else Then(first, Open(first.slots, 0, end, d, first.remain))
  }

  predicate Added(slots: Table, end: int, d: AddItemData) {
    d.count > 0 && AddItem(slots, end, d).remain <= 0
  }

  // ------------------------------------------------------------------ room

  /** What the slot at pos can still take in either pass. */
  function TopRoom(slots: Table, pos: int, d: AddItemData): int {
    if pos in slots && TakesMore(slots[pos], d) then d.maxStack - slots[pos].itemCount else 0
  }

  function OpenRoom(slots: Table, pos: int, d: AddItemData): int {
    if pos in slots && IsEmpty(slots[pos]) then Limit(d) else 0
  }

  function TopRoomFrom(slots: Table, pos: int, end: int, d: AddItemData): (r: int)
    ensures r >= 0
    decreases end - pos
  {
    if pos >= end then 0 else TopRoom(slots, pos, d) + TopRoomFrom(slots, pos + 1, end, d)
  }

  function OpenRoomFrom(slots: Table, pos: int, end: int, d: AddItemData): (r: int)
    requires Limit(d) >= 1
    ensures r >= 0
    decreases end - pos
  {
    if pos >= end then 0 else OpenRoom(slots, pos, d) + OpenRoomFrom(slots, pos + 1, end, d)
  }

  /** The total room for the item: free space in its enabled stacks plus the empty slots. */
  function Room(slots: Table, end: int, d: AddItemData): (r: int)
    requires Limit(d) >= 1
    ensures r >= 0
  {
    (if d.stackable then TopRoomFrom(slots, 0, end, d) else 0) + OpenRoomFrom(slots, 0, end, d)
  }

  /** Room further on does not depend on positions already passed. */
  lemma {:induction false} RoomFrame(slots: Table, slots': Table, pos: int, end: int, d: AddItemData)
    requires Limit(d) >= 1
    requires forall p :: p >= pos ==> (p in slots <==> p in slots') && (p in slots ==> slots'[p] == slots[p])
    ensures TopRoomFrom(slots', pos, end, d) == TopRoomFrom(slots, pos, end, d)
    ensures OpenRoomFrom(slots', pos, end, d) == OpenRoomFrom(slots, pos, end, d)
    decreases end - pos
  {
    if pos < end { RoomFrame(slots, slots', pos + 1, end, d); }
  }

  /** Topping up stacks of a real item neither uses nor frees an empty slot. */
  lemma {:induction false} OpenRoomKept(slots: Table, slots': Table, pos: int, end: int, d: AddItemData)
    requires Limit(d) >= 1
    requires slots'.Keys == slots.Keys
    requires forall p :: p in slots ==> IsEmpty(slots'[p]) == IsEmpty(slots[p])
    ensures OpenRoomFrom(slots', pos, end, d) == OpenRoomFrom(slots, pos, end, d)
    decreases end - pos
  {
    if pos < end { OpenRoomKept(slots, slots', pos + 1, end, d); }
  }

  lemma {:induction false} TopUpExact(slots: Table, pos: int, end: int, d: AddItemData, remain: int)
    requires Limit(d) >= 1 && remain > 0
    ensures TopUp(slots, pos, end, d, remain).remain == Max(0, remain - TopRoomFrom(slots, pos, end, d))
    decreases end - pos
  {
    if pos < end {
      if pos in slots && TakesMore(slots[pos], d) {
        var add := Min(d.maxStack - slots[pos].itemCount, remain);
        var slots1 := slots[pos := slots[pos].(itemCount := slots[pos].itemCount + add)];
        if remain - add > 0 { TopUpExact(slots1, pos + 1, end, d, remain - add); }
        RoomFrame(slots, slots1, pos + 1, end, d);
      } else {
        TopUpExact(slots, pos + 1, end, d, remain);
      }
    }
  }

  lemma {:induction false} OpenExact(slots: Table, pos: int, end: int, d: AddItemData, remain: int)
    requires Limit(d) >= 1 && remain > 0
    ensures Open(slots, pos, end, d, remain).remain == Max(0, remain - OpenRoomFrom(slots, pos, end, d))
    decreases end - pos
  {
    if pos < end {
      if pos in slots && IsEmpty(slots[pos]) {
        var add := Opening(d, remain);
        var slots1 := slots[pos := slots[pos].(itemId := d.itemId, itemCount := add)];
        if remain - add > 0 { OpenExact(slots1, pos + 1, end, d, remain - add); }
        RoomFrame(slots, slots1, pos + 1, end, d);
      } else {
        OpenExact(slots, pos + 1, end, d, remain);
      }
    }
  }

  // ------------------------------------------------------------------ what changes where

  /** A slot keeps its place and its flag; it changes only if enabled, and then only by growing
      a stack of the item up to the limit or by being opened. */
  ghost predicate SlotEvolves(s: Slot, s': Slot, d: AddItemData) {
    || s' == s
    || (s.isEnable && s.itemId == d.itemId && s' == s.(itemCount := s'.itemCount)
        && s.itemCount < s'.itemCount <= Limit(d))
    || (s.isEnable && s.itemId == 0 && s' == s.(itemId := d.itemId, itemCount := s'.itemCount)
        && 0 < s'.itemCount <= Limit(d))
  }

  ghost predicate Evolves(slots: Table, slots': Table, d: AddItemData) {
    slots'.Keys == slots.Keys && forall p :: p in slots ==> SlotEvolves(slots[p], slots'[p], d)
  }

  lemma {:induction false} TopUpShape(slots: Table, pos: int, end: int, d: AddItemData, remain: int)
    requires d.stackable && remain > 0
    ensures var r := TopUp(slots, pos, end, d, remain);
      && Evolves(slots, r.slots, d)
      && (forall p :: p in slots ==> r.slots[p].itemId == slots[p].itemId)
      && (forall p :: p in slots && p < pos ==> r.slots[p] == slots[p])
      && (r.remain > 0 ==> forall p :: p in slots && pos <= p < end && slots[p].isEnable && slots[p].itemId == d.itemId ==>
            r.slots[p].itemCount >= d.maxStack)
    decreases end - pos
  {
    if pos < end {
      if pos in slots && TakesMore(slots[pos], d) {
        var add := Min(d.maxStack - slots[pos].itemCount, remain);
        var slots1 := slots[pos := slots[pos].(itemCount := slots[pos].itemCount + add)];
        if remain - add > 0 { TopUpShape(slots1, pos + 1, end, d, remain - add); }
      } else {
        TopUpShape(slots, pos + 1, end, d, remain);
      }
    }
  }

  lemma {:induction false} OpenShape(slots: Table, pos: int, end: int, d: AddItemData, remain: int)
    requires d.itemId != 0 && Limit(d) >= 1 && remain > 0
    ensures var r := Open(slots, pos, end, d, remain);
      && Evolves(slots, r.slots, d)
      && (forall p :: p in slots && slots[p].itemId != 0 ==> r.slots[p] == slots[p])
      && (forall p :: p in slots && p < pos ==> r.slots[p] == slots[p])
    decreases end - pos
  {
    if pos < end {
      if pos in slots && IsEmpty(slots[pos]) {
        var add := Opening(d, remain);
        var slots1 := slots[pos := slots[pos].(itemId := d.itemId, itemCount := add)];
        if remain - add > 0 { OpenShape(slots1, pos + 1, end, d, remain - add); }
      } else {
        OpenShape(slots, pos + 1, end, d, remain);
      }
    }
  }

  /** Every slot before end that holds the item and is enabled is full. */
  ghost predicate StacksFull(slots: Table, end: int, d: AddItemData, before: Table) {
    forall p :: p in slots && p in before && 0 <= p < end && before[p].isEnable && before[p].itemId == d.itemId ==>
      slots[p].itemCount >= d.maxStack
  }

  /** The capacity theorem. AddItem succeeds exactly when the count fits into the room; slots of
      other items, disabled slots and full stacks are untouched, no stack grows past the limit,
      and a stackable item opens a slot only once every enabled stack of it is full. */
  lemma AddItemCapacity(slots: Table, end: int, d: AddItemData)
    requires d.itemId != 0 && Limit(d) >= 1 && d.count > 0
    ensures var r := AddItem(slots, end, d);
      && (Added(slots, end, d) <==> d.count <= Room(slots, end, d))
      && r.remain == Max(0, d.count - Room(slots, end, d))
      && Evolves(slots, r.slots, d)
      && (d.stackable && (exists p :: p in slots && slots[p].itemId == 0 && r.slots[p].itemId != 0) ==>
            StacksFull(r.slots, end, d, slots))
  {
    var first := if d.stackable then TopUp(slots, 0, end, d, d.count) else Fill(slots, d.count, []);
    if d.stackable {
      TopUpExact(slots, 0, end, d, d.count);
      TopUpShape(slots, 0, end, d, d.count);
      OpenRoomKept(slots, first.slots, 0, end, d);
    }
    if first.remain > 0 {
      OpenExact(first.slots, 0, end, d, first.remain);
      OpenShape(first.slots, 0, end, d, first.remain);
      var r := AddItem(slots, end, d);
      forall p | p in slots ensures SlotEvolves(slots[p], r.slots[p], d) {
        assert SlotEvolves(slots[p], first.slots[p], d) && SlotEvolves(first.slots[p], r.slots[p], d);
      }
    }
  }

  // ------------------------------------------------------------------ order of filling

  /** Among the slots that a pass can use, a later one changes only once an earlier one is full. */
  ghost predicate InOrder(slots: Table, slots': Table, usable: Slot -> bool, pos: int, end: int, d: AddItemData)
    requires slots'.Keys == slots.Keys
  {
    forall p, q :: pos <= p < q < end && p in slots && q in slots && usable(slots[p]) && usable(slots[q])
                   && slots'[q] != slots[q] ==>
      slots'[p].itemId == d.itemId && slots'[p].itemCount == Limit(d)
  }

  /** Filling the slot at pos and going on only if that did not use everything up. */
  lemma InOrderStep(slots: Table, pos: int, s: Slot, slots': Table, usable: Slot -> bool, end: int, d: AddItemData)
    requires pos in slots && slots'.Keys == slots.Keys
    requires slots' == slots[pos := s]
          || (slots'[pos].itemId == d.itemId && slots'[pos].itemCount == Limit(d)
              && InOrder(slots[pos := s], slots', usable, pos + 1, end, d))
    ensures InOrder(slots, slots', usable, pos, end, d)
  {
  }

  /** Passing over a slot that cannot be used. */
  lemma InOrderSkip(slots: Table, pos: int, slots': Table, usable: Slot -> bool, end: int, d: AddItemData)
    requires slots'.Keys == slots.Keys && InOrder(slots, slots', usable, pos + 1, end, d)
    requires pos !in slots || !usable(slots[pos])
    ensures InOrder(slots, slots', usable, pos, end, d)
  {
  }

  lemma {:induction false} TopUpInOrder(slots: Table, pos: int, end: int, d: AddItemData, remain: int)
    requires d.stackable && remain > 0
    ensures TopUp(slots, pos, end, d, remain).slots.Keys == slots.Keys
    ensures InOrder(slots, TopUp(slots, pos, end, d, remain).slots, s => TakesMore(s, d), pos, end, d)
    decreases end - pos
  {
    TopUpShape(slots, pos, end, d, remain);
    if pos < end {
      if pos in slots && TakesMore(slots[pos], d) {
        var add := Min(d.maxStack - slots[pos].itemCount, remain);
        var slots1 := slots[pos := slots[pos].(itemCount := slots[pos].itemCount + add)];
        if remain - add > 0 {
          TopUpShape(slots1, pos + 1, end, d, remain - add);
          TopUpInOrder(slots1, pos + 1, end, d, remain - add);
        }
        hide InOrder;
        InOrderStep(slots, pos, slots1[pos], TopUp(slots, pos, end, d, remain).slots, s => TakesMore(s, d), end, d);
      } else {
        TopUpInOrder(slots, pos + 1, end, d, remain);
        hide InOrder;
        InOrderSkip(slots, pos, TopUp(slots, pos, end, d, remain).slots, s => TakesMore(s, d), end, d);
      }
    }
  }

  lemma {:induction false} OpenInOrder(slots: Table, pos: int, end: int, d: AddItemData, remain: int)
    requires d.itemId != 0 && Limit(d) >= 1 && remain > 0
    ensures Open(slots, pos, end, d, remain).slots.Keys == slots.Keys
    ensures InOrder(slots, Open(slots, pos, end, d, remain).slots, IsEmpty, pos, end, d)
    decreases end - pos
  {
    OpenShape(slots, pos, end, d, remain);
    if pos < end {
      if pos in slots && IsEmpty(slots[pos]) {
        var add := Opening(d, remain);
        var slots1 := slots[pos := slots[pos].(itemId := d.itemId, itemCount := add)];
        if remain - add > 0 {
          OpenShape(slots1, pos + 1, end, d, remain - add);
          OpenInOrder(slots1, pos + 1, end, d, remain - add);
        }
        hide InOrder;
        InOrderStep(slots, pos, slots1[pos], Open(slots, pos, end, d, remain).slots, IsEmpty, end, d);
      } else {
        OpenInOrder(slots, pos + 1, end, d, remain);
        hide InOrder;
        InOrderSkip(slots, pos, Open(slots, pos, end, d, remain).slots, IsEmpty, end, d);
      }
    }
  }

  /** AddItem fills stacks in slot order and opens empty slots in slot order. */
  lemma AddItemFillsInOrder(slots: Table, end: int, d: AddItemData)
    requires d.itemId != 0 && Limit(d) >= 1 && d.count > 0
    ensures AddItem(slots, end, d).slots.Keys == slots.Keys
    ensures d.stackable ==> InOrder(slots, AddItem(slots, end, d).slots, s => TakesMore(s, d), 0, end, d)
    ensures InOrder(slots, AddItem(slots, end, d).slots, IsEmpty, 0, end, d)
  {
    var first := if d.stackable then TopUp(slots, 0, end, d, d.count) else Fill(slots, d.count, []);
    if d.stackable {
      TopUpShape(slots, 0, end, d, d.count);
      TopUpInOrder(slots, 0, end, d, d.count);
    }
    if first.remain > 0 {
      OpenShape(first.slots, 0, end, d, first.remain);
      OpenInOrder(first.slots, 0, end, d, first.remain);
    }
  }

  // ------------------------------------------------------------------ replaying the results

  /** What a client does with the list of results. */
  function Replay(slots: Table, results: seq<AddItemResult>): Table {
    if results == [] then slots
    else
      var r := results[0];
      var next := if r.slotPos in slots
                  then slots[r.slotPos := slots[r.slotPos].(itemId := r.itemId, itemCount := r.itemCount)]
                  else slots;
      Replay(next, results[1..])
  }

  lemma {:induction false} ReplayConcat(slots: Table, first: seq<AddItemResult>, second: seq<AddItemResult>)
    ensures Replay(slots, first + second) == Replay(Replay(slots, first), second)
    decreases |first|
  {
    if first == [] {
      assert first + second == second;
    } else {
      var r := first[0];
      var next := if r.slotPos in slots
                  then slots[r.slotPos := slots[r.slotPos].(itemId := r.itemId, itemCount := r.itemCount)]
                  else slots;
      ReplayConcat(next, first[1..], second);
      assert (first + second)[1..] == first[1..] + second;
    }
  }

  lemma {:induction false} TopUpReplays(slots: Table, pos: int, end: int, d: AddItemData, remain: int)
    ensures var r := TopUp(slots, pos, end, d, remain); Replay(slots, r.results) == r.slots
    decreases end - pos
  {
    if pos < end {
      if pos in slots && TakesMore(slots[pos], d) {
        var add := Min(d.maxStack - slots[pos].itemCount, remain);
        var slots1 := slots[pos := slots[pos].(itemCount := slots[pos].itemCount + add)];
        var rest := if remain - add <= 0 then Fill(slots1, remain - add, []) else TopUp(slots1, pos + 1, end, d, remain - add);
        if remain - add > 0 { TopUpReplays(slots1, pos + 1, end, d, remain - add); }
        assert ([ResultAt(slots1, pos)] + rest.results)[1..] == rest.results;
      } else {
        TopUpReplays(slots, pos + 1, end, d, remain);
      }
    }
  }

  lemma {:induction false} OpenReplays(slots: Table, pos: int, end: int, d: AddItemData, remain: int)
    ensures var r := Open(slots, pos, end, d, remain); Replay(slots, r.results) == r.slots
    decreases end - pos
  {
    if pos < end {
      if pos in slots && IsEmpty(slots[pos]) {
        var add := Opening(d, remain);
        var slots1 := slots[pos := slots[pos].(itemId := d.itemId, itemCount := add)];
        var rest := if remain - add <= 0 then Fill(slots1, remain - add, []) else Open(slots1, pos + 1, end, d, remain - add);
        if remain - add > 0 { OpenReplays(slots1, pos + 1, end, d, remain - add); }
        assert ([ResultAt(slots1, pos)] + rest.results)[1..] == rest.results;
      } else {
        OpenReplays(slots, pos + 1, end, d, remain);
      }
    }
  }

  /** The reported list, replayed on the old inventory, gives the new one; also when AddItem
      fails half-way. */
  lemma AddItemReplays(slots: Table, end: int, d: AddItemData)
    ensures Replay(slots, AddItem(slots, end, d).results) == AddItem(slots, end, d).slots
  {
    if d.count > 0 {
      var first := if d.stackable then TopUp(slots, 0, end, d, d.count) else Fill(slots, d.count, []);
      TopUpReplays(slots, 0, end, d, d.count);
      if first.remain > 0 {
        OpenReplays(first.slots, 0, end, d, first.remain);
        ReplayConcat(slots, first.results, Open(first.slots, 0, end, d, first.remain).results);
      }
    }
  }

  /** Every reported result names a slot of the table and that slot's type. */
  ghost predicate NamesSlots(slots: Table, results: seq<AddItemResult>) {
    forall r :: r in results ==> r.slotPos in slots && r.invType == slots[r.slotPos].invType
  }

  lemma {:induction false} TopUpNamesSlots(slots: Table, pos: int, end: int, d: AddItemData, remain: int)
    ensures NamesSlots(slots, TopUp(slots, pos, end, d, remain).results)
    decreases end - pos
  {
    if pos < end {
      if pos in slots && TakesMore(slots[pos], d) {
        var add := Min(d.maxStack - slots[pos].itemCount, remain);
        var slots1 := slots[pos := slots[pos].(itemCount := slots[pos].itemCount + add)];
        if remain - add > 0 { TopUpNamesSlots(slots1, pos + 1, end, d, remain - add); }
      } else {
        TopUpNamesSlots(slots, pos + 1, end, d, remain);
      }
    }
  }

  lemma {:induction false} OpenNamesSlots(slots: Table, pos: int, end: int, d: AddItemData, remain: int)
    ensures NamesSlots(slots, Open(slots, pos, end, d, remain).results)
    decreases end - pos
  {
    if pos < end {
      if pos in slots && IsEmpty(slots[pos]) {
        var add := Opening(d, remain);
        var slots1 := slots[pos := slots[pos].(itemId := d.itemId, itemCount := add)];
        if remain - add > 0 { OpenNamesSlots(slots1, pos + 1, end, d, remain - add); }
      } else {
        OpenNamesSlots(slots, pos + 1, end, d, remain);
      }
    }
  }

  ghost predicate IsReported(results: seq<AddItemResult>, p: int) {
    exists k :: 0 <= k < |results| && results[k].slotPos == p
  }

  /** From position pos on, exactly the slots that change are reported, in slot order. */
  ghost predicate Reports(slots: Table, fill: Fill, pos: int) {
    && fill.slots.Keys == slots.Keys
    && (forall p :: p in slots ==> (fill.slots[p] != slots[p] <==> IsReported(fill.results, p)))
    && (forall k :: 0 <= k < |fill.results| ==> fill.results[k].slotPos >= pos && fill.results[k].slotPos in slots)
    && (forall j, k :: 0 <= j < k < |fill.results| ==> fill.results[j].slotPos < fill.results[k].slotPos)
  }

  /** Changing the slot at pos and reporting it, in front of what the rest of the pass reports. */
  lemma ReportsFirst(slots: Table, pos: int, s: Slot, rest: Fill)
    requires pos in slots && s != slots[pos] && Reports(slots[pos := s], rest, pos + 1)
    ensures Reports(slots, Reported(slots[pos := s], pos, rest), pos)
  {
    var all := Reported(slots[pos := s], pos, rest);
    assert !IsReported(rest.results, pos);
    forall p ensures IsReported(all.results, p) <==> p == pos || IsReported(rest.results, p) {
      assert all.results[0].slotPos == pos;
      if k :| 0 <= k < |rest.results| && rest.results[k].slotPos == p {
        assert all.results[k + 1].slotPos == p;
      }
    }
  }

  lemma {:induction false} TopUpReports(slots: Table, pos: int, end: int, d: AddItemData, remain: int)
    requires remain > 0
    ensures Reports(slots, TopUp(slots, pos, end, d, remain), pos)
    decreases end - pos
  {
    if pos < end {
      if pos in slots && TakesMore(slots[pos], d) {
        var add := Min(d.maxStack - slots[pos].itemCount, remain);
        var grown := slots[pos].(itemCount := slots[pos].itemCount + add);
        var slots1 := slots[pos := grown];
        var rest := if remain - add <= 0 then Fill(slots1, remain - add, []) else TopUp(slots1, pos + 1, end, d, remain - add);
        if remain - add > 0 { TopUpReports(slots1, pos + 1, end, d, remain - add); }
        ReportsFirst(slots, pos, grown, rest);
      } else {
        TopUpReports(slots, pos + 1, end, d, remain);
      }
    }
  }

  lemma {:induction false} OpenReports(slots: Table, pos: int, end: int, d: AddItemData, remain: int)
    requires d.itemId != 0 && remain > 0
    ensures Reports(slots, Open(slots, pos, end, d, remain), pos)
    decreases end - pos
  {
    if pos < end {
      if pos in slots && IsEmpty(slots[pos]) {
        var add := Opening(d, remain);
        var filled := slots[pos].(itemId := d.itemId, itemCount := add);
        var slots1 := slots[pos := filled];
        var rest := if remain - add <= 0 then Fill(slots1, remain - add, []) else Open(slots1, pos + 1, end, d, remain - add);
        if remain - add > 0 { OpenReports(slots1, pos + 1, end, d, remain - add); }
        ReportsFirst(slots, pos, filled, rest);
      } else {
        OpenReports(slots, pos + 1, end, d, remain);
      }
    }
  }

  /** AddItem reports exactly the slots it changes, each once. */
  lemma AddItemReports(slots: Table, end: int, d: AddItemData)
    requires d.itemId != 0 && Limit(d) >= 1
    ensures var r := AddItem(slots, end, d);
      && r.slots.Keys == slots.Keys
      && (forall p :: p in slots ==> (r.slots[p] != slots[p] <==> IsReported(r.results, p)))
      && (forall j, k :: 0 <= j < k < |r.results| ==> r.results[j].slotPos != r.results[k].slotPos)
  {
    if d.count > 0 {
      var first := if d.stackable then TopUp(slots, 0, end, d, d.count) else Fill(slots, d.count, []);
      if d.stackable {
        TopUpReports(slots, 0, end, d, d.count);
        TopUpShape(slots, 0, end, d, d.count);
      }
      if first.remain > 0 {
        var second := Open(first.slots, 0, end, d, first.remain);
        OpenReports(first.slots, 0, end, d, first.remain);
        OpenShape(first.slots, 0, end, d, first.remain);
        PassesReport(slots, first, second, d);
      }
    }
  }

  /** The two passes change different slots: stacks of the item the first, empty slots the second. */
  lemma PassesReport(slots: Table, first: Fill, second: Fill, d: AddItemData)
    requires d.itemId != 0 && Reports(slots, first, 0) && Reports(first.slots, second, 0)
    requires Evolves(slots, first.slots, d)
    requires forall p :: p in slots ==> first.slots[p].itemId == slots[p].itemId
    requires forall p :: p in slots && first.slots[p].itemId != 0 ==> second.slots[p] == first.slots[p]
    ensures var r := Then(first, second);
      && (forall p :: p in slots ==> (r.slots[p] != slots[p] <==> IsReported(r.results, p)))
      && (forall j, k :: 0 <= j < k < |r.results| ==> r.results[j].slotPos != r.results[k].slotPos)
  {
    var r, n := Then(first, second), |first.results|;
    forall p ensures IsReported(r.results, p) <==> IsReported(first.results, p) || IsReported(second.results, p) {
      if k :| 0 <= k < n && first.results[k].slotPos == p { assert r.results[k].slotPos == p; }
      if k :| 0 <= k < |second.results| && second.results[k].slotPos == p { assert r.results[n + k].slotPos == p; }
    }
    forall p | p in slots && IsReported(first.results, p) ensures !IsReported(second.results, p) {
      assert SlotEvolves(slots[p], first.slots[p], d);
    }
    forall j, k | 0 <= j < k < |r.results| ensures r.results[j].slotPos != r.results[k].slotPos {
      if j < n <= k {
        assert IsReported(first.results, r.results[j].slotPos) && IsReported(second.results, r.results[k].slotPos);
      }
    }
  }

  // ------------------------------------------------------------------ totals

  /** How much of item i a slot holds. */
  ghost function Share(i: int): Slot -> int {
    (s: Slot) => if s.itemId == i then s.itemCount else 0
  }

  /** How many of item i all the slots hold together. */
  ghost function Total(slots: Table, i: int): int {
    MapSum(slots, Share(i))
  }

  lemma {:induction false} TopUpTotal(slots: Table, pos: int, end: int, d: AddItemData, remain: int, i: int)
    ensures var r := TopUp(slots, pos, end, d, remain);
      Total(r.slots, i) == Total(slots, i) + (if i == d.itemId then remain - r.remain else 0)
    decreases end - pos
  {
    if pos < end {
      if pos in slots && TakesMore(slots[pos], d) {
        var add := Min(d.maxStack - slots[pos].itemCount, remain);
        var grown := slots[pos].(itemCount := slots[pos].itemCount + add);
        MapSumUpdate(slots, Share(i), pos, grown);
        if remain - add > 0 { TopUpTotal(slots[pos := grown], pos + 1, end, d, remain - add, i); }
      } else {
        TopUpTotal(slots, pos + 1, end, d, remain, i);
      }
    }
  }

  lemma {:induction false} OpenTotal(slots: Table, pos: int, end: int, d: AddItemData, remain: int, i: int)
    requires i != 0
    ensures var r := Open(slots, pos, end, d, remain);
      Total(r.slots, i) == Total(slots, i) + (if i == d.itemId then remain - r.remain else 0)
    decreases end - pos
  {
    if pos < end {
      if pos in slots && IsEmpty(slots[pos]) {
        var add := Opening(d, remain);
        var filled := slots[pos].(itemId := d.itemId, itemCount := add);
        MapSumUpdate(slots, Share(i), pos, filled);
        if remain - add > 0 { OpenTotal(slots[pos := filled], pos + 1, end, d, remain - add, i); }
      } else {
        OpenTotal(slots, pos + 1, end, d, remain, i);
      }
    }
  }

  /** Whatever AddItem says, the item's total grows by exactly what is no longer left over. */
  lemma AddItemTotal(slots: Table, end: int, d: AddItemData, i: int)
    requires i != 0
    ensures var r := AddItem(slots, end, d);
      Total(r.slots, i) == Total(slots, i) + (if i == d.itemId then d.count - r.remain else 0)
  {
    if d.count > 0 {
      var first := if d.stackable then TopUp(slots, 0, end, d, d.count) else Fill(slots, d.count, []);
      if d.stackable { TopUpTotal(slots, 0, end, d, d.count, i); }
      if first.remain > 0 { OpenTotal(first.slots, 0, end, d, first.remain, i); }
    }
  }

  // ------------------------------------------------------------------ removing and moving

  predicate CanRemove(slots: Table, pos: int, itemId: int, count: int) {
    pos in slots && slots[pos].itemId == itemId && slots[pos].itemCount >= count
  }

  /** A slot that runs empty is erased from the table. */
  function RemoveItem(slots: Table, pos: int, itemId: int, count: int): Table {
    if !CanRemove(slots, pos, itemId, count) then slots
    else if slots[pos].itemCount == count then slots - {pos}
    else slots[pos := slots[pos].(itemCount := slots[pos].itemCount - count)]
  }

  lemma RemoveItemTotal(slots: Table, pos: int, itemId: int, count: int, i: int)
    ensures Total(RemoveItem(slots, pos, itemId, count), i)
         == Total(slots, i) - (if CanRemove(slots, pos, itemId, count) && i == itemId then count else 0)
  {
    if CanRemove(slots, pos, itemId, count) {
      if slots[pos].itemCount == count {
        MapSumSplit(slots, Share(i), pos);
      } else {
        MapSumUpdate(slots, Share(i), pos, slots[pos].(itemCount := slots[pos].itemCount - count));
      }
    }
  }

  predicate CanMove(slots: Table, from: int, to: int) {
    from != to && from in slots && to in slots && slots[from].itemId != 0
  }

  function MoveItem(slots: Table, from: int, to: int): Table {
    if !CanMove(slots, from, to) then slots
    else
      slots[from := slots[from].(itemId := slots[to].itemId, itemCount := slots[to].itemCount)]
           [to := slots[to].(itemId := slots[from].itemId, itemCount := slots[from].itemCount)]
  }

  lemma MoveItemTotal(slots: Table, from: int, to: int, i: int)
    ensures Total(MoveItem(slots, from, to), i) == Total(slots, i)
  {
    if CanMove(slots, from, to) {
      var half := slots[from := slots[from].(itemId := slots[to].itemId, itemCount := slots[to].itemCount)];
      MapSumUpdate(slots, Share(i), from, half[from]);
      MapSumUpdate(half, Share(i), to, slots[to].(itemId := slots[from].itemId, itemCount := slots[from].itemCount));
    }
  }

  /** Moving there and back restores the inventory, also over an empty or disabled target. */
  lemma MoveBackRestores(slots: Table, from: int, to: int)
    requires CanMove(slots, from, to)
    ensures CanMove(MoveItem(slots, from, to), to, from)
    ensures MoveItem(MoveItem(slots, from, to), to, from) == slots
  {
  }

  /** What a move does slot by slot: the two slots swap item and count, but each keeps its own type,
      place and flag; nothing else changes, and a move that is refused changes nothing. */
  lemma MoveItemExact(slots: Table, from: int, to: int)
    ensures var r := MoveItem(slots, from, to);
      && r.Keys == slots.Keys
      && (forall k :: k in slots && k != from && k != to ==> r[k] == slots[k])
      && (CanMove(slots, from, to) <==> from != to && from in slots && to in slots && slots[from].itemId != 0)
      && if from != to && from in slots && to in slots && slots[from].itemId != 0 then
           && r[from] == Slot(slots[from].invType, slots[from].slotPos, slots[to].itemId, slots[to].itemCount, slots[from].isEnable)
           && r[to] == Slot(slots[to].invType, slots[to].slotPos, slots[from].itemId, slots[from].itemCount, slots[to].isEnable)
         else r == slots
  {
  }

  /** What a removal does: the slot keeps everything but its count, which falls by the amount, or is
      erased if nothing would be left. */
  lemma RemoveItemExact(slots: Table, pos: int, itemId: int, count: int)
    ensures var r := RemoveItem(slots, pos, itemId, count);
      && (forall k :: k != pos ==> (k in r <==> k in slots))
      && (forall k :: k in slots && k != pos ==> r[k] == slots[k])
      && (CanRemove(slots, pos, itemId, count) <==>
            pos in slots && slots[pos].itemId == itemId && slots[pos].itemCount >= count)
      && if pos in slots && slots[pos].itemId == itemId && slots[pos].itemCount >= count then
           && (pos in r <==> slots[pos].itemCount != count)
           && (pos in r ==> r[pos] == slots[pos].(itemCount := slots[pos].itemCount - count))
         else r == slots
  {
  }

  // ------------------------------------------------------------------ the ledger

  datatype Op =
    | Add(d: AddItemData)
    | Remove(pos: int, itemId: int, count: int)
    | Move(from: int, to: int)

  function Apply(slots: Table, end: int, op: Op): Table {
    match op
    case Add(d) => AddItem(slots, end, d).slots
    case Remove(pos, itemId, count) => RemoveItem(slots, pos, itemId, count)
    case Move(from, to) => MoveItem(slots, from, to)
  }

  /** What a call is supposed to do to the total of item i: an addition brings in as much as
      there is room for, a removal that is allowed takes its count, a move nothing. */
  ghost function Booked(slots: Table, end: int, op: Op, i: int): int {
    match op
    case Add(d) =>
      if d.itemId == i && d.count > 0 && Limit(d) >= 1 then Min(d.count, Room(slots, end, d)) else 0
    case Remove(pos, itemId, count) =>
      if itemId == i && CanRemove(slots, pos, itemId, count) then -count else 0
    case Move(from, to) => 0
  }

  function RunOps(slots: Table, end: int, ops: seq<Op>): Table
    decreases |ops|
  {
    if ops == [] then slots else RunOps(Apply(slots, end, ops[0]), end, ops[1..])
  }

  ghost function BookedAll(slots: Table, end: int, ops: seq<Op>, i: int): int
    decreases |ops|
  {
    if ops == [] then 0
    else Booked(slots, end, ops[0], i) + BookedAll(Apply(slots, end, ops[0]), end, ops[1..], i)
  }

  /** Over any mix of calls, failed ones included, an item's total is the initial one plus
      what was added minus what was removed. */
  lemma {:induction false} Ledger(slots: Table, end: int, ops: seq<Op>, i: int)
    requires i != 0
    requires forall op :: op in ops && op.Add? ==> Limit(op.d) >= 1
    ensures Total(RunOps(slots, end, ops), i) == Total(slots, i) + BookedAll(slots, end, ops, i)
    decreases |ops|
  {
    if ops != [] {
      assert ops[0] in ops;
      match ops[0] {
        case Add(d) =>
          AddItemTotal(slots, end, d, i);
          if d.itemId == i && d.count > 0 { AddItemCapacity(slots, end, d); }
        case Remove(pos, itemId, count) =>
          RemoveItemTotal(slots, pos, itemId, count, i);
        case Move(from, to) =>
          MoveItemTotal(slots, from, to, i);
      }
      Ledger(Apply(slots, end, ops[0]), end, ops[1..], i);
    }
  }

  // ------------------------------------------------------------------ places and flags

  /** The slots that are left are slots of the old table with their type, place and flag. */
  ghost predicate KeepsPlaces(slots: Table, slots': Table) {
    forall k :: k in slots' ==>
      && k in slots && slots'[k].invType == slots[k].invType
      && slots'[k].slotPos == slots[k].slotPos && slots'[k].isEnable == slots[k].isEnable
  }

  lemma {:induction false} TopUpKeepsPlaces(slots: Table, pos: int, end: int, d: AddItemData, remain: int)
    ensures KeepsPlaces(slots, TopUp(slots, pos, end, d, remain).slots)
    decreases end - pos
  {
    if pos < end {
      if pos in slots && TakesMore(slots[pos], d) {
        var add := Min(d.maxStack - slots[pos].itemCount, remain);
        var slots1 := slots[pos := slots[pos].(itemCount := slots[pos].itemCount + add)];
        if remain - add > 0 { TopUpKeepsPlaces(slots1, pos + 1, end, d, remain - add); }
      } else {
        TopUpKeepsPlaces(slots, pos + 1, end, d, remain);
      }
    }
  }

  lemma {:induction false} OpenKeepsPlaces(slots: Table, pos: int, end: int, d: AddItemData, remain: int)
    ensures KeepsPlaces(slots, Open(slots, pos, end, d, remain).slots)
    decreases end - pos
  {
    if pos < end {
      if pos in slots && IsEmpty(slots[pos]) {
        var add := Opening(d, remain);
        var slots1 := slots[pos := slots[pos].(itemId := d.itemId, itemCount := add)];
        if remain - add > 0 { OpenKeepsPlaces(slots1, pos + 1, end, d, remain - add); }
      } else {
        OpenKeepsPlaces(slots, pos + 1, end, d, remain);
      }
    }
  }

  lemma ApplyKeepsPlaces(slots: Table, end: int, op: Op)
    ensures KeepsPlaces(slots, Apply(slots, end, op))
  {
    match op
    case Add(d) =>
      if d.count > 0 {
        var first := if d.stackable then TopUp(slots, 0, end, d, d.count) else Fill(slots, d.count, []);
        TopUpKeepsPlaces(slots, 0, end, d, d.count);
        OpenKeepsPlaces(first.slots, 0, end, d, first.remain);
      }
    case Remove(pos, itemId, count) =>
    case Move(from, to) =>
  }

  /** The results of an addition carry the types of the slots they name. */
  lemma AddItemNamesSlots(slots: Table, end: int, d: AddItemData)
    ensures NamesSlots(slots, AddItem(slots, end, d).results)
  {
    if d.count > 0 {
      var first := if d.stackable then TopUp(slots, 0, end, d, d.count) else Fill(slots, d.count, []);
      TopUpNamesSlots(slots, 0, end, d, d.count);
      TopUpKeepsPlaces(slots, 0, end, d, d.count);
      OpenNamesSlots(first.slots, 0, end, d, first.remain);
    }
  }

  /** Over any mix of calls every slot that is left has the type, place and flag it had at first:
      items move between slots, slots never do. */
  lemma {:induction false} RunKeepsPlaces(slots: Table, end: int, ops: seq<Op>)
    ensures KeepsPlaces(slots, RunOps(slots, end, ops))
    decreases |ops|
  {
    if ops != [] {
      ApplyKeepsPlaces(slots, end, ops[0]);
      RunKeepsPlaces(Apply(slots, end, ops[0]), end, ops[1..]);
    }
  }

  // ------------------------------------------------------------------ a new inventory

  /** The constructor's slots 0..size-1; those up to and including position current are enabled. */
  function NewTable(invType: int, size: int, current: int): (r: Table)
    ensures forall i :: i in r <==> 0 <= i < size
    ensures forall i :: i in r ==> r[i] == Slot(invType, i, 0, 0, i <= current)
    decreases size
  {
    if size <= 0 then map[]
    else NewTable(invType, size - 1, current)[size - 1 := Slot(invType, size - 1, 0, 0, size - 1 <= current)]
  }

  lemma {:induction false} NewTableRoomFrom(invType: int, size: int, current: int, pos: int, d: AddItemData)
    requires Limit(d) >= 1 && d.itemId != 0 && 0 <= pos
    ensures TopRoomFrom(NewTable(invType, size, current), pos, size, d) == 0
    ensures OpenRoomFrom(NewTable(invType, size, current), pos, size, d)
         == Max(0, Min(size, current + 1) - pos) * Limit(d)
    decreases size - pos
  {
    if pos < size {
      NewTableRoomFrom(invType, size, current, pos + 1, d);
      MoreByOne(Max(0, Min(size, current + 1) - pos - 1), Limit(d));
    }
  }

  lemma MoreByOne(n: int, each: int)
    ensures (n + 1) * each == n * each + each
  {
  }

  /** A new inventory has one slot more than its current size says, as far as it has slots. */
  lemma NewTableRoom(invType: int, size: int, current: int, d: AddItemData)
    requires Limit(d) >= 1 && d.itemId != 0
    ensures Room(NewTable(invType, size, current), size, d)
         == Max(0, Min(size, current + 1)) * Limit(d)
  {
    NewTableRoomFrom(invType, size, current, 0, d);
  }

  /** So in an inventory made by the constructor, slot k says it is at k and is enabled exactly up to
      the current size, after any calls. */
  lemma PlacesOfNewTable(invType: int, size: int, current: int, ops: seq<Op>)
    ensures forall k :: k in RunOps(NewTable(invType, size, current), size, ops) ==>
      var s := RunOps(NewTable(invType, size, current), size, ops)[k];
      0 <= k < size && s.invType == invType && s.slotPos == k && (s.isEnable <==> k <= current)
  {
    RunKeepsPlaces(NewTable(invType, size, current), size, ops);
  }
}
