/** Quick slots: 32 keys, each bound to at most one target, and no skill or item bound twice. */
module QuickSlots {
  import opened Prelude

  datatype SlotType = NoType | Skill | Item | UI | Emote

  datatype SlotData = SlotData(slotIndex: int, kind: SlotType, refId: int, invType: int, invSlotPos: int, count: int)

  type Slots = map<int, SlotData>

  const SLOT_COUNT := 32

  function Blank(i: int): SlotData {
    SlotData(i, NoType, 0, 0, 0, 0)
  }

  predicate IsSameTarget(a: SlotData, b: SlotData) {
    a.kind == b.kind && (a.kind.Skill? || a.kind.Item?) && a.refId == b.refId
  }

  function Init(): Slots {
    map k | 0 <= k < SLOT_COUNT :: Blank(k)
  }

  predicate Accepts(slots: Slots, data: SlotData) {
    data.slotIndex >= 0 && data.slotIndex in slots
  }

  /** Other slots with the same target that SetSlot has to clear. */
  predicate IsCleared(slots: Slots, data: SlotData, k: int) {
    k in slots && k != data.slotIndex && IsSameTarget(slots[k], data)
  }

  function SetSlot(slots: Slots, data: SlotData): Slots {
    if !Accepts(slots, data) then slots
    else map k | k in slots :: if k == data.slotIndex then data else if IsCleared(slots, data, k) then Blank(k) else slots[k]
  }

  function ClearSlot(slots: Slots, k: int): Slots {
    if k in slots then slots[k := Blank(k)] else slots
  }

  // ------------------------------------------------------------------ invariant

  ghost predicate Good(slots: Slots) {
    && (forall k :: k in slots <==> 0 <= k < SLOT_COUNT)
    && (forall k :: k in slots ==> slots[k].slotIndex == k)
    && (forall j, k :: j in slots && k in slots && IsSameTarget(slots[j], slots[k]) ==> j == k)
  }

  lemma SetSlotKeepsGood(slots: Slots, data: SlotData)
    requires Good(slots)
    ensures Good(SetSlot(slots, data))
  {
  }

  lemma ClearSlotKeepsGood(slots: Slots, k: int)
    requires Good(slots)
    ensures Good(ClearSlot(slots, k))
  {
  }

  // ------------------------------------------------------------------ the returned list

  function Replay(slots: Slots, changed: seq<SlotData>): Slots {
    if changed == [] then slots
    else Replay(slots, changed[..|changed| - 1])[changed[|changed| - 1].slotIndex := changed[|changed| - 1]]
  }

  /** What SetSlot may return: the cleared slots in any order, then the new binding. */
  ghost predicate IsDelta(slots: Slots, data: SlotData, changed: seq<SlotData>) {
    if !Accepts(slots, data) then changed == []
    else
      && changed != [] && changed[|changed| - 1] == data
      && ListsCleared(slots, data, changed[..|changed| - 1], slots.Keys)
  }

  /** The list holds a blank for each cleared slot among the given keys, each once. */
  ghost predicate ListsCleared(slots: Slots, data: SlotData, cleared: seq<SlotData>, keys: set<int>) {
    && (forall n :: 0 <= n < |cleared| ==>
          cleared[n] == Blank(cleared[n].slotIndex) && cleared[n].slotIndex in keys
          && IsCleared(slots, data, cleared[n].slotIndex))
    && (forall m, n :: 0 <= m < n < |cleared| ==> cleared[m].slotIndex != cleared[n].slotIndex)
    && (forall k :: k in keys && IsCleared(slots, data, k) ==> Blank(k) in cleared)
  }

  lemma ListedIsCleared(slots: Slots, data: SlotData, cleared: seq<SlotData>, keys: set<int>, k: int)
    requires ListsCleared(slots, data, cleared, keys) && Blank(k) in cleared
    ensures IsCleared(slots, data, k)
  {
    var n :| 0 <= n < |cleared| && cleared[n] == Blank(k);
  }

  /** Two slots can only both need clearing if they already had the same target. */
  lemma TwoClearedIsBad(slots: Slots, data: SlotData, cleared: seq<SlotData>, keys: set<int>)
    requires ListsCleared(slots, data, cleared, keys) && |cleared| >= 2
    ensures !Good(slots)
  {
    var j, k := cleared[0].slotIndex, cleared[1].slotIndex;
    assert IsSameTarget(slots[j], slots[k]) && j != k;
  }

  /** Replaying blanks blanks exactly the listed slots. */
  lemma {:induction false} ReplayBlanks(slots: Slots, cleared: seq<SlotData>, k: int)
    requires forall n :: 0 <= n < |cleared| ==> cleared[n] == Blank(cleared[n].slotIndex) && cleared[n].slotIndex in slots
    ensures var r := Replay(slots, cleared);
      (k in r <==> k in slots) && (k in slots ==> r[k] == if Blank(k) in cleared then Blank(k) else slots[k])
    decreases |cleared|
  {
    if cleared != [] {
      var init, last := cleared[..|cleared| - 1], cleared[|cleared| - 1];
      assert cleared == init + [last];
      ReplayBlanks(slots, init, k);
    }
  }

  /** A mirror that replays the returned list has the server's state, in whatever order the
      cleared slots are reported; and on a good table the list has at most two entries. */
  lemma DeltaReplays(slots: Slots, data: SlotData, changed: seq<SlotData>)
    requires Good(slots) && IsDelta(slots, data, changed)
    ensures Replay(slots, changed) == SetSlot(slots, data)
    ensures |changed| <= 2
  {
    if Accepts(slots, data) {
      var cleared := changed[..|changed| - 1];
      var r, s := Replay(slots, changed), SetSlot(slots, data);
      forall k ensures (k in r <==> k in s) && (k in r ==> r[k] == s[k]) {
        ReplayBlanks(slots, cleared, k);
        if Blank(k) in cleared { ListedIsCleared(slots, data, cleared, slots.Keys, k); }
      }
      SameMap(r, s);
      if |cleared| >= 2 {
        TwoClearedIsBad(slots, data, cleared, slots.Keys);
      }
    }
  }

  // ------------------------------------------------------------------ runs

  datatype Action = Set(data: SlotData) | Clear(k: int)

  function Step(slots: Slots, a: Action): Slots {
    match a
    case Set(data) => SetSlot(slots, data)
    case Clear(k) => ClearSlot(slots, k)
  }

  function Run(slots: Slots, actions: seq<Action>): Slots
    decreases |actions|
  {
    if actions == [] then slots else Run(Step(slots, actions[0]), actions[1..])
  }

  lemma {:induction false} RunFrom(slots: Slots, actions: seq<Action>)
    requires Good(slots)
    ensures Good(Run(slots, actions))
    decreases |actions|
  {
    if actions != [] {
      match actions[0] {
        case Set(data) => SetSlotKeepsGood(slots, data);
        case Clear(k) => ClearSlotKeepsGood(slots, k);
      }
      RunFrom(Step(slots, actions[0]), actions[1..]);
    }
  }

  /** After any run of bindings and clearings the keys are 0..31, every record knows its key,
      and no skill or item sits in two slots. */
  lemma RunIsGood(actions: seq<Action>)
    ensures Good(Run(Init(), actions))
  {
    RunFrom(Init(), actions);
  }

  lemma {:induction false} RunConcat(slots: Slots, first: seq<Action>, second: seq<Action>)
    ensures Run(slots, first + second) == Run(Run(slots, first), second)
    decreases |first|
  {
    if first == [] {
      assert first + second == second;
    } else {
      assert (first + second)[1..] == first[1..] + second;
      RunConcat(Step(slots, first[0]), first[1..], second);
    }
  }

  /** The action writes to the slot of a binding, or binds the same target somewhere. */
  predicate Concerns(a: Action, data: SlotData) {
    match a
    case Set(d) => d.slotIndex == data.slotIndex || (d.kind == data.kind && d.refId == data.refId)
    case Clear(k) => k == data.slotIndex
  }

  lemma {:induction false} KeptUntilConcerned(slots: Slots, data: SlotData, after: seq<Action>)
    requires data.slotIndex in slots && slots[data.slotIndex] == data
    requires forall a :: a in after ==> !Concerns(a, data)
    ensures data.slotIndex in Run(slots, after) && Run(slots, after)[data.slotIndex] == data
    decreases |after|
  {
    if after != [] {
      assert after[0] in after;
      KeptUntilConcerned(Step(slots, after[0]), data, after[1..]);
    }
  }

  /** In any run, what is bound to one of the 32 slots stays there until the slot is written again or
      its target is bound elsewhere. */
  lemma BindingStands(before: seq<Action>, data: SlotData, after: seq<Action>)
    requires 0 <= data.slotIndex < 32 && forall a :: a in after ==> !Concerns(a, data)
    ensures var r := Run(Init(), before + [Set(data)] + after);
      data.slotIndex in r && r[data.slotIndex] == data
  {
    RunIsGood(before);
    RunConcat(Init(), before + [Set(data)], after);
    RunConcat(Init(), before, [Set(data)]);
    var slots := SetSlot(Run(Init(), before), data);
    assert Run(Run(Init(), before), [Set(data)]) == slots;
    KeptUntilConcerned(slots, data, after);
  }

  /** A binding that the table accepts is found where it was put, and nowhere else. */
  lemma SetSlotMovesTarget(slots: Slots, data: SlotData, k: int)
    requires Good(slots) && Accepts(slots, data) && (data.kind.Skill? || data.kind.Item?)
    ensures var r := SetSlot(slots, data);
      k in r && IsSameTarget(r[k], data) <==> k == data.slotIndex
  {
  }

  /** What a binding does slot by slot: its slot gets the record, any other slot bound to the same skill
      or item becomes blank, and slots bound to something of another kind or with another id stay as
      they were. A binding to a slot that does not exist changes nothing. */
  lemma SetSlotExact(slots: Slots, data: SlotData)
    ensures var r := SetSlot(slots, data);
      if data.slotIndex !in slots || data.slotIndex < 0 then r == slots
      else
        && r.Keys == slots.Keys && r[data.slotIndex] == data
        && forall k :: k in slots && k != data.slotIndex ==>
             if data.kind in {Skill, Item} && slots[k].kind == data.kind && slots[k].refId == data.refId
             then r[k] == SlotData(k, NoType, 0, 0, 0, 0)
             else r[k] == slots[k]
  {
  }

  /** Clearing blanks one slot. */
  lemma ClearSlotExact(slots: Slots, k: int)
    ensures var r := ClearSlot(slots, k);
      && r.Keys == slots.Keys
      && (forall j :: j in slots && j != k ==> r[j] == slots[j])
      && (k in slots ==> r[k] == SlotData(k, NoType, 0, 0, 0, 0))
  {
  }

  /** Clearing the slot a target was bound to leaves it bound nowhere. */
  lemma ClearForgetsTarget(slots: Slots, data: SlotData, k: int)
    requires Good(slots) && Accepts(slots, data) && (data.kind.Skill? || data.kind.Item?)
    ensures var r := ClearSlot(SetSlot(slots, data), data.slotIndex);
      k in r ==> !IsSameTarget(r[k], data)
  {
    SetSlotMovesTarget(slots, data, k);
  }
}

/** QuickSlotManager; the loop visits the hash table in an unspecified order. */
module QuickSlotManagers {
  import opened Prelude
  import Q = QuickSlots

  class QuickSlotManager {
    var slots: Q.Slots

    constructor ()
      ensures slots == Q.Init() && Q.Good(slots)
    {
      slots := map[];
      new;
      for i := 0 to 32
        invariant forall k :: k in slots <==> 0 <= k < i
        invariant forall k :: k in slots ==> slots[k] == Q.Blank(k)
      {
        slots := slots[i := Q.Blank(i)];
      }
      SameMap(slots, Q.Init());
    }

    method SetSlot(data: Q.SlotData) returns (changed: seq<Q.SlotData>)
      modifies this
      ensures slots == Q.SetSlot(old(slots), data)
      ensures Q.IsDelta(old(slots), data, changed)
    {
      changed := [];
      if data.slotIndex < 0 { return; }
      if data.slotIndex !in slots { return; }
      var todo := slots.Keys;
      while todo != {}
        invariant todo <= old(slots).Keys
        invariant forall k :: k in slots <==> k in old(slots)
        invariant forall k :: k in slots ==>
          slots[k] == if k !in todo && Q.IsCleared(old(slots), data, k) then Q.Blank(k) else old(slots)[k]
        invariant Q.ListsCleared(old(slots), data, changed, old(slots).Keys - todo)
      {
        SomeElement(todo);
        var k :| k in todo;
        todo := todo - {k};
        if k == data.slotIndex { continue; }
        if Q.IsSameTarget(slots[k], data) {
          slots := slots[k := Q.Blank(k)];
          changed := changed + [Q.Blank(k)];
        }
      }
      slots := slots[data.slotIndex := data];
      SameMap(slots, Q.SetSlot(old(slots), data));
      ghost var cleared := changed;
      changed := changed + [data];
      assert changed[..|changed| - 1] == cleared;
    }

    method ClearSlot(k: int)
      modifies this
      ensures slots == Q.ClearSlot(old(slots), k)
    {
      if k !in slots { return; }
      slots := slots[k := Q.Blank(k)];
    }
  }
}
