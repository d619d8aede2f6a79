/** Whole runs on one map: items are spawned, picked up, used, moved between slots and cleaned up,
    by any players in any order. A log is kept to state what a run conserves. */
module DropRuns {
  import opened Prelude
  import opened GroundDrops
  import S = Slots

  /** Gained is what an addition, or a pickup that failed, has stored in the bags. */
  datatype Event =
    | Spawned(items: seq<DropResult>)
    | Collected(dropId: int, player: int, itemId: int, count: int)
    | Gained(player: int, itemId: int, count: int)
    | Used(player: int, itemId: int, count: int)
    | Moved(player: int)
    | Swept(gone: Drops)

  datatype Field = Field(ground: Ground, bags: map<int, Bags>, log: seq<Event>)

  datatype Action =
    | DoSpawn(items: seq<DropResult>, x: real, y: real, owner: Option<int>, now: int)
    | DoPickup(p: Picker, dropId: int)
    | DoExpire(now: int)
    | DoAdd(player: int, itemId: int, count: int)
    | DoRemove(player: int, ty: int, pos: int, itemId: int, count: int)
    | DoMove(player: int, ty: int, fromPos: int, toPos: int)

  /** One call; those the code refuses from the start change nothing. */
  function Step(w: Field, catalog: Catalog, a: Action): Field
    requires CatalogOk(catalog)
  {
    match a
    case DoSpawn(items, x, y, owner, now) =>
      w.(ground := Spawn(w.ground, items, x, y, owner, now), log := w.log + [Spawned(items)])
    case DoPickup(p, dropId) =>
      if p.id in w.bags && MayPick(w.ground, p, dropId) then PickupStep(w, catalog, p, dropId) else w
    case DoExpire(now) =>
      w.(ground := Expire(w.ground, now), log := w.log + [Swept(Expired(w.ground, now))])
    case DoAdd(p, itemId, count) =>
      if p !in w.bags then w
      else w.(bags := w.bags[p := AddToBags(w.bags[p], catalog, itemId, count).bags],
              log := w.log + [Gained(p, itemId, Fits(w.bags[p], catalog, itemId, count))])
    case DoRemove(p, ty, pos, itemId, count) =>
      if p !in w.bags || !CanRemoveFromBags(w.bags[p], ty, pos, itemId, count) then w
      else w.(bags := w.bags[p := RemoveFromBags(w.bags[p], ty, pos, itemId, count)],
              log := w.log + [Used(p, itemId, count)])
    case DoMove(p, ty, fromPos, toPos) =>
      if p !in w.bags then w
      else w.(bags := w.bags[p := MoveInBags(w.bags[p], ty, fromPos, toPos)], log := w.log + [Moved(p)])
  }

  function PickupStep(w: Field, catalog: Catalog, p: Picker, dropId: int): Field
    requires CatalogOk(catalog) && p.id in w.bags && MayPick(w.ground, p, dropId)
  {
    var d := w.ground.drops[dropId];
    var r := Pickup(w.ground, w.bags[p.id], catalog, p, dropId);
    Field(r.ground, w.bags[p.id := r.bags], w.log +
      [if r.ok then Collected(dropId, p.id, d.itemId, d.count)
       else Gained(p.id, d.itemId, Fits(w.bags[p.id], catalog, d.itemId, d.count))])
  }

  function Run(w: Field, catalog: Catalog, actions: seq<Action>): Field
    requires CatalogOk(catalog)
    decreases |actions|
  {
    if actions == [] then w else Step(Run(w, catalog, actions[..|actions| - 1]), catalog, actions[|actions| - 1])
  }

  /** What an event puts on the ground. */
  ghost function OntoGround(e: Event, i: int): int {
    match e
    case Spawned(items) => ListTotal(items, i)
    case Collected(_, _, itemId, count) => if itemId == i then -count else 0
    case Swept(gone) => -OnGround(gone, i)
    case _ => 0
  }

  /** What an event puts into player p's bags. */
  ghost function IntoBags(e: Event, p: int, i: int): int {
    match e
    case Collected(_, player, itemId, count) => if player == p && itemId == i then count else 0
    case Gained(player, itemId, count) => if player == p && itemId == i then count else 0
    case Used(player, itemId, count) => if player == p && itemId == i then -count else 0
    case _ => 0
  }

  ghost function GroundBook(log: seq<Event>, i: int): int {
    if log == [] then 0 else GroundBook(log[..|log| - 1], i) + OntoGround(log[|log| - 1], i)
  }

  ghost function BagBook(log: seq<Event>, p: int, i: int): int {
    if log == [] then 0 else BagBook(log[..|log| - 1], p, i) + IntoBags(log[|log| - 1], p, i)
  }

  lemma BookStep(log: seq<Event>, e: Event, p: int, i: int)
    ensures GroundBook(log + [e], i) == GroundBook(log, i) + OntoGround(e, i)
    ensures BagBook(log + [e], p, i) == BagBook(log, p, i) + IntoBags(e, p, i)
  {
    assert (log + [e])[..|log|] == log;
  }

  /** What a call does is logged: a spawn and a clean-up always; a pickup, by a player with bags who may
      pick the drop, as collected if all of it fits and otherwise as the part that does; the
      other calls if there is such a player, and a removal only if the slot covers it. */
  lemma StepIsLogged(w: Field, catalog: Catalog, a: Action)
    requires CatalogOk(catalog)
    requires a.DoPickup? && a.dropId in w.ground.drops ==> w.ground.drops[a.dropId].itemId != 0
    ensures var log := Step(w, catalog, a).log;
      match a
      case DoSpawn(items, _, _, _, _) => log == w.log + [Spawned(items)]
      case DoExpire(now) => log == w.log + [Swept(Expired(w.ground, now))]
      case DoPickup(p, dropId) =>
        if p.id !in w.bags || !MayPick(w.ground, p, dropId) then log == w.log
        else
          var d := w.ground.drops[dropId]; var fits := Fits(w.bags[p.id], catalog, d.itemId, d.count);
          log == w.log + [if d.count > 0 && fits == d.count then Collected(dropId, p.id, d.itemId, d.count)
                          else Gained(p.id, d.itemId, fits)]
      case DoAdd(p, itemId, count) =>
        log == if p in w.bags then w.log + [Gained(p, itemId, Fits(w.bags[p], catalog, itemId, count))] else w.log
      case DoRemove(p, ty, pos, itemId, count) =>
        log == if p in w.bags && CanRemoveFromBags(w.bags[p], ty, pos, itemId, count) then w.log + [Used(p, itemId, count)]
               else w.log
      case DoMove(p, _, _, _) => log == if p in w.bags then w.log + [Moved(p)] else w.log
  {
    if a.DoPickup? && a.p.id in w.bags && MayPick(w.ground, a.p, a.dropId) {
      PickupConservesIff(w.ground, w.bags[a.p.id], catalog, a.p, a.dropId);
      hide Pickup, Fits, MayPick;
    }
  }

  function SpawnEvents(log: seq<Event>): seq<seq<DropResult>> {
    if log == [] then []
    else SpawnEvents(log[..|log| - 1]) + if log[|log| - 1].Spawned? then [log[|log| - 1].items] else []
  }

  function SpawnCalls(actions: seq<Action>): seq<seq<DropResult>> {
    if actions == [] then []
    else
      SpawnCalls(actions[..|actions| - 1])
      + if actions[|actions| - 1].DoSpawn? then [actions[|actions| - 1].items] else []
  }

  lemma StepLogsSpawn(w: Field, catalog: Catalog, a: Action)
    requires CatalogOk(catalog)
    ensures SpawnEvents(Step(w, catalog, a).log) == SpawnEvents(w.log) + if a.DoSpawn? then [a.items] else []
  {
    hide AddToBags, Fits, RemoveFromBags, CanRemoveFromBags, MoveInBags, Spawn, Expire, Expired, Pickup, MayPick;
    var log := Step(w, catalog, a).log;
    assert SpawnEvents(w.log) + [] == SpawnEvents(w.log);
    if log != w.log { assert log[..|log| - 1] == w.log; }
  }

  /** What the log of a run says was spawned is what the calls of the run asked for, in order. */
  lemma {:induction false} SpawnsAreLogged(w: Field, catalog: Catalog, actions: seq<Action>)
    requires CatalogOk(catalog)
    ensures SpawnEvents(Run(w, catalog, actions).log) == SpawnEvents(w.log) + SpawnCalls(actions)
    decreases |actions|
  {
    hide Step;
    if actions == [] {
      assert SpawnEvents(w.log) + [] == SpawnEvents(w.log);
    } else {
      var before, a := actions[..|actions| - 1], actions[|actions| - 1];
      SpawnsAreLogged(w, catalog, before);
      StepLogsSpawn(Run(w, catalog, before), catalog, a);
      Regroup(SpawnEvents(w.log), SpawnCalls(before), if a.DoSpawn? then [a.items] else []);
    }
  }

  // ------------------------------------------------------------------ drop ids

  /** Drop ids on the ground are below the counter, and a collected id is gone for good. */
  ghost predicate IdsOk(g: Ground, log: seq<Event>) {
    && (forall k :: k in g.drops ==> k < g.nextId && g.drops[k].dropId == k)
    && (forall n :: 0 <= n < |log| && log[n].Collected? ==> log[n].dropId < g.nextId && log[n].dropId !in g.drops)
    && (forall m, n :: 0 <= m < n < |log| && log[m].Collected? && log[n].Collected? ==> log[m].dropId != log[n].dropId)
  }

  lemma IdsAfterSpawn(g: Ground, log: seq<Event>, items: seq<DropResult>, x: real, y: real, owner: Option<int>,
                      now: int)
    requires IdsOk(g, log)
    ensures IdsOk(Spawn(g, items, x, y, owner, now), log + [Spawned(items)])
  {
    SpawnIds(g, items, x, y, owner, now);
    hide Spawn;
  }

  lemma IdsAfterCollect(g: Ground, log: seq<Event>, e: Event)
    requires IdsOk(g, log) && e.Collected? && e.dropId in g.drops
    ensures IdsOk(g.(drops := g.drops - {e.dropId}), log + [e])
  {
  }

  /** Any step that collects nothing and puts nothing new on the ground. */
  lemma IdsAfterOther(g: Ground, g': Ground, log: seq<Event>, e: Event)
    requires IdsOk(g, log) && !e.Collected? && g'.nextId == g.nextId
    requires forall k :: k in g'.drops ==> k in g.drops && g'.drops[k].dropId == g.drops[k].dropId
    ensures IdsOk(g', log + [e])
  {
  }

  lemma StepIds(w: Field, catalog: Catalog, a: Action)
    requires CatalogOk(catalog) && IdsOk(w.ground, w.log)
    ensures IdsOk(Step(w, catalog, a).ground, Step(w, catalog, a).log)
  {
    var w' := Step(w, catalog, a);
    if w'.log != w.log {
      var e := w'.log[|w.log|];
      assert w'.log == w.log + [e];
      hide IdsOk, AddToBags, Fits, RemoveFromBags, MoveInBags, Spawn;
      match a
      case DoSpawn(items, x, y, owner, now) => IdsAfterSpawn(w.ground, w.log, items, x, y, owner, now);
      case DoPickup(p, dropId) =>
        if e.Collected? { IdsAfterCollect(w.ground, w.log, e); }
        else { IdsAfterOther(w.ground, w.ground, w.log, e); }
      case _ => IdsAfterOther(w.ground, w'.ground, w.log, e);
    }
  }

  // ------------------------------------------------------------------ balances

  /** Ground and bags of item i say what the log says. */
  ghost predicate Balanced(w: Field, w0: Field, i: int) {
    && OnGround(w.ground.drops, i) == OnGround(w0.ground.drops, i) + GroundBook(w.log, i)
    && w.bags.Keys == w0.bags.Keys
    && forall p :: p in w.bags ==> Carried(w.bags[p], i) == Carried(w0.bags[p], i) + BagBook(w.log, p, i)
  }

  /** Every step is booked by one event, and touches the bags of at most one player. */
  lemma Booked(w: Field, w': Field, w0: Field, e: Event, player: int, i: int)
    requires Balanced(w, w0, i) && w'.log == w.log + [e] && w'.bags.Keys == w.bags.Keys
    requires OnGround(w'.ground.drops, i) == OnGround(w.ground.drops, i) + OntoGround(e, i)
    requires forall p :: p in w.bags && p != player ==> w'.bags[p] == w.bags[p] && IntoBags(e, p, i) == 0
    requires player in w.bags ==> Carried(w'.bags[player], i) == Carried(w.bags[player], i) + IntoBags(e, player, i)
    ensures Balanced(w', w0, i)
  {
    BookStep(w.log, e, player, i);
    forall p | p in w'.bags ensures Carried(w'.bags[p], i) == Carried(w0.bags[p], i) + BagBook(w'.log, p, i) {
      BookStep(w.log, e, p, i);
    }
  }

  lemma PickupBalances(w: Field, w0: Field, catalog: Catalog, p: Picker, dropId: int, i: int)
    requires CatalogOk(catalog) && Balanced(w, w0, i) && i != 0
    requires p.id in w.bags && MayPick(w.ground, p, dropId)
    ensures Balanced(PickupStep(w, catalog, p, dropId), w0, i)
  {
    var w' := PickupStep(w, catalog, p, dropId);
    var d, e := w.ground.drops[dropId], w'.log[|w.log|];
    AddToBagsExact(w.bags[p.id], catalog, d.itemId, d.count, i);
    MapSumSplit(w.ground.drops, DropShare(i), dropId);
    hide Balanced, AddToBags, Fits, Carried;
    Booked(w, w', w0, e, p.id, i);
  }

  lemma GroundStepBalances(w: Field, w0: Field, catalog: Catalog, a: Action, i: int)
    requires CatalogOk(catalog) && IdsOk(w.ground, w.log) && Balanced(w, w0, i) && (a.DoSpawn? || a.DoExpire?)
    ensures Balanced(Step(w, catalog, a), w0, i)
  {
    var w' := Step(w, catalog, a);
    var e := w'.log[|w.log|];
    if a.DoSpawn? {
      SpawnTotal(w.ground, a.items, a.x, a.y, a.owner, a.now, i);
    } else {
      ExpireTotal(w.ground, a.now, i);
    }
    hide Balanced, Spawn, Expire, Expired, OnGround, Carried;
    Booked(w, w', w0, e, 0, i);
  }

  lemma AddBalances(w: Field, w0: Field, catalog: Catalog, a: Action, i: int)
    requires CatalogOk(catalog) && Balanced(w, w0, i) && i != 0 && a.DoAdd? && a.player in w.bags
    ensures Balanced(Step(w, catalog, a), w0, i)
  {
    AddToBagsExact(w.bags[a.player], catalog, a.itemId, a.count, i);
    hide Balanced, AddToBags, Fits, Carried;
    Booked(w, Step(w, catalog, a), w0, Step(w, catalog, a).log[|w.log|], a.player, i);
  }

  lemma RemoveBalances(w: Field, w0: Field, catalog: Catalog, a: Action, i: int)
    requires CatalogOk(catalog) && Balanced(w, w0, i) && a.DoRemove? && a.player in w.bags
    requires CanRemoveFromBags(w.bags[a.player], a.ty, a.pos, a.itemId, a.count)
    ensures Balanced(Step(w, catalog, a), w0, i)
  {
    RemoveFromBagsExact(w.bags[a.player], a.ty, a.pos, a.itemId, a.count, i);
    hide Balanced, RemoveFromBags, CanRemoveFromBags, Carried;
    Booked(w, Step(w, catalog, a), w0, Step(w, catalog, a).log[|w.log|], a.player, i);
  }

  lemma MoveBalances(w: Field, w0: Field, catalog: Catalog, a: Action, i: int)
    requires CatalogOk(catalog) && Balanced(w, w0, i) && a.DoMove? && a.player in w.bags
    ensures Balanced(Step(w, catalog, a), w0, i)
  {
    MoveInBagsKeeps(w.bags[a.player], a.ty, a.fromPos, a.toPos, i);
    hide Balanced, MoveInBags, Carried;
    Booked(w, Step(w, catalog, a), w0, Step(w, catalog, a).log[|w.log|], a.player, i);
  }

  lemma StepBalances(w: Field, w0: Field, catalog: Catalog, a: Action, i: int)
    requires CatalogOk(catalog) && IdsOk(w.ground, w.log) && Balanced(w, w0, i) && i != 0
    ensures Balanced(Step(w, catalog, a), w0, i)
  {
    var w' := Step(w, catalog, a);
    if w'.log != w.log {
      hide Balanced, PickupStep;
      match a
      case DoPickup(p, dropId) => PickupBalances(w, w0, catalog, p, dropId, i);
      case DoAdd(_, _, _) => AddBalances(w, w0, catalog, a, i);
      case DoRemove(_, _, _, _, _) => RemoveBalances(w, w0, catalog, a, i);
      case DoMove(_, _, _, _) => MoveBalances(w, w0, catalog, a, i);
      case _ => GroundStepBalances(w, w0, catalog, a, i);
    }
  }

  /** Over every run of spawns, pickups, additions, removals and moves by any players, and of
      clean-ups: no drop id is collected twice, and for every item the ground holds what was
      spawned minus what was collected or expired, while each player carries the initial amount
      plus what was collected, plus what additions and failed pickups stored, minus what was
      used. */
  lemma {:induction false} RunLedger(w0: Field, catalog: Catalog, actions: seq<Action>, i: int)
    requires CatalogOk(catalog) && i != 0 && w0.log == [] && IdsOk(w0.ground, [])
    ensures var w := Run(w0, catalog, actions);
      IdsOk(w.ground, w.log) && Balanced(w, w0, i)
    decreases |actions|
  {
    if actions != [] {
      var before := actions[..|actions| - 1];
      RunLedger(w0, catalog, before, i);
      hide IdsOk, Balanced, Step;
      StepIds(Run(w0, catalog, before), catalog, actions[|actions| - 1]);
      StepBalances(Run(w0, catalog, before), w0, catalog, actions[|actions| - 1], i);
    }
  }
}
