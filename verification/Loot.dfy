/** What kills leave on the ground: the life cycle of the monsters together with drop selection and
    spawning of drops. */
module Loot {
  import opened Prelude
  import opened Leveling
  import opened GroundDrops
  import opened DropTable
  import L = MonsterLife

  /** The tables loaded at start and the random engine. */
  datatype Rules = Rules(table: LevelTable, commonGroups: map<string, DropGroup>, uniqueGroups: map<string, DropGroup>,
                         rng: Random)

  /** DropManager::SetDropItem with its two lookups: the results and the engine's new position. */
  function Roll(rules: Rules, kind: L.Kind, tick: nat): (seq<DropResult>, nat) {
    if kind.commonGroup in rules.commonGroups && kind.uniqueGroup in rules.uniqueGroups then
      var draws := SetDropItem(rules.commonGroups[kind.commonGroup], rules.uniqueGroups[kind.uniqueGroup], rules.rng, tick);
      (Results(draws.picks), draws.tick)
    else ([], tick)
  }

  /** What one kill left and where in the stream of random numbers its selection began, kept to state
      properties of whole runs. */
  datatype Spoils = Spoils(n: nat, killer: int, at: int, tick: nat, items: seq<DropResult>)

  datatype Map = Map(field: L.Field, ground: Ground, tick: nat, spoils: seq<Spoils>)

  /** One entry of ResolveSkillHit. */
  function Strike(m: Map, rules: Rules, attacker: int, n: nat, damage: int, now: int): Map
    requires attacker in m.field.stats && n < |m.field.monsters|
  {
    var field := L.Strike(m.field, rules.table, attacker, n, damage, now);
    if !L.OnDamaged(m.field.monsters[n], attacker, damage, now).0 then m.(field := field)
    else
      var hit := field.monsters[n];
      var (items, tick) := Roll(rules, hit.kind, m.tick);
      Map(field, Spawn(m.ground, items, hit.x, hit.y, hit.lastAttacker, now), tick,
          m.spoils + [Spoils(n, attacker, now, m.tick, items)])
  }

  function Step(m: Map, rules: Rules, a: L.Action): Map {
    match a
    case Hit(attacker, n, damage, now) =>
      if attacker in m.field.stats && n < |m.field.monsters| then Strike(m, rules, attacker, n, damage, now) else m
    case _ => m.(field := L.Step(m.field, rules.table, a))
  }

  function Run(m: Map, rules: Rules, actions: seq<L.Action>): Map
    decreases |actions|
  {
    if actions == [] then m else Step(Run(m, rules, actions[..|actions| - 1]), rules, actions[|actions| - 1])
  }

  /** What a killing blow leaves lies where the monster stood and belongs to the killer; any other
      blow leaves nothing. */
  lemma KillerOwnsDrops(m: Map, rules: Rules, attacker: int, n: nat, damage: int, now: int)
    requires attacker in m.field.stats && n < |m.field.monsters|
    requires forall k :: k in m.ground.drops ==> k < m.ground.nextId
    ensures var m' := Strike(m, rules, attacker, n, damage, now); var target := m.field.monsters[n];
      var killed := target.alive && !target.deadRequest && damage > 0 && damage >= target.hp;
      && |m'.spoils| == |m.spoils| + (if killed then 1 else 0)
      && (!killed ==> m'.ground == m.ground && m'.tick == m.tick)
      && (killed ==>
            Lie(m'.ground.drops, m.ground.nextId, m'.spoils[|m.spoils|].items, target.x, target.y, Some(attacker), now))
  {
    var m' := Strike(m, rules, attacker, n, damage, now);
    if L.OnDamaged(m.field.monsters[n], attacker, damage, now).0 {
      var hit := m'.field.monsters[n];
      var items := Roll(rules, hit.kind, m.tick).0;
      SpawnedLie(m.ground, items, hit.x, hit.y, Some(attacker), now);
      hide Roll, Spawn, Lie, AddExp;
    }
  }

  // ------------------------------------------------------------------ what comes out of a roll

  /** The result is one that an entry of the group can produce. */
  ghost predicate FromGroup(group: DropGroup, result: DropResult) {
    exists k :: 0 <= k < |group.entries| && Produces(group.entries[k], result)
  }

  lemma SelectionIsFromGroup(group: DropGroup, rng: Random, tick: nat)
    ensures forall p :: p in SelectDropItem(group, rng, tick).picks ==> FromGroup(group, p.result)
  {
    if GroupOk(group) {
      var n := Uniform(group.minDrop, group.maxDrop, rng(tick));
      PicksAreLegal(group.entries, group.entries, Positions(|group.entries|), group.allowDuplicate, n, rng, tick + 1);
    }
  }

  /** The items are a full selection from the common group and then a full selection from the unique
      one, in the numbers that the random numbers from tick on give. */
  ghost predicate FullSelection(a: DropGroup, b: DropGroup, rng: Random, tick: nat, items: seq<DropResult>)
    requires Sane(a) && Sane(b)
  {
    var k := Due(a, Drawn(a, rng, tick));
    && |items| == k + Due(b, Drawn(b, rng, tick + 1 + 2 * k))
    && Selected(a, items[..k])
    && Selected(b, items[k..])
  }

  /** Results of entries of the group, of pairwise different ones if it allows no duplicates. */
  ghost predicate Selected(g: DropGroup, items: seq<DropResult>) {
    exists picks: seq<Pick> :: IsSelectionOf(g, picks, items)
  }

  ghost predicate IsSelectionOf(g: DropGroup, picks: seq<Pick>, items: seq<DropResult>) {
    && Results(picks) == items && (!g.allowDuplicate ==> Distinct(picks))
    && forall k :: 0 <= k < |picks| ==> picks[k].pos < |g.entries| && Produces(g.entries[picks[k].pos], picks[k].result)
  }

  /** What a kill may leave: nothing if a group is unknown, otherwise items of the two groups, and a
      full selection from both if they are sane. */
  ghost predicate Legal(rules: Rules, kind: L.Kind, tick: nat, items: seq<DropResult>) {
    if kind.commonGroup in rules.commonGroups && kind.uniqueGroup in rules.uniqueGroups then
      var a, b := rules.commonGroups[kind.commonGroup], rules.uniqueGroups[kind.uniqueGroup];
      && (forall r :: r in items ==> FromGroup(a, r) || FromGroup(b, r))
      && (Sane(a) && Sane(b) ==> FullSelection(a, b, rules.rng, tick, items))
    else items == []
  }

  lemma SaneRollIsFull(a: DropGroup, b: DropGroup, rng: Random, tick: nat)
    requires Sane(a) && Sane(b)
    ensures FullSelection(a, b, rng, tick, Results(SetDropItem(a, b, rng, tick).picks))
  {
    SetDropItemExact(a, b, rng, tick);
    var picks := SetDropItem(a, b, rng, tick).picks;
    hide SetDropItem, Due, Drawn, Sane;
    var k := Due(a, Drawn(a, rng, tick));
    assert Results(picks)[..k] == Results(picks[..k]) && Results(picks)[k..] == Results(picks[k..]);
    assert IsSelectionOf(a, picks[..k], Results(picks)[..k]);
    assert IsSelectionOf(b, picks[k..], Results(picks)[k..]);
  }

  lemma RollIsFromGroups(a: DropGroup, b: DropGroup, rng: Random, tick: nat)
    ensures forall r :: r in Results(SetDropItem(a, b, rng, tick).picks) ==> FromGroup(a, r) || FromGroup(b, r)
  {
    SelectionIsFromGroup(a, rng, tick);
    SelectionIsFromGroup(b, rng, SelectDropItem(a, rng, tick).tick);
    hide SelectDropItem, FromGroup;
    var picks := SetDropItem(a, b, rng, tick).picks;
    forall r | r in Results(picks) ensures FromGroup(a, r) || FromGroup(b, r) {
      var k :| 0 <= k < |picks| && Results(picks)[k] == r;
      assert picks[k] in picks;
    }
  }

  lemma RollIsLegal(rules: Rules, kind: L.Kind, tick: nat)
    ensures Legal(rules, kind, tick, Roll(rules, kind, tick).0)
    ensures Roll(rules, kind, tick).1 >= tick + 2 * |Roll(rules, kind, tick).0|
  {
    if kind.commonGroup in rules.commonGroups && kind.uniqueGroup in rules.uniqueGroups {
      var a, b := rules.commonGroups[kind.commonGroup], rules.uniqueGroups[kind.uniqueGroup];
      RollIsFromGroups(a, b, rules.rng, tick);
      SelectionIsLegal(a, rules.rng, tick);
      SelectionIsLegal(b, rules.rng, SelectDropItem(a, rules.rng, tick).tick);
      if Sane(a) && Sane(b) { SaneRollIsFull(a, b, rules.rng, tick); }
      hide SelectDropItem, FromGroup, FullSelection, Sane;
    }
  }

  // ------------------------------------------------------------------ runs

  /** The kills of a log, in order. */
  function Kills(log: seq<L.Event>): seq<(nat, int, int)> {
    if log == [] then []
    else
      var e := log[|log| - 1];
      Kills(log[..|log| - 1]) + if e.Died? then [(e.n, e.killer, e.at)] else []
  }

  function SpoilsOf(spoils: seq<Spoils>): (r: seq<(nat, int, int)>)
    ensures |r| == |spoils|
  {
    seq(|spoils|, k requires 0 <= k < |spoils| => (spoils[k].n, spoils[k].killer, spoils[k].at))
  }

  ghost function SpoilsTotal(spoils: seq<Spoils>, i: int): int {
    if spoils == [] then 0
    else SpoilsTotal(spoils[..|spoils| - 1], i) + ListTotal(spoils[|spoils| - 1].items, i)
  }

  ghost predicate IdsBelow(g: Ground) {
    forall k :: k in g.drops ==> k < g.nextId && g.drops[k].dropId == k
  }

  /** Each selection ends before the next one begins, and the last one before tick. */
  ghost predicate NumbersUsedOnce(spoils: seq<Spoils>, tick: nat) {
    && (forall k :: 0 <= k < |spoils| ==> spoils[k].tick + 2 * |spoils[k].items| <= tick)
    && (forall j, k :: 0 <= j < k < |spoils| ==> spoils[j].tick + 2 * |spoils[j].items| <= spoils[k].tick)
  }

  /** One selection per kill, made with random numbers of its own, all of it legal, all of it on the
      ground. */
  ghost predicate Earned(m: Map, m0: Map, rules: Rules) {
    && IdsBelow(m.ground)
    && SpoilsOf(m.spoils) == Kills(m.field.log)
    && (forall k :: 0 <= k < |m.spoils| ==>
          m.spoils[k].n < |m0.field.monsters|
          && Legal(rules, m0.field.monsters[m.spoils[k].n].kind, m.spoils[k].tick, m.spoils[k].items))
    && NumbersUsedOnce(m.spoils, m.tick)
    && (forall i :: OnGround(m.ground.drops, i) == OnGround(m0.ground.drops, i) + SpoilsTotal(m.spoils, i))
  }

  lemma KillsStep(log: seq<L.Event>, e: L.Event)
    ensures Kills(log + [e]) == Kills(log) + if e.Died? then [(e.n, e.killer, e.at)] else []
  {
    assert (log + [e])[..|log|] == log;
  }

  lemma SpoilsStep(spoils: seq<Spoils>, s: Spoils, i: int)
    ensures SpoilsOf(spoils + [s]) == SpoilsOf(spoils) + [(s.n, s.killer, s.at)]
    ensures SpoilsTotal(spoils + [s], i) == SpoilsTotal(spoils, i) + ListTotal(s.items, i)
  {
    assert (spoils + [s])[..|spoils|] == spoils;
  }

  /** The map's own log of monsters and stats does not depend on the drops. */
  lemma {:induction false} SameField(m: Map, rules: Rules, actions: seq<L.Action>)
    ensures Run(m, rules, actions).field == L.Run(m.field, rules.table, actions)
    decreases |actions|
  {
    if actions != [] { SameField(m, rules, actions[..|actions| - 1]); }
  }

  /** One more kill with its items. */
  lemma KillEarns(m: Map, m0: Map, rules: Rules, m': Map, s: Spoils, x: real, y: real, owner: Option<int>)
    requires Earned(m, m0, rules) && s.n < |m0.field.monsters|
    requires Legal(rules, m0.field.monsters[s.n].kind, s.tick, s.items)
    requires s.tick == m.tick && m'.tick >= s.tick + 2 * |s.items|
    requires m'.field.log == m.field.log + [L.Died(s.n, s.killer, s.at)] && m'.spoils == m.spoils + [s]
    requires m'.ground == Spawn(m.ground, s.items, x, y, owner, s.at)
    ensures Earned(m', m0, rules)
  {
    SpawnIds(m.ground, s.items, x, y, owner, s.at);
    KillsStep(m.field.log, L.Died(s.n, s.killer, s.at));
    SpoilsStep(m.spoils, s, 0);
    hide Spawn, Legal, Kills, SpoilsOf, OnGround, SpoilsTotal;
    forall i ensures OnGround(m'.ground.drops, i) == OnGround(m0.ground.drops, i) + SpoilsTotal(m'.spoils, i) {
      SpawnTotal(m.ground, s.items, x, y, owner, s.at, i);
      SpoilsStep(m.spoils, s, i);
    }
  }

  lemma StrikeEarns(m: Map, m0: Map, rules: Rules, attacker: int, n: nat, damage: int, now: int)
    requires Earned(m, m0, rules) && L.Inv(m.field, m0.field, rules.table)
    requires attacker in m.field.stats && n < |m.field.monsters|
    ensures Earned(Strike(m, rules, attacker, n, damage, now), m0, rules)
  {
    assert L.MonsterAgrees(m.field, m0.field, n);
    var m' := Strike(m, rules, attacker, n, damage, now);
    if L.OnDamaged(m.field.monsters[n], attacker, damage, now).0 {
      var hit := m'.field.monsters[n];
      hide Earned, Spawn, Roll, Legal, L.Inv, L.MonsterAgrees;
      var items := Roll(rules, hit.kind, m.tick).0;
      RollIsLegal(rules, hit.kind, m.tick);
      KillEarns(m, m0, rules, m', Spoils(n, attacker, now, m.tick, items), hit.x, hit.y, hit.lastAttacker);
    }
  }

  lemma OtherStepEarns(m: Map, m0: Map, rules: Rules, a: L.Action)
    requires Earned(m, m0, rules) && !a.Hit?
    ensures Earned(Step(m, rules, a), m0, rules)
  {
    if a.Tick? && a.n < |m.field.monsters| {
      KillsStep(m.field.log, L.Respawned(a.n, a.now));
      assert Kills(m.field.log) + [] == Kills(m.field.log);
    }
  }

  /** Over every run of hits, respawn checks and moves: exactly one drop selection is made for each
      death, in the order of the deaths, with items that the groups of the dead monster allow, and
      the ground holds what it held at first plus these items. */
  lemma {:induction false} OneSelectionPerDeath(m0: Map, rules: Rules, actions: seq<L.Action>)
    requires L.Fresh(m0.field) && IdsBelow(m0.ground) && m0.spoils == []
    ensures Earned(Run(m0, rules, actions), m0, rules)
    decreases |actions|
  {
    if actions != [] {
      var before, a := actions[..|actions| - 1], actions[|actions| - 1];
      OneSelectionPerDeath(m0, rules, before);
      SameField(m0, rules, before);
      L.OneRewardPerLife(m0.field, rules.table, before);
      var m := Run(m0, rules, before);
      hide Earned, L.Inv;
      match a
      case Hit(attacker, n, damage, now) =>
        if attacker in m.field.stats && n < |m.field.monsters| { StrikeEarns(m, m0, rules, attacker, n, damage, now); }
      case _ => OtherStepEarns(m, m0, rules, a);
    }
  }
}
