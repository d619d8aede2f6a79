/** Monster objects, and the loops of MapInstance that hit and respawn them. */
module Monsters {
  import opened Prelude
  import opened Leveling
  import opened GroundDrops
  import opened DropTable
  import opened DropManagers
  import opened Loot
  import L = MonsterLife
  import D = MapDrops

  class Monster {
    const kind: L.Kind
    var hp: int
    var x: real
    var y: real
    var alive: bool
    var deadRequest: bool
    var state: L.MonsterState
    var deadTime: int
    var lastAttacker: Option<int>

    ghost function Abs(): L.Monster
      reads this
    {
      L.Monster(kind, hp, x, y, alive, deadRequest, state, deadTime, lastAttacker)
    }

    constructor (k: L.Kind)
      ensures Abs() == L.Init(k)
    {
      kind, hp, x, y, alive, deadRequest, state, deadTime, lastAttacker :=
        k, k.maxHp, k.spawnX, k.spawnY, true, false, L.Patrol, 0, None;
    }

    method Dead(now: int)
      modifies this
      ensures Abs() == L.Dead(old(Abs()), now)
    {
      if alive && !deadRequest {
        deadRequest := true;
        deadTime := now;
        alive := false;
        state := L.Die;
      }
    }

    method OnDamaged(attacker: int, damage: int, now: int) returns (killed: bool)
      modifies this
      ensures (killed, Abs()) == L.OnDamaged(old(Abs()), attacker, damage, now)
    {
      if !alive || deadRequest { return false; }
      if damage <= 0 { return false; }
      lastAttacker := Some(attacker);
      state := L.Chase;
      hp := hp - damage;
      if hp <= 0 {
        hp := 0;
        Dead(now);
        return true;
      }
      killed := false;
    }

    method Reset()
      modifies this
      ensures Abs() == L.Reset(old(Abs()))
    {
      x := kind.spawnX;
      y := kind.spawnY;
      hp := kind.maxHp;
      alive := true;
      deadRequest := false;
      state := L.Idle;
      lastAttacker := None;
    }
  }

  /** What SetDrop promises is the roll of a kill. */
  lemma SetDropIsRoll(rules: Rules, kind: L.Kind, tick: nat, items: seq<DropResult>, tick': nat)
    requires if kind.commonGroup in rules.commonGroups && kind.uniqueGroup in rules.uniqueGroups then
        var r := SetDropItem(rules.commonGroups[kind.commonGroup], rules.uniqueGroups[kind.uniqueGroup], rules.rng, tick);
        Ending(r.ok, items, tick') == Finish([], r)
      else items == [] && tick' == tick
    ensures (items, tick') == Roll(rules, kind, tick)
  {
    hide SetDropItem, Results;
    if kind.commonGroup in rules.commonGroups && kind.uniqueGroup in rules.uniqueGroups {
      var r := SetDropItem(rules.commonGroups[kind.commonGroup], rules.uniqueGroups[kind.uniqueGroup], rules.rng, tick);
      assert [] + Results(r.picks) == Results(r.picks);
    }
  }

  function StrikeAll(m: Map, rules: Rules, attacker: int, hits: seq<(nat, int)>, now: int): Map
    decreases |hits|
  {
    if hits == [] then m
    else StrikeAll(Loot.Step(m, rules, L.Hit(attacker, hits[0].0, hits[0].1, now)), rules, attacker, hits[1..], now)
  }

  function ReviveFrom(w: L.Field, n: nat, now: int): L.Field
    decreases |w.monsters| - n
  {
    if n >= |w.monsters| then w else ReviveFrom(L.Revive(w, n, now), n + 1, now)
  }

  /** The hits of one skill as steps of a run. */
  function AsActions(attacker: int, hits: seq<(nat, int)>, now: int): (r: seq<L.Action>)
    ensures |r| == |hits| && forall k :: 0 <= k < |r| ==> r[k] == L.Hit(attacker, hits[k].0, hits[k].1, now)
  {
    seq(|hits|, k requires 0 <= k < |hits| => L.Hit(attacker, hits[k].0, hits[k].1, now))
  }

  lemma {:induction false} RunConcat(m: Map, rules: Rules, first: seq<L.Action>, second: seq<L.Action>)
    ensures Loot.Run(m, rules, first + second) == Loot.Run(Loot.Run(m, rules, first), rules, second)
    decreases |second|
  {
    if second == [] {
      assert first + second == first;
    } else {
      var init := second[..|second| - 1];
      RunConcat(m, rules, first, init);
      assert (first + second)[..|first + second| - 1] == first + init;
      hide Loot.Step;
    }
  }

  /** The loop over the hits is the run of its hits, so that all that is proved of runs holds for it. */
  lemma {:induction false} StrikeAllIsRun(m: Map, rules: Rules, attacker: int, hits: seq<(nat, int)>, now: int)
    ensures StrikeAll(m, rules, attacker, hits, now) == Loot.Run(m, rules, AsActions(attacker, hits, now))
    decreases |hits|
  {
    if hits != [] {
      var first: L.Action := L.Hit(attacker, hits[0].0, hits[0].1, now);
      var m1 := Loot.Step(m, rules, first);
      StrikeAllIsRun(m1, rules, attacker, hits[1..], now);
      RunConcat(m, rules, [first], AsActions(attacker, hits[1..], now));
      assert [first] + AsActions(attacker, hits[1..], now) == AsActions(attacker, hits, now);
      assert [first][..0] == [];
      assert Loot.Run(m, rules, [first][..0]) == m;
      hide Loot.Step;
    }
  }

  /** The respawn check brings back every monster that is due, in full health at its place, and leaves
      the others and all players alone. */
  lemma {:induction false} AllDueRespawn(w: L.Field, n: nat, now: int, k: nat)
    requires k < |w.monsters|
    ensures var r := ReviveFrom(w, n, now); var m := w.monsters[k];
      && |r.monsters| == |w.monsters| && r.stats == w.stats
      && (k >= n && !m.alive && m.deadRequest && now - m.deadTime >= m.kind.respawnDelay ==>
            r.monsters[k] == m.(hp := m.kind.maxHp, x := m.kind.spawnX, y := m.kind.spawnY, alive := true,
                                deadRequest := false, state := L.Idle, lastAttacker := None))
      && (k < n || m.alive || !m.deadRequest || now - m.deadTime < m.kind.respawnDelay ==> r.monsters[k] == m)
    decreases |w.monsters| - n
  {
    if n < |w.monsters| { AllDueRespawn(L.Revive(w, n, now), n + 1, now, k); }
  }

  /** The monster list is held by value, like the vector it models. */
  class MapInstance {
    const rules: Rules
    const dropManager: DropManager
    const ground: D.MapInstance
    var monsters: seq<L.Monster>
    var stats: map<int, Stat>
    ghost var log: seq<L.Event>
    ghost var spoils: seq<Spoils>

    ghost function Abs(): Map
      reads this, dropManager, ground
    {
      Map(L.Field(monsters, stats, log), ground.Abs(), dropManager.tick, spoils)
    }

    constructor (ms: seq<L.Monster>, ss: map<int, Stat>, r: Rules, d: DropManager, g: D.MapInstance)
      requires d.rng == r.rng
      ensures rules == r && dropManager == d && ground == g
      ensures Abs() == Map(L.Field(ms, ss, []), g.Abs(), d.tick, [])
    {
      monsters, stats, log, spoils := ms, ss, [], [];
      rules, dropManager, ground := r, d, g;
    }

    /** One entry of the list of hits: damage, and on a kill experience, drop selection and drops. */
    method ResolveHit(attacker: int, n: nat, damage: int, now: int)
      requires attacker in stats && n < |monsters| && dropManager.rng == rules.rng
      modifies this, dropManager, ground
      ensures Abs() == Loot.Step(old(Abs()), rules, L.Hit(attacker, n, damage, now))
    {
      hide SetDropItem, Spawn, Leveling.AddExp;
      var (killed, m) := L.OnDamaged(monsters[n], attacker, damage, now);
      monsters := monsters[n := m];
      if killed {
        stats := stats[attacker := AddExp(rules.table, stats[attacker], m.kind.exp)];
        ghost var start := dropManager.tick;
        var items := dropManager.SetDrop(rules.commonGroups, rules.uniqueGroups, m.kind.commonGroup, m.kind.uniqueGroup);
        SetDropIsRoll(rules, m.kind, start, items, dropManager.tick);
        hide Roll;
        ground.SpawnDropItem(items, m.x, m.y, m.lastAttacker, now);
        log := log + [L.Died(n, attacker, now)];
        spoils := spoils + [Spoils(n, attacker, now, start, items)];
      }
    }

    method ResolveSkillHit(attacker: int, hits: seq<(nat, int)>, now: int)
      requires attacker in stats && dropManager.rng == rules.rng
      requires forall h :: h in hits ==> h.0 < |monsters|
      modifies this, dropManager, ground
      ensures Abs() == StrikeAll(old(Abs()), rules, attacker, hits, now)
    {
      for k := 0 to |hits|
        invariant attacker in stats && |monsters| == |old(monsters)|
        invariant StrikeAll(Abs(), rules, attacker, hits[k..], now) == StrikeAll(old(Abs()), rules, attacker, hits, now)
      {
        assert hits[k..][1..] == hits[k + 1..];
        assert hits[k] in hits;
        ResolveHit(attacker, hits[k].0, hits[k].1, now);
      }
    }

    method SpawnMonster(now: int)
      modifies this
      ensures Abs() == old(Abs()).(field := ReviveFrom(old(Abs()).field, 0, now))
    {
      for n := 0 to |monsters|
        invariant |monsters| == |old(monsters)| && spoils == old(spoils)
        invariant ReviveFrom(Abs().field, n, now) == ReviveFrom(old(Abs()).field, 0, now)
      {
        if !monsters[n].alive && L.CheckRespawnTime(monsters[n], now) {
          monsters := monsters[n := L.Reset(monsters[n])];
          log := log + [L.Respawned(n, now)];
        }
      }
    }
  }
}
