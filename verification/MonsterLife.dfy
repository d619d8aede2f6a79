/** The life cycle of monsters and the rewards for killing them. */
module MonsterLife {
  import opened Prelude
  import opened Leveling

  datatype MonsterState = Idle | Patrol | Chase | Move | Die

  /** What a monster is made from: its template and its place of spawning. */
  datatype Kind = Kind(maxHp: int, exp: int, respawnDelay: int, spawnX: real, spawnY: real,
                       commonGroup: string, uniqueGroup: string)

  datatype Monster = Monster(kind: Kind, hp: int, x: real, y: real, alive: bool, deadRequest: bool, state: MonsterState,
                             deadTime: int, lastAttacker: Option<int>)

  function Init(kind: Kind): Monster {
    Monster(kind, kind.maxHp, kind.spawnX, kind.spawnY, true, false, Patrol, 0, None)
  }

  function Dead(m: Monster, now: int): Monster {
    if m.alive && !m.deadRequest then m.(deadRequest := true, deadTime := now, alive := false, state := Die) else m
  }

  /** OnDamaged: ignored on the dead and for damage that is none; true if this hit killed. */
  function OnDamaged(m: Monster, attacker: int, damage: int, now: int): (bool, Monster) {
    if !m.alive || m.deadRequest then (false, m)
    else if damage <= 0 then (false, m)
    else
      var hit := m.(lastAttacker := Some(attacker), state := Chase, hp := m.hp - damage);
      if hit.hp <= 0 then (true, Dead(hit.(hp := 0), now)) else (false, hit)
  }

  predicate CheckRespawnTime(m: Monster, now: int) {
    !m.alive && m.deadRequest && now - m.deadTime >= m.kind.respawnDelay
  }

  function Reset(m: Monster): Monster {
    m.(hp := m.kind.maxHp, x := m.kind.spawnX, y := m.kind.spawnY,
       alive := true, deadRequest := false, state := Idle, lastAttacker := None)
  }

  /** Health in range, and alive exactly with health. */
  predicate HealthAgrees(m: Monster) {
    0 <= m.hp <= m.kind.maxHp && (m.alive <==> m.hp > 0)
  }

  /** What every monster keeps; health says nothing if the template gave it none. */
  predicate Healthy(m: Monster) {
    (m.alive <==> !m.deadRequest) && (m.kind.maxHp > 0 ==> HealthAgrees(m))
  }

  /** One blow: the dead feel nothing, damage that is none does nothing, and otherwise the attacker is
      remembered and the monster either dies of it or chases him with less health. */
  lemma BlowExact(m: Monster, attacker: int, damage: int, now: int)
    ensures OnDamaged(m, attacker, damage, now) ==
      if !m.alive || m.deadRequest || damage <= 0 then (false, m)
      else if damage < m.hp then (false, m.(hp := m.hp - damage, state := Chase, lastAttacker := Some(attacker)))
      else (true, m.(hp := 0, alive := false, deadRequest := true, deadTime := now, state := Die, lastAttacker := Some(attacker)))
    ensures !m.alive || m.deadRequest ==> Dead(m, now) == m
  {
  }

  // ------------------------------------------------------------------ a series of hits

  datatype Blow = Blow(attacker: int, damage: int, now: int)

  function Suffer(m: Monster, blows: seq<Blow>): Monster
    decreases |blows|
  {
    if blows == [] then m
    else Suffer(OnDamaged(m, blows[0].attacker, blows[0].damage, blows[0].now).1, blows[1..])
  }

  /** The damage of the blows that do any. */
  function Harm(blows: seq<Blow>): nat {
    if blows == [] then 0 else Max(0, blows[0].damage) + Harm(blows[1..])
  }

  lemma {:induction false} DeadFeelNothing(m: Monster, blows: seq<Blow>)
    requires !m.alive
    ensures Suffer(m, blows) == m
    decreases |blows|
  {
    if blows != [] { DeadFeelNothing(m, blows[1..]); }
  }

  /** A monster dies in a series of blows exactly if their damage reaches its health. */
  lemma {:induction false} DamageAddsUp(m: Monster, blows: seq<Blow>)
    requires m.alive && !m.deadRequest && m.hp > 0
    ensures var r := Suffer(m, blows);
      r.hp == Max(0, m.hp - Harm(blows)) && (r.alive <==> Harm(blows) < m.hp)
    decreases |blows|
  {
    if blows != [] {
      var m1 := OnDamaged(m, blows[0].attacker, blows[0].damage, blows[0].now).1;
      if m1.alive { DamageAddsUp(m1, blows[1..]); }
      else { DeadFeelNothing(m1, blows[1..]); }
    }
  }

  // ------------------------------------------------------------------ a map full of them

  datatype Event = Died(n: nat, killer: int, at: int) | Respawned(n: nat, at: int)

  /** The monsters of a map, the stats of the players, and what happened. */
  datatype Field = Field(monsters: seq<Monster>, stats: map<int, Stat>, log: seq<Event>)

  /** One entry of ResolveSkillHit: damage, and on a kill the reward to the attacker. */
  function Strike(w: Field, table: LevelTable, attacker: int, n: nat, damage: int, now: int): Field
    requires attacker in w.stats && n < |w.monsters|
  {
    var (killed, m) := OnDamaged(w.monsters[n], attacker, damage, now);
    if !killed then w.(monsters := w.monsters[n := m])
    else
      Field(w.monsters[n := m],
            w.stats[attacker := AddExp(table, w.stats[attacker], m.kind.exp)],
            w.log + [Died(n, attacker, now)])
  }

  /** One monster of SpawnMonster. */
  function Revive(w: Field, n: nat, now: int): Field
    requires n < |w.monsters|
  {
    if !CheckRespawnTime(w.monsters[n], now) then w
    else w.(monsters := w.monsters[n := Reset(w.monsters[n])], log := w.log + [Respawned(n, now)])
  }

  /** Update moves living monsters about. */
  function Walk(w: Field, n: nat, x: real, y: real): Field
    requires n < |w.monsters|
  {
    if w.monsters[n].alive then w.(monsters := w.monsters[n := w.monsters[n].(x := x, y := y)]) else w
  }

  /** Only the living move, and moving changes nothing but the place. */
  lemma WalkExact(w: Field, n: nat, x: real, y: real)
    requires n < |w.monsters|
    ensures var r := Walk(w, n, x, y);
      && |r.monsters| == |w.monsters| && r.stats == w.stats && r.log == w.log
      && (forall k :: 0 <= k < |w.monsters| ==>
            r.monsters[k] == if k == n && w.monsters[k].alive then w.monsters[k].(x := x, y := y) else w.monsters[k])
  {
  }

  /** Any call on the map is made of these steps; out-of-range ones do nothing. */
  datatype Action =
    | Hit(attacker: int, n: nat, damage: int, now: int)
    | Tick(n: nat, now: int)
    | Roam(n: nat, x: real, y: real)

  function Step(w: Field, table: LevelTable, a: Action): Field {
    match a
    case Hit(attacker, n, damage, now) =>
      if attacker in w.stats && n < |w.monsters| then Strike(w, table, attacker, n, damage, now) else w
    case Tick(n, now) =>
      if n < |w.monsters| then Revive(w, n, now) else w
    case Roam(n, x, y) =>
      if n < |w.monsters| then Walk(w, n, x, y) else w
  }

  function Run(w: Field, table: LevelTable, actions: seq<Action>): Field
    decreases |actions|
  {
    if actions == [] then w else Step(Run(w, table, actions[..|actions| - 1]), table, actions[|actions| - 1])
  }

  // ------------------------------------------------------------------ what the log says

  function Deaths(log: seq<Event>, n: nat): nat {
    if log == [] then 0
    else Deaths(log[..|log| - 1], n) + if log[|log| - 1].Died? && log[|log| - 1].n == n then 1 else 0
  }

  function Respawns(log: seq<Event>, n: nat): nat {
    if log == [] then 0
    else Respawns(log[..|log| - 1], n) + if log[|log| - 1].Respawned? && log[|log| - 1].n == n then 1 else 0
  }

  /** When monster n died last. */
  function LastDeath(log: seq<Event>, n: nat): Option<int> {
    if log == [] then None
    else if log[|log| - 1].Died? && log[|log| - 1].n == n then Some(log[|log| - 1].at)
    else LastDeath(log[..|log| - 1], n)
  }

  /** The experience of the monsters a player killed, in order. */
  function Grants(log: seq<Event>, monsters: seq<Monster>, player: int): seq<int> {
    if log == [] then []
    else
      var e := log[|log| - 1];
      Grants(log[..|log| - 1], monsters, player) +
      if e.Died? && e.killer == player && e.n < |monsters| then [monsters[e.n].kind.exp] else []
  }

  ghost predicate RespawnsWait(log: seq<Event>, monsters: seq<Monster>) {
    forall k :: 0 <= k < |log| && log[k].Respawned? ==>
      && log[k].n < |monsters|
      && LastDeath(log[..k], log[k].n).Some?
      && log[k].at >= LastDeath(log[..k], log[k].n).value + monsters[log[k].n].kind.respawnDelay
  }

  ghost predicate MonsterAgrees(w: Field, w0: Field, n: nat)
    requires n < |w.monsters| == |w0.monsters|
  {
    var m := w.monsters[n];
    && Healthy(m) && m.kind == w0.monsters[n].kind
    && Deaths(w.log, n) == Respawns(w.log, n) + (if m.alive then 0 else 1)
    && (!m.alive ==> LastDeath(w.log, n) == Some(m.deadTime))
  }

  ghost predicate Inv(w: Field, w0: Field, table: LevelTable) {
    && |w.monsters| == |w0.monsters| && w.stats.Keys == w0.stats.Keys
    && (forall n :: 0 <= n < |w.monsters| ==> MonsterAgrees(w, w0, n))
    && RespawnsWait(w.log, w0.monsters)
    && (forall p :: p in w.stats ==> w.stats[p] == AddAll(table, w0.stats[p], Grants(w.log, w0.monsters, p)))
  }

  lemma LogStep(log: seq<Event>, e: Event, n: nat)
    ensures Deaths(log + [e], n) == Deaths(log, n) + if e.Died? && e.n == n then 1 else 0
    ensures Respawns(log + [e], n) == Respawns(log, n) + if e.Respawned? && e.n == n then 1 else 0
    ensures LastDeath(log + [e], n) == if e.Died? && e.n == n then Some(e.at) else LastDeath(log, n)
  {
    assert (log + [e])[..|log|] == log;
  }

  lemma GrantsStep(log: seq<Event>, e: Event, monsters: seq<Monster>, p: int)
    ensures Grants(log + [e], monsters, p) == Grants(log, monsters, p) +
      if e.Died? && e.killer == p && e.n < |monsters| then [monsters[e.n].kind.exp] else []
  {
    assert (log + [e])[..|log|] == log;
  }

  lemma RespawnsWaitStep(log: seq<Event>, e: Event, monsters: seq<Monster>)
    requires RespawnsWait(log, monsters)
    requires e.Respawned? ==>
      e.n < |monsters| && LastDeath(log, e.n).Some?
      && e.at >= LastDeath(log, e.n).value + monsters[e.n].kind.respawnDelay
    ensures RespawnsWait(log + [e], monsters)
  {
    var longer := log + [e];
    forall k | 0 <= k < |longer| && longer[k].Respawned?
      ensures longer[k].n < |monsters| && LastDeath(longer[..k], longer[k].n).Some?
      ensures longer[k].at >= LastDeath(longer[..k], longer[k].n).value + monsters[longer[k].n].kind.respawnDelay
    {
      assert longer[..k] == log[..k];
      if k == |log| { assert log[..k] == log; }
    }
  }

  lemma {:induction false} AddAllSnoc(table: LevelTable, s: Stat, exps: seq<int>, exp: int)
    ensures AddAll(table, s, exps + [exp]) == AddExp(table, AddAll(table, s, exps), exp)
    decreases |exps|
  {
    if exps == [] {
      assert exps + [exp] == [exp];
    } else {
      assert (exps + [exp])[1..] == exps[1..] + [exp];
      AddAllSnoc(table, AddExp(table, s, exps[0]), exps[1..], exp);
    }
  }

  lemma StrikeMonsters(w: Field, w0: Field, table: LevelTable, attacker: int, n: nat, damage: int, now: int, k: nat)
    requires |w.monsters| == |w0.monsters| && attacker in w.stats && n < |w.monsters| && k < |w.monsters|
    requires MonsterAgrees(w, w0, n) && MonsterAgrees(w, w0, k)
    ensures MonsterAgrees(Strike(w, table, attacker, n, damage, now), w0, k)
  {
    LogStep(w.log, Died(n, attacker, now), k);
  }

  lemma StrikeStats(w: Field, w0: Field, table: LevelTable, attacker: int, n: nat, damage: int, now: int, p: int)
    requires |w.monsters| == |w0.monsters| && attacker in w.stats && n < |w.monsters|
    requires MonsterAgrees(w, w0, n) && p in w.stats && p in w0.stats
    requires w.stats[p] == AddAll(table, w0.stats[p], Grants(w.log, w0.monsters, p))
    ensures var w' := Strike(w, table, attacker, n, damage, now);
      p in w'.stats && w'.stats[p] == AddAll(table, w0.stats[p], Grants(w'.log, w0.monsters, p))
  {
    var grants := Grants(w.log, w0.monsters, p);
    GrantsStep(w.log, Died(n, attacker, now), w0.monsters, p);
    AddAllSnoc(table, w0.stats[p], grants, w0.monsters[n].kind.exp);
    hide AddAll, AddExp, Grants;
    assert grants + [] == grants;
  }

  lemma StrikeKeeps(w: Field, w0: Field, table: LevelTable, attacker: int, n: nat, damage: int, now: int)
    requires Inv(w, w0, table) && attacker in w.stats && n < |w.monsters|
    ensures Inv(Strike(w, table, attacker, n, damage, now), w0, table)
  {
    var w' := Strike(w, table, attacker, n, damage, now);
    RespawnsWaitStep(w.log, Died(n, attacker, now), w0.monsters);
    forall k | 0 <= k < |w'.monsters| ensures MonsterAgrees(w', w0, k) {
      StrikeMonsters(w, w0, table, attacker, n, damage, now, k);
    }
    forall p | p in w'.stats ensures w'.stats[p] == AddAll(table, w0.stats[p], Grants(w'.log, w0.monsters, p)) {
      StrikeStats(w, w0, table, attacker, n, damage, now, p);
    }
  }

  lemma ReviveKeeps(w: Field, w0: Field, table: LevelTable, n: nat, now: int)
    requires Inv(w, w0, table) && n < |w.monsters|
    ensures Inv(Revive(w, n, now), w0, table)
  {
    assert MonsterAgrees(w, w0, n);
    if CheckRespawnTime(w.monsters[n], now) {
      var w', e := Revive(w, n, now), Respawned(n, now);
      RespawnsWaitStep(w.log, e, w0.monsters);
      forall k | 0 <= k < |w'.monsters| ensures MonsterAgrees(w', w0, k) {
        assert MonsterAgrees(w, w0, k);
        LogStep(w.log, e, k);
      }
      forall p | p in w'.stats ensures w'.stats[p] == AddAll(table, w0.stats[p], Grants(w'.log, w0.monsters, p)) {
        GrantsStep(w.log, e, w0.monsters, p);
        assert Grants(w.log, w0.monsters, p) + [] == Grants(w.log, w0.monsters, p);
      }
    }
  }

  lemma WalkKeeps(w: Field, w0: Field, table: LevelTable, n: nat, x: real, y: real)
    requires Inv(w, w0, table) && n < |w.monsters|
    ensures Inv(Walk(w, n, x, y), w0, table)
  {
    var w' := Walk(w, n, x, y);
    forall k | 0 <= k < |w'.monsters| ensures MonsterAgrees(w', w0, k) {
      assert MonsterAgrees(w, w0, k);
    }
  }

  /** The damage that the hits of a run do to monster n; hits by unknown players do none. */
  function HarmTo(actions: seq<Action>, n: nat, players: set<int>): nat
    decreases |actions|
  {
    if actions == [] then 0
    else
      var a := actions[|actions| - 1];
      HarmTo(actions[..|actions| - 1], n, players) +
      if a.Hit? && a.n == n && a.attacker in players then Max(0, a.damage) else 0
  }

  lemma StepDamage(w: Field, table: LevelTable, a: Action, n: nat)
    requires n < |w.monsters| && (a.Tick? ==> a.n != n)
    requires w.monsters[n].alive <==> !w.monsters[n].deadRequest
    requires w.monsters[n].alive ==> w.monsters[n].hp > 0
    ensures var r := Step(w, table, a); var m := w.monsters[n];
      var harm := if a.Hit? && a.n == n && a.attacker in w.stats then Max(0, a.damage) else 0;
      && |r.monsters| == |w.monsters| && r.stats.Keys == w.stats.Keys
      && r.monsters[n].hp == (if m.alive then Max(0, m.hp - harm) else m.hp)
      && (r.monsters[n].alive <==> m.alive && harm < m.hp)
      && (r.monsters[n].alive <==> !r.monsters[n].deadRequest)
  {
    hide AddExp;
  }

  /** In a run without a respawn check on monster n, its health falls by the summed damage of the hits
      on it and it dies exactly when that reaches its health, whatever happens to the others. */
  lemma {:induction false} RunDamageAddsUp(w0: Field, table: LevelTable, actions: seq<Action>, n: nat)
    requires n < |w0.monsters| && w0.monsters[n].alive && !w0.monsters[n].deadRequest && w0.monsters[n].hp > 0
    requires forall a :: a in actions && a.Tick? ==> a.n != n
    ensures var w := Run(w0, table, actions); var harm := HarmTo(actions, n, w0.stats.Keys);
      && |w.monsters| == |w0.monsters| && w.stats.Keys == w0.stats.Keys
      && w.monsters[n].hp == Max(0, w0.monsters[n].hp - harm)
      && (w.monsters[n].alive <==> harm < w0.monsters[n].hp)
      && (w.monsters[n].alive <==> !w.monsters[n].deadRequest)
    decreases |actions|
  {
    if actions != [] {
      var before, a := actions[..|actions| - 1], actions[|actions| - 1];
      assert a in actions;
      RunDamageAddsUp(w0, table, before, n);
      StepDamage(Run(w0, table, before), table, a, n);
      hide Step;
    }
  }

  /** A dead monster is alive, in full health and at its place of spawning after a respawn check
      exactly if it is due. */
  lemma RespawnsWhenDue(w: Field, w0: Field, table: LevelTable, n: nat, now: int)
    requires Inv(w, w0, table) && n < |w.monsters| && !w.monsters[n].alive
    ensures LastDeath(w.log, n).Some?
    ensures var due := now - LastDeath(w.log, n).value >= w0.monsters[n].kind.respawnDelay; var r := Revive(w, n, now);
      && (due ==> r.monsters[n].alive && r.monsters[n].hp == w0.monsters[n].kind.maxHp)
      && (due ==> r.monsters[n].x == w0.monsters[n].kind.spawnX && r.monsters[n].y == w0.monsters[n].kind.spawnY)
      && (!due ==> r == w)
  {
    assert MonsterAgrees(w, w0, n);
  }

  /** A map whose monsters have just been created. */
  ghost predicate Fresh(w: Field) {
    w.log == [] && forall n :: 0 <= n < |w.monsters| ==>
      var m := w.monsters[n];
      m.hp == m.kind.maxHp && m.alive && !m.deadRequest
  }

  /** A map of monsters made from the given kinds. */
  function NewField(kinds: seq<Kind>, stats: map<int, Stat>): Field {
    Field(seq(|kinds|, k requires 0 <= k < |kinds| => Init(kinds[k])), stats, [])
  }

  /** Newly made monsters are in full health at their places, and the run theorems apply to them. */
  lemma NewFieldIsFresh(kinds: seq<Kind>, stats: map<int, Stat>)
    ensures var w := NewField(kinds, stats);
      && Fresh(w) && |w.monsters| == |kinds| && w.stats == stats
      && forall k :: 0 <= k < |kinds| ==>
           w.monsters[k]
             == Monster(kinds[k], kinds[k].maxHp, kinds[k].spawnX, kinds[k].spawnY, true, false, Patrol, 0, None)
  {
  }

  /** One reward per life. Over every run of hits, respawn checks and moves: each monster has died as
      often as it respawned, plus once if it lies dead; no respawn comes earlier than its delay
      after the death; and each player's stats are the initial ones with exactly one experience
      grant for each death he dealt. */
  lemma {:induction false} OneRewardPerLife(w0: Field, table: LevelTable, actions: seq<Action>)
    requires Fresh(w0)
    ensures Inv(Run(w0, table, actions), w0, table)
    decreases |actions|
  {
    if actions == [] {
      forall n | 0 <= n < |w0.monsters| ensures MonsterAgrees(w0, w0, n) {
      }
    } else {
      OneRewardPerLife(w0, table, actions[..|actions| - 1]);
      var w := Run(w0, table, actions[..|actions| - 1]);
      match actions[|actions| - 1]
      case Hit(attacker, n, damage, now) =>
        if attacker in w.stats && n < |w.monsters| { StrikeKeeps(w, w0, table, attacker, n, damage, now); }
      case Tick(n, now) =>
        if n < |w.monsters| { ReviveKeeps(w, w0, table, n, now); }
      case Roam(n, x, y) =>
        if n < |w.monsters| { WalkKeeps(w, w0, table, n, x, y); }
    }
  }

  ghost predicate HealthAgreesAfter(w0: Field, table: LevelTable, actions: seq<Action>, n: nat) {
    var w := Run(w0, table, actions);
    n < |w.monsters| && HealthAgrees(w.monsters[n])
  }

  /** Alive means health left, in every run, exactly for monsters made with positive health. */
  lemma HealthAgreesIff(w0: Field, table: LevelTable, n: nat)
    requires Fresh(w0) && n < |w0.monsters|
    ensures (forall actions :: HealthAgreesAfter(w0, table, actions, n)) <==> w0.monsters[n].kind.maxHp > 0
  {
    if w0.monsters[n].kind.maxHp > 0 {
      forall actions ensures HealthAgreesAfter(w0, table, actions, n) {
        OneRewardPerLife(w0, table, actions);
        assert MonsterAgrees(Run(w0, table, actions), w0, n);
      }
    } else {
      var none: seq<Action> := [];
      assert Run(w0, table, none) == w0;
      assert !HealthAgreesAfter(w0, table, none, n);
    }
  }

  /** So a player's level after any run is the one his killed monsters' total experience
      earns, whatever the order of the kills. */
  lemma StatsAreKillTotals(w0: Field, table: LevelTable, actions: seq<Action>, p: int)
    requires Fresh(w0) && p in w0.stats
    ensures var w := Run(w0, table, actions);
      p in w.stats && w.stats[p] == AddExp(table, w0.stats[p], Gain(Grants(w.log, w0.monsters, p)))
  {
    OneRewardPerLife(w0, table, actions);
    AddAllIsSum(table, w0.stats[p], Grants(Run(w0, table, actions).log, w0.monsters, p));
  }
}
