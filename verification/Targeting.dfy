/** CombatService: which monsters an attack hits, and for how much. Ranking depends on the
    geometry only through a hit test and a distance, so it is stated for any of those. */
module Ranking {
  import opened Prelude
  import opened Collision

  datatype Monster = Monster(id: int, alive: bool, pos: Vec, collider: Collider)

  /** The hit test and front distance of an attack, and how many targets it takes. */
  datatype Aim = Aim(hits: Monster -> bool, front: Monster -> real, maxTargets: int)

  datatype Cand = Cand(m: Monster, front: real)

  function CandOf(a: Aim, m: Monster): Cand {
    Cand(m, a.front(m))
  }

  predicate Less(x: Cand, y: Cand) {
    if x.front < y.front then true
    else if x.front > y.front then false
    else x.m.id < y.m.id
  }

  predicate IsCandidate(a: Aim, m: Monster) {
    m.alive && a.hits(m)
  }

  function Candidates(a: Aim, ms: seq<Monster>): seq<Cand> {
    if ms == [] then []
    else
      var rest := Candidates(a, ms[1..]);
      if IsCandidate(a, ms[0]) then [CandOf(a, ms[0])] + rest else rest
  }

  /** std::sort by Less, written as an insertion sort. */
  function Insert(x: Cand, s: seq<Cand>): (r: seq<Cand>)
    ensures |r| == |s| + 1
  {
    if s == [] || Less(x, s[0]) then [x] + s else [s[0]] + Insert(x, s[1..])
  }

  function Sort(s: seq<Cand>): (r: seq<Cand>)
    ensures |r| == |s|
  {
    if s == [] then [] else Insert(s[0], Sort(s[1..]))
  }

  /** All candidates in order. */
  function Ranked(a: Aim, ms: seq<Monster>): seq<Cand> {
    Sort(Candidates(a, ms))
  }

  function Targets(a: Aim, ms: seq<Monster>): seq<Cand>
    requires a.maxTargets >= 0
  {
    var ranked := Ranked(a, ms);
    ranked[..Min(a.maxTargets, |ranked|)]
  }

  // ------------------------------------------------------------------ sorting

  ghost predicate DistinctIds(s: seq<Cand>) {
    forall j, k :: 0 <= j < k < |s| ==> s[j].m.id != s[k].m.id
  }

  ghost predicate DistinctMonsters(ms: seq<Monster>) {
    forall j, k :: 0 <= j < k < |ms| ==> ms[j].id != ms[k].id
  }

  ghost predicate Sorted(s: seq<Cand>) {
    forall j, k :: 0 <= j < k < |s| ==> Less(s[j], s[k])
  }

  /** x may be inserted: no other element has its id. */
  ghost predicate NewId(x: Cand, s: seq<Cand>) {
    forall k :: 0 <= k < |s| ==> s[k].m.id != x.m.id
  }

  lemma {:induction false} InsertMembers(x: Cand, s: seq<Cand>, y: Cand)
    ensures y in Insert(x, s) <==> y == x || y in s
  {
    if s != [] && !Less(x, s[0]) {
      InsertMembers(x, s[1..], y);
      assert s == [s[0]] + s[1..];
    }
  }

  lemma {:induction false} SortMembers(s: seq<Cand>, y: Cand)
    ensures y in Sort(s) <==> y in s
  {
    if s != [] {
      SortMembers(s[1..], y);
      InsertMembers(s[0], Sort(s[1..]), y);
      assert s == [s[0]] + s[1..];
    }
  }

  lemma {:induction false} InsertSorted(x: Cand, s: seq<Cand>)
    requires Sorted(s) && NewId(x, s)
    ensures Sorted(Insert(x, s))
  {
    if s != [] && !Less(x, s[0]) {
      InsertSorted(x, s[1..]);
      var rest := Insert(x, s[1..]);
      forall k | 0 <= k < |rest| ensures Less(s[0], rest[k]) {
        InsertMembers(x, s[1..], rest[k]);
      }
    }
  }

  lemma {:induction false} SortSorted(s: seq<Cand>)
    requires DistinctIds(s)
    ensures Sorted(Sort(s))
  {
    if s != [] {
      SortSorted(s[1..]);
      var rest := Sort(s[1..]);
      forall k | 0 <= k < |rest| ensures rest[k].m.id != s[0].m.id {
        SortMembers(s[1..], rest[k]);
      }
      InsertSorted(s[0], rest);
    }
  }

  /** Two insertions commute, which is why the list order does not matter. */
  lemma {:induction false} InsertCommutes(x: Cand, y: Cand, s: seq<Cand>)
    requires x.m.id != y.m.id && NewId(x, s) && NewId(y, s)
    ensures Insert(x, Insert(y, s)) == Insert(y, Insert(x, s))
  {
    if s == [] {
    } else if Less(x, s[0]) || Less(y, s[0]) {
    } else {
      InsertCommutes(x, y, s[1..]);
    }
  }

  // ------------------------------------------------------------------ candidates

  lemma {:induction false} CandidatesMembers(a: Aim, ms: seq<Monster>, y: Cand)
    ensures y in Candidates(a, ms) <==> y.m in ms && IsCandidate(a, y.m) && y == CandOf(a, y.m)
  {
    if ms != [] {
      CandidatesMembers(a, ms[1..], y);
      assert ms == [ms[0]] + ms[1..];
    }
  }

  lemma {:induction false} CandidatesDistinct(a: Aim, ms: seq<Monster>)
    requires DistinctMonsters(ms)
    ensures DistinctIds(Candidates(a, ms))
  {
    if ms != [] {
      CandidatesDistinct(a, ms[1..]);
      var rest := Candidates(a, ms[1..]);
      forall k | 0 <= k < |rest| ensures rest[k].m.id != ms[0].id {
        CandidatesMembers(a, ms[1..], rest[k]);
      }
    }
  }

  lemma RankedMembers(a: Aim, ms: seq<Monster>, y: Cand)
    ensures y in Ranked(a, ms) <==> y.m in ms && IsCandidate(a, y.m) && y == CandOf(a, y.m)
  {
    SortMembers(Candidates(a, ms), y);
    CandidatesMembers(a, ms, y);
  }

  lemma RankedSorted(a: Aim, ms: seq<Monster>)
    requires DistinctMonsters(ms)
    ensures Sorted(Ranked(a, ms))
  {
    CandidatesDistinct(a, ms);
    SortSorted(Candidates(a, ms));
  }

  /** In a sorted list everything outside a prefix comes after everything in it. */
  lemma PrefixIsLeast(s: seq<Cand>, n: nat, x: Cand, y: Cand)
    requires Sorted(s) && n <= |s| && x in s[..n] && y in s && y !in s[..n]
    ensures Less(x, y)
  {
    assert forall k :: 0 <= k < n ==> s[k] == s[..n][k];
    var i :| 0 <= i < n && s[i] == x;
    var j :| 0 <= j < |s| && s[j] == y;
  }

  /** The selected targets are exactly the least ones: alive and hit, in strict order of
      (front, id) and so without duplicates, as many as allowed or as there are, and every
      candidate left out comes after all of them. */
  lemma TargetsAreTheLeast(a: Aim, ms: seq<Monster>)
    requires a.maxTargets >= 0 && DistinctMonsters(ms)
    ensures var r := Targets(a, ms);
      && |r| == Min(a.maxTargets, |Candidates(a, ms)|)
      && Sorted(r)
      && (forall x :: x in r ==> x.m in ms && IsCandidate(a, x.m) && x == CandOf(a, x.m))
      && (forall x, m :: x in r && m in ms && IsCandidate(a, m) && CandOf(a, m) !in r ==> Less(x, CandOf(a, m)))
  {
    var ranked, r := Ranked(a, ms), Targets(a, ms);
    RankedSorted(a, ms);
    forall x | x in r ensures x.m in ms && IsCandidate(a, x.m) && x == CandOf(a, x.m) {
      RankedMembers(a, ms, x);
    }
    forall x, m | x in r && m in ms && IsCandidate(a, m) && CandOf(a, m) !in r ensures Less(x, CandOf(a, m)) {
      RankedMembers(a, ms, CandOf(a, m));
      PrefixIsLeast(ranked, |r|, x, CandOf(a, m));
    }
  }

  // ------------------------------------------------------------------ order independence

  /** No monster of the list has x's id. */
  ghost predicate Apart(x: Monster, ms: seq<Monster>) {
    forall k :: 0 <= k < |ms| ==> ms[k].id != x.id
  }

  lemma DistinctSplit(before: seq<Monster>, x: Monster, after: seq<Monster>)
    requires DistinctMonsters(before + [x] + after)
    ensures DistinctMonsters(before + after) && Apart(x, before + after)
  {
    var s, t := before + [x] + after, before + after;
    forall k | 0 <= k < |t| ensures t[k] == s[Skip(|before|, k)] {
    }
    forall k | 0 <= k < |t| ensures t[k].id != x.id {
      assert s[|before|] == x;
    }
  }

  /** The index in a list of the k-th element of that list without position n. */
  function Skip(n: nat, k: nat): nat {
    if k < n then k else k + 1
  }

  /** A monster counts the same wherever it stands in the list. */
  lemma {:induction false} PositionIrrelevant(a: Aim, before: seq<Monster>, x: Monster, after: seq<Monster>)
    requires DistinctMonsters(before + [x] + after)
    ensures Ranked(a, before + [x] + after) == Ranked(a, [x] + (before + after))
    decreases |before|
  {
    if before == [] {
      assert before + [x] + after == [x] + (before + after);
    } else {
      var b, rest := before[0], before[1..];
      var others := rest + after;
      assert before + [x] + after == [b] + (rest + [x] + after);
      assert before + after == [b] + others;
      assert [] + [b] + (rest + [x] + after) == before + [x] + after;
      DistinctSplit([], b, rest + [x] + after);
      assert [] + (rest + [x] + after) == rest + [x] + after;
      PositionIrrelevant(a, rest, x, after);
      DistinctSplit(rest, x, after);
      ApartWithout(b, rest, x, after);
      RankedCons(a, b, rest + [x] + after);
      RankedCons(a, b, [x] + others);
      SwapFirstTwo(a, b, x, others);
    }
  }

  lemma ApartWithout(b: Monster, before: seq<Monster>, x: Monster, after: seq<Monster>)
    requires Apart(b, before + [x] + after)
    ensures Apart(b, before + after) && b.id != x.id
  {
    var s := before + [x] + after;
    assert s[|before|] == x;
    forall k | 0 <= k < |before + after| ensures (before + after)[k] == s[Skip(|before|, k)] {
    }
  }

  lemma RankedCons(a: Aim, m: Monster, ms: seq<Monster>)
    ensures Ranked(a, [m] + ms) == if IsCandidate(a, m) then Insert(CandOf(a, m), Ranked(a, ms)) else Ranked(a, ms)
  {
    assert ([m] + ms)[1..] == ms;
    if IsCandidate(a, m) {
      assert Candidates(a, [m] + ms)[1..] == Candidates(a, ms);
    }
  }

  lemma SwapFirstTwo(a: Aim, x: Monster, y: Monster, ms: seq<Monster>)
    requires x.id != y.id && Apart(x, ms) && Apart(y, ms)
    ensures Ranked(a, [x] + ([y] + ms)) == Ranked(a, [y] + ([x] + ms))
  {
    RankedCons(a, x, [y] + ms);
    RankedCons(a, y, ms);
    RankedCons(a, y, [x] + ms);
    RankedCons(a, x, ms);
    var s := Ranked(a, ms);
    forall k | 0 <= k < |s| ensures s[k].m.id != x.id && s[k].m.id != y.id {
      RankedMembers(a, ms, s[k]);
    }
    InsertCommutes(CandOf(a, x), CandOf(a, y), s);
  }

  lemma {:induction false} RankedByMultiset(a: Aim, xs: seq<Monster>, ys: seq<Monster>)
    requires DistinctMonsters(xs) && DistinctMonsters(ys) && multiset(xs) == multiset(ys)
    ensures Ranked(a, xs) == Ranked(a, ys)
    decreases |xs|
  {
    if xs == [] {
      assert |ys| == |multiset(ys)| == |multiset(xs)| == 0;
    } else {
      var k := FindIn(xs, ys);
      var before, after := ys[..k], ys[k + 1..];
      assert ys == before + [xs[0]] + after;
      assert xs == [xs[0]] + xs[1..];
      DistinctSplit(before, xs[0], after);
      RankedByMultiset(a, xs[1..], before + after);
      PositionIrrelevant(a, before, xs[0], after);
      RankedCons(a, xs[0], xs[1..]);
      RankedCons(a, xs[0], before + after);
    }
  }

  /** The outcome does not depend on the order of the monster list. */
  lemma TargetsIgnoreListOrder(a: Aim, xs: seq<Monster>, ys: seq<Monster>)
    requires a.maxTargets >= 0
    requires DistinctMonsters(xs) && DistinctMonsters(ys) && multiset(xs) == multiset(ys)
    ensures Targets(a, xs) == Targets(a, ys)
  {
    RankedByMultiset(a, xs, ys);
  }
}

/** ComputeHitMonsters with the game's own hit test. */
module Targeting {
  import opened Prelude
  import opened Collision
  import opened Ranking

  datatype HitShape = NoShape | Arc | Box | Round

  /** The arc test needs square roots and cosines; it comes in as a parameter. */
  datatype Attack = Attack(pos: Vec, dir: int, shape: HitShape, range: real, halfHeight: real,
                           maxTargets: int, arcHit: Monster -> bool)

  function ColliderCenter(m: Monster): Vec {
    match m.collider
    case NoCollider => m.pos
    case RectCollider(r) => Plus(m.pos, r.offset)
    case CircleCollider(c) => Plus(m.pos, c.offset)
  }

  predicate IsHit(a: Attack, m: Monster) {
    match a.shape
    case Box => Intersects(a.pos, MakeBoxAttackCollider(a.range, a.halfHeight, a.dir), m.pos, m.collider)
    case Arc => a.arcHit(m)
    case NoShape => false
    case Round => false
  }

  function Front(a: Attack, m: Monster): real {
    (ColliderCenter(m).x - a.pos.x) * (a.dir as real)
  }

  /** Attacks in no direction hit nothing. */
  function AimOf(a: Attack): Aim {
    Aim((m: Monster) => (a.dir == 1 || a.dir == -1) && IsHit(a, m), (m: Monster) => Front(a, m), a.maxTargets)
  }

  /** A box attack makes a candidate of exactly the living monsters whose shape reaches into the
      box in front of the attacker. */
  lemma BoxCandidates(a: Attack, m: Monster)
    requires a.shape.Box? && (a.dir == 1 || a.dir == -1)
    requires a.range >= 0.0 && a.halfHeight >= 0.0 && Proper(m.collider)
    ensures IsCandidate(AimOf(a), m) <==>
      m.alive && exists p ::
        Covers(m.pos, m.collider, p)
        && 0.0 <= (p.x - a.pos.x) * (a.dir as real) <= a.range && Abs(p.y - a.pos.y) <= a.halfHeight
  {
    hide Covers, Intersects;
    var box := MakeBoxAttackCollider(a.range, a.halfHeight, a.dir);
    IntersectsDecidesOverlap(a.pos, box, m.pos, m.collider);
    forall p ensures Covers(a.pos, box, p) <==>
      0.0 <= (p.x - a.pos.x) * (a.dir as real) <= a.range && Abs(p.y - a.pos.y) <= a.halfHeight
    {
      BoxCoversFront(a.pos, a.range, a.halfHeight, a.dir, p);
    }
    forall p ensures Shared(a.pos, box, m.pos, m.collider, p) <==> Covers(a.pos, box, p) && Covers(m.pos, m.collider, p) {
    }
  }

  /** The middle of a monster's shape, along the ground. */
  ghost function MiddleX(m: Monster): real {
    if m.collider.RectCollider? then m.pos.x + m.collider.rect.offset.x
    else if m.collider.CircleCollider? then m.pos.x + m.collider.circle.offset.x
    else m.pos.x
  }

  /** m comes before n for an attack to the right (dir 1) or to the left (dir -1). */
  ghost predicate Before(dir: int, m: Monster, n: Monster) {
    if MiddleX(m) == MiddleX(n) then m.id < n.id
    else if dir == 1 then MiddleX(m) < MiddleX(n)
    else MiddleX(m) > MiddleX(n)
  }

  /** The attack reaches m. */
  ghost predicate Struck(a: Attack, m: Monster) {
    && m.alive && (a.dir == 1 || a.dir == -1)
    && match a.shape
       case Box => Intersects(a.pos, MakeBoxAttackCollider(a.range, a.halfHeight, a.dir), m.pos, m.collider)
       case Arc => a.arcHit(m)
       case _ => false
  }

  /** The nearest of the monsters that the attack reaches, in order, as many as it takes. */
  ghost predicate NearestFirst(a: Attack, ms: seq<Monster>, hits: seq<Monster>) {
    && |hits| <= a.maxTargets
    && (forall m :: m in hits ==> m in ms && Struck(a, m))
    && (forall j, k :: 0 <= j < k < |hits| ==> Before(a.dir, hits[j], hits[k]))
    && (forall m, n :: m in hits && n in ms && Struck(a, n) && n !in hits ==> Before(a.dir, m, n))
    && (|hits| < a.maxTargets ==> forall m :: m in ms && Struck(a, m) ==> m in hits)
  }

  lemma FrontIsDistance(a: Attack, m: Monster)
    requires a.dir == 1 || a.dir == -1
    ensures Front(a, m) == if a.dir == 1 then MiddleX(m) - a.pos.x else a.pos.x - MiddleX(m)
  {
    assert ColliderCenter(m).x == MiddleX(m);
    hide ColliderCenter, MiddleX;
    assert (a.dir as real) == if a.dir == 1 then 1.0 else -1.0;
  }

  lemma LessIsBefore(a: Attack, m: Monster, n: Monster)
    requires a.dir == 1 || a.dir == -1
    ensures Less(CandOf(AimOf(a), m), CandOf(AimOf(a), n)) <==> Before(a.dir, m, n)
  {
    FrontIsDistance(a, m);
    FrontIsDistance(a, n);
    hide Front, MiddleX;
  }

  lemma AllFitIn(a: Aim, ms: seq<Monster>)
    requires a.maxTargets >= 0 && |Candidates(a, ms)| <= a.maxTargets
    ensures forall m :: m in ms && IsCandidate(a, m) ==> CandOf(a, m) in Targets(a, ms)
  {
    forall m | m in ms && IsCandidate(a, m) ensures CandOf(a, m) in Targets(a, ms) {
      RankedMembers(a, ms, CandOf(a, m));
    }
  }

  /** The targets of an attack are the nearest monsters in its direction. */
  lemma TargetsAreNearest(a: Attack, ms: seq<Monster>, hits: seq<Monster>)
    requires a.maxTargets >= 0 && DistinctMonsters(ms) && |hits| == |Targets(AimOf(a), ms)|
    requires forall k :: 0 <= k < |hits| ==> hits[k] == Targets(AimOf(a), ms)[k].m
    ensures NearestFirst(a, ms, hits)
  {
    var aim := AimOf(a);
    var r := Targets(aim, ms);
    TargetsAreTheLeast(aim, ms);
    assert forall m :: IsCandidate(aim, m) <==> Struck(a, m);
    hide Targets, Candidates, IsCandidate, Struck;
    forall m ensures m in hits <==> CandOf(aim, m) in r {
      if m in hits {
        var k :| 0 <= k < |hits| && hits[k] == m;
        assert r[k] in r;
      }
      if CandOf(aim, m) in r {
        var k :| 0 <= k < |r| && r[k] == CandOf(aim, m);
        assert hits[k] == m;
      }
    }
    forall j, k | 0 <= j < k < |hits| ensures Before(a.dir, hits[j], hits[k]) {
      assert r[j] in r && r[k] in r;
      assert Struck(a, hits[j]);
      StruckAims(a, hits[j]);
      LessIsBefore(a, hits[j], hits[k]);
    }
    forall m, n | m in hits && n in ms && Struck(a, n) && n !in hits ensures Before(a.dir, m, n) {
      StruckAims(a, n);
      LessIsBefore(a, m, n);
    }
    if |hits| < a.maxTargets { AllFitIn(aim, ms); }
  }

  lemma StruckAims(a: Attack, m: Monster)
    requires Struck(a, m)
    ensures a.dir == 1 || a.dir == -1
  {
  }

  /** Filter, sort, take. */
  method ComputeHitMonsters(a: Attack, monsters: seq<Monster>) returns (hits: seq<Monster>)
    requires a.maxTargets >= 0
    ensures |hits| == |Targets(AimOf(a), monsters)|
    ensures forall k :: 0 <= k < |hits| ==> hits[k] == Targets(AimOf(a), monsters)[k].m
    ensures DistinctMonsters(monsters) ==> NearestFirst(a, monsters, hits)
  {
    hits := [];
    var aim := AimOf(a);
    if a.dir != -1 && a.dir != 1 {
      NoAimNoCandidates(a, monsters);
      if DistinctMonsters(monsters) { TargetsAreNearest(a, monsters, hits); }
      return;
    }
    var cands := [];
    for k := 0 to |monsters|
      invariant cands + Candidates(aim, monsters[k..]) == Candidates(aim, monsters)
    {
      var m := monsters[k];
      assert monsters[k..][1..] == monsters[k + 1..];
      if !m.alive { continue; }
      if !aim.hits(m) { continue; }
      Regroup(cands, [CandOf(aim, m)], Candidates(aim, monsters[k + 1..]));
      cands := cands + [CandOf(aim, m)];
    }
    assert cands == Candidates(aim, monsters);
    cands := Sort(cands);
    var take := Min(a.maxTargets, |cands|);
    for i := 0 to take
      invariant |hits| == i
      invariant forall k :: 0 <= k < i ==> hits[k] == cands[k].m
    {
      hits := hits + [cands[i].m];
    }
    if DistinctMonsters(monsters) { TargetsAreNearest(a, monsters, hits); }
  }

  lemma {:induction false} NoAimNoCandidates(a: Attack, ms: seq<Monster>)
    requires a.dir != -1 && a.dir != 1
    ensures Candidates(AimOf(a), ms) == []
  {
    if ms != [] { NoAimNoCandidates(a, ms[1..]); }
  }
}

/** Damage by level difference, in C++ integer arithmetic. */
module Damage {
  import opened Prelude

  const RATE_MIN := 30
  const RATE_MAX := 120
  const RATE_BASE := 100
  const STEP_NUM := 5
  const STEP_DEN := 10
  const PENALTY_DIFF := 30
  const PENALTY_RATE := 5

  function GetLevelDiffRate(attacker: int, defender: int): int {
    if defender - attacker >= PENALTY_DIFF then PENALTY_RATE
    else
      var rate := RATE_BASE + TruncDiv((attacker - defender) * STEP_NUM, STEP_DEN);
      if rate < RATE_MIN then RATE_MIN else if rate > RATE_MAX then RATE_MAX else rate
  }

  function CalculateFinalDamage(base: int, attacker: int, defender: int): int {
    var dmg := TruncDiv(base * GetLevelDiffRate(attacker, defender), RATE_BASE);
    if dmg < 1 then 1 else dmg
  }

  lemma PercentMonotone(x: int, y: int)
    requires x <= y
    ensures TruncDiv(x, RATE_BASE) <= TruncDiv(y, RATE_BASE)
  {
  }

  /** The rate is the penalty of 5 exactly from 30 levels up, and otherwise stays between 86 and
      120: the lower clamp of 30 is never reached. */
  lemma RateRange(attacker: int, defender: int)
    ensures var rate := GetLevelDiffRate(attacker, defender);
      if defender - attacker >= PENALTY_DIFF then rate == PENALTY_RATE
      else 86 <= rate <= RATE_MAX && (rate == RATE_MAX <==> attacker - defender >= 40)
           && (rate == RATE_BASE <==> -1 <= attacker - defender <= 1)
  {
  }

  /** Between the penalty and the cap the rate is 100 plus half the level difference, truncated
      toward zero. */
  lemma RateExact(attacker: int, defender: int)
    ensures var diff := attacker - defender;
      GetLevelDiffRate(attacker, defender) ==
      if diff <= -30 then 5
      else if diff >= 40 then 120
      else if diff >= 0 then 100 + diff / 2
      else 100 - (-diff) / 2
  {
  }

  lemma RateMonotone(attacker: int, attacker': int, defender: int, defender': int)
    requires attacker <= attacker' && defender' <= defender
    ensures GetLevelDiffRate(attacker, defender) <= GetLevelDiffRate(attacker', defender')
  {
    RateRange(attacker, defender);
    RateRange(attacker', defender');
  }

  /** The final damage is that percentage of the base damage, rounded down, but at least 1. */
  lemma DamageExact(base: int, attacker: int, defender: int)
    ensures var dmg := CalculateFinalDamage(base, attacker, defender);
      var share := base * GetLevelDiffRate(attacker, defender);
      dmg >= 1 && (dmg > 1 ==> 100 * dmg <= share < 100 * (dmg + 1)) && (dmg == 1 <==> share < 200)
  {
    hide GetLevelDiffRate;
  }

  lemma ProductMonotone(b: int, b': int, r: int, r': int)
    requires 0 <= b <= b' && 0 <= r <= r'
    ensures b * r <= b' * r'
  {
    assert b * r <= b * r' && b * r' <= b' * r';
  }

  /** Damage is at least 1, never falls when the attacker's level or base damage rises, and never
      rises with the defender's level. */
  lemma DamageMonotone(base: int, base': int, attacker: int, attacker': int, defender: int, defender': int)
    requires base <= base' && attacker <= attacker' && defender' <= defender
    ensures 1 <= CalculateFinalDamage(base, attacker, defender) <= CalculateFinalDamage(base', attacker', defender')
  {
    var rate, rate' := GetLevelDiffRate(attacker, defender), GetLevelDiffRate(attacker', defender');
    RateRange(attacker, defender);
    RateMonotone(attacker, attacker', defender, defender');
    if base >= 0 {
      ProductMonotone(base, base', rate, rate');
      PercentMonotone(base * rate, base' * rate');
    } else {
      assert base * rate <= 0;
    }
  }
}
