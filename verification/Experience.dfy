/** Experience and levels: CharacterStat::AddExp against the table of needed experience. */
module Leveling {
  import opened Prelude

  /** need_exp by level; a level that is missing needs 0, which ends the levelling. */
  type LevelTable = map<int, int>

  function NeedExp(table: LevelTable, level: int): int {
    if level in table then table[level] else 0
  }

  datatype Stat = Stat(level: int, exp: int, remainAp: int, curHp: int, curMp: int, maxHp: int, maxMp: int)

  datatype ExpResult = NoGain | Gained(gained: int, oldLevel: int, newLevel: int, curExp: int, needExp: int,
                                       remainAp: int, curHp: int, maxHp: int, curMp: int, maxMp: int, levelUp: bool)

  const AP_PER_LEVEL := 5

  predicate LevelsUp(table: LevelTable, s: Stat) {
    NeedExp(table, s.level) > 0 && s.exp >= NeedExp(table, s.level)
  }

  function LevelUp(table: LevelTable, s: Stat): Stat {
    s.(exp := s.exp - NeedExp(table, s.level), level := s.level + 1, remainAp := s.remainAp + AP_PER_LEVEL,
       curHp := s.maxHp, curMp := s.maxMp)
  }

  /** The level-up loop; every round uses up experience. */
  function Settle(table: LevelTable, s: Stat): Stat
    decreases s.exp
  {
    if LevelsUp(table, s) then Settle(table, LevelUp(table, s)) else s
  }

  function AddExp(table: LevelTable, s: Stat, exp: int): Stat {
    if exp <= 0 then s else Settle(table, s.(exp := s.exp + exp))
  }

  // ------------------------------------------------------------------ additive

  /** Experience that arrives later changes nothing about the levels gained before. */
  lemma {:induction false} SettleThenMore(table: LevelTable, s: Stat, more: int)
    requires more >= 0
    ensures var r := Settle(table, s);
      Settle(table, r.(exp := r.exp + more)) == Settle(table, s.(exp := s.exp + more))
    decreases s.exp
  {
    if LevelsUp(table, s) {
      SettleThenMore(table, LevelUp(table, s), more);
      var all := s.(exp := s.exp + more);
      assert LevelsUp(table, all);
      assert LevelUp(table, all) == LevelUp(table, s).(exp := LevelUp(table, s).exp + more);
    }
  }

  lemma AddExpAdditive(table: LevelTable, s: Stat, a: int, b: int)
    requires a > 0 && b > 0
    ensures AddExp(table, AddExp(table, s, a), b) == AddExp(table, s, a + b)
  {
    SettleThenMore(table, s.(exp := s.exp + a), b);
  }

  function Gain(exps: seq<int>): (g: int)
    ensures g >= 0
  {
    if exps == [] then 0 else Max(exps[0], 0) + Gain(exps[1..])
  }

  function AddAll(table: LevelTable, s: Stat, exps: seq<int>): Stat
    decreases |exps|
  {
    if exps == [] then s else AddAll(table, AddExp(table, s, exps[0]), exps[1..])
  }

  /** A series of grants is worth their sum; grants that are not positive count for nothing. */
  lemma {:induction false} AddAllIsSum(table: LevelTable, s: Stat, exps: seq<int>)
    ensures AddAll(table, s, exps) == AddExp(table, s, Gain(exps))
    decreases |exps|
  {
    if exps != [] {
      var rest := Gain(exps[1..]);
      AddAllIsSum(table, AddExp(table, s, exps[0]), exps[1..]);
      if exps[0] > 0 && rest > 0 { AddExpAdditive(table, s, exps[0], rest); }
    }
  }

  lemma {:induction false} GainConcat(a: seq<int>, b: seq<int>)
    ensures Gain(a + b) == Gain(a) + Gain(b)
    decreases |a|
  {
    if a == [] {
      assert a + b == b;
    } else {
      assert (a + b)[1..] == a[1..] + b;
      GainConcat(a[1..], b);
    }
  }

  lemma {:induction false} GainByMultiset(a: seq<int>, b: seq<int>)
    requires multiset(a) == multiset(b)
    ensures Gain(a) == Gain(b)
    decreases |a|
  {
    if a == [] {
      assert |b| == |multiset(b)| == |multiset(a)| == 0;
    } else {
      var k := FindIn(a, b);
      var before, after := b[..k], b[k + 1..];
      assert b == before + ([b[k]] + after);
      GainByMultiset(a[1..], before + after);
      GainConcat(before, [b[k]] + after);
      GainConcat(before, after);
      assert ([b[k]] + after)[1..] == after;
    }
  }

  /** The order of kills never affects the final state. */
  lemma KillOrderIrrelevant(table: LevelTable, s: Stat, first: seq<int>, second: seq<int>)
    requires multiset(first) == multiset(second)
    ensures AddAll(table, s, first) == AddAll(table, s, second)
  {
    AddAllIsSum(table, s, first);
    AddAllIsSum(table, s, second);
    GainByMultiset(first, second);
  }

  // ------------------------------------------------------------------ canonical

  /** Experience needed to climb from one level to another. */
  function NeedBetween(table: LevelTable, from: int, upto: int): int
    decreases upto - from
  {
    if from >= upto then 0 else NeedExp(table, from) + NeedBetween(table, from + 1, upto)
  }

  /** Every level from..upto-1 can be left. */
  predicate Climbable(table: LevelTable, from: int, upto: int) {
    forall l :: from <= l < upto ==> NeedExp(table, l) > 0
  }

  /** Level l is where total experience e, counted from level from, ends up: affordable, and
      either the next level is not or the table ends. */
  ghost predicate EndsAt(table: LevelTable, from: int, e: int, l: int) {
    && from <= l && Climbable(table, from, l)
    && (l > from ==> e >= NeedBetween(table, from, l))
    && (NeedExp(table, l) <= 0 || e - NeedBetween(table, from, l) < NeedExp(table, l))
  }

  lemma {:induction false} NeedBetweenSplit(table: LevelTable, from: int, mid: int, upto: int)
    requires from <= mid <= upto
    ensures NeedBetween(table, from, upto) == NeedBetween(table, from, mid) + NeedBetween(table, mid, upto)
    decreases mid - from
  {
    if from < mid { NeedBetweenSplit(table, from + 1, mid, upto); }
  }

  lemma {:induction false} NeedBetweenPositive(table: LevelTable, from: int, upto: int)
    requires Climbable(table, from, upto)
    ensures NeedBetween(table, from, upto) >= 0
    decreases upto - from
  {
    if from < upto { NeedBetweenPositive(table, from + 1, upto); }
  }

  /** Past that level the total is not enough. */
  lemma NotLater(table: LevelTable, from: int, e: int, l: int, m: int)
    requires l < m && EndsAt(table, from, e, l)
    ensures !EndsAt(table, from, e, m)
  {
    if Climbable(table, from, m) {
      NeedBetweenSplit(table, from, l, m);
      NeedBetweenSplit(table, l, l + 1, m);
      NeedBetweenPositive(table, l + 1, m);
      assert NeedBetween(table, l, l + 1) == NeedExp(table, l);
    }
  }

  /** There is at most one such level. */
  lemma EndsAtUnique(table: LevelTable, from: int, e: int, l: int, m: int)
    requires EndsAt(table, from, e, l) && EndsAt(table, from, e, m)
    ensures l == m
  {
    if l < m { NotLater(table, from, e, l, m); }
    else if m < l { NotLater(table, from, e, m, l); }
  }

  /** AddExp conserves experience as the need of the gained levels plus the remainder, stops at
      the one level where that must stop, and grants exactly 5 AP a level. */
  lemma {:induction false} SettleCanonical(table: LevelTable, s: Stat)
    ensures var r := Settle(table, s);
      && EndsAt(table, s.level, s.exp, r.level)
      && r.exp + NeedBetween(table, s.level, r.level) == s.exp
      && r.remainAp == s.remainAp + 5 * (r.level - s.level)
      && (r.level > s.level ==> r.exp >= 0 && r.curHp == r.maxHp && r.curMp == r.maxMp)
      && (r.level == s.level ==> r == s)
      && r.maxHp == s.maxHp && r.maxMp == s.maxMp
    decreases s.exp
  {
    if LevelsUp(table, s) {
      var up := LevelUp(table, s);
      SettleCanonical(table, up);
      var r := Settle(table, s);
      forall l | s.level <= l < r.level ensures NeedExp(table, l) > 0 {
        assert l == s.level || up.level <= l;
      }
    }
  }

  /** A grant raises the level exactly if the table has a positive need for the present level and the
      experience reaches it; a level that is missing from the table is the last one. */
  lemma LevelRisesIff(table: LevelTable, s: Stat, exp: int)
    requires exp > 0
    ensures var r := AddExp(table, s, exp);
      var rises := s.level in table && 0 < table[s.level] <= s.exp + exp;
      (r.level > s.level <==> rises) && (!rises ==> r == s.(exp := s.exp + exp))
  {
    SettleCanonical(table, s.(exp := s.exp + exp));
  }

  /** The level after a positive grant is the only one that fits. */
  lemma AddExpIsCanonical(table: LevelTable, s: Stat, exp: int, l: int)
    requires exp > 0
    ensures AddExp(table, s, exp).level == l <==> EndsAt(table, s.level, s.exp + exp, l)
  {
    var s1 := s.(exp := s.exp + exp);
    SettleCanonical(table, s1);
    if EndsAt(table, s.level, s1.exp, l) {
      EndsAtUnique(table, s.level, s1.exp, l, Settle(table, s1).level);
    }
  }
}

/** class CharacterStat, the fields AddExp updates in place. */
module CharacterStats {
  import opened Leveling

  class CharacterStat {
    var level: int
    var exp: int
    var remainAp: int
    var curHp: int
    var curMp: int
    var maxHp: int
    var maxMp: int

    ghost function Abs(): Stat
      reads this
    {
      Stat(level, exp, remainAp, curHp, curMp, maxHp, maxMp)
    }

    constructor (s: Stat)
      ensures Abs() == s
    {
      level, exp, remainAp, curHp, curMp, maxHp, maxMp :=
        s.level, s.exp, s.remainAp, s.curHp, s.curMp, s.maxHp, s.maxMp;
    }

    method AddExp(table: LevelTable, gained: int) returns (r: ExpResult)
      modifies this
      ensures Abs() == Leveling.AddExp(table, old(Abs()), gained)
      ensures r == if gained <= 0 then NoGain
                   else Gained(gained, old(level), level, exp, NeedExp(table, level), remainAp,
                               curHp, maxHp, curMp, maxMp, level > old(level))
    {
      if gained <= 0 { return NoGain; }
      var oldLevel := level;
      exp := exp + gained;
      while true
        invariant Settle(table, Abs()) == Leveling.AddExp(table, old(Abs()), gained)
        decreases exp
      {
        var needExp := NeedExp(table, level);
        if needExp <= 0 { break; }
        if exp < needExp { break; }
        exp := exp - needExp;
        level := level + 1;
        remainAp := remainAp + 5;
        curHp := maxHp;
        curMp := maxMp;
      }
      r := Gained(gained, oldLevel, level, exp, NeedExp(table, level), remainAp, curHp, maxHp, curMp, maxMp, level > oldLevel);
    }
  }
}
