/** Weighted drops. The random engine is a stream of raw numbers, and a uniform distribution over
    low..high maps each raw number into that range. DrawReachesIff shows that the streams produce
    exactly the sequences of results that the weights and count ranges allow. */
module DropTable {
  import opened Prelude
  import opened GroundDrops

  datatype DropEntry = DropEntry(itemId: int, weight: int, minCount: int, maxCount: int)
  datatype DropGroup = DropGroup(minDrop: int, maxDrop: int, allowDuplicate: bool, entries: seq<DropEntry>)

  type Random = nat -> nat

  function Uniform(low: int, high: int, raw: nat): (r: int)
    requires low <= high
    ensures low <= r <= high
  {
    low + raw % (high - low + 1)
  }

  /** Every outcome in the range is possible. */
  lemma UniformReaches(low: int, high: int, r: int)
    requires low <= r <= high
    ensures Uniform(low, high, r - low) == r
  {
  }

  // ------------------------------------------------------------------ one weighted choice

  function CalculateWeight(entries: seq<DropEntry>): int {
    if entries == [] then 0 else CalculateWeight(entries[..|entries| - 1]) + entries[|entries| - 1].weight
  }

  /** The accumulated weight of the first k entries: entries without positive weight are skipped. */
  function Acc(entries: seq<DropEntry>, k: nat): (a: nat)
    requires k <= |entries|
  {
    if k == 0 then 0 else Acc(entries, k - 1) + Max(entries[k - 1].weight, 0)
  }

  /** The inner loop from position idx on: the first entry whose accumulated weight covers the roll. */
  function ChooseFrom(entries: seq<DropEntry>, idx: nat, roll: int): Option<nat>
    requires idx <= |entries|
    decreases |entries| - idx
  {
    if idx == |entries| then None
    else if entries[idx].weight > 0 && roll <= Acc(entries, idx + 1) then Some(idx)
    else ChooseFrom(entries, idx + 1, roll)
  }

  function Choose(entries: seq<DropEntry>, roll: int): Option<nat> {
    ChooseFrom(entries, 0, roll)
  }

  lemma {:induction false} AccGrows(entries: seq<DropEntry>, j: nat, k: nat)
    requires j <= k <= |entries|
    ensures Acc(entries, j) <= Acc(entries, k)
    decreases k
  {
    if j < k { AccGrows(entries, j, k - 1); }
  }

  /** Entry i owns exactly the rolls above what comes before it and up to its own share. */
  lemma {:induction false} ChooseFromInterval(entries: seq<DropEntry>, idx: nat, roll: int, i: nat)
    requires idx <= i < |entries| && roll > Acc(entries, idx)
    ensures ChooseFrom(entries, idx, roll) == Some(i)
       <==> Acc(entries, i) < roll <= Acc(entries, i + 1)
    decreases i - idx
  {
    AccGrows(entries, idx + 1, i + 1);
    if idx < i { AccGrows(entries, idx + 1, i); }
    if roll > Acc(entries, idx + 1) && idx < i {
      ChooseFromInterval(entries, idx + 1, roll, i);
    } else if roll > Acc(entries, idx + 1) {
      LaterIndex(entries, idx + 1, roll);
    } else {
      assert entries[idx].weight > 0;
    }
  }

  lemma {:induction false} LaterIndex(entries: seq<DropEntry>, idx: nat, roll: int)
    requires idx <= |entries|
    ensures ChooseFrom(entries, idx, roll).Some? ==> idx <= ChooseFrom(entries, idx, roll).value < |entries|
    decreases |entries| - idx
  {
    if idx < |entries| { LaterIndex(entries, idx + 1, roll); }
  }

  lemma {:induction false} ChooseFinds(entries: seq<DropEntry>, idx: nat, roll: int)
    requires idx <= |entries| && Acc(entries, idx) < roll <= Acc(entries, |entries|)
    ensures ChooseFrom(entries, idx, roll).Some?
    decreases |entries| - idx
  {
    if !(entries[idx].weight > 0 && roll <= Acc(entries, idx + 1)) {
      ChooseFinds(entries, idx + 1, roll);
    }
  }

  predicate NonNegative(entries: seq<DropEntry>) {
    forall k :: 0 <= k < |entries| ==> entries[k].weight >= 0
  }

  /** Negative weights lower the sum but not the accumulated weight. */
  lemma {:induction false} SumVersusAcc(entries: seq<DropEntry>)
    ensures CalculateWeight(entries) <= Acc(entries, |entries|)
    ensures CalculateWeight(entries) == Acc(entries, |entries|) <==> NonNegative(entries)
    decreases |entries|
  {
    if entries != [] {
      var init := entries[..|entries| - 1];
      SumVersusAcc(init);
      AccPrefix(entries, |init|, |init|);
      assert NonNegative(entries) <==> NonNegative(init) && entries[|init|].weight >= 0;
    }
  }

  lemma {:induction false} AccPrefix(entries: seq<DropEntry>, n: nat, k: nat)
    requires k <= n <= |entries|
    ensures Acc(entries[..n], k) == Acc(entries, k)
    decreases k
  {
    if k > 0 { AccPrefix(entries, n, k - 1); }
  }

  /** Any roll the code can make selects an entry of positive weight, whatever the weights. */
  lemma EveryRollSelects(entries: seq<DropEntry>, roll: int)
    requires 1 <= roll <= CalculateWeight(entries)
    ensures Choose(entries, roll).Some?
    ensures var i := Choose(entries, roll).value; i < |entries| && entries[i].weight > 0
  {
    SumVersusAcc(entries);
    ChooseFinds(entries, 0, roll);
    LaterIndex(entries, 0, roll);
    ChooseFromInterval(entries, 0, roll, Choose(entries, roll).value);
  }

  /** The rolls that select entry i. */
  ghost function RollsFor(entries: seq<DropEntry>, i: nat): set<int> {
    set r | 1 <= r <= CalculateWeight(entries) && Choose(entries, r) == Some(i)
  }

  ghost function Between(low: int, high: int): (s: set<int>)
    ensures forall r :: r in s <==> low < r <= high
    ensures |s| == Max(0, high - low)
    decreases high - low
  {
    if high <= low then {} else Between(low, high - 1) + {high}
  }

  /** How many rolls entry i really gets. */
  lemma RollsForSize(entries: seq<DropEntry>, i: nat)
    requires i < |entries|
    ensures |RollsFor(entries, i)|
         == Max(0, Min(CalculateWeight(entries), Acc(entries, i + 1)) - Acc(entries, i))
  {
    var low, high := Acc(entries, i), Min(CalculateWeight(entries), Acc(entries, i + 1));
    forall r ensures r in RollsFor(entries, i) <==> r in Between(low, high) {
      if r >= 1 { ChooseFromInterval(entries, 0, r, i); }
    }
    assert RollsFor(entries, i) == Between(low, high);
  }

  /** The weighted choice is an exact partition of the rolls, entry i getting as many rolls as
      its weight, if and only if no weight is negative. */
  lemma ExactPartitionIff(entries: seq<DropEntry>)
    requires CalculateWeight(entries) > 0
    ensures (forall i :: 0 <= i < |entries| ==> |RollsFor(entries, i)| == Max(entries[i].weight, 0))
       <==> NonNegative(entries)
  {
    forall i | 0 <= i < |entries|
      ensures |RollsFor(entries, i)| == Max(0, Min(CalculateWeight(entries), Acc(entries, i + 1)) - Acc(entries, i))
    {
      RollsForSize(entries, i);
    }
    SumVersusAcc(entries);
    if NonNegative(entries) {
      forall i | 0 <= i < |entries| ensures |RollsFor(entries, i)| == Max(entries[i].weight, 0) {
        AccGrows(entries, i + 1, |entries|);
      }
    } else {
      var i := LastPositive(entries, |entries|);
      assert |RollsFor(entries, i)| < entries[i].weight;
    }
  }

  /** Weights 3 and -1: the first entry is selected by two rolls instead of three. */
  lemma NegativeWeightSkews(e: DropEntry, f: DropEntry)
    requires e.weight == 3 && f.weight == -1
    ensures |RollsFor([e, f], 0)| == 2
  {
    RollsForSize([e, f], 0);
    assert [e, f][..1] == [e] && [e][..0] == [];
    assert CalculateWeight([e]) == CalculateWeight([e][..0]) + 3;
    assert CalculateWeight([e, f]) == CalculateWeight([e]) - 1;
  }

  lemma {:induction false} LastPositive(entries: seq<DropEntry>, n: nat) returns (i: nat)
    requires n <= |entries| && Acc(entries, n) > 0
    ensures i < n && entries[i].weight > 0 && Acc(entries, i + 1) == Acc(entries, n)
    decreases n
  {
    if entries[n - 1].weight > 0 { i := n - 1; }
    else { i := LastPositive(entries, n - 1); }
  }

  // ------------------------------------------------------------------ repeated draws

  predicate RangeOk(e: DropEntry) {
    e.minCount >= 0 && e.maxCount >= 0 && e.minCount <= e.maxCount
  }

  /** A result together with the position of its entry in the group. */
  datatype Pick = Pick(pos: nat, result: DropResult)
  datatype Draws = Draws(ok: bool, picks: seq<Pick>, tick: nat)

  function Without<T>(s: seq<T>, k: nat): (r: seq<T>)
    requires k < |s|
    ensures |r| == |s| - 1
  {
    s[..k] + s[k + 1..]
  }

  /** One round of the drawing loop: nothing to draw from, an entry with a bad count range, or
      a result from the entry at idx. */
  datatype Round = Stop | BadRange | Got(idx: nat, result: DropResult)

  function RoundAt(entries: seq<DropEntry>, rng: Random, tick: nat): (r: Round)
    ensures r.Stop? <==> entries == [] || CalculateWeight(entries) <= 0
    ensures r.Got? ==> r.idx < |entries| && Produces(entries[r.idx], r.result)
    ensures r.BadRange? ==> !RangesOk(entries)
  {
    var sum := CalculateWeight(entries);
    if entries == [] || sum <= 0 then Stop
    else
      var roll := Uniform(1, sum, rng(tick));
      EveryRollSelects(entries, roll);
      var idx := Choose(entries, roll).value;
      var e := entries[idx];
      if !RangeOk(e) then BadRange
      else Got(idx, DropResult(e.itemId, Uniform(e.minCount, e.maxCount, rng(tick + 1))))
  }

  /** A result that entry e can produce. */
  predicate Produces(e: DropEntry, result: DropResult) {
    e.weight > 0 && result.itemId == e.itemId && e.minCount <= result.count <= e.maxCount
  }

  predicate RangesOk(entries: seq<DropEntry>) {
    forall k :: 0 <= k < |entries| && entries[k].weight > 0 ==> RangeOk(entries[k])
  }

  /** The working list after a result from position idx. */
  function Keep<T>(s: seq<T>, dup: bool, idx: nat): (r: seq<T>)
    requires idx < |s|
    ensures |r| == if dup then |s| else |s| - 1
  {
    if dup then s else Without(s, idx)
  }

  /** The drawing loop with n rounds left: entries is the working list and left the original
      positions of its members. */
  function Draw(entries: seq<DropEntry>, left: seq<nat>, dup: bool, n: nat, rng: Random, tick: nat): (r: Draws)
    requires |left| == |entries|
    decreases n
  {
    if n == 0 then Draws(true, [], tick)
    else
      match RoundAt(entries, rng, tick)
      case Stop => Draws(true, [], tick)
      case BadRange => Draws(false, [], tick + 1)
      case Got(idx, result) =>
        var rest := Draw(Keep(entries, dup, idx), Keep(left, dup, idx), dup, n - 1, rng, tick + 2);
        Draws(rest.ok, [Pick(left[idx], result)] + rest.picks, rest.tick)
  }

  /** The working list holds entries of the group, each under its own position. */
  ghost predicate Labelled(group: seq<DropEntry>, entries: seq<DropEntry>, left: seq<nat>) {
    && |left| == |entries|
    && (forall k :: 0 <= k < |left| ==> left[k] < |group| && group[left[k]] == entries[k])
    && (forall j, k :: 0 <= j < k < |left| ==> left[j] != left[k])
  }

  /** Every pick is a result of the entry at its position. */
  ghost predicate AllLegal(group: seq<DropEntry>, picks: seq<Pick>) {
    forall k :: 0 <= k < |picks| ==> picks[k].pos < |group| && Produces(group[picks[k].pos], picks[k].result)
  }

  ghost predicate AllFrom(left: seq<nat>, picks: seq<Pick>) {
    forall k :: 0 <= k < |picks| ==> picks[k].pos in left
  }

  lemma PickOne(group: seq<DropEntry>, left: seq<nat>, dup: bool, idx: nat, result: DropResult, rest: seq<Pick>)
    requires idx < |left| && left[idx] < |group| && Produces(group[left[idx]], result)
    requires AllLegal(group, rest) && AllFrom(Keep(left, dup, idx), rest)
    ensures AllLegal(group, [Pick(left[idx], result)] + rest)
    ensures AllFrom(left, [Pick(left[idx], result)] + rest)
  {
    forall x | x in Keep(left, dup, idx) ensures x in left {
    }
  }

  lemma {:induction false} PicksAreLegal(group: seq<DropEntry>, entries: seq<DropEntry>, left: seq<nat>, dup: bool,
                                         n: nat, rng: Random, tick: nat)
    requires Labelled(group, entries, left)
    ensures AllLegal(group, Draw(entries, left, dup, n, rng, tick).picks)
    ensures AllFrom(left, Draw(entries, left, dup, n, rng, tick).picks)
    decreases n
  {
    if n > 0 && RoundAt(entries, rng, tick).Got? {
      var round := RoundAt(entries, rng, tick);
      WithoutKeeps(group, entries, left, round.idx);
      PicksAreLegal(group, Keep(entries, dup, round.idx), Keep(left, dup, round.idx), dup, n - 1, rng, tick + 2);
      var rest := Draw(Keep(entries, dup, round.idx), Keep(left, dup, round.idx), dup, n - 1, rng, tick + 2);
      PickOne(group, left, dup, round.idx, round.result, rest.picks);
    }
  }

  /** With duplicates allowed exactly the drawn number of results comes out. */
  lemma {:induction false} DuplicatesFillTheCount(entries: seq<DropEntry>, left: seq<nat>, n: nat, rng: Random,
                                                  tick: nat)
    requires |left| == |entries| && CalculateWeight(entries) > 0 && RangesOk(entries)
    ensures var r := Draw(entries, left, true, n, rng, tick); r.ok && |r.picks| == n
    decreases n
  {
    if n > 0 { DuplicatesFillTheCount(entries, left, n - 1, rng, tick + 2); }
  }

  function Positives(entries: seq<DropEntry>): (c: nat) {
    if entries == [] then 0 else (if entries[0].weight > 0 then 1 else 0) + Positives(entries[1..])
  }

  lemma {:induction false} PositivesWithout(entries: seq<DropEntry>, k: nat)
    requires k < |entries|
    ensures Positives(Without(entries, k)) == Positives(entries) - (if entries[k].weight > 0 then 1 else 0)
    decreases k
  {
    if k == 0 {
      assert Without(entries, 0) == entries[1..];
    } else {
      PositivesWithout(entries[1..], k - 1);
      assert Without(entries, k)[1..] == Without(entries[1..], k - 1);
    }
  }

  lemma {:induction false} SumVersusPositives(entries: seq<DropEntry>)
    requires NonNegative(entries)
    ensures CalculateWeight(entries) >= 0
    ensures CalculateWeight(entries) > 0 <==> Positives(entries) > 0
    decreases |entries|
  {
    if entries != [] {
      var last := |entries| - 1;
      SumVersusPositives(entries[..last]);
      PositivesWithout(entries, last);
      assert Without(entries, last) == entries[..last];
    }
  }

  ghost predicate Distinct(picks: seq<Pick>) {
    forall j, k :: 0 <= j < k < |picks| ==> picks[j].pos != picks[k].pos
  }

  lemma DistinctCons(left: seq<nat>, idx: nat, result: DropResult, rest: seq<Pick>)
    requires idx < |left| && left[idx] !in Without(left, idx)
    requires Distinct(rest) && AllFrom(Without(left, idx), rest)
    ensures Distinct([Pick(left[idx], result)] + rest)
  {
  }

  lemma WithoutKeeps(group: seq<DropEntry>, entries: seq<DropEntry>, left: seq<nat>, k: nat)
    requires Labelled(group, entries, left) && k < |left|
    ensures Labelled(group, Without(entries, k), Without(left, k))
    ensures left[k] !in Without(left, k)
  {
  }

  lemma WithoutKeepsWeights(entries: seq<DropEntry>, k: nat)
    requires k < |entries| && NonNegative(entries) && RangesOk(entries)
    ensures NonNegative(Without(entries, k)) && RangesOk(Without(entries, k))
  {
  }

  /** Without duplicates there are as many results as were drawn, or as there are entries of
      positive weight, whichever is less. */
  lemma {:induction false} CountWithoutRepetition(entries: seq<DropEntry>, left: seq<nat>, n: nat, rng: Random,
                                                  tick: nat)
    requires |left| == |entries| && NonNegative(entries) && RangesOk(entries)
    ensures var r := Draw(entries, left, false, n, rng, tick);
      r.ok && |r.picks| == Min(n, Positives(entries))
    decreases n
  {
    hide RoundAt;
    SumVersusPositives(entries);
    var round := RoundAt(entries, rng, tick);
    if n > 0 && round.Stop? {
      assert Draw(entries, left, false, n, rng, tick).picks == [];
    } else if n > 0 {
      var entries1, left1 := Without(entries, round.idx), Without(left, round.idx);
      WithoutKeepsWeights(entries, round.idx);
      PositivesWithout(entries, round.idx);
      CountWithoutRepetition(entries1, left1, n - 1, rng, tick + 2);
      OneMore(Draw(entries, left, false, n, rng, tick), Draw(entries1, left1, false, n - 1, rng, tick + 2), n,
        Positives(entries));
    }
  }

  lemma OneMore(all: Draws, rest: Draws, n: nat, c: nat)
    requires n > 0 && c > 0 && rest.ok && |rest.picks| == Min(n - 1, c - 1)
    requires all.ok == rest.ok && |all.picks| == 1 + |rest.picks|
    ensures all.ok && |all.picks| == Min(n, c)
  {
  }

  /** They come from pairwise different positions of the group. */
  lemma {:induction false} DrawsAreDistinct(group: seq<DropEntry>, entries: seq<DropEntry>, left: seq<nat>, n: nat,
                                            rng: Random, tick: nat)
    requires Labelled(group, entries, left)
    ensures Distinct(Draw(entries, left, false, n, rng, tick).picks)
    decreases n
  {
    var round := RoundAt(entries, rng, tick);
    if n > 0 && round.Got? {
      var entries1, left1 := Without(entries, round.idx), Without(left, round.idx);
      WithoutKeeps(group, entries, left, round.idx);
      DrawsAreDistinct(group, entries1, left1, n - 1, rng, tick + 2);
      PicksAreLegal(group, entries1, left1, false, n - 1, rng, tick + 2);
      DistinctCons(left, round.idx, round.result, Draw(entries1, left1, false, n - 1, rng, tick + 2).picks);
    }
  }

  // ------------------------------------------------------------------ which results are possible

  /** Some roll selects entry idx: it has weight, and negative weights further on leave it a share. */
  predicate Drawable(entries: seq<DropEntry>, idx: nat)
    requires idx < |entries|
  {
    entries[idx].weight > 0 && Acc(entries, idx) < CalculateWeight(entries)
  }

  lemma DrawableIff(entries: seq<DropEntry>, idx: nat)
    requires idx < |entries|
    ensures Drawable(entries, idx) <==> RollsFor(entries, idx) != {}
  {
    RollsForSize(entries, idx);
  }

  predicate CanYield(entries: seq<DropEntry>, idx: nat, result: DropResult)
    requires idx < |entries|
  {
    Drawable(entries, idx) && RangeOk(entries[idx]) && Produces(entries[idx], result)
  }

  /** A roll selects entry idx exactly if it is in the interval of that entry. */
  lemma ChooseIs(entries: seq<DropEntry>, roll: int, idx: nat)
    requires idx < |entries| && 1 <= roll
    ensures Choose(entries, roll) == Some(idx) <==> Acc(entries, idx) < roll <= Acc(entries, idx + 1)
  {
    ChooseFromInterval(entries, 0, roll, idx);
  }

  lemma RoundIsPossible(entries: seq<DropEntry>, rng: Random, tick: nat, idx: nat, result: DropResult)
    requires RoundAt(entries, rng, tick) == Got(idx, result)
    ensures idx < |entries| && CanYield(entries, idx, result)
  {
    var roll := Uniform(1, CalculateWeight(entries), rng(tick));
    EveryRollSelects(entries, roll);
    hide Uniform, ChooseFrom, Choose, Acc, CalculateWeight;
    ChooseIs(entries, roll, idx);
  }

  /** A stream that starts a round with the given raw numbers and goes on like another one. */
  function Script(roll: nat, count: nat, tick: nat, later: Random): Random {
    n => if n == tick then roll else if n == tick + 1 then count else later(n)
  }

  lemma RoundWithRoll(entries: seq<DropEntry>, idx: nat, rng: Random, tick: nat)
    requires idx < |entries| && RangeOk(entries[idx]) && CalculateWeight(entries) > 0
    requires Acc(entries, idx) < Uniform(1, CalculateWeight(entries), rng(tick)) <= Acc(entries, idx + 1)
    ensures RoundAt(entries, rng, tick)
         == Got(idx, DropResult(entries[idx].itemId, Uniform(entries[idx].minCount, entries[idx].maxCount, rng(tick + 1))))
  {
    hide Uniform, ChooseFrom, Choose, Acc, CalculateWeight;
    ChooseIs(entries, Uniform(1, CalculateWeight(entries), rng(tick)), idx);
  }

  lemma AccStep(entries: seq<DropEntry>, idx: nat)
    requires idx < |entries| && entries[idx].weight > 0
    ensures Acc(entries, idx) < Acc(entries, idx) + 1 <= Acc(entries, idx + 1)
  {
  }

  lemma ScriptedRound(entries: seq<DropEntry>, idx: nat, result: DropResult, tick: nat, rng: Random)
    requires idx < |entries| && CanYield(entries, idx, result)
    requires rng(tick) == Acc(entries, idx) && rng(tick + 1) == result.count - entries[idx].minCount
    ensures RoundAt(entries, rng, tick) == Got(idx, result)
  {
    AccStep(entries, idx);
    UniformReaches(1, CalculateWeight(entries), Acc(entries, idx) + 1);
    UniformReaches(entries[idx].minCount, entries[idx].maxCount, result.count);
    hide Uniform, RoundAt, Acc, CalculateWeight;
    RoundWithRoll(entries, idx, rng, tick);
  }

  /** Only the numbers still to come matter. */
  lemma {:induction false} DrawIgnoresPast(entries: seq<DropEntry>, left: seq<nat>, dup: bool, n: nat,
                                           rng: Random, rng': Random, tick: nat)
    requires |left| == |entries| && forall k: nat :: k >= tick ==> rng(k) == rng'(k)
    ensures Draw(entries, left, dup, n, rng, tick) == Draw(entries, left, dup, n, rng', tick)
    decreases n
  {
    if n > 0 {
      var round := RoundAt(entries, rng, tick);
      assert round == RoundAt(entries, rng', tick);
      hide RoundAt;
      if round.Got? {
        DrawIgnoresPast(Keep(entries, dup, round.idx), Keep(left, dup, round.idx), dup, n - 1, rng, rng', tick + 2);
      }
    }
  }

  predicate Yields(entries: seq<DropEntry>, left: seq<nat>, idx: nat, pick: Pick)
    requires |left| == |entries|
  {
    idx < |entries| && left[idx] == pick.pos && CanYield(entries, idx, pick.result)
  }

  /** Each pick can come from the working list that the picks before it have left. */
  ghost predicate Possible(entries: seq<DropEntry>, left: seq<nat>, dup: bool, picks: seq<Pick>)
    requires |left| == |entries|
    decreases |picks|
  {
    picks == [] || exists idx: nat ::
      Yields(entries, left, idx, picks[0]) && Possible(Keep(entries, dup, idx), Keep(left, dup, idx), dup, picks[1..])
  }

  lemma {:induction false} DrawIsPossible(entries: seq<DropEntry>, left: seq<nat>, dup: bool, picks: seq<Pick>,
                                          rng: Random, tick: nat)
    requires |left| == |entries| && Draw(entries, left, dup, |picks|, rng, tick).picks == picks
    ensures Possible(entries, left, dup, picks)
    decreases |picks|
  {
    if picks != [] {
      var round := RoundAt(entries, rng, tick);
      RoundIsPossible(entries, rng, tick, round.idx, round.result);
      DrawIsPossible(Keep(entries, dup, round.idx), Keep(left, dup, round.idx), dup, picks[1..], rng, tick + 2);
      assert Yields(entries, left, round.idx, picks[0]);
    }
  }

  lemma DrawNone(entries: seq<DropEntry>, left: seq<nat>, dup: bool, rng: Random, tick: nat)
    requires |left| == |entries|
    ensures Draw(entries, left, dup, 0, rng, tick) == Draws(true, [], tick)
  {
  }

  lemma DrawOne(entries: seq<DropEntry>, left: seq<nat>, dup: bool, n: nat, rng: Random, tick: nat, idx: nat,
                result: DropResult)
    requires |left| == |entries| && n > 0 && RoundAt(entries, rng, tick) == Got(idx, result)
    ensures var rest := Draw(Keep(entries, dup, idx), Keep(left, dup, idx), dup, n - 1, rng, tick + 2);
      Draw(entries, left, dup, n, rng, tick) == Draws(rest.ok, [Pick(left[idx], result)] + rest.picks, rest.tick)
  {
  }

  /** A stream for the later picks, with a first round put in front of it. */
  lemma DrawnBefore(entries: seq<DropEntry>, left: seq<nat>, dup: bool, idx: nat, pick: Pick, later: Random,
                    rest: Draws,
                    n: nat, tick: nat) returns (rng: Random)
    requires |left| == |entries| && Yields(entries, left, idx, pick)
    requires Draw(Keep(entries, dup, idx), Keep(left, dup, idx), dup, n, later, tick + 2) == rest
    ensures Draw(entries, left, dup, n + 1, rng, tick) == Draws(rest.ok, [pick] + rest.picks, rest.tick)
  {
    rng := Script(Acc(entries, idx), pick.result.count - entries[idx].minCount, tick, later);
    ScriptedRound(entries, idx, pick.result, tick, rng);
    hide RoundAt, CanYield, Acc, Draw;
    DrawIgnoresPast(Keep(entries, dup, idx), Keep(left, dup, idx), dup, n, rng, later, tick + 2);
    DrawOne(entries, left, dup, n + 1, rng, tick, idx, pick.result);
  }

  lemma FirstPossible(entries: seq<DropEntry>, left: seq<nat>, dup: bool, picks: seq<Pick>) returns (idx: nat)
    requires |left| == |entries| && picks != [] && Possible(entries, left, dup, picks)
    ensures Yields(entries, left, idx, picks[0]) && idx < |entries|
    ensures Possible(Keep(entries, dup, idx), Keep(left, dup, idx), dup, picks[1..])
  {
    idx :| Yields(entries, left, idx, picks[0])
        && Possible(Keep(entries, dup, idx), Keep(left, dup, idx), dup, picks[1..]);
  }

  lemma {:induction false} PossibleIsDrawn(entries: seq<DropEntry>, left: seq<nat>, dup: bool, picks: seq<Pick>,
                                           tick: nat) returns (rng: Random)
    requires |left| == |entries| && Possible(entries, left, dup, picks)
    ensures Draw(entries, left, dup, |picks|, rng, tick) == Draws(true, picks, tick + 2 * |picks|)
    decreases |picks|
  {
    hide Draw, Possible, Yields, Keep;
    if picks == [] {
      rng := _ => 0;
      DrawNone(entries, left, dup, rng, tick);
    } else {
      var idx := FirstPossible(entries, left, dup, picks);
      var later := PossibleIsDrawn(Keep(entries, dup, idx), Keep(left, dup, idx), dup, picks[1..], tick + 2);
      rng := DrawnBefore(entries, left, dup, idx, picks[0], later,
        Draws(true, picks[1..], tick + 2 * |picks|), |picks| - 1, tick);
      assert picks == [picks[0]] + picks[1..];
    }
  }

  /** A sequence of results comes out of some stream of random numbers exactly if each of them
      can come from the working list of its round. */
  lemma DrawReachesIff(entries: seq<DropEntry>, left: seq<nat>, dup: bool, picks: seq<Pick>, tick: nat)
    requires |left| == |entries|
    ensures (exists rng: Random :: Draw(entries, left, dup, |picks|, rng, tick).picks == picks)
       <==> Possible(entries, left, dup, picks)
  {
    forall rng: Random | Draw(entries, left, dup, |picks|, rng, tick).picks == picks
      ensures Possible(entries, left, dup, picks)
    {
      DrawIsPossible(entries, left, dup, picks, rng, tick);
    }
    if Possible(entries, left, dup, picks) {
      var rng := PossibleIsDrawn(entries, left, dup, picks, tick);
    }
  }

  // ------------------------------------------------------------------ groups

  function Positions(n: nat): (r: seq<nat>)
    ensures |r| == n && forall k :: 0 <= k < n ==> r[k] == k
  {
    seq(n, k => k)
  }

  predicate GroupOk(g: DropGroup) {
    g.minDrop >= 0 && g.maxDrop >= 0 && g.minDrop <= g.maxDrop && g.entries != []
  }

  /** SelectDropItem: the number of rounds is drawn first. */
  function SelectDropItem(g: DropGroup, rng: Random, tick: nat): Draws {
    if !GroupOk(g) then Draws(false, [], tick)
    else Draw(g.entries, Positions(|g.entries|), g.allowDuplicate, Uniform(g.minDrop, g.maxDrop, rng(tick)), rng, tick + 1)
  }

  /** What one call on a sane group yields. */
  lemma SelectDropItemExact(g: DropGroup, rng: Random, tick: nat)
    requires GroupOk(g) && NonNegative(g.entries) && CalculateWeight(g.entries) > 0
    requires RangesOk(g.entries)
    ensures var r := SelectDropItem(g, rng, tick); var n := Uniform(g.minDrop, g.maxDrop, rng(tick));
      && r.ok
      && |r.picks| == (if g.allowDuplicate then n else Min(n, Positives(g.entries)))
      && AllLegal(g.entries, r.picks)
      && (!g.allowDuplicate ==> Distinct(r.picks))
  {
    var n, left := Uniform(g.minDrop, g.maxDrop, rng(tick)), Positions(|g.entries|);
    PicksAreLegal(g.entries, g.entries, left, g.allowDuplicate, n, rng, tick + 1);
    if g.allowDuplicate {
      DuplicatesFillTheCount(g.entries, left, n, rng, tick + 1);
    } else {
      CountWithoutRepetition(g.entries, left, n, rng, tick + 1);
      DrawsAreDistinct(g.entries, g.entries, left, n, rng, tick + 1);
    }
  }

  /** SetDropItem once both groups are found: a failed common group ends the drop. */
  function SetDropItem(a: DropGroup, b: DropGroup, rng: Random, tick: nat): Draws {
    if a.minDrop > a.maxDrop || b.minDrop > b.maxDrop then Draws(true, [], tick)
    else
      var first := SelectDropItem(a, rng, tick);
      if !first.ok then first
      else
        var second := SelectDropItem(b, rng, first.tick);
        Draws(second.ok, first.picks + second.picks, second.tick)
  }

  /** A group from which every drawn number can be served. */
  ghost predicate Sane(g: DropGroup) {
    && 0 <= g.minDrop <= g.maxDrop
    && (forall k :: 0 <= k < |g.entries| ==> g.entries[k].weight >= 0)
    && (exists k :: 0 <= k < |g.entries| && g.entries[k].weight > 0)
    && (forall k :: 0 <= k < |g.entries| && g.entries[k].weight > 0 ==> 0 <= g.entries[k].minCount <= g.entries[k].maxCount)
  }

  lemma SaneIsOk(g: DropGroup)
    requires Sane(g)
    ensures GroupOk(g) && NonNegative(g.entries) && CalculateWeight(g.entries) > 0 && RangesOk(g.entries)
  {
    var k :| 0 <= k < |g.entries| && g.entries[k].weight > 0;
    PositivesWithout(g.entries, k);
    SumVersusPositives(g.entries);
  }

  /** How many results a sane group yields when n is the number drawn. */
  function Due(g: DropGroup, n: nat): nat {
    if g.allowDuplicate then n else Min(n, Positives(g.entries))
  }

  /** The picks are a selection from g of the size that is due. */
  ghost predicate IsSelection(g: DropGroup, n: nat, picks: seq<Pick>) {
    && |picks| == Due(g, n)
    && (forall k :: 0 <= k < |picks| ==> picks[k].pos < |g.entries| && Produces(g.entries[picks[k].pos], picks[k].result))
    && (!g.allowDuplicate ==> Distinct(picks))
  }

  /** The number drawn for a group whose selection starts at tick. */
  function Drawn(g: DropGroup, rng: Random, tick: nat): nat
    requires 0 <= g.minDrop <= g.maxDrop
  {
    g.minDrop + rng(tick) % (g.maxDrop - g.minDrop + 1)
  }

  /** A draw that succeeds uses two random numbers per result. */
  lemma {:induction false} DrawTicks(entries: seq<DropEntry>, left: seq<nat>, dup: bool, n: nat, rng: Random, tick: nat)
    requires |left| == |entries|
    ensures var r := Draw(entries, left, dup, n, rng, tick);
      r.tick == tick + 2 * |r.picks| + if r.ok then 0 else 1
    decreases n
  {
    if n > 0 {
      var round := RoundAt(entries, rng, tick);
      hide RoundAt;
      if round.Got? {
        DrawTicks(Keep(entries, dup, round.idx), Keep(left, dup, round.idx), dup, n - 1, rng, tick + 2);
      }
    }
  }

  lemma DrawnIsUniform(g: DropGroup, rng: Random, tick: nat)
    requires 0 <= g.minDrop <= g.maxDrop
    ensures Uniform(g.minDrop, g.maxDrop, rng(tick)) == Drawn(g, rng, tick)
  {
  }

  lemma SelectionTicks(g: DropGroup, rng: Random, tick: nat)
    ensures var r := SelectDropItem(g, rng, tick);
      if GroupOk(g) then r.tick == tick + 1 + 2 * |r.picks| + (if r.ok then 0 else 1) else r.picks == [] && r.tick == tick
  {
    if GroupOk(g) {
      DrawTicks(g.entries, Positions(|g.entries|), g.allowDuplicate, Uniform(g.minDrop, g.maxDrop, rng(tick)), rng, tick + 1);
      hide Draw, Uniform;
    }
  }

  lemma SelectionOfSane(g: DropGroup, rng: Random, tick: nat)
    requires Sane(g)
    ensures var r := SelectDropItem(g, rng, tick);
      r.ok && IsSelection(g, Drawn(g, rng, tick), r.picks) && r.tick == tick + 1 + 2 * |r.picks|
  {
    SaneIsOk(g);
    hide Sane, SelectDropItem;
    DrawnIsUniform(g, rng, tick);
    hide Drawn;
    SelectDropItemExact(g, rng, tick);
    SelectionTicks(g, rng, tick);
    hide RangesOk, NonNegative, CalculateWeight;
  }

  /** What a kill drops when both groups are sane: first a full selection from the common group, then
      a full selection from the unique group, drawn from the random numbers that follow. */
  lemma SetDropItemExact(a: DropGroup, b: DropGroup, rng: Random, tick: nat)
    requires Sane(a) && Sane(b)
    ensures var r := SetDropItem(a, b, rng, tick); var k := Due(a, Drawn(a, rng, tick));
      var n := Drawn(b, rng, tick + 1 + 2 * k);
      && r.ok && |r.picks| == k + Due(b, n)
      && IsSelection(a, Drawn(a, rng, tick), r.picks[..k])
      && IsSelection(b, n, r.picks[k..])
      && r.tick == tick + 2 + 2 * |r.picks|
  {
    SelectionOfSane(a, rng, tick);
    var first := SelectDropItem(a, rng, tick);
    SelectionOfSane(b, rng, first.tick);
    var second := SelectDropItem(b, rng, first.tick);
    hide SelectDropItem, IsSelection;
    assert (first.picks + second.picks)[..|first.picks|] == first.picks;
    assert (first.picks + second.picks)[|first.picks|..] == second.picks;
  }

  /** Any groups: with a number range turned round nothing is drawn at all; a common group that fails
      ends the drop with what it gave; and a unique group that fails takes nothing back. */
  lemma SetDropItemFails(a: DropGroup, b: DropGroup, rng: Random, tick: nat)
    ensures var r := SetDropItem(a, b, rng, tick); var first := SelectDropItem(a, rng, tick);
      if a.minDrop > a.maxDrop || b.minDrop > b.maxDrop then r == Draws(true, [], tick)
      else
        && first.picks <= r.picks && r.tick >= first.tick
        && (!first.ok ==> r.picks == first.picks && r.tick == first.tick)
        && (forall k :: 0 <= k < |first.picks| ==> first.picks[k].pos < |a.entries|)
        && (forall k :: |first.picks| <= k < |r.picks| ==>
              r.picks[k].pos < |b.entries| && Produces(b.entries[r.picks[k].pos], r.picks[k].result))
  {
    var first := SelectDropItem(a, rng, tick);
    SelectionIsLegal(a, rng, tick);
    SelectionIsLegal(b, rng, first.tick);
    hide SelectDropItem;
  }

  lemma SelectionIsLegal(g: DropGroup, rng: Random, tick: nat)
    ensures var r := SelectDropItem(g, rng, tick); AllLegal(g.entries, r.picks) && r.tick >= tick + 2 * |r.picks|
  {
    if GroupOk(g) {
      var n, left := Uniform(g.minDrop, g.maxDrop, rng(tick)), Positions(|g.entries|);
      assert Labelled(g.entries, g.entries, left);
      hide Draw, AllLegal, AllFrom, Labelled, Uniform;
      PicksAreLegal(g.entries, g.entries, left, g.allowDuplicate, n, rng, tick + 1);
      SelectionTicks(g, rng, tick);
    }
  }

  lemma RangesStayOk(entries: seq<DropEntry>, dup: bool, idx: nat)
    requires RangesOk(entries) && idx < |entries|
    ensures RangesOk(Keep(entries, dup, idx))
  {
  }

  lemma {:induction false} DrawSucceeds(entries: seq<DropEntry>, left: seq<nat>, dup: bool, n: nat, rng: Random, tick: nat)
    requires |left| == |entries| && RangesOk(entries)
    ensures Draw(entries, left, dup, n, rng, tick).ok
    decreases n
  {
    if n > 0 {
      var round := RoundAt(entries, rng, tick);
      if round.Got? {
        RangesStayOk(entries, dup, round.idx);
        DrawSucceeds(Keep(entries, dup, round.idx), Keep(left, dup, round.idx), dup, n - 1, rng, tick + 2);
      }
    }
  }

  /** Random numbers that draw the largest number and then select entry idx. */
  lemma BadEntryFails(g: DropGroup, idx: nat, tick: nat) returns (rng: Random)
    requires GroupOk(g) && g.maxDrop > 0 && NonNegative(g.entries)
    requires idx < |g.entries| && g.entries[idx].weight > 0 && !RangeOk(g.entries[idx])
    ensures !SelectDropItem(g, rng, tick).ok
  {
    var entries := g.entries;
    rng := Script(g.maxDrop - g.minDrop, Acc(entries, idx), tick, _ => 0);
    SumVersusAcc(entries);
    AccGrows(entries, idx + 1, |entries|);
    AccStep(entries, idx);
    UniformReaches(g.minDrop, g.maxDrop, g.maxDrop);
    UniformReaches(1, CalculateWeight(entries), Acc(entries, idx) + 1);
    ChooseIs(entries, Acc(entries, idx) + 1, idx);
    hide Uniform, Acc, Choose, CalculateWeight;
    assert RoundAt(entries, rng, tick + 1).BadRange?;
  }

  /** A call never fails exactly if the group is well formed and no entry that can be selected has a
      bad count range. */
  lemma GroupNeverFailsIff(g: DropGroup, tick: nat)
    requires NonNegative(g.entries)
    ensures (forall rng: Random :: SelectDropItem(g, rng, tick).ok) <==>
      && 0 <= g.minDrop <= g.maxDrop && g.entries != []
      && (g.maxDrop == 0 || forall k :: 0 <= k < |g.entries| && g.entries[k].weight > 0 ==>
                              0 <= g.entries[k].minCount <= g.entries[k].maxCount)
  {
    assert RangesOk(g.entries) <==> forall k :: 0 <= k < |g.entries| && g.entries[k].weight > 0 ==>
                                      0 <= g.entries[k].minCount <= g.entries[k].maxCount;
    var zeros: Random := _ => 0;
    assert !GroupOk(g) ==> !SelectDropItem(g, zeros, tick).ok;
    if GroupOk(g) {
      if g.maxDrop == 0 || RangesOk(g.entries) {
        forall rng: Random ensures SelectDropItem(g, rng, tick).ok {
          if g.maxDrop > 0 {
            DrawSucceeds(g.entries, Positions(|g.entries|), g.allowDuplicate, Drawn(g, rng, tick), rng, tick + 1);
          }
        }
      } else {
        var idx: nat :| idx < |g.entries| && g.entries[idx].weight > 0 && !RangeOk(g.entries[idx]);
        var rng := BadEntryFails(g, idx, tick);
        assert !SelectDropItem(g, rng, tick).ok;
      }
    }
  }

  function Results(picks: seq<Pick>): (r: seq<DropResult>)
    ensures |r| == |picks| && forall k :: 0 <= k < |picks| ==> r[k] == picks[k].result
  {
    seq(|picks|, k requires 0 <= k < |picks| => picks[k].result)
  }
}

/** DropManager: the same selection as loops over a working vector, with the engine's position
    as state. */
module DropManagers {
  import opened Prelude
  import opened GroundDrops
  import opened DropTable

  method SumOfWeights(entries: seq<DropEntry>) returns (sum: int)
    ensures sum == CalculateWeight(entries)
  {
    sum := 0;
    for k := 0 to |entries|
      invariant sum == CalculateWeight(entries[..k])
    {
      assert entries[..k + 1][..k] == entries[..k];
      sum := sum + entries[k].weight;
    }
    assert entries[..|entries|] == entries;
  }

  method FindEntry(entries: seq<DropEntry>, roll: int) returns (selected: Option<nat>)
    ensures selected == Choose(entries, roll)
  {
    var acc := 0;
    for idx := 0 to |entries|
      invariant acc == Acc(entries, idx)
      invariant Choose(entries, roll) == ChooseFrom(entries, idx, roll)
    {
      if entries[idx].weight <= 0 { continue; }
      acc := acc + entries[idx].weight;
      if roll <= acc { return Some(idx); }
    }
    selected := None;
  }

  /** How a call ends: its verdict, the result list it leaves and the engine's position. */
  datatype Ending = Ending(ok: bool, items: seq<DropResult>, tick: nat)

  /** The ending of a loop that has collected items and still has these draws ahead of it. */
  ghost function Finish(items: seq<DropResult>, draws: Draws): Ending {
    Ending(draws.ok, items + Results(draws.picks), draws.tick)
  }

  lemma LastRound(items: seq<DropResult>, entries: seq<DropEntry>, left: seq<nat>, dup: bool, n: nat, rng: Random,
                  tick: nat)
    requires |left| == |entries| && (n == 0 || !RoundAt(entries, rng, tick).Got?)
    ensures Finish(items, Draw(entries, left, dup, n, rng, tick))
         == if n > 0 && RoundAt(entries, rng, tick).BadRange? then Ending(false, items, tick + 1) else Ending(true, items, tick)
  {
  }

  lemma NextRound(items: seq<DropResult>, entries: seq<DropEntry>, left: seq<nat>, dup: bool, n: nat, rng: Random,
                  tick: nat,
                  idx: nat, result: DropResult)
    requires |left| == |entries| && n > 0 && RoundAt(entries, rng, tick) == Got(idx, result)
    ensures Finish(items, Draw(entries, left, dup, n, rng, tick))
         == Finish(items + [result], Draw(Keep(entries, dup, idx), Keep(left, dup, idx), dup, n - 1, rng, tick + 2))
  {
    var rest := Draw(Keep(entries, dup, idx), Keep(left, dup, idx), dup, n - 1, rng, tick + 2).picks;
    ResultsConcat([Pick(left[idx], result)], rest);
    assert Results([Pick(left[idx], result)]) == [result];
    Regroup(items, [result], Results(rest));
  }

  lemma ResultsConcat(a: seq<Pick>, b: seq<Pick>)
    ensures Results(a + b) == Results(a) + Results(b)
  {
  }

  class DropManager {
    const rng: Random
    var tick: nat

    constructor (r: Random)
      ensures rng == r && tick == 0
    {
      rng, tick := r, 0;
    }

    /** One round: draw a roll, find its entry, check its range, draw the count. */
    method PlayRound(entries: seq<DropEntry>) returns (r: Round)
      modifies this
      ensures r == RoundAt(entries, rng, old(tick))
      ensures tick == old(tick) + if r.Stop? then 0 else if r.BadRange? then 1 else 2
    {
      if entries == [] { return Stop; }
      var sumWeight := SumOfWeights(entries);
      if sumWeight <= 0 { return Stop; }
      var dropWeight := Uniform(1, sumWeight, rng(tick));
      tick := tick + 1;
      EveryRollSelects(entries, dropWeight);
      var selected := FindEntry(entries, dropWeight);
      var e := entries[selected.value];
      if e.minCount < 0 || e.maxCount < 0 || e.minCount > e.maxCount { return BadRange; }
      r := Got(selected.value, DropResult(e.itemId, Uniform(e.minCount, e.maxCount, rng(tick))));
      tick := tick + 1;
    }

    method PlayRounds(group: seq<DropEntry>, dup: bool, n: nat, dropItems: seq<DropResult>)
      returns (ok: bool, items: seq<DropResult>)
      modifies this
      ensures Ending(ok, items, tick) == Finish(dropItems, Draw(group, Positions(|group|), dup, n, rng, old(tick)))
    {
      hide RoundAt, Draw;
      items := dropItems;
      var entries := group;
      ghost var left := Positions(|group|);
      ghost var end := Finish(items, Draw(entries, left, dup, n, rng, tick));
      for i := 0 to n
        invariant |left| == |entries|
        invariant Finish(items, Draw(entries, left, dup, n - i, rng, tick)) == end
      {
        ghost var start := tick;
        var round := PlayRound(entries);
        if !round.Got? {
          LastRound(items, entries, left, dup, n - i, rng, start);
          return round.Stop?, items;
        }
        NextRound(items, entries, left, dup, n - i, rng, start, round.idx, round.result);
        items := items + [round.result];
        left := Keep(left, dup, round.idx);
        entries := Keep(entries, dup, round.idx);
      }
      LastRound(items, entries, left, dup, 0, rng, tick);
      ok := true;
    }

    method Select(g: DropGroup, dropItems: seq<DropResult>) returns (ok: bool, items: seq<DropResult>)
      modifies this
      ensures Ending(ok, items, tick) == Finish(dropItems, SelectDropItem(g, rng, old(tick)))
    {
      if g.minDrop < 0 || g.maxDrop < 0 || g.minDrop > g.maxDrop { return false, dropItems; }
      if g.entries == [] { return false, dropItems; }
      var dropCount: nat := Uniform(g.minDrop, g.maxDrop, rng(tick));
      tick := tick + 1;
      ok, items := PlayRounds(g.entries, g.allowDuplicate, dropCount, dropItems);
    }

    /** Both groups are drawn from in turn; what has been drawn when one fails is kept. */
    method DrawBoth(a: DropGroup, b: DropGroup) returns (ok: bool, items: seq<DropResult>)
      modifies this
      ensures Ending(ok, items, tick) == Finish([], SetDropItem(a, b, rng, old(tick)))
    {
      hide SelectDropItem;
      if a.minDrop > a.maxDrop || b.minDrop > b.maxDrop { return true, []; }
      ok, items := Select(a, []);
      ghost var first := SelectDropItem(a, rng, old(tick)).picks;
      if !ok { return ok, items; }
      ghost var second := SelectDropItem(b, rng, tick).picks;
      ok, items := Select(b, items);
      ResultsConcat(first, second);
    }

    method SetDrop(commonGroups: map<string, DropGroup>, uniqueGroups: map<string, DropGroup>,
                   common: string, unique: string) returns (items: seq<DropResult>)
      modifies this
      ensures if common in commonGroups && unique in uniqueGroups then
                var r := SetDropItem(commonGroups[common], uniqueGroups[unique], rng, old(tick));
                Ending(r.ok, items, tick) == Finish([], r)
              else items == [] && tick == old(tick)
    {
      if common !in commonGroups || unique !in uniqueGroups { return []; }
      var ok;
      ok, items := DrawBoth(commonGroups[common], uniqueGroups[unique]);
    }
  }
}
