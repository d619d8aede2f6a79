/** The table character_inventory and the SQL statements a trade issues on it.
    A table is a map from the primary key (char_id, inventory_type, slot_pos) to the
    remaining columns, so two rows can never share a key. */
module InventoryTable {
  import opened Prelude

  datatype Key = Key(charId: int, invType: int, slot: int)
  datatype Row = Row(itemId: int, count: int)
  type Table = map<Key, Row>

  predicate Matches(k: Key, r: Row, c: int, i: int) {
    k.charId == c && r.itemId == i
  }

  /** The rows of one character that hold one item. */
  function RowsOf(t: Table, c: int, i: int): set<Key> {
    set k | k in t && Matches(k, t[k], c, i)
  }

  /** The rows among them that hold at least n, which is what the guarded UPDATE selects. */
  function Charged(t: Table, c: int, i: int, n: int): set<Key> {
    set k | k in t && Matches(k, t[k], c, i) && t[k].count >= n
  }

  // ------------------------------------------------------------------ statements

  /** SET item_count = item_count - n on the rows that hold at least n. */
  function SubtractCount(t: Table, c: int, i: int, n: int): Table {
    map k | k in t :: if Matches(k, t[k], c, i) && t[k].count >= n then Row(i, t[k].count - n) else t[k]
  }

  /** MySQL counts a row as affected only if its value changes, so n == 0 affects nothing. */
  predicate SubtractAffects(t: Table, c: int, i: int, n: int) {
    n != 0 && Charged(t, c, i, n) != {}
  }

  /** SET item_count = item_count + n on every row of the item. */
  function AddCount(t: Table, c: int, i: int, n: int): Table {
    map k | k in t :: if Matches(k, t[k], c, i) then Row(i, t[k].count + n) else t[k]
  }

  predicate AddAffects(t: Table, c: int, i: int, n: int) {
    n != 0 && RowsOf(t, c, i) != {}
  }

  /** DELETE the rows of the item whose count is not positive. */
  function RemoveEmpty(t: Table, c: int, i: int): Table {
    map k | k in t && !(Matches(k, t[k], c, i) && t[k].count <= 0) :: t[k]
  }

  /** The rows of one inventory of one character. */
  function InventoryOf(t: Table, c: int, ty: int): set<Key> {
    set k | k in t && k.charId == c && k.invType == ty
  }

  predicate IsLast(k: Key, keys: set<Key>) {
    k in keys && forall l :: l in keys ==> l.slot <= k.slot
  }

  lemma {:induction false} LastExists(keys: set<Key>) returns (k: Key)
    requires keys != {}
    ensures IsLast(k, keys)
  {
    var first :| first in keys;
    var rest := keys - {first};
    assert forall l :: l in keys ==> l == first || l in rest;
    k := first;
    if rest != {} {
      var l := LastExists(rest);
      k := if first.slot < l.slot then l else first;
    }
  }

  /** SELECT COALESCE(MAX(slot_pos) + 1, 0): above every slot in use, hence free. */
  function NextSlot(t: Table, c: int, ty: int): (p: int)
    ensures Key(c, ty, p) !in t
    ensures forall k :: k in InventoryOf(t, c, ty) ==> k.slot < p
  {
    var used := InventoryOf(t, c, ty);
    if used == {} then
      assert Key(c, ty, 0) !in used;
      0
    else
      assert exists k :: IsLast(k, used) by { var k := LastExists(used); }
      var k :| IsLast(k, used);
      assert Key(c, ty, k.slot + 1) !in used;
      k.slot + 1
  }

  /** It is the lowest such slot: 0 in an empty inventory, otherwise right above a slot in use. */
  lemma NextSlotIsTop(t: Table, c: int, ty: int)
    ensures if InventoryOf(t, c, ty) == {} then NextSlot(t, c, ty) == 0
            else exists k :: k in t && k.charId == c && k.invType == ty && k.slot == NextSlot(t, c, ty) - 1
  {
    var used := InventoryOf(t, c, ty);
    if used != {} {
      var k := LastExists(used);
      assert k in used && k.slot == NextSlot(t, c, ty) - 1;
    }
  }

  // ------------------------------------------------------------------ holdings

  /** What row k adds to the holding of item i by the characters in who. */
  ghost function Share(k: Key, r: Row, who: iset<int>, i: int): int {
    if k.charId in who && r.itemId == i then r.count else 0
  }

  /** The number of items i held by the characters in who, over all their rows.
      who == {c} gives one character's holding and the full set the whole supply. */
  ghost function Held(t: Table, who: iset<int>, i: int): int
    decreases |t|
  {
    if t == map[] then 0
    else
      var k :| k in t;
      Share(k, t[k], who, i) + Held(t - {k}, who, i)
  }

  /** Held does not depend on the order in which the rows are added up. */
  lemma {:induction false} HeldSplit(t: Table, who: iset<int>, i: int, k: Key)
    requires k in t
    ensures Held(t, who, i) == Share(k, t[k], who, i) + Held(t - {k}, who, i)
    decreases |t|
  {
    var j :| j in t && Held(t, who, i) == Share(j, t[j], who, i) + Held(t - {j}, who, i);
    if j != k {
      HeldSplit(t - {j}, who, i, k);
      HeldSplit(t - {k}, who, i, j);
      assert t - {j} - {k} == t - {k} - {j};
    }
  }

  /** Adding n to the share of each row in S adds n * |S|. */
  lemma {:induction false} HeldShift(t: Table, u: Table, who: iset<int>, i: int, S: set<Key>, n: int)
    requires u.Keys == t.Keys
    requires S <= t.Keys
    requires forall k :: k in t ==>
      Share(k, u[k], who, i) == Share(k, t[k], who, i) + (if k in S then n else 0)
    ensures Held(u, who, i) == Held(t, who, i) + n * |S|
    decreases |t|
  {
    if t == map[] {
      assert u == map[] && S == {};
    } else {
      var k :| k in t;
      hide Held;
      HeldSplit(t, who, i, k);
      HeldSplit(u, who, i, k);
      var rest := S - {k};
      HeldShift(t - {k}, u - {k}, who, i, rest, n);
      if k in S {
        AddOne(n, |rest|);
      } else {
        assert rest == S;
      }
    }
  }

  lemma AddOne(n: int, size: int)
    ensures n * (size + 1) == n * size + n
  {
  }

  /** Dropping rows that contribute nothing changes nothing. */
  lemma {:induction false} HeldDrop(t: Table, u: Table, who: iset<int>, i: int)
    requires forall k :: k in u ==> k in t && u[k] == t[k]
    requires forall k :: k in t && k !in u ==> Share(k, t[k], who, i) == 0
    ensures Held(u, who, i) == Held(t, who, i)
    decreases |t|
  {
    if t == map[] {
      assert u == map[];
    } else {
      var k :| k in t;
      HeldSplit(t, who, i, k);
      HeldDrop(t - {k}, u - {k}, who, i);
      if k in u {
        HeldSplit(u, who, i, k);
      } else {
        assert u - {k} == u;
      }
    }
  }

  /** A part of a table and the rest hold together what the table holds. */
  lemma {:induction false} HeldParts(t: Table, a: Table, who: iset<int>, i: int)
    requires forall k :: k in a ==> k in t && t[k] == a[k]
    ensures Held(t, who, i) == Held(a, who, i) + Held(t - a.Keys, who, i)
    decreases |a|
  {
    if a == map[] {
      assert t - a.Keys == t;
    } else {
      var k :| k in a;
      hide Held;
      HeldSplit(t, who, i, k);
      HeldSplit(a, who, i, k);
      HeldParts(t - {k}, a - {k}, who, i);
      SamePart(t, a, k);
    }
  }

  lemma SamePart(t: Table, a: Table, k: Key)
    requires k in a
    ensures (t - {k}) - (a - {k}).Keys == t - a.Keys
  {
  }

  /** What a table holds of one item of one character only, seen by a group. */
  lemma {:induction false} HeldOfOne(t: Table, c: int, i: int, who: iset<int>, j: int)
    requires forall k :: k in t ==> Matches(k, t[k], c, i)
    ensures Held(t, who, j) == if c in who && i == j then Held(t, iset{c}, i) else 0
    decreases |t|
  {
    if t != map[] {
      var k :| k in t;
      HeldSplit(t, who, j, k);
      HeldSplit(t, iset{c}, i, k);
      HeldOfOne(t - {k}, c, i, who, j);
    }
  }

  lemma HeldInsert(t: Table, k: Key, r: Row, who: iset<int>, i: int)
    requires k !in t
    ensures Held(t[k := r], who, i) == Held(t, who, i) + Share(k, r, who, i)
  {
    HeldSplit(t[k := r], who, i, k);
    assert t[k := r] - {k} == t;
  }

  // ------------------------------------------------------------------ invariants

  /** At most one row per character and item. */
  ghost predicate OneRowPerItem(t: Table) {
    forall k, l :: k in t && l in t && k.charId == l.charId && t[k].itemId == t[l].itemId ==> k == l
  }

  ghost predicate PositiveCounts(t: Table) {
    forall k :: k in t ==> t[k].count > 0
  }

  /** With one row per item, a character holds what that row says. */
  lemma HeldOfOwner(t: Table, c: int, i: int, k: Key)
    requires OneRowPerItem(t) && k in t && Matches(k, t[k], c, i)
    ensures Held(t, iset{c}, i) == t[k].count
    ensures RowsOf(t, c, i) == {k}
  {
    HeldSplit(t, iset{c}, i, k);
    HeldDrop(t - {k}, map[], iset{c}, i);
  }

  lemma HeldOfStranger(t: Table, c: int, i: int)
    requires RowsOf(t, c, i) == {}
    ensures Held(t, iset{c}, i) == 0
  {
    forall k | k in t ensures Share(k, t[k], iset{c}, i) == 0 {
      assert k !in RowsOf(t, c, i);
    }
    HeldDrop(t, map[], iset{c}, i);
  }
}
