/** Items on the ground of a map: spawning, picking up into typed inventories, expiring. */
module GroundDrops {
  import opened Prelude
  import S = Slots

  datatype DropResult = DropResult(itemId: int, count: int)

  datatype Drop = Drop(dropId: int, itemId: int, count: int, x: real, y: real,
                       owner: Option<int>, ownerExpireMs: int, expireMs: int)
  type Drops = map<int, Drop>

  /** m_dropItems and m_dropId. */
  datatype Ground = Ground(drops: Drops, nextId: int)

  /** One typed inventory: its slots and their number. */
  datatype Bag = Bag(slots: S.Table, maxSlot: int)
  type Bags = map<int, Bag>

  datatype ItemInfo = ItemInfo(typeName: string, stackable: bool, maxStack: int)
  type Catalog = map<int, ItemInfo>

  /** The player who reaches for a drop, at a position. */
  datatype Picker = Picker(id: int, x: real, y: real)

  const OWNER_MS := 60000
  const LIFE_MS := 120000
  const PICKUP_DISTANCE: real := 80.0

  function InventoryTypeOf(typeName: string): int {
    if typeName == "equip" then 0
    else if typeName == "consumable" then 1
    else if typeName == "etc" then 2
    else if typeName == "setup" then 3
    else if typeName == "cash" then 4
    else -1
  }

  /** The five kinds of items go to five different inventories, everything else to none. */
  lemma TypeCodes(typeName: string)
    ensures InventoryTypeOf(typeName) in {-1, 0, 1, 2, 3, 4}
    ensures InventoryTypeOf(typeName) == 0 <==> typeName == "equip"
    ensures InventoryTypeOf(typeName) == 1 <==> typeName == "consumable"
    ensures InventoryTypeOf(typeName) == 2 <==> typeName == "etc"
    ensures InventoryTypeOf(typeName) == 3 <==> typeName == "setup"
    ensures InventoryTypeOf(typeName) == 4 <==> typeName == "cash"
  {
  }

  // ------------------------------------------------------------------ InventoryManager::AddItem

  /** The bag an item goes to, if the item is known and the player has such a bag. */
  function BagFor(bags: Bags, catalog: Catalog, itemId: int): Option<int> {
    if itemId in catalog && InventoryTypeOf(catalog[itemId].typeName) in bags
    then Some(InventoryTypeOf(catalog[itemId].typeName))
    else None
  }

  function Request(catalog: Catalog, itemId: int, count: int): S.AddItemData
    requires itemId in catalog
  {
    S.AddItemData(itemId, count, catalog[itemId].stackable, catalog[itemId].maxStack)
  }

  datatype Stored = Stored(ok: bool, bags: Bags, results: seq<S.AddItemResult>)

  function AddToBags(bags: Bags, catalog: Catalog, itemId: int, count: int): Stored {
    match BagFor(bags, catalog, itemId)
    case None => Stored(false, bags, [])
    case Some(ty) =>
      var d := Request(catalog, itemId, count);
      var fill := S.AddItem(bags[ty].slots, bags[ty].maxSlot, d);
      Stored(S.Added(bags[ty].slots, bags[ty].maxSlot, d), bags[ty := bags[ty].(slots := fill.slots)], fill.results)
  }

  ghost function BagShare(i: int): Bag -> int {
    (b: Bag) => S.Total(b.slots, i)
  }

  /** How many of item i a player carries in all bags. */
  ghost function Carried(bags: Bags, i: int): int {
    MapSum(bags, BagShare(i))
  }

  /** Item 0 marks an empty slot, so it is no item, and stacks hold at least one. */
  predicate CatalogOk(catalog: Catalog) {
    0 !in catalog && forall i :: i in catalog && catalog[i].stackable ==> catalog[i].maxStack >= 1
  }

  /** How many of count items find room. */
  function Fits(bags: Bags, catalog: Catalog, itemId: int, count: int): int
    requires CatalogOk(catalog)
  {
    match BagFor(bags, catalog, itemId)
    case None => 0
    case Some(ty) =>
      if count <= 0 then 0
      else Min(count, S.Room(bags[ty].slots, bags[ty].maxSlot, Request(catalog, itemId, count)))
  }

  /** Adding to the bags takes in exactly what fits and succeeds exactly when all of it does. */
  lemma AddToBagsExact(bags: Bags, catalog: Catalog, itemId: int, count: int, i: int)
    requires CatalogOk(catalog) && i != 0
    ensures var r := AddToBags(bags, catalog, itemId, count);
      && (r.ok <==> count > 0 && Fits(bags, catalog, itemId, count) == count)
      && Carried(r.bags, i) == Carried(bags, i) + (if i == itemId then Fits(bags, catalog, itemId, count) else 0)
  {
    match BagFor(bags, catalog, itemId)
    case None =>
    case Some(ty) =>
      var d := Request(catalog, itemId, count);
      var bag := bags[ty];
      S.AddItemTotal(bag.slots, bag.maxSlot, d, i);
      if count > 0 { S.AddItemCapacity(bag.slots, bag.maxSlot, d); }
      var fill := S.AddItem(bag.slots, bag.maxSlot, d);
      MapSumUpdate(bags, BagShare(i), ty, bag.(slots := fill.slots));
  }

  /** Only the bag of the item's type can change, and only if the item is known. */
  lemma AddToBagsFrame(bags: Bags, catalog: Catalog, itemId: int, count: int)
    ensures var r := AddToBags(bags, catalog, itemId, count);
      && r.bags.Keys == bags.Keys
      && (forall ty :: ty in bags ==> r.bags[ty].maxSlot == bags[ty].maxSlot)
      && (forall ty :: ty in bags && (itemId !in catalog || InventoryTypeOf(catalog[itemId].typeName) != ty) ==>
            r.bags[ty] == bags[ty])
  {
  }

  // ------------------------------------------------------------------ other calls on the bags

  /** InventoryManager::MoveItemSlots. */
  function MoveInBags(bags: Bags, ty: int, fromPos: int, toPos: int): Bags {
    if ty in bags then bags[ty := bags[ty].(slots := S.MoveItem(bags[ty].slots, fromPos, toPos))] else bags
  }

  lemma MoveInBagsKeeps(bags: Bags, ty: int, fromPos: int, toPos: int, i: int)
    ensures Carried(MoveInBags(bags, ty, fromPos, toPos), i) == Carried(bags, i)
  {
    if ty in bags {
      var bag := bags[ty];
      S.MoveItemTotal(bag.slots, fromPos, toPos, i);
      MapSumUpdate(bags, BagShare(i), ty, bag.(slots := S.MoveItem(bag.slots, fromPos, toPos)));
    }
  }

  predicate CanRemoveFromBags(bags: Bags, ty: int, pos: int, itemId: int, count: int) {
    ty in bags && S.CanRemove(bags[ty].slots, pos, itemId, count)
  }

  /** Using items up: RemoveItemBySlot on the inventory of a type. */
  function RemoveFromBags(bags: Bags, ty: int, pos: int, itemId: int, count: int): Bags {
    if ty in bags then bags[ty := bags[ty].(slots := S.RemoveItem(bags[ty].slots, pos, itemId, count))] else bags
  }

  lemma RemoveFromBagsExact(bags: Bags, ty: int, pos: int, itemId: int, count: int, i: int)
    ensures Carried(RemoveFromBags(bags, ty, pos, itemId, count), i)
         == Carried(bags, i) - (if CanRemoveFromBags(bags, ty, pos, itemId, count) && i == itemId then count else 0)
  {
    if ty in bags {
      var bag := bags[ty];
      S.RemoveItemTotal(bag.slots, pos, itemId, count, i);
      MapSumUpdate(bags, BagShare(i), ty, bag.(slots := S.RemoveItem(bag.slots, pos, itemId, count)));
    }
  }

  /** A move swaps item and count of two slots of one bag; a refused one changes nothing. */
  lemma MoveInBagsExact(bags: Bags, ty: int, fromPos: int, toPos: int)
    ensures var r := MoveInBags(bags, ty, fromPos, toPos);
      && r.Keys == bags.Keys && (forall t :: t in bags && t != ty ==> r[t] == bags[t])
      && if ty in bags && fromPos != toPos && fromPos in bags[ty].slots && toPos in bags[ty].slots
            && bags[ty].slots[fromPos].itemId != 0 then
           var s, s' := bags[ty].slots, r[ty].slots;
           && r[ty].maxSlot == bags[ty].maxSlot && s'.Keys == s.Keys
           && s'[fromPos] == s[fromPos].(itemId := s[toPos].itemId, itemCount := s[toPos].itemCount)
           && s'[toPos] == s[toPos].(itemId := s[fromPos].itemId, itemCount := s[fromPos].itemCount)
           && (forall k :: k in s && k != fromPos && k != toPos ==> s'[k] == s[k])
         else r == bags
  {
    if ty in bags {
      S.MoveItemExact(bags[ty].slots, fromPos, toPos);
      if !S.CanMove(bags[ty].slots, fromPos, toPos) { assert bags[ty := bags[ty]] == bags; }
    }
  }

  /** Using items up touches one slot of one bag. */
  lemma RemoveFromBagsFrame(bags: Bags, ty: int, pos: int, itemId: int, count: int)
    ensures var r := RemoveFromBags(bags, ty, pos, itemId, count);
      && r.Keys == bags.Keys && (forall t :: t in bags && t != ty ==> r[t] == bags[t])
      && (ty in bags ==> r[ty].maxSlot == bags[ty].maxSlot)
      && (ty in bags ==> forall k :: k in bags[ty].slots && k != pos ==>
            k in r[ty].slots && r[ty].slots[k] == bags[ty].slots[k])
  {
  }

  // ------------------------------------------------------------------ the ground

  ghost function DropShare(i: int): Drop -> int {
    (d: Drop) => if d.itemId == i then d.count else 0
  }

  ghost function OnGround(drops: Drops, i: int): int {
    MapSum(drops, DropShare(i))
  }

  function NewDrop(id: int, r: DropResult, x: real, y: real, owner: Option<int>, now: int): Drop {
    Drop(id, r.itemId, r.count, x, y, owner, now + OWNER_MS, now + LIFE_MS)
  }

  function Spawn(g: Ground, items: seq<DropResult>, x: real, y: real, owner: Option<int>, now: int): (r: Ground)
    ensures r.nextId == g.nextId + |items|
    decreases |items|
  {
    if items == [] then g
    else
      var d := NewDrop(g.nextId, items[0], x, y, owner, now);
      Spawn(Ground(g.drops[g.nextId := d], g.nextId + 1), items[1..], x, y, owner, now)
  }

  predicate InReach(p: Picker, d: Drop) {
    var dx, dy := d.x - p.x, d.y - p.y;
    dx * dx + dy * dy <= PICKUP_DISTANCE * PICKUP_DISTANCE
  }

  predicate MayPick(g: Ground, p: Picker, dropId: int) {
    dropId in g.drops && InReach(p, g.drops[dropId])
    && (g.drops[dropId].owner.Some? ==> g.drops[dropId].owner.value == p.id)
  }

  datatype Picked = Picked(ok: bool, ground: Ground, bags: Bags, results: seq<S.AddItemResult>)

  function Pickup(g: Ground, bags: Bags, catalog: Catalog, p: Picker, dropId: int): Picked {
    if !MayPick(g, p, dropId) then Picked(false, g, bags, [])
    else
      var d := g.drops[dropId];
      var stored := AddToBags(bags, catalog, d.itemId, d.count);
      if stored.ok then Picked(true, g.(drops := g.drops - {dropId}), stored.bags, stored.results)
      else Picked(false, g, stored.bags, stored.results)
  }

  /** CheckDropItem: owners lose their claim first, expired items are removed. */
  function Aged(d: Drop, now: int): Drop {
    if d.ownerExpireMs <= now then d.(owner := None) else d
  }

  function Expire(g: Ground, now: int): Ground {
    g.(drops := map k | k in g.drops && g.drops[k].expireMs > now :: Aged(g.drops[k], now))
  }

  function Expired(g: Ground, now: int): Drops {
    map k | k in g.drops && g.drops[k].expireMs <= now :: g.drops[k]
  }

  /** After a clean-up a remaining drop is open to everybody in reach exactly if it never had an
      owner or the owner's claim has run out. */
  lemma ClaimsLapse(g: Ground, now: int, p: Picker, k: int)
    requires k in Expire(g, now).drops
    ensures var d := g.drops[k]; var free := d.owner.None? || d.owner.value == p.id || d.ownerExpireMs <= now;
      MayPick(Expire(g, now), p, k) <==> InReach(p, d) && free
  {
  }

  /** A pickup is refused, and changes nothing, unless the drop is there, at most 80 away, and unowned
      or one's own. */
  lemma PickupAllowed(g: Ground, bags: Bags, catalog: Catalog, p: Picker, dropId: int)
    ensures MayPick(g, p, dropId) <==>
      && dropId in g.drops
      && (g.drops[dropId].x - p.x) * (g.drops[dropId].x - p.x) + (g.drops[dropId].y - p.y) * (g.drops[dropId].y - p.y) <= 6400.0
      && (g.drops[dropId].owner == None || g.drops[dropId].owner == Some(p.id))
    ensures !MayPick(g, p, dropId) ==> Pickup(g, bags, catalog, p, dropId) == Picked(false, g, bags, [])
  {
  }

  /** A pickup takes away at most the drop it names. */
  lemma PickupFrame(g: Ground, bags: Bags, catalog: Catalog, p: Picker, dropId: int)
    ensures var r := Pickup(g, bags, catalog, p, dropId);
      && r.ground.nextId == g.nextId
      && (dropId in r.ground.drops <==> dropId in g.drops && !r.ok)
      && (forall k :: k != dropId ==> (k in r.ground.drops <==> k in g.drops))
      && (forall k :: k in r.ground.drops ==> r.ground.drops[k] == g.drops[k])
  {
    hide AddToBags;
  }

  /** A pickup that is allowed and succeeds moves exactly the drop's count from the ground into
      the bags. One that fails leaves the ground alone, but may have stored what fitted: ground
      plus bags are conserved exactly when all of the drop fits or none of it. */
  lemma PickupConservesIff(g: Ground, bags: Bags, catalog: Catalog, p: Picker, dropId: int)
    requires CatalogOk(catalog) && MayPick(g, p, dropId) && g.drops[dropId].itemId != 0
    ensures var r := Pickup(g, bags, catalog, p, dropId); var d := g.drops[dropId];
      var fits := Fits(bags, catalog, d.itemId, d.count);
      && (r.ok <==> d.count > 0 && fits == d.count)
      && OnGround(r.ground.drops, d.itemId) == OnGround(g.drops, d.itemId) - (if r.ok then d.count else 0)
      && Carried(r.bags, d.itemId) == Carried(bags, d.itemId) + fits
      && (OnGround(r.ground.drops, d.itemId) + Carried(r.bags, d.itemId)
            == OnGround(g.drops, d.itemId) + Carried(bags, d.itemId)
          <==> fits == 0 || fits == d.count)
  {
    var d := g.drops[dropId];
    AddToBagsExact(bags, catalog, d.itemId, d.count, d.itemId);
    MapSumSplit(g.drops, DropShare(d.itemId), dropId);
  }

  /** Eight pieces on the ground and room for five: the pickup fails, and afterwards there are
      thirteen of them. */
  lemma FailedPickupDuplicates() returns (g: Ground, bags: Bags, catalog: Catalog, p: Picker)
    ensures CatalogOk(catalog) && !Pickup(g, bags, catalog, p, 0).ok
    ensures OnGround(Pickup(g, bags, catalog, p, 0).ground.drops, 7) + Carried(Pickup(g, bags, catalog, p, 0).bags, 7)
         == OnGround(g.drops, 7) + Carried(bags, 7) + 5
  {
    g := Ground(map[0 := NewDrop(0, DropResult(7, 8), 0.0, 0.0, None, 0)], 1);
    bags := map[2 := Bag(S.NewTable(2, 1, 0), 1)];
    catalog := map[7 := ItemInfo("etc", true, 5)];
    p := Picker(1, 0.0, 0.0);
    assert InventoryTypeOf(catalog[7].typeName) == 2;
    assert MayPick(g, p, 0);
    S.NewTableRoom(2, 1, 0, Request(catalog, 7, 8));
    assert Fits(bags, catalog, 7, 8) == 5;
    PickupConservesIff(g, bags, catalog, p, 0);
  }

  // ------------------------------------------------------------------ spawning and clean-up

  ghost function ListTotal(items: seq<DropResult>, i: int): int {
    if items == [] then 0 else (if items[0].itemId == i then items[0].count else 0) + ListTotal(items[1..], i)
  }

  lemma {:induction false} SpawnIds(g: Ground, items: seq<DropResult>, x: real, y: real, owner: Option<int>, now: int)
    requires forall k :: k in g.drops ==> k < g.nextId && g.drops[k].dropId == k
    ensures var r := Spawn(g, items, x, y, owner, now);
      && (forall k :: k in r.drops ==> k < r.nextId && r.drops[k].dropId == k)
      && (forall k :: k < g.nextId ==> (k in r.drops <==> k in g.drops))
    decreases |items|
  {
    if items != [] {
      var d := NewDrop(g.nextId, items[0], x, y, owner, now);
      var g1 := Ground(g.drops[g.nextId := d], g.nextId + 1);
      SpawnIds(g1, items[1..], x, y, owner, now);
      assert forall k :: k < g.nextId ==> (k in g1.drops <==> k in g.drops);
    }
  }

  lemma {:induction false} SpawnTotal(g: Ground, items: seq<DropResult>, x: real, y: real, owner: Option<int>,
                                      now: int, i: int)
    requires forall k :: k in g.drops ==> k < g.nextId
    ensures OnGround(Spawn(g, items, x, y, owner, now).drops, i) == OnGround(g.drops, i) + ListTotal(items, i)
    decreases |items|
  {
    if items != [] {
      var d := NewDrop(g.nextId, items[0], x, y, owner, now);
      MapSumUpdate(g.drops, DropShare(i), g.nextId, d);
      assert g.drops - {g.nextId} == g.drops;
      SpawnTotal(Ground(g.drops[g.nextId := d], g.nextId + 1), items[1..], x, y, owner, now, i);
    }
  }

  lemma {:induction false} SpawnContents(g: Ground, items: seq<DropResult>, x: real, y: real, owner: Option<int>,
                                         now: int, j: nat)
    requires forall k :: k in g.drops ==> k < g.nextId
    ensures var r := Spawn(g, items, x, y, owner, now);
      && (forall k :: k in g.drops ==> k in r.drops && r.drops[k] == g.drops[k])
      && (j < |items| ==> g.nextId + j in r.drops && r.drops[g.nextId + j] == NewDrop(g.nextId + j, items[j], x, y, owner, now))
    decreases |items|
  {
    if items != [] {
      var d := NewDrop(g.nextId, items[0], x, y, owner, now);
      SpawnContents(Ground(g.drops[g.nextId := d], g.nextId + 1), items[1..], x, y, owner, now, if j == 0 then 0 else j - 1);
    }
  }

  /** The drop with this id is the result r, lies at a place, is reserved to owner for a minute from
      now and is to be cleaned up after two. */
  ghost predicate LiesAt(drops: Drops, id: int, r: DropResult, x: real, y: real, owner: Option<int>, now: int) {
    id in drops && drops[id] == Drop(id, r.itemId, r.count, x, y, owner, now + 60000, now + 120000)
  }

  /** So do all the items, under the ids from first on. */
  ghost predicate Lie(drops: Drops, first: int, items: seq<DropResult>, x: real, y: real, owner: Option<int>, now: int) {
    forall j :: 0 <= j < |items| ==> LiesAt(drops, first + j, items[j], x, y, owner, now)
  }

  lemma SpawnedLie(g: Ground, items: seq<DropResult>, x: real, y: real, owner: Option<int>, now: int)
    requires forall k :: k in g.drops ==> k < g.nextId
    ensures Lie(Spawn(g, items, x, y, owner, now).drops, g.nextId, items, x, y, owner, now)
  {
    hide Spawn;
    forall j | 0 <= j < |items|
      ensures LiesAt(Spawn(g, items, x, y, owner, now).drops, g.nextId + j, items[j], x, y, owner, now)
    {
      SpawnContents(g, items, x, y, owner, now, j);
    }
  }

  /** The life of a drop: it lies where the monster was, is reserved to its owner for a minute, and
      two minutes after it fell the next clean-up takes it away. */
  lemma DropLife(g: Ground, items: seq<DropResult>, x: real, y: real, owner: Option<int>, now: int, later: int, j: nat)
    requires j < |items| && forall k :: k in g.drops ==> k < g.nextId
    ensures var drops := Expire(Spawn(g, items, x, y, owner, now), later).drops; var id := g.nextId + j;
      && (id in drops <==> later < now + 120000)
      && (id in drops ==>
            drops[id] == Drop(id, items[j].itemId, items[j].count, x, y, if later < now + 60000 then owner else None,
                              now + 60000, now + 120000))
  {
    SpawnContents(g, items, x, y, owner, now, j);
    hide Spawn;
  }

  /** Leaving drop k out affects just one side of the clean-up. */
  lemma ExpireWithout(g: Ground, now: int, k: int)
    requires k in g.drops
    ensures var rest := g.(drops := g.drops - {k});
      if g.drops[k].expireMs <= now then
        Expired(g, now) - {k} == Expired(rest, now) && Expire(g, now).drops == Expire(rest, now).drops
      else
        Expire(g, now).drops - {k} == Expire(rest, now).drops && Expired(g, now) == Expired(rest, now)
  {
  }

  lemma {:induction false} ExpireTotal(g: Ground, now: int, i: int)
    ensures OnGround(Expire(g, now).drops, i) == OnGround(g.drops, i) - OnGround(Expired(g, now), i)
    decreases |g.drops|
  {
    if g.drops != map[] {
      SomeKey(g.drops);
      var k :| k in g.drops.Keys;
      ExpireTotal(g.(drops := g.drops - {k}), now, i);
      MapSumSplit(g.drops, DropShare(i), k);
      ExpireWithout(g, now, k);
      if g.drops[k].expireMs <= now {
        MapSumSplit(Expired(g, now), DropShare(i), k);
      } else {
        MapSumSplit(Expire(g, now).drops, DropShare(i), k);
      }
    }
  }
}

/** The drop part of MapInstance and the manager of one player's inventories. */
module MapDrops {
  import opened Prelude
  import opened GroundDrops
  import S = Slots

  /** The list names each element of the set once and nothing else. */
  ghost predicate ListsOnce(list: seq<int>, elements: set<int>) {
    && (forall k :: k in list <==> k in elements)
    && (forall m, n :: 0 <= m < n < |list| ==> list[m] != list[n])
  }

  ghost predicate NamesDrops(ids: seq<int>, keys: seq<int>, gone: Drops) {
    |ids| == |keys| && forall n :: 0 <= n < |keys| ==> keys[n] in gone && ids[n] == gone[keys[n]].dropId
  }

  lemma ListOneMore(list: seq<int>, elements: set<int>, k: int)
    requires ListsOnce(list, elements) && k !in elements
    ensures ListsOnce(list + [k], elements + {k})
  {
  }

  class InventoryManager {
    var inventories: Bags
    const catalog: Catalog

    constructor (bags: Bags, c: Catalog)
      ensures inventories == bags && catalog == c
    {
      inventories, catalog := bags, c;
    }

    method AddItem(itemId: int, count: int) returns (ok: bool, results: seq<S.AddItemResult>)
      modifies this
      ensures Stored(ok, inventories, results) == AddToBags(old(inventories), catalog, itemId, count)
    {
      if itemId !in catalog { return false, []; }
      var info := catalog[itemId];
      var ty := InventoryTypeOf(info.typeName);
      if ty !in inventories { return false, []; }
      var d := S.AddItemData(itemId, count, info.stackable, info.maxStack);
      var bag := inventories[ty];
      var fill := S.AddItem(bag.slots, bag.maxSlot, d);
      inventories := inventories[ty := bag.(slots := fill.slots)];
      ok, results := S.Added(bag.slots, bag.maxSlot, d), fill.results;
    }

    method MoveItemSlots(ty: int, fromPos: int, toPos: int) returns (ok: bool)
      modifies this
      ensures ok <==> ty in old(inventories) && S.CanMove(old(inventories)[ty].slots, fromPos, toPos)
      ensures inventories == MoveInBags(old(inventories), ty, fromPos, toPos)
    {
      if ty !in inventories { return false; }
      var bag := inventories[ty];
      ok := S.CanMove(bag.slots, fromPos, toPos);
      inventories := inventories[ty := bag.(slots := S.MoveItem(bag.slots, fromPos, toPos))];
    }
  }

  class MapInstance {
    var dropItems: Drops
    var dropId: int

    ghost function Abs(): Ground
      reads this
    {
      Ground(dropItems, dropId)
    }

    constructor ()
      ensures Abs() == Ground(map[], 0)
    {
      dropItems, dropId := map[], 0;
    }

    method SpawnDropItem(items: seq<DropResult>, x: real, y: real, lastAttacker: Option<int>, now: int)
      modifies this
      ensures Abs() == Spawn(old(Abs()), items, x, y, lastAttacker, now)
    {
      for n := 0 to |items|
        invariant Spawn(Abs(), items[n..], x, y, lastAttacker, now) == Spawn(old(Abs()), items, x, y, lastAttacker, now)
      {
        assert items[n..][1..] == items[n + 1..];
        var id := dropId;
        dropId := dropId + 1;
        dropItems := dropItems[id := Drop(id, items[n].itemId, items[n].count, x, y, lastAttacker, now + 60000, now + 120000)];
      }
    }

    method PickupDropItem(p: Picker, inven: InventoryManager, id: int) returns (ok: bool, results: seq<S.AddItemResult>)
      modifies this, inven
      ensures Picked(ok, Abs(), inven.inventories, results)
           == Pickup(old(Abs()), old(inven.inventories), inven.catalog, p, id)
    {
      if id !in dropItems { return false, []; }
      var drop := dropItems[id];
      if !InReach(p, drop) { return false, []; }
      if drop.owner.Some? && drop.owner.value != p.id { return false, []; }
      ok, results := inven.AddItem(drop.itemId, drop.count);
      if !ok { return false, results; }
      dropItems := dropItems - {id};
    }

    /** The iteration order of the drop table is unspecified: keys is the one it happened to have. */
    method CheckDropItem(now: int) returns (removed: seq<int>, ghost keys: seq<int>)
      modifies this
      ensures Abs() == Expire(old(Abs()), now)
      ensures ListsOnce(keys, Expired(old(Abs()), now).Keys)
      ensures NamesDrops(removed, keys, Expired(old(Abs()), now))
    {
      removed, keys := [], [];
      var todo := dropItems.Keys;
      while todo != {}
        invariant todo <= old(dropItems).Keys && dropId == old(dropId)
        invariant ListsOnce(keys, Expired(old(Abs()), now).Keys - todo)
        invariant NamesDrops(removed, keys, Expired(old(Abs()), now))
        invariant forall k :: k in dropItems <==> k in todo || k in Expire(old(Abs()), now).drops
        invariant forall k :: k in dropItems ==>
          dropItems[k] == if k in todo then old(dropItems)[k] else Aged(old(dropItems)[k], now)
      {
        SomeElement(todo);
        var k :| k in todo;
        if dropItems[k].owner.Some? && dropItems[k].ownerExpireMs <= now {
          dropItems := dropItems[k := dropItems[k].(owner := None)];
        }
        if dropItems[k].expireMs <= now {
          ListOneMore(keys, Expired(old(Abs()), now).Keys - todo, k);
          removed := removed + [dropItems[k].dropId];
          keys := keys + [k];
          dropItems := dropItems - {k};
        }
        todo := todo - {k};
      }
      ghost var aged := Expire(old(Abs()), now).drops;
      SameMap(dropItems, aged);
    }
  }
}
