/** The calls of TradeService and its packet handlers on trade sessions.
    Session pointers are addresses into an explicit heap, so that delete is visible; address 0
    is nullptr and addresses are never handed out twice. A player is an object with an id: after
    a reconnect another object carries the same id. */
module TradeProtocol {
  import opened Prelude
  import opened InventoryTable
  import opened TradeSwap

  /** A Player object; obj is its address. */
  datatype Player = Player(obj: nat, id: int, alive: bool, place: Option<int>)

  datatype Session = Session(aObj: nat, bObj: nat, aId: int, bId: int, aReady: bool, bReady: bool,
                             aItems: seq<TradeItem>, bItems: seq<TradeItem>)

  /** What happened so far, kept only to state properties of whole runs. An upload or a ready
      call is logged with the id of its caller and the side of the session it was booked on. */
  datatype Event =
    | Opened(s: nat, a: int, b: int)
    | Uploaded(s: nat, player: int, onA: bool, item: TradeItem)
    | Readied(s: nat, player: int, onA: bool)
    | Swapped(s: nat, a: int, b: int, caller: int, committed: bool)
    | Closed(s: nat)

  datatype World = World(table: Table, clock: nat, registry: map<int, nat>, heap: map<nat, Session>,
                         nextAddr: nat, log: seq<Event>)

  /** No pointer in the registry dangles, and only a session's own members point to it. */
  predicate Safe(w: World) {
    && w.nextAddr > 0
    && (forall s :: s in w.heap ==> 0 < s < w.nextAddr)
    && (forall p :: p in w.registry && w.registry[p] != 0 ==>
          && w.registry[p] in w.heap
          && (p == w.heap[w.registry[p]].aId || p == w.heap[w.registry[p]].bId))
  }

  function Initial(t: Table): (w: World)
    ensures Safe(w)
  {
    World(t, 0, map[], map[], 1, [])
  }

  // ------------------------------------------------------------------ service calls

  /** m_sessions[p]: reading through operator[] inserts a null entry for an unknown player. */
  function Lookup(w: World, p: int): (r: (nat, World))
    requires Safe(w)
    ensures Safe(r.1) && p in r.1.registry && r.1.registry[p] == r.0
    ensures r.0 == SessionOf(w, p) == SessionOf(r.1, p)
  {
    if p in w.registry then (w.registry[p], w) else (0, w.(registry := w.registry[p := 0]))
  }

  function SessionOf(w: World, p: int): nat {
    if p in w.registry then w.registry[p] else 0
  }

  predicate CanStart(requester: Player, accepter: Player) {
    && requester.place.Some? && accepter.place.Some?
    && requester.place == accepter.place
    && requester.alive && accepter.alive
  }

  function Start(w: World, requester: Player, accepter: Player): (r: (int, World))
    requires Safe(w)
    ensures Safe(r.1)
  {
    if !CanStart(requester, accepter) then (-1, w)
    else
      var s := w.nextAddr;
      var session := Session(requester.obj, accepter.obj, requester.id, accepter.id, false, false, [], []);
      (0, w.(registry := w.registry[requester.id := s][accepter.id := s],
             heap := w.heap[s := session],
             nextAddr := s + 1,
             log := w.log + [Opened(s, requester.id, accepter.id)]))
  }

  /** The code books uploads and ready calls by comparing objects, not ids. */
  predicate BookedOnA(x: Session, p: Player) {
    x.aObj == p.obj
  }

  function AddOffer(x: Session, onA: bool, item: TradeItem): Session {
    if onA then x.(aItems := x.aItems + [item]) else x.(bItems := x.bItems + [item])
  }

  function UploadItem(w: World, p: Player, item: TradeItem): (r: (int, World))
    requires Safe(w)
    ensures Safe(r.1)
  {
    var (s, w1) := Lookup(w, p.id);
    if s == 0 then (-1, w1)
    else
      var x := w1.heap[s];
      (0, w1.(heap := w1.heap[s := AddOffer(x, BookedOnA(x, p), item)],
              log := w1.log + [Uploaded(s, p.id, BookedOnA(x, p), item)]))
  }

  function SetReady(x: Session, onA: bool): Session {
    if onA then x.(aReady := true) else x.(bReady := true)
  }

  /** The ready call of p in its session s, before the test whether to trade. */
  function Flag(w: World, s: nat, p: Player): (r: World)
    requires Safe(w) && s != 0 && SessionOf(w, p.id) == s
    ensures Safe(r)
  {
    var x := w.heap[s];
    w.(heap := w.heap[s := SetReady(x, BookedOnA(x, p))], log := w.log + [Readied(s, p.id, BookedOnA(x, p))])
  }

  /** The test whether to trade compares ids. */
  predicate OtherReady(x: Session, p: int) {
    (x.aId == p && x.bReady) || (x.bId == p && x.aReady)
  }

  /** Execute on a live session: the swap, and the offers it rewrote. */
  function RunTrade(w: World, f: Faults, s: nat, caller: int): (r: (int, World))
    requires Safe(w) && s in w.heap
    ensures Safe(r.1)
  {
    var x := w.heap[s];
    var swap := Execute(w.table, f, w.clock, x.aId, x.bId, x.aItems, x.bItems);
    (if swap.ok then 0 else -1,
     w.(table := swap.table, clock := swap.next,
        heap := w.heap[s := x.(aItems := swap.aItems, bItems := swap.bItems)],
        log := w.log + [Swapped(s, x.aId, x.bId, caller, swap.ok)]))
  }

  /** 0: traded, 2: waiting for the other side, -1: no session or the swap was rolled back. */
  function Ready(w: World, f: Faults, p: Player): (r: (int, World))
    requires Safe(w)
    ensures Safe(r.1)
    ensures r.0 == 0 ==> SessionOf(w, p.id) != 0 && SessionOf(r.1, p.id) == SessionOf(w, p.id)
  {
    var (s, w1) := Lookup(w, p.id);
    if s == 0 then (-1, w1)
    else
      var w2 := Flag(w1, s, p);
      if OtherReady(w2.heap[s], p.id) then RunTrade(w2, f, s, p.id) else (2, w2)
  }

  function DeleteSession(w: World, s: nat): (r: World)
    requires Safe(w) && s in w.heap
    ensures Safe(r)
  {
    var x := w.heap[s];
    w.(registry := w.registry - {x.aId, x.bId},
       heap := w.heap - {s},
       log := w.log + [Closed(s)])
  }

  function Cancel(w: World, p: int): (r: (int, World))
    requires Safe(w)
    ensures Safe(r.1)
  {
    var (s, w1) := Lookup(w, p);
    if s == 0 then (-1, w1) else (0, DeleteSession(w1, s))
  }

  /** The handler of PKT_TRADE_READY: after a commit it deletes the session. */
  function HandleReady(w: World, f: Faults, p: Player): (r: (int, World))
    requires Safe(w)
    ensures Safe(r.1)
  {
    var (rc, w1) := Ready(w, f, p);
    if rc == 0 then (rc, DeleteSession(w1, SessionOf(w1, p.id))) else (rc, w1)
  }

  // ------------------------------------------------------------------ whose side a call is booked on

  /** The object comparison agrees with the ids: p is the session's a side by both or by neither. */
  predicate OnOwnSide(x: Session, p: Player) {
    p.obj == x.aObj <==> p.id == x.aId
  }

  /** An upload lands on its caller's own side exactly when objects and ids agree. */
  lemma UploadLandsOwnIff(w: World, p: Player, item: TradeItem)
    requires Safe(w) && SessionOf(w, p.id) != 0
    ensures var x := w.heap[SessionOf(w, p.id)];
      UploadItem(w, p, item).1.heap[SessionOf(w, p.id)] == AddOffer(x, p.id == x.aId, item) <==> OnOwnSide(x, p)
  {
    var x := w.heap[SessionOf(w, p.id)];
    assert |AddOffer(x, true, item).aItems| != |AddOffer(x, false, item).aItems|;
  }

  /** So does a ready flag, unless both flags are set already and there is nothing to get wrong. */
  lemma ReadyLandsOwnIff(w: World, p: Player)
    requires Safe(w) && SessionOf(w, p.id) != 0
    ensures var s := SessionOf(w, p.id); var x := w.heap[s];
      Flag(w, s, p).heap[s] == SetReady(x, p.id == x.aId) <==> OnOwnSide(x, p) || (x.aReady && x.bReady)
  {
    var x := w.heap[SessionOf(w, p.id)];
    if !(x.aReady && x.bReady) {
      assert SetReady(x, true).aReady != SetReady(x, false).aReady || SetReady(x, true).bReady != SetReady(x, false).bReady;
    }
  }

  // ------------------------------------------------------------------ a trade from start to end

  function UploadAll(w: World, p: Player, items: seq<TradeItem>): (r: World)
    requires Safe(w)
    ensures Safe(r)
    decreases |items|
  {
    if items == [] then w else UploadAll(UploadItem(w, p, items[0]).1, p, items[1..])
  }

  /** The session with these offers appended on one side. */
  function WithOffers(x: Session, onA: bool, items: seq<TradeItem>): Session {
    if onA then x.(aItems := x.aItems + items) else x.(bItems := x.bItems + items)
  }

  lemma {:induction false} UploadAllAdds(w: World, p: Player, items: seq<TradeItem>)
    requires Safe(w) && SessionOf(w, p.id) != 0
    ensures var r := UploadAll(w, p, items); var x := w.heap[SessionOf(w, p.id)];
      && r.registry == w.registry && r.table == w.table && r.clock == w.clock
      && SessionOf(w, p.id) in r.heap
      && r.heap[SessionOf(w, p.id)] == WithOffers(x, BookedOnA(x, p), items)
    decreases |items|
  {
    var x := w.heap[SessionOf(w, p.id)];
    if items == [] {
      assert x.aItems + [] == x.aItems && x.bItems + [] == x.bItems;
    } else {
      UploadAllAdds(UploadItem(w, p, items[0]).1, p, items[1..]);
      Regroup(x.aItems, [items[0]], items[1..]);
      Regroup(x.bItems, [items[0]], items[1..]);
      assert items == [items[0]] + items[1..];
    }
  }

  /** The session of two players who have just started and uploaded. */
  lemma AfterUploads(w: World, requester: Player, accepter: Player, aItems: seq<TradeItem>, bItems: seq<TradeItem>)
    requires Safe(w) && CanStart(requester, accepter) && requester.obj != accepter.obj
    ensures
      var w2 := UploadAll(UploadAll(Start(w, requester, accepter).1, requester, aItems), accepter, bItems);
      && SessionOf(w2, requester.id) == SessionOf(w2, accepter.id) == w.nextAddr && w.nextAddr in w2.heap
      && w2.heap[w.nextAddr]
           == Session(requester.obj, accepter.obj, requester.id, accepter.id, false, false, aItems, bItems)
      && w2.table == w.table && w2.clock == w.clock
  {
    var w0 := Start(w, requester, accepter).1;
    UploadAllAdds(w0, requester, aItems);
    UploadAllAdds(UploadAll(w0, requester, aItems), accepter, bItems);
    assert [] + aItems == aItems && [] + bItems == bItems;
  }

  /** From any state: two players who start a trade, upload their offers and both get ready, in
      either order, get exactly the swap of those offers. The first one waits; after a commit
      neither has a session any more, after a rollback both still do. */
  lemma TradeHappens(w: World, f: Faults, requester: Player, accepter: Player,
                     aItems: seq<TradeItem>, bItems: seq<TradeItem>, first: Player, second: Player)
    requires Safe(w) && CanStart(requester, accepter) && requester.id != accepter.id && requester.obj != accepter.obj
    requires (first, second) == (requester, accepter) || (first, second) == (accepter, requester)
    ensures
      var w2 := UploadAll(UploadAll(Start(w, requester, accepter).1, requester, aItems), accepter, bItems);
      var (rc1, w3) := HandleReady(w2, f, first);
      var (rc2, w4) := HandleReady(w3, f, second);
      var swap := Execute(w.table, f, w.clock, requester.id, accepter.id, aItems, bItems);
      && rc1 == 2 && w3.table == w.table
      && rc2 == (if swap.ok then 0 else -1) && w4.table == swap.table
      && (SessionOf(w4, first.id) == 0 <==> swap.ok) && (SessionOf(w4, second.id) == 0 <==> swap.ok)
  {
    AfterUploads(w, requester, accepter, aItems, bItems);
    hide UploadAll, Start;
  }

  /** A requester who has come back as another object: his ready call counts as the partner's,
      so it trades at once although the partner never called ready, and what he uploads is booked
      as an offer of the partner. */
  lemma ReconnectedTradesAlone(w: World, f: Faults, requester: Player, accepter: Player, back: Player,
                               bItems: seq<TradeItem>, item: TradeItem)
    requires Safe(w) && CanStart(requester, accepter) && requester.id != accepter.id && requester.obj != accepter.obj
    requires back.id == requester.id && back.obj != requester.obj
    ensures
      var w1 := UploadAll(UploadAll(Start(w, requester, accepter).1, requester, []), accepter, bItems);
      var swap := Execute(w.table, f, w.clock, requester.id, accepter.id, [], bItems);
      && HandleReady(w1, f, back).0 == (if swap.ok then 0 else -1)
      && HandleReady(w1, f, back).1.table == swap.table
      && var heap := UploadItem(w1, back, item).1.heap;
         w.nextAddr in heap && heap[w.nextAddr].aItems == [] && heap[w.nextAddr].bItems == bItems + [item]
  {
    AfterUploads(w, requester, accepter, [], bItems);
    hide UploadAll, Start;
  }
}

/** TradeService itself: fields that its calls update in place. */
module TradeServiceState {
  import opened TradeSwap
  import opened TradeDatabase
  import opened TradeProtocol

  class TradeService {
    const conn: Connection
    var sessions: map<int, nat>
    var heap: map<nat, Session>
    var nextAddr: nat
    ghost var log: seq<Event>

    ghost function Abs(): World
      reads this, conn
    {
      World(conn.table, conn.clock, sessions, heap, nextAddr, log)
    }

    constructor (c: Connection)
      requires c.clock == 0
      ensures conn == c && Abs() == Initial(c.table) && Safe(Abs())
    {
      conn, sessions, heap, nextAddr, log := c, map[], map[], 1, [];
    }

    method CreateTradeSession(a: Player, b: Player)
      requires Safe(Abs()) && CanStart(a, b)
      modifies this
      ensures Abs() == Start(old(Abs()), a, b).1
    {
      heap := heap[nextAddr := Session(a.obj, b.obj, a.id, b.id, false, false, [], [])];
      sessions := sessions[a.id := nextAddr];
      sessions := sessions[b.id := nextAddr];
      log := log + [Opened(nextAddr, a.id, b.id)];
      nextAddr := nextAddr + 1;
    }

    method StartTrade(requester: Player, accepter: Player) returns (rc: int)
      requires Safe(Abs())
      modifies this
      ensures (rc, Abs()) == Start(old(Abs()), requester, accepter)
    {
      if requester.place.None? || accepter.place.None? { return -1; }
      if requester.place != accepter.place { return -1; }
      if !requester.alive || !accepter.alive { return -1; }
      CreateTradeSession(requester, accepter);
      rc := 0;
    }

    method Find(p: int) returns (s: nat)
      requires Safe(Abs())
      modifies `sessions
      ensures (s, Abs()) == Lookup(old(Abs()), p)
    {
      if p !in sessions { sessions := sessions[p := 0]; }
      s := sessions[p];
    }

    method Upload(p: Player, item: TradeItem) returns (rc: int)
      requires Safe(Abs())
      modifies this
      ensures (rc, Abs()) == UploadItem(old(Abs()), p, item)
    {
      var s := Find(p.id);
      if s == 0 { return -1; }
      log := log + [Uploaded(s, p.id, heap[s].aObj == p.obj, item)];
      if heap[s].aObj == p.obj {
        heap := heap[s := heap[s].(aItems := heap[s].aItems + [item])];
      } else {
        heap := heap[s := heap[s].(bItems := heap[s].bItems + [item])];
      }
      rc := 0;
    }

    method ExecuteTrade(s: nat, ghost caller: int) returns (rc: int)
      requires Safe(Abs()) && s in heap
      modifies this, conn
      ensures (rc, Abs()) == RunTrade(old(Abs()), conn.faults, s, caller)
    {
      var x := heap[s];
      var aMoved, bMoved;
      rc, aMoved, bMoved := conn.RunSwap(x.aId, x.bId, x.aItems, x.bItems);
      heap := heap[s := x.(aItems := aMoved, bItems := bMoved)];
      log := log + [Swapped(s, x.aId, x.bId, caller, rc == 0)];
    }

    method MarkReady(p: Player) returns (rc: int)
      requires Safe(Abs())
      modifies this, conn
      ensures (rc, Abs()) == Ready(old(Abs()), conn.faults, p)
    {
      var s := Find(p.id);
      if s == 0 { return -1; }
      log := log + [Readied(s, p.id, heap[s].aObj == p.obj)];
      if heap[s].aObj == p.obj {
        heap := heap[s := heap[s].(aReady := true)];
      } else {
        heap := heap[s := heap[s].(bReady := true)];
      }
      if (heap[s].aId == p.id && heap[s].bReady) || (heap[s].bId == p.id && heap[s].aReady) {
        rc := ExecuteTrade(s, p.id);
        return rc;
      }
      rc := 2;
    }

    method DeleteTradeSession(s: nat)
      requires Safe(Abs()) && s in heap
      modifies this
      ensures Abs() == DeleteSession(old(Abs()), s)
    {
      var a, b := heap[s].aId, heap[s].bId;
      sessions := sessions - {a};
      sessions := sessions - {b};
      heap := heap - {s};
      log := log + [Closed(s)];
      assert old(sessions) - {a} - {b} == old(sessions) - {a, b};
    }

    method CancelTrade(p: int) returns (rc: int)
      requires Safe(Abs())
      modifies this
      ensures (rc, Abs()) == Cancel(old(Abs()), p)
    {
      var s := Find(p);
      if s == 0 { return -1; }
      DeleteTradeSession(s);
      rc := 0;
    }

    method HandleTradeReady(p: Player) returns (rc: int)
      requires Safe(Abs())
      modifies this, conn
      ensures (rc, Abs()) == HandleReady(old(Abs()), conn.faults, p)
    {
      rc := MarkReady(p);
      if rc == 0 {
        DeleteTradeSession(sessions[p.id]);
      }
    }
  }
}
