/** Whole runs of the trade handlers: what they keep whatever the players do, and what they keep
    as long as nobody comes back as another object in the middle of a trade. */
module TradeRuns {
  import opened Prelude
  import opened InventoryTable
  import opened TradeSwap
  import opened TradeProtocol

  /** The service and the player manager, which knows one object per id. */
  datatype Server = Server(w: World, online: map<int, Player>)

  /** Connect installs a player object: a login, a reconnect under an id that is known already, or
      the same object after a move or a death. The other actions are handler calls by players who
      are online. */
  datatype Action =
    | Connect(player: Player)
    | DoStart(requester: int, accepter: int)
    | DoUpload(p: int, item: TradeItem)
    | DoReady(p: int)
    | DoCancel(p: int)

  predicate SafeServer(g: Server) {
    Safe(g.w) && forall p :: p in g.online ==> g.online[p].id == p
  }

  function NewServer(t: Table): (g: Server)
    ensures SafeServer(g)
  {
    Server(Initial(t), map[])
  }

  function Perform(g: Server, f: Faults, x: Action): (r: Server)
    requires SafeServer(g)
    ensures SafeServer(r)
  {
    match x
    case Connect(player) => g.(online := g.online[player.id := player])
    case DoStart(p, q) =>
      if p in g.online && q in g.online then g.(w := Start(g.w, g.online[p], g.online[q]).1) else g
    case DoUpload(p, item) => if p in g.online then g.(w := UploadItem(g.w, g.online[p], item).1) else g
    case DoReady(p) => if p in g.online then g.(w := HandleReady(g.w, f, g.online[p]).1) else g
    case DoCancel(p) => if p in g.online then g.(w := Cancel(g.w, p).1) else g
  }

  function Run(t: Table, f: Faults, xs: seq<Action>): (r: Server)
    ensures SafeServer(r)
  {
    if xs == [] then NewServer(t) else Perform(Run(t, f, xs[..|xs| - 1]), f, xs[|xs| - 1])
  }

  // ------------------------------------------------------------------ what the log means

  /** The offers booked on one side of session s, in order. */
  ghost function Landed(log: seq<Event>, s: nat, onA: bool): seq<TradeItem> {
    if log == [] then []
    else
      var rest := Landed(log[..|log| - 1], s, onA);
      var e := log[|log| - 1];
      if e.Uploaded? && e.s == s && e.onA == onA then rest + [e.item] else rest
  }

  /** Somebody's ready call was booked on that side of session s. */
  ghost predicate ReadyOn(log: seq<Event>, s: nat, onA: bool) {
    exists p: int :: Readied(s, p, onA) in log
  }

  /** p has called ready in session s. */
  ghost predicate HasReadied(log: seq<Event>, s: nat, p: int) {
    Readied(s, p, true) in log || Readied(s, p, false) in log
  }

  /** The number of commits of session s. */
  ghost function Commits(log: seq<Event>, s: nat): nat {
    if log == [] then 0
    else
      var e := log[|log| - 1];
      Commits(log[..|log| - 1], s) + (if e.Swapped? && e.s == s && e.committed then 1 else 0)
  }

  /** What the committed sessions moved into the group who: the two lists change hands. */
  ghost function Moved(log: seq<Event>, who: iset<int>, j: int): int {
    if log == [] then 0
    else
      var before := log[..|log| - 1];
      var e := log[|log| - 1];
      Moved(before, who, j) +
      if e.Swapped? && e.committed then
        Flow(e.a, e.b, who, Offered(Landed(before, e.s, true), j))
        + Flow(e.b, e.a, who, Offered(Landed(before, e.s, false), j))
      else 0
  }

  /** What must have happened before a swap: a call by one member with a flag on the other side. */
  ghost predicate MayTrade(log: seq<Event>, e: Event)
    requires e.Swapped?
  {
    && Opened(e.s, e.a, e.b) in log && HasReadied(log, e.s, e.caller)
    && ((e.caller == e.a && ReadyOn(log, e.s, false)) || (e.caller == e.b && ReadyOn(log, e.s, true)))
  }

  ghost predicate SwapsWereReady(log: seq<Event>) {
    forall k :: 0 <= k < |log| && log[k].Swapped? ==> MayTrade(log[..k], log[k])
  }

  /** A live session agrees with the log. */
  ghost predicate SessionAgrees(log: seq<Event>, s: nat, x: Session) {
    && Opened(s, x.aId, x.bId) in log
    && (x.aReady <==> ReadyOn(log, s, true))
    && (x.bReady <==> ReadyOn(log, s, false))
    && Terms(x.aItems) == Terms(Landed(log, s, true))
    && Terms(x.bItems) == Terms(Landed(log, s, false))
    && Commits(log, s) == 0
  }

  ghost predicate EventsAreOld(w: World) {
    forall e :: e in w.log ==> e.s < w.nextAddr
  }

  /** The invariant, except that session x may be out of step with the log. Addresses start
      at 1, so InvBut(w, t0, 0) exempts nobody. */
  ghost predicate InvBut(w: World, t0: Table, x: nat)
  {
    && Safe(w)
    && OneRowPerItem(w.table)
    && EventsAreOld(w)
    && SwapsWereReady(w.log)
    && (forall s :: s in w.heap && s != x ==> SessionAgrees(w.log, s, w.heap[s]))
    && (forall s: nat :: Commits(w.log, s) <= 1)
    && (forall who, j :: Held(w.table, who, j) == Held(t0, who, j) + Moved(w.log, who, j))
  }

  /** What every step keeps. */
  ghost predicate Inv(w: World, t0: Table) {
    InvBut(w, t0, 0)
  }

  lemma InitialInv(t: Table)
    requires OneRowPerItem(t)
    ensures Inv(Initial(t), t)
  {
  }

  // ------------------------------------------------------------------ one more event

  lemma LogStep(log: seq<Event>, e: Event)
    ensures (log + [e])[..|log + [e]| - 1] == log && (log + [e])[|log + [e]| - 1] == e
  {
  }

  lemma LandedStep(log: seq<Event>, e: Event, s: nat, onA: bool)
    ensures Landed(log + [e], s, onA)
         == if e.Uploaded? && e.s == s && e.onA == onA then Landed(log, s, onA) + [e.item] else Landed(log, s, onA)
  {
    LogStep(log, e);
  }

  lemma CommitsStep(log: seq<Event>, e: Event, s: nat)
    ensures Commits(log + [e], s)
         == Commits(log, s) + if e.Swapped? && e.s == s && e.committed then 1 else 0
  {
    LogStep(log, e);
  }

  lemma ReadyOnStep(log: seq<Event>, e: Event, s: nat, onA: bool)
    ensures ReadyOn(log + [e], s, onA) <==> ReadyOn(log, s, onA) || (e.Readied? && e.s == s && e.onA == onA)
  {
    if ReadyOn(log, s, onA) {
      var p: int :| Readied(s, p, onA) in log;
      assert Readied(s, p, onA) in log + [e];
    }
    if e.Readied? && e.s == s && e.onA == onA {
      assert e == Readied(s, e.player, onA) && e in log + [e];
    }
  }

  lemma MovedStep(log: seq<Event>, e: Event, who: iset<int>, j: int)
    ensures Moved(log + [e], who, j) == Moved(log, who, j) +
      if e.Swapped? && e.committed then
        Flow(e.a, e.b, who, Offered(Landed(log, e.s, true), j))
        + Flow(e.b, e.a, who, Offered(Landed(log, e.s, false), j))
      else 0
  {
    LogStep(log, e);
  }

  lemma {:induction false} NoEventsNothingLanded(log: seq<Event>, s: nat, onA: bool)
    requires forall e :: e in log ==> e.s != s
    ensures Landed(log, s, onA) == [] && Commits(log, s) == 0
  {
    if log != [] {
      assert log[|log| - 1] in log;
      NoEventsNothingLanded(log[..|log| - 1], s, onA);
    }
  }

  /** What one event means for the records of session s. */
  lemma RecordsStep(log: seq<Event>, e: Event, s: nat)
    ensures forall onA ::
      Landed(log + [e], s, onA)
      == if e.Uploaded? && e.s == s && e.onA == onA then Landed(log, s, onA) + [e.item] else Landed(log, s, onA)
    ensures forall onA ::
      ReadyOn(log + [e], s, onA) <==> ReadyOn(log, s, onA) || (e.Readied? && e.s == s && e.onA == onA)
    ensures Commits(log + [e], s) == Commits(log, s) + if e.Swapped? && e.s == s && e.committed then 1 else 0
  {
    forall onA { LandedStep(log, e, s, onA); }
    forall onA { ReadyOnStep(log, e, s, onA); }
    CommitsStep(log, e, s);
  }

  /** An event of another session leaves a live session in agreement. */
  lemma ForeignEvent(log: seq<Event>, e: Event, s: nat, x: Session)
    requires SessionAgrees(log, s, x) && e.s != s
    ensures SessionAgrees(log + [e], s, x)
  {
    RecordsStep(log, e, s);
  }

  lemma WereReadyStep(log: seq<Event>, e: Event)
    requires SwapsWereReady(log)
    requires e.Swapped? ==> MayTrade(log, e)
    ensures SwapsWereReady(log + [e])
  {
    var longer := log + [e];
    forall k | 0 <= k < |longer| && longer[k].Swapped? ensures MayTrade(longer[..k], longer[k]) {
      assert longer[..k] == log[..k];
      if k == |log| { assert log[..k] == log; }
    }
  }

  /** Any step other than a swap: the table stays, one event is logged, and the session it
      is about still agrees with the log. */
  lemma QuietStep(w: World, e: Event, w': World, t0: Table)
    requires InvBut(w, t0, e.s) && Safe(w')
    requires !e.Swapped? && e.s < w'.nextAddr && w.nextAddr <= w'.nextAddr
    requires w'.table == w.table && w'.log == w.log + [e]
    requires forall s :: s in w'.heap && s != e.s ==> s in w.heap && w'.heap[s] == w.heap[s]
    requires e.s in w'.heap ==> SessionAgrees(w'.log, e.s, w'.heap[e.s])
    ensures Inv(w', t0)
  {
    WereReadyStep(w.log, e);
    forall s | s in w'.heap ensures SessionAgrees(w'.log, s, w'.heap[s]) {
      if s != e.s { ForeignEvent(w.log, e, s, w.heap[s]); }
    }
    forall s: nat ensures Commits(w'.log, s) <= 1 {
      CommitsStep(w.log, e, s);
    }
    forall who, j ensures Held(w'.table, who, j) == Held(t0, who, j) + Moved(w'.log, who, j) {
      MovedStep(w.log, e, who, j);
    }
  }

  lemma Exempt(w: World, t0: Table, x: nat)
    requires Inv(w, t0)
    ensures InvBut(w, t0, x)
  {
  }

  lemma LookupKeeps(w: World, p: int, t0: Table)
    requires Inv(w, t0)
    ensures Inv(Lookup(w, p).1, t0)
  {
  }

  lemma StartedAgrees(log: seq<Event>, s: nat, requester: Player, accepter: Player)
    requires forall e :: e in log ==> e.s != s
    ensures SessionAgrees(log + [Opened(s, requester.id, accepter.id)], s,
                          Session(requester.obj, accepter.obj, requester.id, accepter.id, false, false, [], []))
  {
    NoEventsNothingLanded(log, s, true);
    NoEventsNothingLanded(log, s, false);
    RecordsStep(log, Opened(s, requester.id, accepter.id), s);
  }

  lemma StartKeeps(w: World, requester: Player, accepter: Player, t0: Table)
    requires Inv(w, t0)
    ensures Inv(Start(w, requester, accepter).1, t0)
  {
    if CanStart(requester, accepter) {
      StartedAgrees(w.log, w.nextAddr, requester, accepter);
      Exempt(w, t0, w.nextAddr);
      hide InvBut, SessionAgrees;
      QuietStep(w, Opened(w.nextAddr, requester.id, accepter.id), Start(w, requester, accepter).1, t0);
    }
  }

  lemma UploadedAgrees(log: seq<Event>, s: nat, x: Session, p: int, onA: bool, item: TradeItem)
    requires SessionAgrees(log, s, x)
    ensures SessionAgrees(log + [Uploaded(s, p, onA, item)], s, AddOffer(x, onA, item))
  {
    RecordsStep(log, Uploaded(s, p, onA, item), s);
    TermsConcat(if onA then x.aItems else x.bItems, [item]);
    TermsConcat(Landed(log, s, onA), [item]);
  }

  lemma UploadKeeps(w: World, p: Player, item: TradeItem, t0: Table)
    requires Inv(w, t0)
    ensures Inv(UploadItem(w, p, item).1, t0)
  {
    LookupKeeps(w, p.id, t0);
    var (s, w1) := Lookup(w, p.id);
    if s != 0 {
      var onA := BookedOnA(w1.heap[s], p);
      UploadedAgrees(w1.log, s, w1.heap[s], p.id, onA, item);
      Exempt(w1, t0, s);
      assert s < w1.nextAddr;
      hide InvBut, SessionAgrees;
      QuietStep(w1, Uploaded(s, p.id, onA, item), UploadItem(w, p, item).1, t0);
    }
  }

  lemma DeleteKeeps(w: World, s: nat, t0: Table)
    requires InvBut(w, t0, s) && s in w.heap
    ensures Inv(DeleteSession(w, s), t0)
  {
    QuietStep(w, Closed(s), DeleteSession(w, s), t0);
  }

  lemma ReadiedAgrees(log: seq<Event>, s: nat, x: Session, p: int, onA: bool)
    requires SessionAgrees(log, s, x)
    ensures SessionAgrees(log + [Readied(s, p, onA)], s, SetReady(x, onA))
  {
    RecordsStep(log, Readied(s, p, onA), s);
  }

  /** The flag half of Ready. */
  lemma FlagKeeps(w: World, p: Player, t0: Table)
    requires Inv(w, t0) && SessionOf(w, p.id) != 0
    ensures Inv(Flag(w, SessionOf(w, p.id), p), t0)
  {
    var s := SessionOf(w, p.id);
    var onA := BookedOnA(w.heap[s], p);
    Exempt(w, t0, s);
    ReadiedAgrees(w.log, s, w.heap[s], p.id, onA);
    hide InvBut, SessionAgrees;
    QuietStep(w, Readied(s, p.id, onA), Flag(w, s, p), t0);
  }

  /** The swap half of Ready. After a commit the session counts a commit the live session
      denies, so it stays exempt until the handler deletes it. */
  lemma TradeKeeps(w: World, f: Faults, s: nat, caller: int, t0: Table)
    requires Inv(w, t0) && s in w.heap
    requires HasReadied(w.log, s, caller) && OtherReady(w.heap[s], caller)
    ensures var (rc, w') := RunTrade(w, f, s, caller);
      InvBut(w', t0, if rc == 0 then s else 0)
  {
    var x := w.heap[s];
    var (rc, w') := RunTrade(w, f, s, caller);
    var e := Swapped(s, x.aId, x.bId, caller, rc == 0);
    assert SessionAgrees(w.log, s, x);
    WereReadyStep(w.log, e);
    if rc == 0 {
      ExecuteNetEffect(w.table, f, w.clock, x.aId, x.bId, x.aItems, x.bItems, iset{}, 0);
    }
    assert OneRowPerItem(w'.table);
    forall k: nat ensures Commits(w'.log, k) <= 1 {
      CommitsStep(w.log, e, k);
    }
    forall k | k in w'.heap && (rc != 0 || k != s) ensures SessionAgrees(w'.log, k, w'.heap[k]) {
      TradeAgrees(w, f, s, caller, k);
    }
    forall who, j ensures Held(w'.table, who, j) == Held(t0, who, j) + Moved(w'.log, who, j) {
      SwapMovesOffers(w, f, s, caller, who, j);
      MovedStep(w.log, e, who, j);
    }
  }

  lemma TradeAgrees(w: World, f: Faults, s: nat, caller: int, k: nat)
    requires Safe(w) && s in w.heap && k in w.heap && SessionAgrees(w.log, k, w.heap[k])
    requires RunTrade(w, f, s, caller).0 != 0 || k != s
    ensures SessionAgrees(RunTrade(w, f, s, caller).1.log, k, RunTrade(w, f, s, caller).1.heap[k])
  {
    var x := w.heap[s];
    var e := Swapped(s, x.aId, x.bId, caller, RunTrade(w, f, s, caller).0 == 0);
    if k != s {
      ForeignEvent(w.log, e, k, w.heap[k]);
    } else {
      OffersKeepTerms(w, f, s, caller);
      RecordsStep(w.log, e, s);
    }
  }

  lemma OffersKeepTerms(w: World, f: Faults, s: nat, caller: int)
    requires Safe(w) && s in w.heap
    ensures var y := RunTrade(w, f, s, caller).1.heap[s];
      Terms(y.aItems) == Terms(w.heap[s].aItems) && Terms(y.bItems) == Terms(w.heap[s].bItems)
  {
    var x := w.heap[s];
    var first := MoveAll(w.table, f, w.clock, x.aId, x.bId, x.aItems);
    MoveAllKeepsTerms(w.table, f, w.clock, x.aId, x.bId, x.aItems);
    MoveAllKeepsTerms(first.table, f, first.next, x.bId, x.aId, x.bItems);
  }

  /** A commit moves exactly what was booked on the two sides of this session. */
  lemma SwapMovesOffers(w: World, f: Faults, s: nat, caller: int, who: iset<int>, j: int)
    requires Safe(w) && OneRowPerItem(w.table) && s in w.heap && SessionAgrees(w.log, s, w.heap[s])
    ensures var x := w.heap[s]; var (rc, w') := RunTrade(w, f, s, caller);
      Held(w'.table, who, j) == Held(w.table, who, j) +
      if rc == 0 then
        Flow(x.aId, x.bId, who, Offered(Landed(w.log, s, true), j))
        + Flow(x.bId, x.aId, who, Offered(Landed(w.log, s, false), j))
      else 0
  {
    var x := w.heap[s];
    if RunTrade(w, f, s, caller).0 == 0 {
      ExecuteNetEffect(w.table, f, w.clock, x.aId, x.bId, x.aItems, x.bItems, who, j);
      OfferedByTerms(x.aItems, j);
      OfferedByTerms(x.bItems, j);
      OfferedByTerms(Landed(w.log, s, true), j);
      OfferedByTerms(Landed(w.log, s, false), j);
    }
  }

  lemma ReadyKeeps(w: World, f: Faults, p: Player, t0: Table)
    requires Inv(w, t0)
    ensures Inv(HandleReady(w, f, p).1, t0)
  {
    LookupKeeps(w, p.id, t0);
    var (s, w1) := Lookup(w, p.id);
    if s != 0 {
      FlagKeeps(w1, p, t0);
      var w2 := Flag(w1, s, p);
      assert Readied(s, p.id, BookedOnA(w1.heap[s], p)) in w2.log;
      if OtherReady(w2.heap[s], p.id) {
        TradeKeeps(w2, f, s, p.id, t0);
        var (rc, w3) := RunTrade(w2, f, s, p.id);
        if rc == 0 { DeleteKeeps(w3, s, t0); }
      }
    }
  }

  lemma CancelKeeps(w: World, p: int, t0: Table)
    requires Inv(w, t0)
    ensures Inv(Cancel(w, p).1, t0)
  {
    LookupKeeps(w, p, t0);
    var (s, w1) := Lookup(w, p);
    if s != 0 {
      Exempt(w1, t0, s);
      DeleteKeeps(w1, s, t0);
    }
  }

  lemma StepKeeps(g: Server, f: Faults, x: Action, t0: Table)
    requires SafeServer(g) && Inv(g.w, t0)
    ensures Inv(Perform(g, f, x).w, t0)
  {
    hide InvBut;
    match x
    case Connect(player) =>
    case DoStart(p, q) => if p in g.online && q in g.online { StartKeeps(g.w, g.online[p], g.online[q], t0); }
    case DoUpload(p, item) => if p in g.online { UploadKeeps(g.w, g.online[p], item, t0); }
    case DoReady(p) => if p in g.online { ReadyKeeps(g.w, f, g.online[p], t0); }
    case DoCancel(p) => if p in g.online { CancelKeeps(g.w, p, t0); }
  }

  /** The invariant holds after every run, whatever the order of the calls, the players, their
      reconnects and the database faults. */
  lemma {:induction false} RunKeeps(t0: Table, f: Faults, xs: seq<Action>)
    requires OneRowPerItem(t0)
    ensures Inv(Run(t0, f, xs).w, t0)
  {
    if xs == [] {
      InitialInv(t0);
    } else {
      RunKeeps(t0, f, xs[..|xs| - 1]);
      StepKeeps(Run(t0, f, xs[..|xs| - 1]), f, xs[|xs| - 1], t0);
    }
  }

  ghost const EVERYONE: iset<int> := iset c: int | true

  lemma {:induction false} NothingMovesForEveryone(log: seq<Event>, j: int)
    ensures Moved(log, EVERYONE, j) == 0
  {
    if log != [] { NothingMovesForEveryone(log[..|log| - 1], j); }
  }

  /** What holds over every run, reconnects included: no session commits twice, what a group of
      players holds is what it held at first plus what was booked on the sides of the committed
      sessions, and the supply of every item is constant. */
  lemma RunConserves(t0: Table, f: Faults, xs: seq<Action>)
    requires OneRowPerItem(t0)
    ensures var w := Run(t0, f, xs).w;
      && OneRowPerItem(w.table)
      && (forall s: nat :: Commits(w.log, s) <= 1)
      && (forall who, j :: Held(w.table, who, j) == Held(t0, who, j) + Moved(w.log, who, j))
      && (forall j :: Held(w.table, EVERYONE, j) == Held(t0, EVERYONE, j))
  {
    RunKeeps(t0, f, xs);
    var w := Run(t0, f, xs).w;
    forall j ensures Held(w.table, EVERYONE, j) == Held(t0, EVERYONE, j) {
      NothingMovesForEveryone(w.log, j);
    }
  }

  // ------------------------------------------------------------------ runs without a change of object

  /** The check a caller can make before an upload or ready call. */
  predicate Guarded(g: Server, x: Action)
    requires SafeServer(g)
  {
    (x.DoUpload? || x.DoReady?) && x.p in g.online && SessionOf(g.w, x.p) != 0 ==>
      OnOwnSide(g.w.heap[SessionOf(g.w, x.p)], g.online[x.p])
  }

  ghost predicate GuardedRun(t0: Table, f: Faults, xs: seq<Action>) {
    forall k :: 0 <= k < |xs| ==> Guarded(Run(t0, f, xs[..k]), xs[k])
  }

  /** The offers p uploaded to session s, in order. */
  ghost function Uploads(log: seq<Event>, s: nat, p: int): seq<TradeItem> {
    if log == [] then []
    else
      var rest := Uploads(log[..|log| - 1], s, p);
      var e := log[|log| - 1];
      if e.Uploaded? && e.s == s && e.player == p then rest + [e.item] else rest
  }

  lemma UploadsStep(log: seq<Event>, e: Event, s: nat, p: int)
    ensures Uploads(log + [e], s, p)
         == if e.Uploaded? && e.s == s && e.player == p then Uploads(log, s, p) + [e.item] else Uploads(log, s, p)
  {
    LogStep(log, e);
  }

  /** What the committed sessions moved into the group who, counted by who uploaded what. In a
      trade with oneself nothing moves. */
  ghost function Traded(log: seq<Event>, who: iset<int>, j: int): int {
    if log == [] then 0
    else
      var before := log[..|log| - 1];
      var e := log[|log| - 1];
      Traded(before, who, j) +
      if e.Swapped? && e.committed then
        Flow(e.a, e.b, who, Offered(Uploads(before, e.s, e.a), j))
        + Flow(e.b, e.a, who, Offered(Uploads(before, e.s, e.b), j))
      else 0
  }

  /** Execute ran only after the session was opened between a and b and both called ready in it. */
  ghost predicate SwapsAreAgreed(log: seq<Event>) {
    forall k :: 0 <= k < |log| && log[k].Swapped? ==>
      && Opened(log[k].s, log[k].a, log[k].b) in log[..k]
      && HasReadied(log[..k], log[k].s, log[k].a)
      && HasReadied(log[..k], log[k].s, log[k].b)
  }

  /** The event was booked on the side of its caller, who is a member of the session. */
  ghost predicate Own(e: Event, a: int, b: int)
    requires e.Uploaded? || e.Readied?
  {
    (e.onA <==> e.player == a) && (e.player == a || e.player == b)
  }

  ghost predicate OpenedOnce(log: seq<Event>) {
    forall s, a, b, c, d :: Opened(s, a, b) in log && Opened(s, c, d) in log ==> a == c && b == d
  }

  ghost predicate OwnSides(log: seq<Event>) {
    forall e, a, b :: e in log && (e.Uploaded? || e.Readied?) && Opened(e.s, a, b) in log ==> Own(e, a, b)
  }

  ghost predicate Honest(log: seq<Event>) {
    OpenedOnce(log) && OwnSides(log)
  }

  lemma HonestStep(log: seq<Event>, e: Event, a: int, b: int)
    requires Honest(log)
    requires e.Opened? ==> forall o :: o in log ==> o.s != e.s
    requires e.Uploaded? || e.Readied? ==> Opened(e.s, a, b) in log && Own(e, a, b)
    ensures Honest(log + [e])
  {
    forall o | o in log + [e] ensures o in log || o == e {
    }
  }

  lemma HonestPrefix(log: seq<Event>, n: nat)
    requires Honest(log) && n <= |log|
    ensures Honest(log[..n])
  {
    forall o | o in log[..n] ensures o in log {
    }
  }

  lemma GuardedUploadIsHonest(w: World, p: Player, item: TradeItem, t0: Table)
    requires Inv(w, t0) && Honest(w.log)
    requires SessionOf(w, p.id) != 0 ==> OnOwnSide(w.heap[SessionOf(w, p.id)], p)
    ensures Honest(UploadItem(w, p, item).1.log)
  {
    var s := SessionOf(w, p.id);
    if s != 0 {
      var x := w.heap[s];
      assert SessionAgrees(w.log, s, x);
      HonestStep(w.log, Uploaded(s, p.id, BookedOnA(x, p), item), x.aId, x.bId);
    }
  }

  lemma GuardedReadyIsHonest(w: World, f: Faults, p: Player, t0: Table)
    requires Inv(w, t0) && Honest(w.log)
    requires SessionOf(w, p.id) != 0 ==> OnOwnSide(w.heap[SessionOf(w, p.id)], p)
    ensures Honest(HandleReady(w, f, p).1.log)
  {
    var (s, w1) := Lookup(w, p.id);
    if s != 0 {
      var x := w1.heap[s];
      assert SessionAgrees(w1.log, s, x);
      HonestStep(w1.log, Readied(s, p.id, BookedOnA(x, p)), x.aId, x.bId);
      var w2 := Flag(w1, s, p);
      if OtherReady(w2.heap[s], p.id) {
        var (rc, w3) := RunTrade(w2, f, s, p.id);
        HonestStep(w2.log, Swapped(s, x.aId, x.bId, p.id, rc == 0), x.aId, x.bId);
        HonestStep(w3.log, Closed(s), x.aId, x.bId);
      }
    }
  }

  lemma GuardedStepIsHonest(g: Server, f: Faults, x: Action, t0: Table)
    requires SafeServer(g) && Inv(g.w, t0) && Honest(g.w.log) && Guarded(g, x)
    ensures Honest(Perform(g, f, x).w.log)
  {
    match x
    case Connect(player) =>
    case DoStart(p, q) =>
      HonestStep(g.w.log, Opened(g.w.nextAddr, p, q), p, q);
    case DoUpload(p, item) => if p in g.online { GuardedUploadIsHonest(g.w, g.online[p], item, t0); }
    case DoReady(p) => if p in g.online { GuardedReadyIsHonest(g.w, f, g.online[p], t0); }
    case DoCancel(p) =>
      HonestStep(g.w.log, Closed(SessionOf(g.w, p)), 0, 0);
  }

  lemma {:induction false} GuardedRunIsHonest(t0: Table, f: Faults, xs: seq<Action>)
    requires OneRowPerItem(t0) && GuardedRun(t0, f, xs)
    ensures Honest(Run(t0, f, xs).w.log)
  {
    if xs != [] {
      var before := xs[..|xs| - 1];
      forall k | 0 <= k < |before| ensures before[..k] == xs[..k] && before[k] == xs[k] {}
      GuardedRunIsHonest(t0, f, before);
      RunKeeps(t0, f, before);
      assert Guarded(Run(t0, f, before), xs[|xs| - 1]);
      GuardedStepIsHonest(Run(t0, f, before), f, xs[|xs| - 1], t0);
    }
  }

  /** In an honest session the sides hold their members' uploads. */
  lemma {:induction false} LandedAreUploads(log: seq<Event>, s: nat, a: int, b: int)
    requires forall e :: e in log && e.Uploaded? && e.s == s ==> Own(e, a, b)
    ensures Landed(log, s, true) == Uploads(log, s, a)
    ensures Landed(log, s, false) == if a == b then [] else Uploads(log, s, b)
  {
    if log != [] {
      assert log[|log| - 1] in log;
      LandedAreUploads(log[..|log| - 1], s, a, b);
    }
  }

  lemma {:induction false} MovedIsTraded(log: seq<Event>, who: iset<int>, j: int)
    requires Honest(log) && SwapsWereReady(log)
    ensures Moved(log, who, j) == Traded(log, who, j)
  {
    if log != [] {
      var before, e := log[..|log| - 1], log[|log| - 1];
      HonestPrefix(log, |log| - 1);
      forall k | 0 <= k < |before| && before[k].Swapped? ensures MayTrade(before[..k], before[k]) {
        assert before[..k] == log[..k];
      }
      MovedIsTraded(before, who, j);
      if e.Swapped? {
        assert MayTrade(before, e);
        LandedAreUploads(before, e.s, e.a, e.b);
      }
    }
  }

  /** A swap allowed in an honest log is one that both members asked for. */
  lemma BothReadied(log: seq<Event>, e: Event)
    requires Honest(log) && e.Swapped? && MayTrade(log, e)
    ensures HasReadied(log, e.s, e.a) && HasReadied(log, e.s, e.b)
  {
    var side := !(e.caller == e.a && ReadyOn(log, e.s, false));
    var p: int :| Readied(e.s, p, side) in log;
    assert Own(Readied(e.s, p, side), e.a, e.b);
  }

  /** Over every guarded run: Execute ran only in sessions both of whose players had called ready,
      and what any group of players holds is what it held at first plus the uploads of the
      committed sessions. */
  lemma RunIsHonest(t0: Table, f: Faults, xs: seq<Action>)
    requires OneRowPerItem(t0) && GuardedRun(t0, f, xs)
    ensures var w := Run(t0, f, xs).w;
      && SwapsAreAgreed(w.log)
      && (forall who, j :: Held(w.table, who, j) == Held(t0, who, j) + Traded(w.log, who, j))
  {
    RunKeeps(t0, f, xs);
    GuardedRunIsHonest(t0, f, xs);
    var w := Run(t0, f, xs).w;
    forall k | 0 <= k < |w.log| && w.log[k].Swapped?
      ensures HasReadied(w.log[..k], w.log[k].s, w.log[k].a) && HasReadied(w.log[..k], w.log[k].s, w.log[k].b)
    {
      HonestPrefix(w.log, k);
      BothReadied(w.log[..k], w.log[k]);
    }
    forall who, j ensures Held(w.table, who, j) == Held(t0, who, j) + Traded(w.log, who, j) {
      MovedIsTraded(w.log, who, j);
    }
  }

  /** After a guarded run the offers of an open session are its members' own uploads. */
  lemma OffersAreOwnUploads(t0: Table, f: Faults, xs: seq<Action>, s: nat)
    requires OneRowPerItem(t0) && GuardedRun(t0, f, xs) && s in Run(t0, f, xs).w.heap
    ensures var w := Run(t0, f, xs).w; var x := w.heap[s];
      && Terms(x.aItems) == Terms(Uploads(w.log, s, x.aId))
      && Terms(x.bItems) == (if x.aId == x.bId then [] else Terms(Uploads(w.log, s, x.bId)))
  {
    RunKeeps(t0, f, xs);
    GuardedRunIsHonest(t0, f, xs);
    var w := Run(t0, f, xs).w;
    assert s > 0 && SessionAgrees(w.log, s, w.heap[s]);
    LandedAreUploads(w.log, s, w.heap[s].aId, w.heap[s].bId);
  }

  // ------------------------------------------------------------------ which runs are guarded

  /** Every id connects only as its own object, given by objOf. */
  ghost predicate Steady(xs: seq<Action>, objOf: int -> nat) {
    forall x :: x in xs && x.Connect? ==> x.player.obj == objOf(x.player.id)
  }

  ghost predicate ObjectsMatch(g: Server, objOf: int -> nat) {
    && (forall p :: p in g.online ==> g.online[p].obj == objOf(p))
    && (forall s :: s in g.w.heap ==>
          g.w.heap[s].aObj == objOf(g.w.heap[s].aId) && g.w.heap[s].bObj == objOf(g.w.heap[s].bId))
  }

  /** No call changes who the members of a session are. */
  ghost predicate SameMembers(w: World, w': World) {
    forall s :: s in w'.heap ==>
      s in w.heap &&
      w'.heap[s].(aReady := false, bReady := false, aItems := [], bItems := [])
      == w.heap[s].(aReady := false, bReady := false, aItems := [], bItems := [])
  }

  lemma ReadyKeepsMembers(w: World, f: Faults, p: Player)
    requires Safe(w)
    ensures SameMembers(w, Ready(w, f, p).1)
    ensures forall q :: SessionOf(Ready(w, f, p).1, q) == SessionOf(w, q)
  {
    var (s, w1) := Lookup(w, p.id);
    if s != 0 {
      var w2 := Flag(w1, s, p);
      assert SameMembers(w, w2);
      if OtherReady(w2.heap[s], p.id) {
        assert SameMembers(w2, RunTrade(w2, f, s, p.id).1);
      }
    }
  }

  lemma HandleReadyKeepsMembers(w: World, f: Faults, p: Player)
    requires Safe(w)
    ensures SameMembers(w, HandleReady(w, f, p).1)
  {
    ReadyKeepsMembers(w, f, p);
    hide Ready;
  }

  lemma StepMatches(g: Server, f: Faults, x: Action, objOf: int -> nat)
    requires SafeServer(g) && ObjectsMatch(g, objOf)
    requires x.Connect? ==> x.player.obj == objOf(x.player.id)
    ensures ObjectsMatch(Perform(g, f, x), objOf)
  {
    match x
    case Connect(player) =>
    case DoStart(p, q) =>
    case DoUpload(p, item) => if p in g.online { assert SameMembers(g.w, UploadItem(g.w, g.online[p], item).1); }
    case DoReady(p) => if p in g.online { HandleReadyKeepsMembers(g.w, f, g.online[p]); }
    case DoCancel(p) => if p in g.online { assert SameMembers(g.w, Cancel(g.w, p).1); }
  }

  lemma {:induction false} SteadyRunMatches(t0: Table, f: Faults, xs: seq<Action>, objOf: int -> nat)
    requires Steady(xs, objOf)
    ensures ObjectsMatch(Run(t0, f, xs), objOf)
  {
    if xs != [] {
      var before, x := xs[..|xs| - 1], xs[|xs| - 1];
      assert x in xs;
      forall y | y in before ensures y in xs {
      }
      SteadyRunMatches(t0, f, before, objOf);
      StepMatches(Run(t0, f, before), f, x, objOf);
    }
  }

  /** As long as nobody comes back as another object, every call is guarded. */
  lemma SteadyRunIsGuarded(t0: Table, f: Faults, xs: seq<Action>, objOf: int -> nat)
    requires Steady(xs, objOf)
    requires forall p, q :: objOf(p) == objOf(q) ==> p == q
    ensures GuardedRun(t0, f, xs)
  {
    forall k | 0 <= k < |xs| ensures Guarded(Run(t0, f, xs[..k]), xs[k]) {
      forall y | y in xs[..k] ensures y in xs {
      }
      SteadyRunMatches(t0, f, xs[..k], objOf);
    }
  }

  // ------------------------------------------------------------------ the run that fails

  lemma RunStep(t0: Table, f: Faults, xs: seq<Action>, x: Action)
    ensures Run(t0, f, xs + [x]) == Perform(Run(t0, f, xs), f, x)
  {
    assert (xs + [x])[..|xs + [x]| - 1] == xs;
  }

  const REQUESTER: Player := Player(10, 1, true, Some(0))
  const ACCEPTER: Player := Player(20, 2, true, Some(0))
  const RECONNECTED: Player := Player(30, 1, true, Some(0))

  /** Two players start a trade, the second one uploads, the first one reconnects. */
  function Reconnect(item: TradeItem): seq<Action> {
    [Connect(REQUESTER), Connect(ACCEPTER)] + [DoStart(1, 2)] + [DoUpload(2, item)] + [Connect(RECONNECTED)]
  }

  lemma AfterStart(t0: Table, f: Faults)
    ensures var g := Run(t0, f, [Connect(REQUESTER), Connect(ACCEPTER)] + [DoStart(1, 2)]);
      && g.online == map[1 := REQUESTER, 2 := ACCEPTER]
      && g.w == World(t0, 0, map[1 := 1, 2 := 1], map[1 := Session(10, 20, 1, 2, false, false, [], [])], 2, [Opened(1, 1, 2)])
  {
    var one, two := [Connect(REQUESTER)], [Connect(REQUESTER), Connect(ACCEPTER)];
    assert [] + one == one && one + [Connect(ACCEPTER)] == two;
    RunStep(t0, f, [], Connect(REQUESTER));
    RunStep(t0, f, one, Connect(ACCEPTER));
    RunStep(t0, f, two, DoStart(1, 2));
    assert [] + [Opened(1, 1, 2)] == [Opened(1, 1, 2)];
  }

  lemma AfterReconnect(t0: Table, f: Faults, item: TradeItem)
    ensures var g := Run(t0, f, Reconnect(item));
      && g.online == map[1 := RECONNECTED, 2 := ACCEPTER]
      && g.w == World(t0, 0, map[1 := 1, 2 := 1], map[1 := Session(10, 20, 1, 2, false, false, [], [item])], 2,
                      [Opened(1, 1, 2), Uploaded(1, 2, false, item)])
  {
    var three := [Connect(REQUESTER), Connect(ACCEPTER)] + [DoStart(1, 2)];
    AfterStart(t0, f);
    RunStep(t0, f, three, DoUpload(2, item));
    RunStep(t0, f, three + [DoUpload(2, item)], Connect(RECONNECTED));
    hide Run;
    assert [Opened(1, 1, 2)] + [Uploaded(1, 2, false, item)] == [Opened(1, 1, 2), Uploaded(1, 2, false, item)];
    assert [] + [item] == [item];
  }

  /** The log of a ready call that trades. */
  lemma TradeIsLogged(w: World, f: Faults, p: Player)
    requires Safe(w) && SessionOf(w, p.id) != 0
    requires OtherReady(Flag(w, SessionOf(w, p.id), p).heap[SessionOf(w, p.id)], p.id)
    ensures var s := SessionOf(w, p.id); var x := w.heap[s]; var log := HandleReady(w, f, p).1.log;
      && |log| >= |w.log| + 2 && log[..|w.log|] == w.log
      && log[|w.log|] == Readied(s, p.id, BookedOnA(x, p))
      && log[|w.log| + 1].Swapped? && log[|w.log| + 1].s == s
      && log[|w.log| + 1].a == x.aId && log[|w.log| + 1].b == x.bId
  {
  }

  /** His ready call then makes Execute run although the second player never called ready. */
  lemma ReconnectBreaksAgreement(t0: Table, f: Faults, item: TradeItem)
    ensures !SwapsAreAgreed(Run(t0, f, Reconnect(item) + [DoReady(1)]).w.log)
  {
    AfterReconnect(t0, f, item);
    RunStep(t0, f, Reconnect(item), DoReady(1));
    var g := Run(t0, f, Reconnect(item));
    hide Run, Reconnect;
    var log := HandleReady(g.w, f, RECONNECTED).1.log;
    TradeIsLogged(g.w, f, RECONNECTED);
    hide HandleReady;
    assert log[..3] == g.w.log + [log[2]];
    assert !HasReadied(log[..3], 1, 2);
  }

  /** And what he uploads is charged to the second player. */
  lemma ReconnectChargesPartner(t0: Table, f: Faults, item: TradeItem, more: TradeItem)
    ensures var w := Run(t0, f, Reconnect(item) + [DoUpload(1, more)]).w;
      && 1 in w.heap && w.heap[1].bId == 2
      && w.heap[1].bItems == [item, more] && |Uploads(w.log, 1, 2)| == 1
  {
    AfterReconnect(t0, f, item);
    RunStep(t0, f, Reconnect(item), DoUpload(1, more));
    var w := Run(t0, f, Reconnect(item)).w;
    hide Run, Reconnect;
    var e1, e2, e3 := Opened(1, 1, 2), Uploaded(1, 2, false, item), Uploaded(1, 1, false, more);
    assert [item] + [more] == [item, more];
    UploadsStep([], e1, 1, 2);
    UploadsStep([e1], e2, 1, 2);
    UploadsStep([e1, e2], e3, 1, 2);
    assert [] + [e1] == [e1] && [e1] + [e2] == [e1, e2] && w.log + [e3] == [e1, e2] + [e3];
  }
}
