/** When the registry of trade sessions stays symmetric. */
module TradeSymmetry {
  import opened Prelude
  import opened InventoryTable
  import opened TradeSwap
  import opened TradeProtocol
  import opened TradeRuns

  /** Whoever has an open session shares it with both of its members. */
  ghost predicate Symmetric(w: World)
    requires Safe(w)
  {
    forall p :: SessionOf(w, p) != 0 ==>
      var x := w.heap[SessionOf(w, p)];
      SessionOf(w, x.aId) == SessionOf(w, p) && SessionOf(w, x.bId) == SessionOf(w, p)
  }

  /** p has no open session with a third party. */
  predicate FreeToTrade(w: World, p: int, q: int)
    requires Safe(w)
  {
    SessionOf(w, p) != 0 ==>
      var x := w.heap[SessionOf(w, p)];
      (x.aId == p || x.aId == q) && (x.bId == p || x.bId == q)
  }

  /** Start does not look for open sessions. It keeps the registry symmetric exactly when
      neither player is in the middle of a trade with somebody else. */
  lemma StartKeepsSymmetryIff(w: World, requester: Player, accepter: Player)
    requires Safe(w) && Symmetric(w) && CanStart(requester, accepter)
    ensures Symmetric(Start(w, requester, accepter).1)
       <==> FreeToTrade(w, requester.id, accepter.id) && FreeToTrade(w, accepter.id, requester.id)
  {
    var w' := Start(w, requester, accepter).1;
    var r, a := requester.id, accepter.id;
    if FreeToTrade(w, r, a) && FreeToTrade(w, a, r) {
      forall p | SessionOf(w', p) != 0
        ensures var x := w'.heap[SessionOf(w', p)];
          SessionOf(w', x.aId) == SessionOf(w', p) && SessionOf(w', x.bId) == SessionOf(w', p)
      {
        if p != r && p != a {
          assert SessionOf(w, p) == SessionOf(w', p);
        }
      }
    } else if !FreeToTrade(w, r, a) {
      ThirdPartyIsLeftBehind(w, requester, accepter, r);
    } else {
      ThirdPartyIsLeftBehind(w, requester, accepter, a);
    }
  }

  lemma ThirdPartyIsLeftBehind(w: World, requester: Player, accepter: Player, p: int)
    requires Safe(w) && Symmetric(w) && CanStart(requester, accepter)
    requires (p == requester.id && !FreeToTrade(w, p, accepter.id)) || (p == accepter.id && !FreeToTrade(w, p, requester.id))
    ensures !Symmetric(Start(w, requester, accepter).1)
  {
    var w' := Start(w, requester, accepter).1;
    var x := w.heap[SessionOf(w, p)];
    var third := if x.aId == p then x.bId else x.aId;
    assert SessionOf(w, third) == SessionOf(w, p);
    assert SessionOf(w', third) == SessionOf(w, p);
    assert SessionOf(w', p) == w.nextAddr;
  }

  lemma DeleteKeepsSymmetry(w: World, s: nat, owner: int)
    requires Safe(w) && Symmetric(w) && s != 0 && SessionOf(w, owner) == s
    ensures Symmetric(DeleteSession(w, s))
  {
    var w', x := DeleteSession(w, s), w.heap[s];
    forall p | SessionOf(w', p) != 0
      ensures var y := w'.heap[SessionOf(w', p)];
        SessionOf(w', y.aId) == SessionOf(w', p) && SessionOf(w', y.bId) == SessionOf(w', p)
    {
      assert SessionOf(w, p) == SessionOf(w', p);
    }
  }

  /** Symmetry depends only on who is registered where, and on the members. */
  lemma SymmetryByMembers(w: World, w': World)
    requires Safe(w) && Safe(w') && Symmetric(w) && SameMembers(w, w')
    requires forall q :: SessionOf(w', q) == SessionOf(w, q)
    ensures Symmetric(w')
  {
    forall p | SessionOf(w', p) != 0
      ensures var x := w'.heap[SessionOf(w', p)];
        SessionOf(w', x.aId) == SessionOf(w', p) && SessionOf(w', x.bId) == SessionOf(w', p)
    {
      assert SessionOf(w, p) == SessionOf(w', p);
      var x, x' := w.heap[SessionOf(w, p)], w'.heap[SessionOf(w, p)];
      assert x'.aId == x'.(aReady := false, bReady := false, aItems := [], bItems := []).aId;
      assert x'.bId == x'.(aReady := false, bReady := false, aItems := [], bItems := []).bId;
    }
  }

  lemma ReadyKeepsSymmetry(w: World, f: Faults, p: Player)
    requires Safe(w) && Symmetric(w)
    ensures Symmetric(Ready(w, f, p).1)
  {
    ReadyKeepsMembers(w, f, p);
    hide Ready, SameMembers;
    SymmetryByMembers(w, Ready(w, f, p).1);
  }

  lemma LookupKeepsSymmetry(w: World, p: int)
    requires Safe(w) && Symmetric(w)
    ensures Symmetric(Lookup(w, p).1)
  {
    assert forall q :: SessionOf(Lookup(w, p).1, q) == SessionOf(w, q);
  }

  lemma UploadKeepsSymmetry(w: World, p: Player, item: TradeItem)
    requires Safe(w) && Symmetric(w)
    ensures Symmetric(UploadItem(w, p, item).1)
  {
    assert forall q :: SessionOf(UploadItem(w, p, item).1, q) == SessionOf(w, q);
  }

  lemma CancelKeepsSymmetry(w: World, p: int)
    requires Safe(w) && Symmetric(w)
    ensures Symmetric(Cancel(w, p).1)
  {
    LookupKeepsSymmetry(w, p);
    var (s, w1) := Lookup(w, p);
    if s != 0 { DeleteKeepsSymmetry(w1, s, p); }
  }

  lemma HandleReadyKeepsSymmetry(w: World, f: Faults, p: Player)
    requires Safe(w) && Symmetric(w)
    ensures Symmetric(HandleReady(w, f, p).1)
  {
    ReadyKeepsSymmetry(w, f, p);
    var (rc, w1) := Ready(w, f, p);
    if rc == 0 { DeleteKeepsSymmetry(w1, SessionOf(w1, p.id), p.id); }
  }

  /** A start that goes ahead finds both players free of third parties. */
  predicate Polite(g: Server, x: Action)
    requires SafeServer(g)
  {
    x.DoStart? && x.requester in g.online && x.accepter in g.online
    && CanStart(g.online[x.requester], g.online[x.accepter]) ==>
      FreeToTrade(g.w, x.requester, x.accepter) && FreeToTrade(g.w, x.accepter, x.requester)
  }

  /** A step keeps the registry symmetric exactly if it is no impolite start. */
  lemma StepKeepsSymmetryIff(g: Server, f: Faults, x: Action)
    requires SafeServer(g) && Symmetric(g.w)
    ensures Symmetric(Perform(g, f, x).w) <==> Polite(g, x)
  {
    match x
    case Connect(player) =>
    case DoStart(p, q) =>
      if p in g.online && q in g.online && CanStart(g.online[p], g.online[q]) {
        StartKeepsSymmetryIff(g.w, g.online[p], g.online[q]);
      }
    case DoUpload(p, item) => if p in g.online { UploadKeepsSymmetry(g.w, g.online[p], item); }
    case DoReady(p) => if p in g.online { HandleReadyKeepsSymmetry(g.w, f, g.online[p]); }
    case DoCancel(p) => if p in g.online { CancelKeepsSymmetry(g.w, p); }
  }

  ghost function PoliteAfter(t0: Table, f: Faults): (seq<Action>, Action) -> bool {
    (before, x) => Polite(Run(t0, f, before), x)
  }

  ghost function SymmetricAfter(t0: Table, f: Faults): seq<Action> -> bool {
    xs => Symmetric(Run(t0, f, xs).w)
  }

  /** Whoever has an open session shares it with both its members throughout a run, if and only if
      every start in it finds both players free of third parties. */
  lemma RunStaysSymmetricIff(t0: Table, f: Faults, xs: seq<Action>)
    ensures Always(SymmetricAfter(t0, f), xs) <==> EachStep(PoliteAfter(t0, f), xs)
  {
    forall before, x | SymmetricAfter(t0, f)(before)
      ensures SymmetricAfter(t0, f)(before + [x]) <==> PoliteAfter(t0, f)(before, x)
    {
      hide Symmetric, Polite, Perform;
      RunStep(t0, f, before, x);
      StepKeepsSymmetryIff(Run(t0, f, before), f, x);
    }
    hide Always, EachStep;
    AlwaysIffEachStep(SymmetricAfter(t0, f), PoliteAfter(t0, f), xs);
  }

  /** A player who starts a second trade leaves his first partner with a session that he himself
      is no longer registered in. */
  lemma SecondTradeBreaksSymmetry(t0: Table, a: Player, b: Player, c: Player)
    requires CanStart(a, b) && CanStart(a, c) && a.id != b.id && b.id != c.id && a.id != c.id
    ensures var w1 := Start(Initial(t0), a, b).1;
      Symmetric(w1) && !Symmetric(Start(w1, a, c).1)
  {
    var w1 := Start(Initial(t0), a, b).1;
    StartKeepsSymmetryIff(Initial(t0), a, b);
    StartKeepsSymmetryIff(w1, a, c);
  }
}
