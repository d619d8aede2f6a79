/** The exact conditions, call by call, under which runs of the trade handlers stay honest. */
module TradeConsent {
  import opened Prelude
  import opened InventoryTable
  import opened TradeSwap
  import opened TradeProtocol
  import opened TradeRuns

  // ------------------------------------------------------------------ when both players agreed

  function Partner(x: Session, p: int): int {
    if p == x.aId then x.bId else x.aId
  }

  /** A ready call does no harm: its flag lands on the caller's side, or the partner has called
      ready already, or the session is one player's with himself. */
  ghost predicate ConsentedReady(w: World, p: Player)
    requires Safe(w)
  {
    var s := SessionOf(w, p.id);
    s != 0 ==>
      var x := w.heap[s];
      OnOwnSide(x, p) || x.aId == x.bId || HasReadied(w.log, s, Partner(x, p.id))
  }

  ghost predicate Consented(g: Server, x: Action)
    requires SafeServer(g)
  {
    x.DoReady? && x.p in g.online ==> ConsentedReady(g.w, g.online[x.p])
  }

  ghost function ConsentedAfter(t0: Table, f: Faults): (seq<Action>, Action) -> bool {
    (before, x) => Consented(Run(t0, f, before), x)
  }

  /** Every ready call of the run is consented. */
  ghost predicate ConsentedRun(t0: Table, f: Faults, xs: seq<Action>) {
    EachStep(ConsentedAfter(t0, f), xs)
  }

  /** Flags are set only for players who have called ready. */
  ghost predicate FlagsAreOwn(log: seq<Event>, s: nat, x: Session) {
    (x.aReady ==> HasReadied(log, s, x.aId)) && (x.bReady ==> HasReadied(log, s, x.bId))
  }

  ghost predicate AllFlagsOwn(w: World) {
    forall s :: s in w.heap ==> FlagsAreOwn(w.log, s, w.heap[s])
  }

  /** What SwapsAreAgreed asks of one event. */
  ghost predicate Agreed(log: seq<Event>, e: Event) {
    e.Swapped? ==> Opened(e.s, e.a, e.b) in log && HasReadied(log, e.s, e.a) && HasReadied(log, e.s, e.b)
  }

  lemma AgreedStepIff(log: seq<Event>, e: Event)
    ensures SwapsAreAgreed(log + [e]) <==> SwapsAreAgreed(log) && Agreed(log, e)
  {
    var longer := log + [e];
    forall k | 0 <= k < |log| ensures longer[..k] == log[..k] && longer[k] == log[k] {
    }
    assert longer[..|log|] == log && longer[|log|] == e;
    if SwapsAreAgreed(longer) {
      forall k | 0 <= k < |log| && log[k].Swapped?
        ensures Opened(log[k].s, log[k].a, log[k].b) in log[..k]
        ensures HasReadied(log[..k], log[k].s, log[k].a) && HasReadied(log[..k], log[k].s, log[k].b)
      {
        assert longer[k].Swapped?;
      }
    }
  }

  /** Flags stay covered by the log as it grows. */
  lemma FlagsStayOwn(w: World, e: Event, w': World)
    requires AllFlagsOwn(w) && w'.log == w.log + [e]
    requires forall s :: s in w'.heap ==>
      FlagsAreOwn(w'.log, s, w'.heap[s])
      || (s in w.heap && w'.heap[s].(aItems := [], bItems := []) == w.heap[s].(aItems := [], bItems := []))
    ensures AllFlagsOwn(w')
  {
    forall s | s in w'.heap ensures FlagsAreOwn(w'.log, s, w'.heap[s]) {
      if !FlagsAreOwn(w'.log, s, w'.heap[s]) {
        assert w'.heap[s].(aItems := [], bItems := []) == w.heap[s].(aItems := [], bItems := []);
        assert FlagsAreOwn(w.log, s, w.heap[s]);
      }
    }
  }

  /** The flag half of a ready call that consents. */
  lemma FlagConsents(w: World, p: Player)
    requires Safe(w) && AllFlagsOwn(w) && SessionOf(w, p.id) != 0 && ConsentedReady(w, p)
    ensures AllFlagsOwn(Flag(w, SessionOf(w, p.id), p))
  {
    var s := SessionOf(w, p.id);
    var x, w' := w.heap[s], Flag(w, s, p);
    var e := Readied(s, p.id, BookedOnA(x, p));
    assert FlagsAreOwn(w.log, s, x) && e in w'.log;
    FlagsStayOwn(w, e, w');
  }

  /** What a ready call does to the log. */
  lemma ReadyLog(w: World, f: Faults, p: Player)
    requires Safe(w) && SessionOf(w, p.id) != 0
    ensures var s := SessionOf(w, p.id); var w2 := Flag(w, s, p); var r := HandleReady(w, f, p);
      var e := Swapped(s, w.heap[s].aId, w.heap[s].bId, p.id, r.0 == 0);
      if !OtherReady(w2.heap[s], p.id) then r.1 == w2
      else r.1.log == if r.0 == 0 then w2.log + [e] + [Closed(s)] else w2.log + [e]
  {
  }

  /** If the call consents, the swap it leads to is agreed; if not, it leads to a swap that is not. */
  lemma SwapAgreedIff(w: World, p: Player, t0: Table)
    requires Inv(w, t0) && AllFlagsOwn(w) && SessionOf(w, p.id) != 0
    ensures var s := SessionOf(w, p.id); var x := w.heap[s]; var w2 := Flag(w, s, p);
      var both := HasReadied(w2.log, s, x.aId) && HasReadied(w2.log, s, x.bId);
      && Opened(s, x.aId, x.bId) in w2.log
      && (if ConsentedReady(w, p) then OtherReady(w2.heap[s], p.id) ==> both
          else OtherReady(w2.heap[s], p.id) && !both)
  {
    var s := SessionOf(w, p.id);
    var x := w.heap[s];
    assert SessionAgrees(w.log, s, x) && FlagsAreOwn(w.log, s, x);
    assert Readied(s, p.id, BookedOnA(x, p)) in Flag(w, s, p).log;
  }

  lemma ReadyAgreesIff(w: World, f: Faults, p: Player, t0: Table)
    requires Inv(w, t0) && AllFlagsOwn(w) && SwapsAreAgreed(w.log) && SessionOf(w, p.id) != 0
    ensures SwapsAreAgreed(HandleReady(w, f, p).1.log) <==> ConsentedReady(w, p)
  {
    var s := SessionOf(w, p.id);
    var x, w2, r := w.heap[s], Flag(w, s, p), HandleReady(w, f, p);
    ReadyLog(w, f, p);
    SwapAgreedIff(w, p, t0);
    AgreedStepIff(w.log, Readied(s, p.id, BookedOnA(x, p)));
    var e := Swapped(s, x.aId, x.bId, p.id, r.0 == 0);
    AgreedStepIff(w2.log, e);
    AgreedStepIff(w2.log + [e], Closed(s));
    hide SwapsAreAgreed, HandleReady, ConsentedReady;
  }

  lemma ReadyKeepsFlags(w: World, f: Faults, p: Player)
    requires Safe(w) && AllFlagsOwn(w) && SessionOf(w, p.id) != 0 && ConsentedReady(w, p)
    ensures AllFlagsOwn(HandleReady(w, f, p).1)
  {
    FlagConsents(w, p);
    var s := SessionOf(w, p.id);
    var w2 := Flag(w, s, p);
    if OtherReady(w2.heap[s], p.id) {
      var (rc, w3) := RunTrade(w2, f, s, p.id);
      hide AllFlagsOwn, FlagsAreOwn, Execute;
      FlagsStayOwn(w2, Swapped(s, w2.heap[s].aId, w2.heap[s].bId, p.id, rc == 0), w3);
      if rc == 0 { FlagsStayOwn(w3, Closed(s), DeleteSession(w3, s)); }
    }
  }

  lemma StartKeepsFlags(w: World, requester: Player, accepter: Player)
    requires Safe(w) && AllFlagsOwn(w) && SwapsAreAgreed(w.log)
    ensures AllFlagsOwn(Start(w, requester, accepter).1) && SwapsAreAgreed(Start(w, requester, accepter).1.log)
  {
    var e := Opened(w.nextAddr, requester.id, accepter.id);
    AgreedStepIff(w.log, e);
    if CanStart(requester, accepter) { FlagsStayOwn(w, e, Start(w, requester, accepter).1); }
  }

  lemma UploadKeepsFlags(w: World, p: Player, item: TradeItem)
    requires Safe(w) && AllFlagsOwn(w) && SwapsAreAgreed(w.log)
    ensures AllFlagsOwn(UploadItem(w, p, item).1) && SwapsAreAgreed(UploadItem(w, p, item).1.log)
  {
    var s := SessionOf(w, p.id);
    if s != 0 {
      var e := Uploaded(s, p.id, BookedOnA(w.heap[s], p), item);
      AgreedStepIff(w.log, e);
      FlagsStayOwn(w, e, UploadItem(w, p, item).1);
    }
  }

  lemma CancelKeepsFlags(w: World, p: int)
    requires Safe(w) && AllFlagsOwn(w) && SwapsAreAgreed(w.log)
    ensures AllFlagsOwn(Cancel(w, p).1) && SwapsAreAgreed(Cancel(w, p).1.log)
  {
    var s := SessionOf(w, p);
    if s != 0 {
      AgreedStepIff(w.log, Closed(s));
      FlagsStayOwn(w, Closed(s), Cancel(w, p).1);
    }
  }

  /** One step keeps the agreement exactly if it is a consented one. */
  lemma StepAgreesIff(g: Server, f: Faults, x: Action, t0: Table)
    requires SafeServer(g) && Inv(g.w, t0) && AllFlagsOwn(g.w) && SwapsAreAgreed(g.w.log)
    ensures SwapsAreAgreed(Perform(g, f, x).w.log) <==> Consented(g, x)
    ensures Consented(g, x) ==> AllFlagsOwn(Perform(g, f, x).w)
  {
    hide Inv, InvBut, AllFlagsOwn, SwapsAreAgreed;
    match x
    case Connect(player) =>
    case DoStart(p, q) => if p in g.online && q in g.online { StartKeepsFlags(g.w, g.online[p], g.online[q]); }
    case DoUpload(p, item) => if p in g.online { UploadKeepsFlags(g.w, g.online[p], item); }
    case DoCancel(p) => if p in g.online { CancelKeepsFlags(g.w, p); }
    case DoReady(p) =>
      if p in g.online {
        if SessionOf(g.w, p) != 0 {
          ReadyAgreesIff(g.w, f, g.online[p], t0);
          if ConsentedReady(g.w, g.online[p]) { ReadyKeepsFlags(g.w, f, g.online[p]); }
        } else {
          NoSessionNoChange(g.w, f, g.online[p]);
        }
      }
  }

  lemma NoSessionNoChange(w: World, f: Faults, p: Player)
    requires Safe(w) && SessionOf(w, p.id) == 0
    ensures HandleReady(w, f, p).1.log == w.log && HandleReady(w, f, p).1.heap == w.heap
    ensures AllFlagsOwn(w) ==> AllFlagsOwn(HandleReady(w, f, p).1)
  {
  }

  lemma LogGrows(g: Server, f: Faults, x: Action)
    requires SafeServer(g)
    ensures g.w.log <= Perform(g, f, x).w.log
  {
  }

  lemma {:induction false} AgreedBefore(log: seq<Event>, longer: seq<Event>)
    requires log <= longer && SwapsAreAgreed(longer)
    ensures SwapsAreAgreed(log)
    decreases |longer|
  {
    if |log| < |longer| {
      var shorter := longer[..|longer| - 1];
      AgreedStepIff(shorter, longer[|longer| - 1]);
      assert shorter + [longer[|longer| - 1]] == longer;
      AgreedBefore(log, shorter);
    }
  }

  /** Execute runs only in sessions both of whose players have called ready, if and only if every
      ready call of the run is consented. */
  lemma {:induction false} RunAgreesIff(t0: Table, f: Faults, xs: seq<Action>)
    requires OneRowPerItem(t0)
    ensures SwapsAreAgreed(Run(t0, f, xs).w.log) <==> ConsentedRun(t0, f, xs)
    ensures ConsentedRun(t0, f, xs) ==> AllFlagsOwn(Run(t0, f, xs).w)
    decreases |xs|
  {
    if xs != [] {
      var before, x := xs[..|xs| - 1], xs[|xs| - 1];
      var g := Run(t0, f, before);
      assert before + [x] == xs;
      RunAgreesIff(t0, f, before);
      RunKeeps(t0, f, before);
      EachStepSnoc(ConsentedAfter(t0, f), before, x);
      LogGrows(g, f, x);
      hide SwapsAreAgreed, EachStep, Consented, AllFlagsOwn, Inv, InvBut, Perform;
      if ConsentedRun(t0, f, before) {
        StepAgreesIff(g, f, x, t0);
      } else if SwapsAreAgreed(Perform(g, f, x).w.log) {
        AgreedBefore(g.w.log, Perform(g, f, x).w.log);
      }
    }
  }

  // ------------------------------------------------------------------ when offers are one's own

  /** The offers of a session are its members' own uploads. */
  ghost predicate OffersOwn(log: seq<Event>, s: nat, x: Session) {
    && Terms(x.aItems) == Terms(Uploads(log, s, x.aId))
    && Terms(x.bItems) == (if x.aId == x.bId then [] else Terms(Uploads(log, s, x.bId)))
  }

  ghost predicate AllOffersOwn(w: World) {
    forall s :: s in w.heap ==> OffersOwn(w.log, s, w.heap[s])
  }

  ghost predicate GuardedUpload(g: Server, x: Action)
    requires SafeServer(g)
  {
    x.DoUpload? ==> Guarded(g, x)
  }

  /** An event that is no upload changes nobody's uploads. */
  lemma QuietForUploads(w: World, e: Event, w': World)
    requires AllOffersOwn(w) && w'.log == w.log + [e]
    requires forall s :: s in w'.heap && s in w.heap ==>
      && w'.heap[s].aId == w.heap[s].aId && w'.heap[s].bId == w.heap[s].bId
      && (!e.Uploaded? || e.s != s ==>
            Terms(w'.heap[s].aItems) == Terms(w.heap[s].aItems) && Terms(w'.heap[s].bItems) == Terms(w.heap[s].bItems))
    requires forall s :: s in w'.heap && (s !in w.heap || (e.Uploaded? && e.s == s)) ==> OffersOwn(w'.log, s, w'.heap[s])
    ensures AllOffersOwn(w')
  {
    forall s | s in w'.heap ensures OffersOwn(w'.log, s, w'.heap[s]) {
      if s in w.heap && !(e.Uploaded? && e.s == s) {
        UploadsStep(w.log, e, s, w.heap[s].aId);
        UploadsStep(w.log, e, s, w.heap[s].bId);
        assert OffersOwn(w.log, s, w.heap[s]);
      }
    }
  }

  /** One upload, seen by its session: still everybody's own exactly if it is booked on the side
      of its caller. */
  lemma UploadOwnIff(log: seq<Event>, s: nat, x: Session, p: Player, item: TradeItem)
    requires OffersOwn(log, s, x) && (p.id == x.aId || p.id == x.bId)
    ensures OffersOwn(log + [Uploaded(s, p.id, BookedOnA(x, p), item)], s, AddOffer(x, BookedOnA(x, p), item))
       <==> OnOwnSide(x, p)
  {
    var onA := BookedOnA(x, p);
    var e := Uploaded(s, p.id, onA, item);
    UploadsStep(log, e, s, x.aId);
    UploadsStep(log, e, s, x.bId);
    TermsConcat(x.aItems, [item]);
    TermsConcat(x.bItems, [item]);
    TermsConcat(Uploads(log, s, x.aId), [item]);
    TermsConcat(Uploads(log, s, x.bId), [item]);
    assert |Terms(x.aItems)| == |Terms(Uploads(log, s, x.aId))|;
    assert x.aId != x.bId ==> |Terms(x.bItems)| == |Terms(Uploads(log, s, x.bId))|;
  }

  lemma UploadKeepsOwnIff(w: World, p: Player, item: TradeItem)
    requires Safe(w) && AllOffersOwn(w) && SessionOf(w, p.id) != 0
    ensures AllOffersOwn(UploadItem(w, p, item).1) <==> OnOwnSide(w.heap[SessionOf(w, p.id)], p)
  {
    var s := SessionOf(w, p.id);
    var x, w' := w.heap[s], UploadItem(w, p, item).1;
    assert OffersOwn(w.log, s, x);
    UploadOwnIff(w.log, s, x, p, item);
    assert w'.heap[s] == AddOffer(x, BookedOnA(x, p), item);
    hide OffersOwn;
    if OnOwnSide(x, p) {
      QuietForUploads(w, Uploaded(s, p.id, BookedOnA(x, p), item), w');
    }
  }

  lemma StartKeepsOwn(w: World, requester: Player, accepter: Player, t0: Table)
    requires Inv(w, t0) && AllOffersOwn(w)
    ensures AllOffersOwn(Start(w, requester, accepter).1)
  {
    if CanStart(requester, accepter) {
      var s, e, w' := w.nextAddr, Opened(w.nextAddr, requester.id, accepter.id), Start(w, requester, accepter).1;
      NoEventsNoUploads(w.log, s, requester.id);
      NoEventsNoUploads(w.log, s, accepter.id);
      UploadsStep(w.log, e, s, requester.id);
      UploadsStep(w.log, e, s, accepter.id);
      assert OffersOwn(w'.log, s, w'.heap[s]);
      hide OffersOwn, InvBut;
      QuietForUploads(w, e, w');
    }
  }

  lemma {:induction false} NoEventsNoUploads(log: seq<Event>, s: nat, p: int)
    requires forall e :: e in log ==> e.s != s
    ensures Uploads(log, s, p) == []
  {
    if log != [] {
      assert log[|log| - 1] in log;
      NoEventsNoUploads(log[..|log| - 1], s, p);
    }
  }

  lemma FlagKeepsOwn(w: World, p: Player)
    requires Safe(w) && AllOffersOwn(w) && SessionOf(w, p.id) != 0
    ensures AllOffersOwn(Flag(w, SessionOf(w, p.id), p))
  {
    var s := SessionOf(w, p.id);
    QuietForUploads(w, Readied(s, p.id, BookedOnA(w.heap[s], p)), Flag(w, s, p));
  }

  lemma TradeKeepsOwn(w: World, f: Faults, s: nat, caller: int)
    requires Safe(w) && AllOffersOwn(w) && s in w.heap
    ensures AllOffersOwn(RunTrade(w, f, s, caller).1)
  {
    var x := w.heap[s];
    var (rc, w') := RunTrade(w, f, s, caller);
    OffersKeepTerms(w, f, s, caller);
    hide AllOffersOwn, Execute, Terms, OffersOwn;
    QuietForUploads(w, Swapped(s, x.aId, x.bId, caller, rc == 0), w');
  }

  lemma DeleteKeepsOwn(w: World, s: nat)
    requires Safe(w) && AllOffersOwn(w) && s in w.heap
    ensures AllOffersOwn(DeleteSession(w, s))
  {
    hide AllOffersOwn, Terms, OffersOwn;
    QuietForUploads(w, Closed(s), DeleteSession(w, s));
  }

  lemma ReadyKeepsOwn(w: World, f: Faults, p: Player)
    requires Safe(w) && AllOffersOwn(w)
    ensures AllOffersOwn(HandleReady(w, f, p).1)
  {
    var (s, w1) := Lookup(w, p.id);
    if s != 0 {
      FlagKeepsOwn(w1, p);
      hide AllOffersOwn;
      var w2 := Flag(w1, s, p);
      if OtherReady(w2.heap[s], p.id) {
        TradeKeepsOwn(w2, f, s, p.id);
        var (rc, w3) := RunTrade(w2, f, s, p.id);
        if rc == 0 { DeleteKeepsOwn(w3, s); }
      }
    }
  }

  lemma CancelKeepsOwn(w: World, p: int)
    requires Safe(w) && AllOffersOwn(w)
    ensures AllOffersOwn(Cancel(w, p).1)
  {
    var s := SessionOf(w, p);
    if s != 0 { QuietForUploads(w, Closed(s), Cancel(w, p).1); }
  }

  lemma StepKeepsOwnIff(g: Server, f: Faults, x: Action, t0: Table)
    requires SafeServer(g) && Inv(g.w, t0) && AllOffersOwn(g.w)
    ensures AllOffersOwn(Perform(g, f, x).w) <==> GuardedUpload(g, x)
  {
    match x
    case Connect(player) =>
    case DoStart(p, q) => if p in g.online && q in g.online { StartKeepsOwn(g.w, g.online[p], g.online[q], t0); }
    case DoUpload(p, item) =>
      if p in g.online && SessionOf(g.w, p) != 0 { UploadKeepsOwnIff(g.w, g.online[p], item); }
    case DoReady(p) => if p in g.online { ReadyKeepsOwn(g.w, f, g.online[p]); }
    case DoCancel(p) => if p in g.online { CancelKeepsOwn(g.w, p); }
  }

  ghost function GuardedUploadAfter(t0: Table, f: Faults): (seq<Action>, Action) -> bool {
    (before, x) => GuardedUpload(Run(t0, f, before), x)
  }

  ghost function OwnAfter(t0: Table, f: Faults): seq<Action> -> bool {
    xs => AllOffersOwn(Run(t0, f, xs).w)
  }

  /** The offers of open sessions are their members' own throughout a run, if and only if every
      upload of the run is guarded. */
  lemma RunKeepsOwnIff(t0: Table, f: Faults, xs: seq<Action>)
    requires OneRowPerItem(t0)
    ensures Always(OwnAfter(t0, f), xs) <==> EachStep(GuardedUploadAfter(t0, f), xs)
  {
    forall before, x | OwnAfter(t0, f)(before)
      ensures OwnAfter(t0, f)(before + [x]) <==> GuardedUploadAfter(t0, f)(before, x)
    {
      hide AllOffersOwn, Inv, InvBut, Perform, GuardedUpload;
      RunKeeps(t0, f, before);
      RunStep(t0, f, before, x);
      StepKeepsOwnIff(Run(t0, f, before), f, x, t0);
    }
    hide Always, EachStep;
    AlwaysIffEachStep(OwnAfter(t0, f), GuardedUploadAfter(t0, f), xs);
  }
}
