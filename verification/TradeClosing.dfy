/** What a call on trade sessions changes and what it leaves alone, and that a closed session stays
    closed for the rest of a run. */
module TradeClosing {
  import opened Prelude
  import opened InventoryTable
  import opened TradeSwap
  import opened TradeProtocol
  import opened TradeRuns

  // ------------------------------------------------------------------ one call

  /** Player q is registered as before. */
  ghost predicate SameEntry(w: World, w': World, q: int) {
    (q in w'.registry <==> q in w.registry) && (q in w.registry ==> w'.registry[q] == w.registry[q])
  }

  /** Session s is what it was before, or still does not exist. */
  ghost predicate SameSession(w: World, w': World, s: nat) {
    (s in w'.heap <==> s in w.heap) && (s in w.heap ==> w'.heap[s] == w.heap[s])
  }

  ghost predicate SamePlayers(w: World, w': World, except: set<int>) {
    forall q :: q !in except ==> SameEntry(w, w', q)
  }

  ghost predicate SameSessions(w: World, w': World, except: nat) {
    forall s :: s != except ==> SameSession(w, w', s)
  }

  /** Session s is gone: nobody is registered in it, its two members are in no session at all, and
      all the other players and sessions are as they were. */
  ghost predicate Closes(w: World, w': World, s: nat)
    requires s in w.heap
  {
    && s !in w'.heap
    && (forall q :: q in w'.registry ==> w'.registry[q] != s)
    && SessionOf(w', w.heap[s].aId) == 0 && SessionOf(w', w.heap[s].bId) == 0
    && SamePlayers(w, w', {w.heap[s].aId, w.heap[s].bId})
    && SameSessions(w, w', s)
  }

  /** A cancel closes the session of the player, and with none it changes nothing but the player's
      null entry. */
  lemma CancelCloses(w: World, p: int)
    requires Safe(w)
    ensures var s := SessionOf(w, p); var (rc, w') := Cancel(w, p);
      && w'.table == w.table && w'.clock == w.clock && w'.nextAddr == w.nextAddr
      && if s != 0 then
           rc == 0 && Closes(w, w', s) && w'.log == w.log + [Closed(s)]
         else
           rc == -1 && w'.heap == w.heap && w'.log == w.log
           && p in w'.registry && SessionOf(w', p) == 0 && SamePlayers(w, w', {p})
  {
    assert SessionOf(w, p) != 0 ==> p in w.registry;
  }

  /** A ready call whose swap commits closes the session, one that waits or is rolled back leaves
      everybody registered. */
  lemma ReadyClosesIff(w: World, f: Faults, p: Player)
    requires Safe(w) && SessionOf(w, p.id) != 0
    ensures var s := SessionOf(w, p.id); var (rc, w') := HandleReady(w, f, p);
      && rc in {0, 2, -1} && w'.nextAddr == w.nextAddr
      && if rc == 0 then Closes(w, w', s) && w'.log[|w'.log| - 1..] == [Closed(s)]
         else s in w'.heap && SamePlayers(w, w', {}) && SameSessions(w, w', s)
  {
    var s := SessionOf(w, p.id);
    var w2 := Flag(w, s, p);
    hide Execute;
    if OtherReady(w2.heap[s], p.id) {
      var (rc, w3) := RunTrade(w2, f, s, p.id);
      assert SamePlayers(w, w3, {}) && SameSessions(w, w3, s);
    }
  }

  /** What a ready call does, from the flags the session has. Without a session nothing happens. With
      one, the caller's flag is set on the side its object is compared to; if the other side, by ids,
      is ready as well, the swap of the session's offers is made, and a session whose swap was rolled
      back stays open with its offers as the swap left them. */
  lemma ReadyOutcome(w: World, f: Faults, p: Player)
    requires Safe(w)
    ensures var s := SessionOf(w, p.id); var (rc, w') := HandleReady(w, f, p);
      if s == 0 then
        rc == -1 && w'.table == w.table && w'.clock == w.clock && w'.heap == w.heap && w'.log == w.log
        && SamePlayers(w, w', {p.id}) && SessionOf(w', p.id) == 0
      else
        var x := w.heap[s]; var onA := x.aObj == p.obj;
        var flagged := x.(aReady := x.aReady || onA, bReady := x.bReady || !onA);
        var swap := Execute(w.table, f, w.clock, x.aId, x.bId, x.aItems, x.bItems);
        if (x.aId == p.id && flagged.bReady) || (x.bId == p.id && flagged.aReady) then
          && rc == (if swap.ok then 0 else -1) && w'.table == swap.table && w'.clock == swap.next
          && (!swap.ok ==> s in w'.heap && w'.heap[s] == flagged.(aItems := swap.aItems, bItems := swap.bItems))
        else
          && rc == 2 && w'.table == w.table && w'.clock == w.clock && s in w'.heap && w'.heap[s] == flagged
  {
    hide Execute;
  }

  /** A trade is refused exactly if a player is dead, is on no map, or the maps differ; then nothing
      changes. Otherwise both players are registered in one new session without offers or flags. */
  lemma StartRefusesIff(w: World, requester: Player, accepter: Player)
    requires Safe(w)
    ensures var (rc, w') := Start(w, requester, accepter);
      if !requester.alive || !accepter.alive || requester.place.None? || requester.place != accepter.place then
        rc == -1 && w' == w
      else
        && rc == 0 && w'.table == w.table && w'.clock == w.clock
        && SessionOf(w', requester.id) == SessionOf(w', accepter.id) == w.nextAddr
        && w.nextAddr in w'.heap
        && w'.heap[w.nextAddr]
             == Session(requester.obj, accepter.obj, requester.id, accepter.id, false, false, [], [])
        && SamePlayers(w, w', {requester.id, accepter.id}) && SameSessions(w, w', w.nextAddr)
  {
  }

  /** An upload appends the item to one list of the caller's session, the first one exactly if the
      caller is the object that started the trade, touches no other session and registers nobody. */
  lemma UploadAppends(w: World, p: Player, item: TradeItem)
    requires Safe(w)
    ensures var s := SessionOf(w, p.id); var (rc, w') := UploadItem(w, p, item);
      && rc == (if s == 0 then -1 else 0)
      && w'.table == w.table && w'.clock == w.clock
      && SameSessions(w, w', s) && (forall q :: SessionOf(w', q) == SessionOf(w, q))
      && (s != 0 ==> s in w'.heap)
      && (s != 0 && w.heap[s].aObj == p.obj ==> w'.heap[s] == w.heap[s].(aItems := w.heap[s].aItems + [item]))
      && (s != 0 && w.heap[s].aObj != p.obj ==> w'.heap[s] == w.heap[s].(bItems := w.heap[s].bItems + [item]))
  {
  }

  // ------------------------------------------------------------------ runs

  /** Session s does not exist and its address is never handed out again. */
  ghost predicate Gone(w: World, s: nat) {
    s !in w.heap && s < w.nextAddr
  }

  /** The log has only grown, and by nothing about session s. */
  ghost predicate SilentAbout(log: seq<Event>, longer: seq<Event>, s: nat) {
    log <= longer && forall k :: |log| <= k < |longer| ==> longer[k].s != s
  }

  lemma SilentAppend(log: seq<Event>, longer: seq<Event>, e: Event, s: nat)
    requires SilentAbout(log, longer, s) && e.s != s
    ensures SilentAbout(log, longer + [e], s)
  {
  }

  lemma ReadyStaysGone(w: World, f: Faults, p: Player, s: nat)
    requires Safe(w) && Gone(w, s) && s != 0
    ensures var w' := HandleReady(w, f, p).1; Gone(w', s) && SilentAbout(w.log, w'.log, s)
  {
    var (own, w1) := Lookup(w, p.id);
    if own != 0 {
      var w2 := Flag(w1, own, p);
      SilentAppend(w.log, w1.log, Readied(own, p.id, BookedOnA(w1.heap[own], p)), s);
      hide Execute;
      if OtherReady(w2.heap[own], p.id) {
        var (rc, w3) := RunTrade(w2, f, own, p.id);
        SilentAppend(w.log, w2.log, Swapped(own, w2.heap[own].aId, w2.heap[own].bId, p.id, rc == 0), s);
        SilentAppend(w.log, w3.log, Closed(own), s);
      }
    }
  }

  lemma StepStaysGone(g: Server, f: Faults, x: Action, s: nat)
    requires SafeServer(g) && Gone(g.w, s) && s != 0
    ensures var w' := Perform(g, f, x).w; Gone(w', s) && SilentAbout(g.w.log, w'.log, s)
  {
    if x.DoReady? && x.p in g.online { ReadyStaysGone(g.w, f, g.online[x.p], s); }
  }

  lemma {:induction false} RunStaysGone(t0: Table, f: Faults, before: seq<Action>, after: seq<Action>, s: nat)
    requires Gone(Run(t0, f, before).w, s) && s != 0
    ensures Gone(Run(t0, f, before + after).w, s)
    ensures SilentAbout(Run(t0, f, before).w.log, Run(t0, f, before + after).w.log, s)
    decreases |after|
  {
    if after == [] {
      assert before + after == before;
    } else {
      var init, x := after[..|after| - 1], after[|after| - 1];
      assert before + after == before + init + [x];
      RunStaysGone(t0, f, before, init, s);
      RunStep(t0, f, before + init, x);
      StepStaysGone(Run(t0, f, before + init), f, x, s);
      hide Run, Perform;
    }
  }

  /** A cancel is final: whatever follows, in any run, nobody uploads to, gets ready in, trades or
      closes the cancelled session again. */
  lemma CancelIsFinal(t0: Table, f: Faults, before: seq<Action>, p: int, after: seq<Action>)
    requires var g := Run(t0, f, before); p in g.online && SessionOf(g.w, p) != 0
    ensures var w := Run(t0, f, before).w; var s := SessionOf(w, p);
      var w' := Run(t0, f, before + [DoCancel(p)] + after).w;
      s !in w'.heap && SilentAbout(w.log + [Closed(s)], w'.log, s)
  {
    var w := Run(t0, f, before).w;
    RunStep(t0, f, before, DoCancel(p));
    CancelCloses(w, p);
    hide Run, Cancel;
    RunStaysGone(t0, f, before + [DoCancel(p)], after, SessionOf(w, p));
  }

  /** So is a commit. */
  lemma CommitIsFinal(t0: Table, f: Faults, before: seq<Action>, p: int, after: seq<Action>)
    requires var g := Run(t0, f, before);
      p in g.online && SessionOf(g.w, p) != 0 && HandleReady(g.w, f, g.online[p]).0 == 0
    ensures var s := SessionOf(Run(t0, f, before).w, p);
      var done := Run(t0, f, before + [DoReady(p)]).w; var w' := Run(t0, f, before + [DoReady(p)] + after).w;
      s !in w'.heap && done.log[|done.log| - 1..] == [Closed(s)] && SilentAbout(done.log, w'.log, s)
  {
    var g := Run(t0, f, before);
    RunStep(t0, f, before, DoReady(p));
    ReadyClosesIff(g.w, f, g.online[p]);
    hide Run, HandleReady;
    RunStaysGone(t0, f, before + [DoReady(p)], after, SessionOf(g.w, p));
  }
}
