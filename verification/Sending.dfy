/** The sending side of a session: a queue of packets, an offset into the front packet, and
    whether EPOLLOUT is watched. The kernel answers each send call as it likes. */
module SendQueue {
  import opened Prelude
  import opened Framing

  /** send's answer: it took n > 0 bytes (never more than offered), returned 0, or failed. */
  datatype Answer = Took(n: nat) | Interrupted | WouldBlock | Failed

  /** Outbox of a session; armed says that EPOLLOUT is registered for its fd. */
  datatype Outbox = Outbox(queue: seq<Bytes>, offset: nat, armed: bool, alive: bool)

  /** Queued packets are not empty and the offset points inside the front packet, or is 0. */
  predicate Valid(q: seq<Bytes>, offset: nat) {
    && (forall k :: 0 <= k < |q| ==> q[k] != [])
    && (if q == [] then offset == 0 else offset < |q[0]|)
  }

  function Flatten(q: seq<Bytes>): Bytes {
    if q == [] then [] else q[0] + Flatten(q[1..])
  }

  /** The bytes still to be sent. */
  function Pending(q: seq<Bytes>, offset: nat): Bytes
    requires Valid(q, offset)
  {
    if q == [] then [] else q[0][offset..] + Flatten(q[1..])
  }

  /** The outcome of FlushSend: what is left, what the kernel took, and the return value. */
  datatype Flushed = Flushed(queue: seq<Bytes>, offset: nat, sent: Bytes, ok: bool)

  /** What one send call that took up to n bytes leaves behind. */
  function TakenBytes(q: seq<Bytes>, offset: nat, n: nat): (part: Bytes)
    requires Valid(q, offset) && q != []
  {
    if n < |q[0]| - offset then q[0][offset..offset + n] else q[0][offset..]
  }

  function QueueAfter(q: seq<Bytes>, offset: nat, n: nat): seq<Bytes>
    requires Valid(q, offset) && q != []
  {
    if n < |q[0]| - offset then q else q[1..]
  }

  function OffsetAfter(q: seq<Bytes>, offset: nat, n: nat): (r: nat)
    requires Valid(q, offset) && q != []
    ensures Valid(QueueAfter(q, offset, n), r)
  {
    if n < |q[0]| - offset then offset + n else 0
  }

  function SentThen(part: Bytes, rest: Flushed): Flushed {
    rest.(sent := part + rest.sent)
  }

  /** FlushSend against a list of kernel answers; a list that runs out stands for EAGAIN. */
  function Flush(q: seq<Bytes>, offset: nat, answers: seq<Answer>): (r: Flushed)
    requires Valid(q, offset)
    ensures Valid(r.queue, r.offset)
    decreases |answers|
  {
    if q == [] then Flushed(q, offset, [], true)
    else if answers == [] then Flushed(q, offset, [], true)
    else
      match answers[0]
      case Took(n) =>
        if n == 0 then Flushed(q, offset, [], false)
        else SentThen(TakenBytes(q, offset, n), Flush(QueueAfter(q, offset, n), OffsetAfter(q, offset, n), answers[1..]))
      case Interrupted => Flush(q, offset, answers[1..])
      case WouldBlock => Flushed(q, offset, [], true)
      case Failed => Flushed(q, offset, [], false)
  }

  /** A flush sends a prefix of what is pending and leaves the rest. */
  ghost predicate Conserves(q: seq<Bytes>, offset: nat, r: Flushed)
    requires Valid(q, offset)
  {
    Valid(r.queue, r.offset) && r.sent + Pending(r.queue, r.offset) == Pending(q, offset)
  }

  /** No byte is lost, repeated or reordered, however the kernel splits the work. */
  lemma {:induction false} FlushConserves(q: seq<Bytes>, offset: nat, answers: seq<Answer>)
    requires Valid(q, offset)
    ensures Conserves(q, offset, Flush(q, offset, answers))
    decreases |answers|
  {
    NothingSent(q, offset);
    if q != [] && answers != [] {
      match answers[0]
      case Took(n) =>
        if n > 0 {
          FlushConserves(QueueAfter(q, offset, n), OffsetAfter(q, offset, n), answers[1..]);
          OneSend(q, offset, n, Flush(QueueAfter(q, offset, n), OffsetAfter(q, offset, n), answers[1..]));
        }
      case Interrupted => FlushConserves(q, offset, answers[1..]);
      case WouldBlock =>
      case Failed =>
    }
  }

  /** Answers that take something or are retried. */
  predicate Willing(answers: seq<Answer>) {
    forall k :: 0 <= k < |answers| ==> answers[k].Interrupted? || (answers[k].Took? && answers[k].n > 0)
  }

  function Takes(answers: seq<Answer>): nat {
    if answers == [] then 0 else (if answers[0].Took? then 1 else 0) + Takes(answers[1..])
  }

  lemma {:induction false} FlushProgress(q: seq<Bytes>, offset: nat, answers: seq<Answer>)
    requires Valid(q, offset) && Willing(answers)
    ensures var r := Flush(q, offset, answers); r.ok && (r.queue == [] || |r.sent| >= Takes(answers))
    decreases |answers|
  {
    if q != [] && answers != [] {
      if answers[0].Took? {
        var n := answers[0].n;
        FlushProgress(QueueAfter(q, offset, n), OffsetAfter(q, offset, n), answers[1..]);
        assert |TakenBytes(q, offset, n)| >= 1;
      } else {
        FlushProgress(q, offset, answers[1..]);
      }
    }
  }

  /** A kernel that keeps taking bytes gets all of them, in order. */
  lemma WillingKernelGetsAll(q: seq<Bytes>, offset: nat, answers: seq<Answer>)
    requires Valid(q, offset) && Willing(answers) && Takes(answers) >= |Pending(q, offset)|
    ensures Flush(q, offset, answers) == Flushed([], 0, Pending(q, offset), true)
  {
    FlushProgress(q, offset, answers);
    FlushConserves(q, offset, answers);
  }

  lemma NothingSent(q: seq<Bytes>, offset: nat)
    requires Valid(q, offset)
    ensures forall ok :: Conserves(q, offset, Flushed(q, offset, [], ok))
  {
    assert [] + Pending(q, offset) == Pending(q, offset);
  }

  lemma OneSend(q: seq<Bytes>, offset: nat, n: nat, rest: Flushed)
    requires Valid(q, offset) && q != [] && n > 0
    requires Conserves(QueueAfter(q, offset, n), OffsetAfter(q, offset, n), rest)
    ensures Conserves(q, offset, SentThen(TakenBytes(q, offset, n), rest))
  {
    var part := TakenBytes(q, offset, n);
    if n < |q[0]| - offset {
      assert part + q[0][offset + n..] == q[0][offset..];
      Regroup(part, q[0][offset + n..], Flatten(q[1..]));
    } else {
      FlattenIsPending(q[1..]);
    }
    Regroup(part, rest.sent, Pending(rest.queue, rest.offset));
  }

  lemma FlattenIsPending(q: seq<Bytes>)
    requires Valid(q, 0)
    ensures Pending(q, 0) == Flatten(q)
  {
  }

  lemma {:induction false} FlattenSnoc(q: seq<Bytes>, p: Bytes)
    ensures Flatten(q + [p]) == Flatten(q) + p
  {
    if q == [] {
      assert q + [p] == [p];
    } else {
      assert (q + [p])[1..] == q[1..] + [p];
      FlattenSnoc(q[1..], p);
    }
  }

  // ------------------------------------------------------------------ one session's steps

  function Enqueue(o: Outbox, packet: Bytes): Outbox {
    if packet == [] then o else o.(queue := o.queue + [packet], armed := true)
  }

  /** ChannelServer::OnSend: flush, close on failure, disarm when nothing is left. */
  function OnSend(o: Outbox, answers: seq<Answer>): Outbox
    requires Valid(o.queue, o.offset)
  {
    var r := Flush(o.queue, o.offset, answers);
    if !r.ok then Outbox(r.queue, r.offset, false, false)
    else Outbox(r.queue, r.offset, if r.queue == [] then false else o.armed, true)
  }

  /** What every step of a live session keeps: EPOLLOUT is armed exactly when bytes wait. */
  predicate Inv(o: Outbox) {
    Valid(o.queue, o.offset) && (o.alive ==> (o.armed <==> o.queue != []))
  }

  datatype Action = Send(packet: Bytes) | Writable(answers: seq<Answer>)

  /** A session with everything ever accepted for sending and everything the kernel took. */
  datatype Traffic = Traffic(o: Outbox, accepted: Bytes, sent: Bytes)

  function Step(t: Traffic, a: Action): (r: Traffic)
    requires Inv(t.o)
    ensures Inv(r.o)
  {
    if !t.o.alive then t
    else
      match a
      case Send(packet) => t.(o := Enqueue(t.o, packet), accepted := t.accepted + packet)
      case Writable(answers) =>
        t.(o := OnSend(t.o, answers), sent := t.sent + Flush(t.o.queue, t.o.offset, answers).sent)
  }

  function Run(t: Traffic, actions: seq<Action>): (r: Traffic)
    requires Inv(t.o)
    ensures Inv(r.o)
    decreases |actions|
  {
    if actions == [] then t else Run(Step(t, actions[0]), actions[1..])
  }

  lemma StepConserves(t: Traffic, a: Action)
    requires Inv(t.o) && t.sent + Pending(t.o.queue, t.o.offset) == t.accepted
    ensures var r := Step(t, a); r.sent + Pending(r.o.queue, r.o.offset) == r.accepted
  {
    if t.o.alive {
      match a
      case Send(packet) =>
        if packet != [] {
          if t.o.queue == [] {
            assert [packet][1..] == [];
          } else {
            assert (t.o.queue + [packet])[1..] == t.o.queue[1..] + [packet];
            FlattenSnoc(t.o.queue[1..], packet);
            Regroup(t.o.queue[0][t.o.offset..], Flatten(t.o.queue[1..]), packet);
          }
          Regroup(t.sent, Pending(t.o.queue, t.o.offset), packet);
        }
      case Writable(answers) =>
        FlushConserves(t.o.queue, t.o.offset, answers);
        var r := Flush(t.o.queue, t.o.offset, answers);
        Regroup(t.sent, r.sent, Pending(r.queue, r.offset));
        assert Conserves(t.o.queue, t.o.offset, r);
    }
  }

  /** Over every interleaving of sends and write events with arbitrary kernel answers, what
      the kernel took followed by what is pending is what was accepted, in order; and while
      the session lives, EPOLLOUT is armed exactly when something is pending. */
  lemma {:induction false} RunConserves(t: Traffic, actions: seq<Action>)
    requires Inv(t.o) && t.sent + Pending(t.o.queue, t.o.offset) == t.accepted
    ensures var r := Run(t, actions);
      && r.sent + Pending(r.o.queue, r.o.offset) == r.accepted
      && (r.o.alive ==> (r.o.armed <==> Pending(r.o.queue, r.o.offset) != []))
    decreases |actions|
  {
    if actions != [] {
      StepConserves(t, actions[0]);
      RunConserves(Step(t, actions[0]), actions[1..]);
    }
  }

  /** The bytes given to send over a run. */
  function Offered(actions: seq<Action>): Bytes {
    if actions == [] then []
    else (if actions[0].Send? then actions[0].packet else []) + Offered(actions[1..])
  }

  lemma {:induction false} RunAccepts(t: Traffic, actions: seq<Action>)
    requires Inv(t.o) && t.o.alive && Run(t, actions).o.alive
    ensures Run(t, actions).accepted == t.accepted + Offered(actions)
    decreases |actions|
  {
    if actions == [] {
      assert t.accepted + [] == t.accepted;
    } else {
      var t1 := Step(t, actions[0]);
      if !t1.o.alive { DeadStaysDead(t1, actions[1..]); }
      RunAccepts(t1, actions[1..]);
      Regroup(t.accepted, if actions[0].Send? then actions[0].packet else [], Offered(actions[1..]));
      assert t.accepted + [] == t.accepted;
    }
  }

  lemma {:induction false} DeadStaysDead(t: Traffic, actions: seq<Action>)
    requires Inv(t.o) && !t.o.alive
    ensures Run(t, actions) == t
    decreases |actions|
  {
    if actions != [] { DeadStaysDead(t, actions[1..]); }
  }

  /** As long as a session lives, what the kernel has taken followed by what is pending is everything
      that was given to send, in order. */
  lemma RunDelivers(actions: seq<Action>)
    requires Run(Traffic(Outbox([], 0, false, true), [], []), actions).o.alive
    ensures var r := Run(Traffic(Outbox([], 0, false, true), [], []), actions);
      r.sent + Pending(r.o.queue, r.o.offset) == Offered(actions)
  {
    var t := Traffic(Outbox([], 0, false, true), [], []);
    RunAccepts(t, actions);
    RunConserves(t, actions);
    assert [] + Offered(actions) == Offered(actions);
  }

  // ------------------------------------------------------------------ when a session is closed

  /** How many bytes wait in each queued packet. */
  function Sizes(q: seq<Bytes>, offset: nat): (r: seq<nat>)
    requires Valid(q, offset)
    ensures r == [] <==> q == []
  {
    if q == [] then [] else [|q[0]| - offset] + Lengths(q[1..])
  }

  function Lengths(q: seq<Bytes>): seq<nat> {
    if q == [] then [] else [|q[0]|] + Lengths(q[1..])
  }

  /** A kernel that takes up to n bytes takes at most the packet in front. */
  function Taking(sizes: seq<nat>, n: nat): seq<nat>
    requires sizes != []
  {
    if n < sizes[0] then [sizes[0] - n] + sizes[1..] else sizes[1..]
  }

  /** What waits in each packet after the kernel has given these answers. */
  function Waiting(sizes: seq<nat>, answers: seq<Answer>): seq<nat>
    decreases |answers|
  {
    if sizes == [] || answers == [] then sizes
    else
      match answers[0]
      case Took(n) => Waiting(Taking(sizes, n), answers[1..])
      case _ => Waiting(sizes, answers[1..])
  }

  /** Answer k is the one the session dies of: so far the kernel has been willing, bytes wait, and
      it now reports an error or takes nothing. */
  ghost predicate RefusesAt(sizes: seq<nat>, answers: seq<Answer>, k: int) {
    && 0 <= k < |answers| && Willing(answers[..k]) && Waiting(sizes, answers[..k]) != []
    && (answers[k] == Failed || answers[k] == Took(0))
  }

  ghost predicate Refuses(sizes: seq<nat>, answers: seq<Answer>) {
    exists k :: RefusesAt(sizes, answers, k)
  }

  lemma SizesAfter(q: seq<Bytes>, offset: nat, n: nat)
    requires Valid(q, offset) && q != []
    ensures Sizes(QueueAfter(q, offset, n), OffsetAfter(q, offset, n)) == Taking(Sizes(q, offset), n)
  {
  }

  lemma WaitingStep(sizes: seq<nat>, a: Answer, rest: seq<Answer>)
    ensures Waiting(sizes, [a] + rest) == Waiting(Waiting(sizes, [a]), rest)
  {
    assert ([a] + rest)[1..] == rest && [a][1..] == [];
    match a
    case Took(n) =>
    case _ => assert Waiting(sizes, [a]) == sizes;
  }

  /** Past a first answer that does no harm. */
  lemma RefusesLater(sizes: seq<nat>, answers: seq<Answer>)
    requires sizes != [] && answers != [] && Willing(answers[..1])
    ensures Refuses(sizes, answers)
       <==> Refuses(if answers[0].Took? then Taking(sizes, answers[0].n) else sizes, answers[1..])
  {
    var sizes1, rest := if answers[0].Took? then Taking(sizes, answers[0].n) else sizes, answers[1..];
    assert answers[..1] == [answers[0]];
    assert Waiting(sizes, [answers[0]]) == sizes1 by { assert [answers[0]][1..] == []; }
    hide Taking;
    forall k | 0 <= k < |rest| ensures RefusesAt(sizes, answers, k + 1) <==> RefusesAt(sizes1, rest, k) {
      assert answers[..k + 1] == [answers[0]] + rest[..k];
      WaitingStep(sizes, answers[0], rest[..k]);
      WillingStep(answers[0], rest[..k]);
    }
    if Refuses(sizes, answers) {
      var k :| RefusesAt(sizes, answers, k);
      assert answers[..1][0] == answers[0];
      assert RefusesAt(sizes1, rest, k - 1);
    }
    if Refuses(sizes1, rest) {
      var k :| RefusesAt(sizes1, rest, k);
      assert RefusesAt(sizes, answers, k + 1);
    }
  }

  lemma WillingStep(a: Answer, rest: seq<Answer>)
    requires Willing([a])
    ensures Willing([a] + rest) <==> Willing(rest)
  {
    assert [a][0] == a;
    forall k | 0 <= k < |rest| ensures ([a] + rest)[k + 1] == rest[k] {
    }
  }

  /** A first answer that takes nothing and is not retried is the one that counts. */
  lemma FirstRefusesIff(sizes: seq<nat>, answers: seq<Answer>)
    requires sizes != [] && answers != [] && !Willing(answers[..1])
    ensures Refuses(sizes, answers) <==> !answers[0].WouldBlock?
  {
    forall k | 0 < k < |answers| ensures !Willing(answers[..k]) {
      assert answers[..k][0] == answers[0] == answers[..1][0];
    }
    assert RefusesAt(sizes, answers, 0) <==> !answers[0].WouldBlock?;
  }

  lemma NothingWaits(answers: seq<Answer>)
    ensures !Refuses([], answers)
  {
    forall k | 0 <= k < |answers| ensures Waiting([], answers[..k]) == [] {
    }
  }

  lemma {:induction false} FlushFailsIff(q: seq<Bytes>, offset: nat, answers: seq<Answer>)
    requires Valid(q, offset)
    ensures !Flush(q, offset, answers).ok <==> Refuses(Sizes(q, offset), answers)
    decreases |answers|
  {
    var sizes := Sizes(q, offset);
    if q == [] {
      NothingWaits(answers);
    } else if answers != [] {
      if Willing(answers[..1]) {
        RefusesLater(sizes, answers);
        SizesAfter(q, offset, if answers[0].Took? then answers[0].n else 0);
        assert answers[..1][0] == answers[0];
        hide Refuses, Sizes, Valid, QueueAfter, OffsetAfter, Taking, Waiting, Pending;
        if answers[0].Took? {
          FlushFailsIff(QueueAfter(q, offset, answers[0].n), OffsetAfter(q, offset, answers[0].n), answers[1..]);
        } else {
          FlushFailsIff(q, offset, answers[1..]);
        }
      } else {
        FirstRefusesIff(sizes, answers);
        hide Refuses;
      }
    }
  }

  /** A write event closes the session exactly if the kernel refuses while bytes wait; otherwise the
      session lives, armed exactly if bytes still wait. */
  lemma WriteClosesIff(o: Outbox, answers: seq<Answer>)
    requires Inv(o) && o.alive
    ensures var r := OnSend(o, answers);
      && (r.alive <==> !Refuses(Sizes(o.queue, o.offset), answers))
      && (r.armed <==> r.alive && Pending(r.queue, r.offset) != [])
  {
    FlushFailsIff(o.queue, o.offset, answers);
  }

  lemma {:induction false} FlushLeaves(q: seq<Bytes>, offset: nat, answers: seq<Answer>)
    requires Valid(q, offset) && Willing(answers)
    ensures var r := Flush(q, offset, answers); Sizes(r.queue, r.offset) == Waiting(Sizes(q, offset), answers)
    decreases |answers|
  {
    hide Sizes, Valid, Pending;
    if q != [] && answers != [] {
      if answers[0].Took? {
        SizesAfter(q, offset, answers[0].n);
        hide QueueAfter, OffsetAfter;
        FlushLeaves(QueueAfter(q, offset, answers[0].n), OffsetAfter(q, offset, answers[0].n), answers[1..]);
      } else {
        FlushLeaves(q, offset, answers[1..]);
      }
    }
  }

  /** Once everything is taken the flush looks at no more answers. */
  lemma {:induction false} FlushStops(q: seq<Bytes>, offset: nat, pre: seq<Answer>, more: seq<Answer>)
    requires Valid(q, offset) && Willing(pre) && Flush(q, offset, pre).queue == []
    ensures Flush(q, offset, pre + more) == Flush(q, offset, pre)
    decreases |pre|
  {
    if q != [] {
      assert pre != [];
      assert (pre + more)[1..] == pre[1..] + more;
      if pre[0].Took? {
        FlushStops(QueueAfter(q, offset, pre[0].n), OffsetAfter(q, offset, pre[0].n), pre[1..], more);
      } else {
        FlushStops(q, offset, pre[1..], more);
      }
    }
  }

  lemma NextRefusesIff(sizes: seq<nat>, pre: seq<Answer>, x: Answer, post: seq<Answer>)
    requires Willing(pre) && (x.WouldBlock? || x.Failed? || x == Took(0))
    ensures !Refuses(sizes, pre)
    ensures Refuses(sizes, pre + [x] + post) <==> Waiting(sizes, pre) != [] && !x.WouldBlock?
  {
    var all := pre + [x] + post;
    assert all[..|pre|] == pre && all[|pre|] == x;
    forall k | 0 <= k < |pre| ensures all[k] == pre[k] {
    }
    forall k | |pre| < k < |all| ensures !Willing(all[..k]) {
      assert all[..k][|pre|] == x;
    }
    if Waiting(sizes, pre) != [] && !x.WouldBlock? { assert RefusesAt(sizes, all, |pre|); }
  }

  /** After a willing start that leaves bytes waiting, the next answer decides; a willing kernel that
      takes everything, or one that falls silent, leaves the session alive. */
  lemma NextAnswerDecides(o: Outbox, pre: seq<Answer>, x: Answer, post: seq<Answer>)
    requires Inv(o) && o.alive && Willing(pre)
    requires x.WouldBlock? || x.Failed? || x == Took(0)
    ensures var left := Waiting(Sizes(o.queue, o.offset), pre);
      && (left != [] ==> (OnSend(o, pre + [x] + post).alive <==> x.WouldBlock?))
      && (left == [] ==> OnSend(o, pre + [x] + post).alive && !OnSend(o, pre + [x] + post).armed)
      && OnSend(o, pre).alive && (OnSend(o, pre).armed <==> left != [])
  {
    NextRefusesIff(Sizes(o.queue, o.offset), pre, x, post);
    WriteClosesIff(o, pre);
    WriteClosesIff(o, pre + [x] + post);
    FlushLeaves(o.queue, o.offset, pre);
    if Waiting(Sizes(o.queue, o.offset), pre) == [] {
      FlushStops(o.queue, o.offset, pre, [x] + post);
      Regroup(pre, [x], post);
    }
  }

  // ------------------------------------------------------------------ when a run closes the session

  /** Action i is a write event, on a live session, that the kernel refuses. */
  ghost predicate ClosesAt(t: Traffic, actions: seq<Action>, i: int)
    requires Inv(t.o)
  {
    && 0 <= i < |actions| && actions[i].Writable?
    && var o := Run(t, actions[..i]).o; o.alive && Refuses(Sizes(o.queue, o.offset), actions[i].answers)
  }

  /** A session is closed by a run exactly if some write event meets a kernel that reports an error
      or takes nothing while bytes wait. */
  lemma {:induction false} RunClosesIff(t: Traffic, actions: seq<Action>)
    requires Inv(t.o) && t.o.alive
    ensures !Run(t, actions).o.alive <==> exists i :: ClosesAt(t, actions, i)
    decreases |actions|
  {
    if actions != [] {
      var t1, rest := Step(t, actions[0]), actions[1..];
      assert actions[..0] == [];
      if actions[0].Writable? { WriteClosesIff(t.o, actions[0].answers); }
      forall i | 0 <= i < |rest| ensures ClosesAt(t, actions, i + 1) <==> ClosesAt(t1, rest, i) {
        assert actions[..i + 1][1..] == rest[..i];
      }
      if t1.o.alive {
        RunClosesIff(t1, rest);
        if i :| ClosesAt(t, actions, i) { assert ClosesAt(t1, rest, i - 1); }
        if i :| ClosesAt(t1, rest, i) { assert ClosesAt(t, actions, i + 1); }
      } else {
        DeadStaysDead(t1, rest);
        assert ClosesAt(t, actions, 0);
      }
    }
  }
}

/** ChannelSession's send methods and the server's write-interest steps. */
module Sending {
  import opened Prelude
  import opened Framing
  import opened SendQueue

  /** What a flush that has already sent something will report, if the rest reports r. */
  ghost function After(sent: Bytes, r: Flushed): Flushed {
    r.(sent := sent + r.sent)
  }

  /** One round of the loop. */
  lemma FlushStep(sent: Bytes, q: seq<Bytes>, offset: nat, answers: seq<Answer>)
    requires Valid(q, offset)
    ensures After(sent, Flush(q, offset, answers)) ==
      if q == [] || answers == [] then Flushed(q, offset, sent, true)
      else match answers[0]
        case Took(n) =>
          if n == 0 then Flushed(q, offset, sent, false)
          else After(sent + TakenBytes(q, offset, n), Flush(QueueAfter(q, offset, n), OffsetAfter(q, offset, n), answers[1..]))
        case Interrupted => After(sent, Flush(q, offset, answers[1..]))
        case WouldBlock => Flushed(q, offset, sent, true)
        case Failed => Flushed(q, offset, sent, false)
  {
    if q != [] && answers != [] && answers[0].Took? && answers[0].n > 0 {
      var n := answers[0].n;
      Regroup(sent, TakenBytes(q, offset, n), Flush(QueueAfter(q, offset, n), OffsetAfter(q, offset, n), answers[1..]).sent);
    }
  }

  class SendSession {
    var sendQueue: seq<Bytes>
    var sendOffset: nat
    var armed: bool
    var alive: bool

    ghost function Abs(): Outbox
      reads this
    {
      Outbox(sendQueue, sendOffset, armed, alive)
    }

    constructor ()
      ensures Abs() == Outbox([], 0, false, true) && Inv(Abs())
    {
      sendQueue, sendOffset, armed, alive := [], 0, false, true;
    }

    method EnqueueSend(packet: Bytes) returns (rc: int)
      requires Inv(Abs()) && alive
      modifies this
      ensures Abs() == Enqueue(old(Abs()), packet) && Inv(Abs())
      ensures rc == if packet == [] then -1 else 0
    {
      if packet == [] { return -1; }
      sendQueue := sendQueue + [packet];
      armed := true;
      rc := 0;
    }

    method FlushSend(answers: seq<Answer>) returns (ok: bool, sent: Bytes)
      requires Valid(sendQueue, sendOffset)
      modifies `sendQueue, `sendOffset
      ensures Flushed(sendQueue, sendOffset, sent, ok) == Flush(old(sendQueue), old(sendOffset), answers)
    {
      hide Flush, Pending;
      sent := [];
      var n := 0;
      while sendQueue != []
        invariant 0 <= n <= |answers| && Valid(sendQueue, sendOffset)
        invariant After(sent, Flush(sendQueue, sendOffset, answers[n..]))
               == Flush(old(sendQueue), old(sendOffset), answers)
        decreases |answers| - n
      {
        FlushStep(sent, sendQueue, sendOffset, answers[n..]);
        if n == |answers| { return true, sent; }
        assert answers[n..][1..] == answers[n + 1..];
        match answers[n] {
          case Took(m) =>
            if m == 0 { return false, sent; }
            ghost var q, offset := sendQueue, sendOffset;
            var packet := sendQueue[0];
            var taken := if m < |packet| - sendOffset then m else |packet| - sendOffset;
            sent := sent + packet[sendOffset..sendOffset + taken];
            sendOffset := sendOffset + taken;
            if sendOffset == |packet| {
              sendQueue := sendQueue[1..];
              sendOffset := 0;
            }
            assert packet[offset..offset + taken] == TakenBytes(q, offset, m);
            assert sendQueue == QueueAfter(q, offset, m) && sendOffset == OffsetAfter(q, offset, m);
          case Interrupted =>
          case WouldBlock => return true, sent;
          case Failed => return false, sent;
        }
        n := n + 1;
      }
      FlushStep(sent, sendQueue, sendOffset, answers[n..]);
      ok := true;
    }

    method HandleWritable(answers: seq<Answer>)
      requires Inv(Abs()) && alive
      modifies this
      ensures Abs() == OnSend(old(Abs()), answers) && Inv(Abs())
    {
      var ok, sent := FlushSend(answers);
      if !ok {
        alive, armed := false, false;
        return;
      }
      if sendQueue == [] {
        armed := false;
      }
    }
  }
}
