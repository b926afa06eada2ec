// The order of first deliveries: exactly which messages can still be handed on after a later one.
module ChannelOrder {
  import opened Basics
  import opened Words
  import opened InnerChannel
  import opened ChannelRuns

  // ------------------------------------------------------------------ what every run keeps besides

  /** The next fragment of the same message, or the first of a later one. */
  predicate Follows(x: Call, y: Call) {
    if y.j == x.j then y.i == x.i + 1 else y.j > x.j && y.i == 0
  }

  ghost predicate InSequence(calls: seq<Call>) {
    && (calls != [] ==> calls[0].i == 0)
    && forall a, b | 0 <= a < |calls| && b == a + 1 < |calls| :: Follows(calls[a], calls[b])
  }

  /** The last call of a message that ended. */
  ghost predicate EndsAt(calls: seq<Call>, j: nat, at: nat) {
    at < |calls| && calls[at].j == j && (at + 1 < |calls| ==> calls[at + 1].j > j)
  }

  ghost predicate EndsLast(calls: seq<Call>, ends: seq<Ended>) {
    forall j: nat | j < |ends| :: EndsAt(calls, j, ends[j].at)
  }

  ghost predicate OverflowWide(msgs: seq<Message>, ends: seq<Ended>) {
    |ends| <= |msgs| && forall j: nat | j < |ends| && ends[j].outcome == Overflowed :: |msgs[j].parts| > 255
  }

  /** Nothing is transmitted for a message whose packets do not fit the count of the header. */
  ghost predicate WireNarrow(s: Sys) {
    && (forall f | f in s.wire :: f.fragment.total <= 255)
    && (!s.phase.Idle? ==> s.msgs != [] && |s.msgs[|s.msgs| - 1].parts| <= 255)
  }

  /** Call n carried the last fragment of its message, and that frame is on the wire. */
  ghost predicate LastOnWire(s: Sys, n: nat) {
    n < |s.calls| && s.calls[n].j < |s.msgs| && s.calls[n].i + 1 == |s.msgs[s.calls[n].j].parts|
    && s.calls[n].frame in s.wire
  }

  ghost predicate SentLast(s: Sys, j: nat) {
    exists n: nat :: LastOnWire(s, n) && s.calls[n].j == j
  }

  /** Whatever was delivered had its last fragment on the wire. */
  ghost predicate DeliveredSent(s: Sys) {
    forall k: nat | k < |s.handoff| :: SentLast(s, s.handoff[k].mid)
  }

  lemma AppendInSequence(calls: seq<Call>, ends: seq<Ended>, call: Call)
    requires InSequence(calls) && EndsLast(calls, ends) && |ends| <= call.j
    requires if calls == [] then call.i == 0 else Follows(calls[|calls| - 1], call)
    ensures InSequence(calls + [call]) && EndsLast(calls + [call], ends)
  {
    forall j: nat | j < |ends|
      ensures EndsAt(calls + [call], j, ends[j].at)
    {
      assert EndsAt(calls, j, ends[j].at);
    }
  }

  lemma FinishEndsLast(calls: seq<Call>, ends: seq<Ended>, o: Outcome)
    requires EndsLast(calls, ends) && calls != [] && calls[|calls| - 1].j == |ends|
    ensures EndsLast(calls, ends + [Ended(o, |calls| - 1)])
  {
    forall j: nat | j < |ends|
      ensures EndsAt(calls, j, ends[j].at)
    {
    }
  }

  /** What the sending thread keeps about its calls. */
  ghost predicate SendOrder(s: Sys) {
    InSequence(s.calls) && EndsLast(s.calls, s.ends)
  }

  ghost predicate Widths(s: Sys) {
    OverflowWide(s.msgs, s.ends) && WireNarrow(s)
  }

  lemma StartOrdered(c: Config, s: Sys, id: nat, bytes: seq<byte>)
    requires c.psz > 0 && CallsGenuine(s.msgs, s.calls) && |s.ends| == |s.msgs| && SendOrder(s)
    ensures SendOrder(StartStep(c, s, id, bytes))
  {
    var call := MakeCall(NewMessage(c, id, bytes), |s.msgs|, 0, |s.calls|);
    AppendInSequence(s.calls, s.ends, call);
    FinishEndsLast(s.calls + [call], s.ends, Overflowed);
  }

  lemma ResumeOrdered(s: Sys)
    requires SendOrder(s) && s.calls != [] && |s.msgs| == |s.ends| + 1 && Last(s).j == |s.ends|
    ensures SendOrder(ResumeStep(s))
  {
    var m, i := s.msgs[|s.msgs| - 1], Last(s).i;
    if i + 1 < |m.parts| {
      AppendInSequence(s.calls, s.ends, MakeCall(m, |s.msgs| - 1, i + 1, |s.calls|));
    } else {
      FinishEndsLast(s.calls, s.ends, Returned);
    }
  }

  lemma SenderStepOrdered(c: Config, s: Sys, e: Event)
    requires c.psz > 0 && CallsGenuine(s.msgs, s.calls) && CallsCurrent(s.msgs, s.calls) && SenderPhase(s)
    requires SendOrder(s)
    ensures SendOrder(SenderStep(c, s, e))
  {
    if s.phase.Idle? {
      if e.Start? {
        StartOrdered(c, s, e.id, e.bytes);
      }
    } else if e.Resume? {
      ResumeOrdered(s);
    } else if e.GiveUp? {
      FinishEndsLast(s.calls, s.ends, TimedOut);
    }
  }

  lemma TransmitWidths(s: Sys)
    requires CallsGenuine(s.msgs, s.calls) && CallsCurrent(s.msgs, s.calls) && Widths(s)
    requires s.phase.Ready? && s.calls != []
    ensures Widths(TransmitStep(s))
  {
    assert s.calls[|s.calls| - 1].frame.fragment.total == |s.msgs[|s.msgs| - 1].parts|;
  }

  lemma FinishWidths(s: Sys, o: Outcome)
    requires OverflowWide(s.msgs, s.ends) && s.calls != [] && |s.msgs| == |s.ends| + 1
    requires o == Overflowed ==> |s.msgs[|s.ends|].parts| > 255
    ensures OverflowWide(s.msgs, Finish(s, o).ends)
  {
  }

  lemma StartWidths(c: Config, s: Sys, id: nat, bytes: seq<byte>)
    requires c.psz > 0 && |s.ends| == |s.msgs| && Widths(s)
    ensures Widths(StartStep(c, s, id, bytes))
  {
    var m := NewMessage(c, id, bytes);
    var t := s.(msgs := s.msgs + [m], calls := s.calls + [MakeCall(m, |s.msgs|, 0, |s.calls|)],
                phase := Ready(0), flag := false);
    assert OverflowWide(t.msgs, t.ends);
    if |m.parts| > 255 {
      FinishWidths(t, Overflowed);
    }
  }

  lemma SenderStepWidths(c: Config, s: Sys, e: Event)
    requires c.psz > 0 && CallsGenuine(s.msgs, s.calls) && CallsCurrent(s.msgs, s.calls) && SenderPhase(s)
    requires Widths(s)
    ensures Widths(SenderStep(c, s, e))
  {
    if s.phase.Idle? {
      if e.Start? {
        StartWidths(c, s, e.id, e.bytes);
      }
    } else if e.Transmit? {
      if s.phase.Ready? {
        TransmitWidths(s);
      }
    } else {
      FinishWidths(s, TimedOut);
      FinishWidths(s, Returned);
    }
  }

  /** The receiving thread leaves the sending thread's state alone, acknowledgements apart. */
  lemma ReceiverOrdered(c: Config, s: Sys, e: Event)
    requires c.psz > 0 && (e.Receive? || e.FileIt?) && SendOrder(s) && Widths(s)
    ensures SendOrder(Step(c, s, e)) && Widths(Step(c, s, e))
  {
  }

  lemma SentLastStays(s: Sys, t: Sys, j: nat)
    requires SentLast(s, j) && s.msgs <= t.msgs && s.calls <= t.calls && s.wire <= t.wire
    ensures SentLast(t, j)
  {
    var n: nat :| LastOnWire(s, n) && s.calls[n].j == j;
    assert LastOnWire(t, n);
  }

  lemma SentLastGrows(s: Sys, t: Sys)
    requires DeliveredSent(s) && s.msgs <= t.msgs && s.calls <= t.calls && s.wire <= t.wire && s.handoff == t.handoff
    ensures DeliveredSent(t)
  {
    forall k: nat | k < |t.handoff|
      ensures SentLast(t, t.handoff[k].mid)
    {
      SentLastStays(s, t, s.handoff[k].mid);
    }
  }

  lemma SenderGrows(c: Config, s: Sys, e: Event)
    requires c.psz > 0
    ensures var t := SenderStep(c, s, e);
            && s.msgs <= t.msgs && s.calls <= t.calls && s.ends <= t.ends && s.wire <= t.wire
            && s.handoff == t.handoff && s.busy == t.busy
  {
  }

  lemma FileDelivers(s: Sys, n: nat)
    requires DeliveredSent(s) && Filing(s, n) && s.calls[n].frame in s.wire
    ensures DeliveredSent(FileStep(s, s.calls[n].frame))
  {
    var t := FileStep(s, s.calls[n].frame);
    StoreOne(s, n);
    forall k: nat | k < |t.handoff|
      ensures SentLast(t, t.handoff[k].mid)
    {
      if k < |s.handoff| {
        SentLastStays(s, t, s.handoff[k].mid);
      } else {
        assert LastOnWire(t, n);
      }
    }
  }

  lemma StepDelivers(c: Config, s: Sys, e: Event)
    requires c.psz > 0 && SenderInv(s) && ReceiverInv(s) && DeliveredSent(s)
    ensures DeliveredSent(Step(c, s, e))
  {
    if e.FileIt? {
      if s.busy.Some? {
        var n := BusyCall(s);
        FilledGenuine(s, n);
        FileDelivers(s, n);
      }
    } else {
      if !e.Receive? {
        SenderGrows(c, s, e);
      }
      SentLastGrows(s, Step(c, s, e));
    }
  }

  lemma {:induction false} RunOrdered(c: Config, es: seq<Event>)
    requires c.psz > 0 && |Run(c, es).calls| < WRAP
    ensures SendOrder(Run(c, es)) && Widths(Run(c, es))
  {
    if es != [] {
      var before, e := Run(c, es[..|es| - 1]), es[|es| - 1];
      CallsGrow(c, before, e);
      RunKeeps(c, es[..|es| - 1]);
      RunOrdered(c, es[..|es| - 1]);
      if e.Receive? || e.FileIt? {
        ReceiverOrdered(c, before, e);
      } else {
        SenderStepOrdered(c, before, e);
        SenderStepWidths(c, before, e);
      }
    }
  }

  lemma {:induction false} RunDelivers(c: Config, es: seq<Event>)
    requires c.psz > 0 && |Run(c, es).calls| < WRAP
    ensures DeliveredSent(Run(c, es))
  {
    if es != [] {
      var before, e := Run(c, es[..|es| - 1]), es[|es| - 1];
      CallsGrow(c, before, e);
      RunKeeps(c, es[..|es| - 1]);
      RunDelivers(c, es[..|es| - 1]);
      StepDelivers(c, before, e);
    }
  }

  // ------------------------------------------------------------------ who can come late

  /** Message j is handed on for the first time after a later message. */
  ghost predicate DeliveredLate(h: seq<Delivery>, j: nat) {
    Delivered(h, j) && exists k: nat :: k < |h| && h[k].mid > j && !Delivered(h[..k], j)
  }

  /** send_msg gave up on message j's last fragment, after that had been transmitted. */
  ghost predicate GaveUpOnLast(s: Sys, j: nat) {
    j < |s.ends| && s.ends[j].outcome == TimedOut && LastOnWire(s, s.ends[j].at)
  }

  lemma {:induction false} CallsRise(calls: seq<Call>, a: nat, b: nat)
    requires InSequence(calls) && a <= b < |calls|
    ensures calls[a].j < calls[b].j || (calls[a].j == calls[b].j && calls[a].i + (b - a) == calls[b].i)
    decreases b
  {
    if a < b {
      CallsRise(calls, a, b - 1);
      assert Follows(calls[b - 1], calls[b]);
    }
  }

  /** A message that ended makes no call after its last, and the call of its last fragment is that one. */
  lemma LastCall(s: Sys, n: nat, j: nat)
    requires SendOrder(s) && CallsGenuine(s.msgs, s.calls) && j < |s.ends| && n < |s.calls| && s.calls[n].j == j
    ensures n <= s.ends[j].at < |s.calls| && s.calls[s.ends[j].at].j == j
    ensures s.calls[n].i + 1 == |s.msgs[j].parts| ==> n == s.ends[j].at
  {
    var at := s.ends[j].at;
    assert EndsAt(s.calls, j, at);
    if n > at {
      CallsRise(s.calls, at + 1, n);
    } else {
      CallsRise(s.calls, n, at);
    }
  }

  lemma DeliveredCall(s: Sys, j: nat) returns (n: nat)
    requires DeliveredSent(s) && Delivered(s.handoff, j)
    ensures LastOnWire(s, n) && s.calls[n].j == j
  {
    var k: nat :| k < |s.handoff| && s.handoff[k].mid == j;
    assert SentLast(s, s.handoff[k].mid);
    n :| LastOnWire(s, n) && s.calls[n].j == j;
  }

  lemma LateNotReturned(s: Sys, j: nat)
    requires InOrder(s.ends, s.handoff) && DeliveredLate(s.handoff, j)
    ensures j < |s.ends| ==> s.ends[j].outcome != Returned
  {
    var k: nat :| k < |s.handoff| && s.handoff[k].mid > j && !Delivered(s.handoff[..k], j);
  }

  lemma LateEnded(s: Sys, j: nat)
    requires DeliveredSent(s) && DeliveredLate(s.handoff, j) && |s.msgs| <= |s.ends| + 1
    ensures j < |s.ends|
  {
    var k: nat :| k < |s.handoff| && s.handoff[k].mid > j && !Delivered(s.handoff[..k], j);
    assert Delivered(s.handoff, s.handoff[k].mid);
    var n := DeliveredCall(s, s.handoff[k].mid);
  }

  lemma LateInState(s: Sys, j: nat)
    requires CallsGenuine(s.msgs, s.calls) && |s.msgs| <= |s.ends| + 1 && InOrder(s.ends, s.handoff)
    requires SendOrder(s) && Widths(s) && DeliveredSent(s) && DeliveredLate(s.handoff, j)
    ensures GaveUpOnLast(s, j)
  {
    LateNotReturned(s, j);
    LateEnded(s, j);
    var n := DeliveredCall(s, j);
    LastCall(s, n, j);
    assert s.calls[n].frame.fragment.total == |s.msgs[j].parts|;
  }

  /** Only a message whose send_msg gave up on its last fragment is ever late. */
  lemma LateGaveUp(c: Config, es: seq<Event>, j: nat)
    requires c.psz > 0 && |Run(c, es).calls| < WRAP && DeliveredLate(Run(c, es).handoff, j)
    ensures GaveUpOnLast(Run(c, es), j)
  {
    RunKeeps(c, es);
    RunOrdered(c, es);
    RunDelivers(c, es);
    LateInState(Run(c, es), j);
  }

  // ------------------------------------------------------------------ how a run goes on

  ghost predicate HoldsLast(s: Sys, j: nat) {
    s.busy.Some? && s.busy.value.fragment.mid == j && s.busy.value.fragment.num + 1 == s.busy.value.fragment.total
  }

  ghost predicate LaterDelivered(s: Sys, j: nat) {
    exists k: nat :: k < |s.handoff| && s.handoff[k].mid > j
  }

  /** A state that a run reaches later. */
  ghost predicate Grown(s: Sys, t: Sys) {
    && s.msgs <= t.msgs && s.calls <= t.calls && s.ends <= t.ends && s.handoff <= t.handoff
    && (forall f | f in t.wire && f.fragment.mid < |s.ends| :: f in s.wire)
  }

  lemma SenderGrown(c: Config, s: Sys, t: Sys, e: Event)
    requires c.psz > 0 && Grown(s, t)
    requires CallsGenuine(t.msgs, t.calls) && CallsCurrent(t.msgs, t.calls) && SenderPhase(t)
    ensures Grown(s, SenderStep(c, t, e))
  {
    SenderGrows(c, t, e);
    if e.Transmit? && !t.phase.Idle? {
      assert t.calls[|t.calls| - 1].frame.fragment.mid == |t.msgs| - 1;
    }
  }

  lemma {:induction false} RunGrown(c: Config, es: seq<Event>, more: seq<Event>)
    requires c.psz > 0 && es <= more && |Run(c, more).calls| < WRAP
    ensures Grown(Run(c, es), Run(c, more))
    decreases |more|
  {
    if es != more {
      var before, e := more[..|more| - 1], more[|more| - 1];
      CallsGrow(c, Run(c, before), e);
      RunGrown(c, es, before);
      RunKeeps(c, before);
      if !e.Receive? && !e.FileIt? {
        SenderGrown(c, Run(c, es), Run(c, before), e);
      }
    } else {
      assert es == more;
    }
  }

  /** While the receiving thread holds message j's last fragment, j is the next to be delivered. */
  ghost predicate NextIs(s: Sys, t: Sys, j: nat) {
    if |t.handoff| == |s.handoff| then t.busy == s.busy
    else |t.handoff| > |s.handoff| && t.handoff[|s.handoff|].mid == j
  }

  lemma {:induction false} RunNext(c: Config, es: seq<Event>, more: seq<Event>, j: nat)
    requires c.psz > 0 && es <= more && |Run(c, more).calls| < WRAP && HoldsLast(Run(c, es), j)
    ensures NextIs(Run(c, es), Run(c, more), j)
    decreases |more|
  {
    if es != more {
      var before, e := more[..|more| - 1], more[|more| - 1];
      CallsGrow(c, Run(c, before), e);
      RunNext(c, es, before, j);
      RunKeeps(c, before);
      StepNext(c, Run(c, es), Run(c, before), e, j);
    } else {
      assert es == more;
    }
  }

  lemma StepNext(c: Config, s: Sys, t: Sys, e: Event, j: nat)
    requires c.psz > 0 && HoldsLast(s, j) && NextIs(s, t, j) && SenderInv(t) && ReceiverInv(t)
    ensures NextIs(s, Step(c, t, e), j)
  {
    if e.FileIt? {
      if t.busy.Some? {
        var n := BusyCall(t);
        FilledGenuine(t, n);
        StoreOne(t, n);
      }
    } else if !e.Receive? {
      SenderGrows(c, t, e);
    }
  }

  // ------------------------------------------------------------------ making it late

  /** The two threads' states apart from the receiving thread's. */
  ghost predicate SameSender(s: Sys, t: Sys) {
    t.calls == s.calls && t.msgs == s.msgs && t.ends == s.ends && t.wire == s.wire && t.phase == s.phase
  }

  ghost predicate Delivers(s: Sys, t: Sys, j: nat) {
    |t.handoff| == |s.handoff| + 1 && s.handoff <= t.handoff && t.handoff[|s.handoff|].mid == j
  }

  lemma FileState(s: Sys)
    requires SenderInv(s) && ReceiverInv(s) && s.busy.Some?
    ensures var t := FileStep(s, s.busy.value);
            && SameSender(s, t) && t.busy == None && t.flag == s.flag && !t.crashed
            && if HoldsLast(s, s.busy.value.fragment.mid) then Delivers(s, t, s.busy.value.fragment.mid)
               else t.handoff == s.handoff
  {
    var n := BusyCall(s);
    FilledGenuine(s, n);
    StoreOne(s, n);
  }

  /** What the receiving thread holds is filed. */
  lemma FileHeld(c: Config, es: seq<Event>)
    requires c.psz > 0 && |Run(c, es).calls| < WRAP && Run(c, es).busy.Some?
    ensures var s, t := Run(c, es), Run(c, es + [FileIt]);
            && SameSender(s, t) && t.busy == None && t.flag == s.flag && !t.crashed
            && if HoldsLast(s, s.busy.value.fragment.mid) then Delivers(s, t, s.busy.value.fragment.mid)
               else t.handoff == s.handoff
  {
    RunKeeps(c, es);
    FileState(Run(c, es));
    RunOne(c, es, FileIt);
  }

  lemma ReceiveLast(s: Sys, n: nat)
    requires CallsGenuine(s.msgs, s.calls) && LastOnWire(s, n)
    ensures var t := ReceiveStep(s, s.calls[n].frame);
            SameSender(s, t) && t.handoff == s.handoff && t.busy == Some(s.calls[n].frame) && HoldsLast(t, s.calls[n].j)
  {
  }

  /** Between steps of the receiving thread, a frame on the wire that ends its message is delivered. */
  lemma ReceiveAndFile(c: Config, es: seq<Event>, n: nat) returns (more: seq<Event>)
    requires c.psz > 0 && |Run(c, es).calls| < WRAP && Run(c, es).busy == None && LastOnWire(Run(c, es), n)
    ensures es <= more
    ensures var s, t := Run(c, es), Run(c, more);
            SameSender(s, t) && t.busy == None && Delivers(s, t, s.calls[n].j)
  {
    var s := Run(c, es);
    RunKeeps(c, es);
    ReceiveLast(s, n);
    more := es + [Receive(s.calls[n].frame)];
    RunOne(c, es, Receive(s.calls[n].frame));
    FileHeld(c, more);
    more := more + [FileIt];
  }

  lemma StartEmpty(c: Config, s: Sys)
    requires c.psz > 0 && s.phase.Idle? && |s.calls| + 1 < WRAP && |s.msgs| <= |s.calls|
    ensures var t, n := Step(c, s, Start(3, [])), |s.calls|;
            && |t.calls| == n + 1 && s.calls <= t.calls && |t.msgs| == |s.msgs| + 1 && s.msgs <= t.msgs
            && t.calls[n].j == |s.msgs| && t.calls[n].i == 0 && |t.msgs[|s.msgs|].parts| == 1 && t.phase == Ready(0)
            && t.wire == s.wire && t.ends == s.ends && t.busy == s.busy && t.handoff == s.handoff
  {
  }

  /** A later message on the wire. */
  ghost predicate LaterSent(s: Sys, t: Sys) {
    && |t.calls| == |s.calls| + 1 && s.calls <= t.calls && s.msgs <= t.msgs && s.wire <= t.wire
    && t.ends == s.ends && t.busy == s.busy && t.handoff == s.handoff
    && LastOnWire(t, |s.calls|) && t.calls[|s.calls|].j == |s.msgs|
  }

  lemma TransmitEmpty(c: Config, s: Sys, t: Sys)
    requires c.psz > 0 && c.attempts > 0 && t.phase == Ready(0)
    requires |t.calls| == |s.calls| + 1 && s.calls <= t.calls && |t.msgs| == |s.msgs| + 1 && s.msgs <= t.msgs
    requires t.calls[|s.calls|].j == |s.msgs| && t.calls[|s.calls|].i == 0 && |t.msgs[|s.msgs|].parts| == 1
    requires t.wire == s.wire && t.ends == s.ends && t.busy == s.busy && t.handoff == s.handoff
    ensures LaterSent(s, Step(c, t, Transmit))
  {
  }

  /** send_msg(3, b'') and its one transmission. */
  lemma SendEmpty(c: Config, es: seq<Event>)
    requires c.psz > 0 && c.attempts > 0 && Run(c, es).phase.Idle?
    requires |Run(c, es).calls| + 1 < WRAP && |Run(c, es).msgs| <= |Run(c, es).calls|
    ensures LaterSent(Run(c, es), Run(c, es + [Start(3, [])] + [Transmit]))
  {
    StartEmpty(c, Run(c, es));
    RunOne(c, es, Start(3, []));
    TransmitEmpty(c, Run(c, es), Run(c, es + [Start(3, [])]));
    RunOne(c, es + [Start(3, [])], Transmit);
  }

  /** Only a sender with attempts to make puts anything on the wire. */
  lemma {:induction false} WireNeedsAttempts(c: Config, es: seq<Event>)
    requires c.psz > 0 && Run(c, es).wire != {}
    ensures c.attempts > 0
  {
    if es != [] && Run(c, es[..|es| - 1]).wire != {} {
      WireNeedsAttempts(c, es[..|es| - 1]);
    }
  }

  lemma NotDelivered(h: seq<Delivery>, g: seq<Delivery>, j: nat)
    requires !Delivered(h, j) && h <= g && |g| <= |h| + 1 && (|g| > |h| ==> g[|h|].mid != j)
    ensures !Delivered(g, j)
  {
  }

  lemma NowLate(h: seq<Delivery>, g: seq<Delivery>, j: nat, k: nat)
    requires !Delivered(h, j) && k < |h| && h[k].mid > j && h <= g && |h| < |g| && g[|h|].mid == j
    ensures DeliveredLate(g, j)
  {
    assert g[..k] == h[..k];
    assert !Delivered(h[..k], j);
    assert g[k].mid > j;
  }

  /** Message j is still to come, its last fragment on the wire, between steps of the receiving thread. */
  ghost predicate StillToCome(s: Sys, j: nat) {
    GaveUpOnLast(s, j) && s.calls[s.ends[j].at].j == j && !Delivered(s.handoff, j) && s.busy == None
  }

  lemma SettleReceiver(c: Config, es: seq<Event>, j: nat) returns (more: seq<Event>)
    requires c.psz > 0 && |Run(c, es).calls| < WRAP
    requires GaveUpOnLast(Run(c, es), j) && !Delivered(Run(c, es).handoff, j) && !HoldsLast(Run(c, es), j)
    ensures es <= more && StillToCome(Run(c, more), j)
    ensures Run(c, more).phase == Run(c, es).phase && Run(c, more).calls == Run(c, es).calls
  {
    var s := Run(c, es);
    RunKeeps(c, es);
    RunOrdered(c, es);
    assert EndsAt(s.calls, j, s.ends[j].at);
    more := es;
    if s.busy.Some? {
      FileHeld(c, es);
      more := es + [FileIt];
      NotDelivered(s.handoff, Run(c, more).handoff, j);
    }
  }

  lemma LaterFirst(c: Config, es: seq<Event>, j: nat) returns (more: seq<Event>)
    requires c.psz > 0 && |Run(c, es).calls| + 1 < WRAP && Run(c, es).phase.Idle? && StillToCome(Run(c, es), j)
    ensures es <= more && |Run(c, more).calls| < WRAP
    ensures StillToCome(Run(c, more), j) && LaterDelivered(Run(c, more), j)
  {
    var s := Run(c, es);
    RunKeeps(c, es);
    MessagesBounded(s);
    WireNeedsAttempts(c, es);
    SendEmpty(c, es);
    more := es + [Start(3, [])] + [Transmit];
    var t := Run(c, more);
    more := ReceiveAndFile(c, more, |s.calls|);
    NotDelivered(t.handoff, Run(c, more).handoff, j);
  }

  /** A message that can come late does, if the sender sends another and the network reorders. */
  lemma LateFollows(c: Config, es: seq<Event>, j: nat) returns (more: seq<Event>)
    requires c.psz > 0 && |Run(c, es).calls| + 1 < WRAP && Run(c, es).phase.Idle?
    requires GaveUpOnLast(Run(c, es), j) && !Delivered(Run(c, es).handoff, j)
    requires HoldsLast(Run(c, es), j) ==> LaterDelivered(Run(c, es), j)
    ensures es <= more && |Run(c, more).calls| < WRAP && DeliveredLate(Run(c, more).handoff, j)
  {
    var s := Run(c, es);
    if HoldsLast(s, j) {
      FileHeld(c, es);
      more := es + [FileIt];
    } else {
      more := SettleReceiver(c, es, j);
      more := LaterFirst(c, more, j);
      s := Run(c, more);
      more := ReceiveAndFile(c, more, s.ends[j].at);
    }
    var k: nat :| k < |s.handoff| && s.handoff[k].mid > j;
    NowLate(s.handoff, Run(c, more).handoff, j, k);
  }

  ghost predicate CanComeLate(c: Config, es: seq<Event>, j: nat)
    requires c.psz > 0
  {
    exists more :: es <= more && |Run(c, more).calls| < WRAP && DeliveredLate(Run(c, more).handoff, j)
  }

  /** Nothing is late that the receiving thread is about to deliver before any later message. */
  lemma HeldNotLate(s: Sys, t: Sys, j: nat)
    requires Grown(s, t) && NextIs(s, t, j) && !LaterDelivered(s, j) && !Delivered(s.handoff, j)
    ensures !DeliveredLate(t.handoff, j)
  {
    forall k: nat | k < |t.handoff| && t.handoff[k].mid > j
      ensures Delivered(t.handoff[..k], j)
    {
      assert |s.handoff| < k && t.handoff[..k][|s.handoff|].mid == j;
    }
  }

  /** What made message j late in a later state was there already. */
  lemma GaveUpBefore(s: Sys, t: Sys, j: nat)
    requires Grown(s, t) && GaveUpOnLast(t, j) && CallsGenuine(t.msgs, t.calls) && SendOrder(t)
    requires j < |s.ends| && EndsAt(s.calls, j, s.ends[j].at) && |s.ends| <= |s.msgs|
    ensures GaveUpOnLast(s, j)
  {
    assert t.calls[t.ends[j].at].frame.fragment.mid == j by {
      assert EndsAt(t.calls, j, t.ends[j].at);
    }
  }

  /**
   * Between two calls of send_msg, a message not delivered yet can still come late exactly when its own send_msg gave
   * up on its last fragment with that fragment on the wire, and the receiving thread does not hold it to deliver it
   * before anything later.
   */
  lemma LateExactly(c: Config, es: seq<Event>, j: nat)
    requires c.psz > 0 && |Run(c, es).calls| + 1 < WRAP && Run(c, es).phase.Idle?
    requires j < |Run(c, es).ends| && !Delivered(Run(c, es).handoff, j)
    ensures var s := Run(c, es);
            CanComeLate(c, es, j) <==> GaveUpOnLast(s, j) && (HoldsLast(s, j) ==> LaterDelivered(s, j))
  {
    var s := Run(c, es);
    if CanComeLate(c, es, j) {
      var more :| es <= more && |Run(c, more).calls| < WRAP && DeliveredLate(Run(c, more).handoff, j);
      var t := Run(c, more);
      RunGrown(c, es, more);
      LateGaveUp(c, more, j);
      RunKeeps(c, es);
      RunOrdered(c, es);
      RunKeeps(c, more);
      RunOrdered(c, more);
      GaveUpBefore(s, t, j);
      if HoldsLast(s, j) {
        RunNext(c, es, more, j);
        if !LaterDelivered(s, j) {
          HeldNotLate(s, t, j);
        }
      }
    }
    if GaveUpOnLast(s, j) && (HoldsLast(s, j) ==> LaterDelivered(s, j)) {
      var more := LateFollows(c, es, j);
    }
  }
}
