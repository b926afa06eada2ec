// What the inner channel gives its user in every run, and runs that show where it stops.
module ChannelTheorems {
  import opened Basics
  import opened Words
  import opened InnerChannel
  import opened ChannelRuns
  import opened ChannelOrder

  // ------------------------------------------------------------------ what the user gave and gets

  datatype Given = Given(id: nat, bytes: seq<byte>)

  /** The calls of send_msg, in order: the sending thread makes one only between two others. */
  ghost function GivenIn(c: Config, es: seq<Event>): seq<Given>
    requires c.psz > 0
  {
    if es == [] then []
    else
      var before, e := es[..|es| - 1], es[|es| - 1];
      GivenIn(c, before) + if e.Start? && Run(c, before).phase.Idle? then [Given(e.id, e.bytes)] else []
  }

  /** The message is cut from what was given. */
  ghost predicate CutFrom(c: Config, m: Message, g: Given)
    requires c.psz > 0
  {
    m.id == g.id && m.bytes == g.bytes && m.parts == Chunks(g.bytes, c.psz, NumPackets(|g.bytes|, c.psz))
  }

  ghost predicate AllCut(c: Config, msgs: seq<Message>, given: seq<Given>)
    requires c.psz > 0
  {
    |msgs| == |given| && forall j: nat | j < |msgs| :: CutFrom(c, msgs[j], given[j])
  }

  lemma StepGives(c: Config, s: Sys, e: Event)
    requires c.psz > 0
    ensures Step(c, s, e).msgs
            == s.msgs + if e.Start? && s.phase.Idle? then [NewMessage(c, e.id, e.bytes)] else []
  {
  }

  /** In every run message j is the j-th one given to send_msg, cut into packets of psz bytes. */
  lemma {:induction false} MessagesGiven(c: Config, es: seq<Event>)
    requires c.psz > 0
    ensures AllCut(c, Run(c, es).msgs, GivenIn(c, es))
  {
    if es != [] {
      var before, e := es[..|es| - 1], es[|es| - 1];
      MessagesGiven(c, before);
      StepGives(c, Run(c, before), e);
    }
  }

  /** A message over 255 packets is refused, no other is. */
  ghost predicate RefusesWide(s: Sys) {
    && |s.ends| == (if s.phase.Idle? then |s.msgs| else |s.msgs| - 1)
    && (forall j: nat | j < |s.ends| :: s.ends[j].outcome == Overflowed <==> |s.msgs[j].parts| > 255)
    && (!s.phase.Idle? ==> |s.msgs[|s.msgs| - 1].parts| <= 255)
  }

  lemma StartRefuses(c: Config, s: Sys, id: nat, bytes: seq<byte>)
    requires c.psz > 0 && RefusesWide(s) && s.phase.Idle?
    ensures RefusesWide(StartStep(c, s, id, bytes))
  {
  }

  lemma StepRefuses(c: Config, s: Sys, e: Event)
    requires c.psz > 0 && RefusesWide(s)
    ensures RefusesWide(Step(c, s, e))
  {
    if e.Start? && s.phase.Idle? {
      StartRefuses(c, s, e.id, e.bytes);
    }
  }

  /** In every run send_msg raises OverflowError exactly for the messages of more than 255 * psz bytes. */
  lemma {:induction false} OverflowsExactly(c: Config, es: seq<Event>)
    requires c.psz > 0
    ensures RefusesWide(Run(c, es))
    ensures |Run(c, es).ends| <= |GivenIn(c, es)|
    ensures forall j: nat | j < |Run(c, es).ends| ::
              Run(c, es).ends[j].outcome == Overflowed <==> |GivenIn(c, es)[j].bytes| > 255 * c.psz
  {
    if es != [] {
      OverflowsExactly(c, es[..|es| - 1]);
      StepRefuses(c, Run(c, es[..|es| - 1]), es[|es| - 1]);
    }
    MessagesGiven(c, es);
    forall j: nat | j < |Run(c, es).ends|
      ensures Run(c, es).ends[j].outcome == Overflowed <==> |GivenIn(c, es)[j].bytes| > 255 * c.psz
    {
      assert CutFrom(c, Run(c, es).msgs[j], GivenIn(c, es)[j]);
      FitsInOneByte(|GivenIn(c, es)[j].bytes|, c.psz);
    }
  }

  /**
   * The first delivery of a message number is the message given to send_msg, byte for byte; any later one
   * is some of its fragments in order, the last one among them. put_packet never raises.
   */
  lemma FirstDeliveryExact(c: Config, es: seq<Event>, k: nat)
    requires c.psz > 0 && |Run(c, es).calls| < WRAP && k < |Run(c, es).handoff|
    ensures var given := GivenIn(c, es);
            var d := Run(c, es).handoff[k];
            && !Run(c, es).crashed
            && d.mid < |given| && d.id == given[d.mid].id
            && (First(Run(c, es).handoff, k) ==> d.message == given[d.mid].bytes)
            && PiecesOf(d.message, Chunks(given[d.mid].bytes, c.psz, NumPackets(|given[d.mid].bytes|, c.psz)))
  {
    RunKeeps(c, es);
    MessagesGiven(c, es);
    var s := Run(c, es);
    assert Genuine(s.msgs, s.handoff, k);
    assert CutFrom(c, s.msgs[s.handoff[k].mid], GivenIn(c, es)[s.handoff[k].mid]);
  }

  /**
   * When send_msg has returned, its message is delivered, unless the receiving thread stands inside
   * put_packet between the acknowledgement of that message's last fragment and its filing.
   */
  lemma ReturnedMeansDelivered(c: Config, es: seq<Event>, j: nat)
    requires c.psz > 0 && |Run(c, es).calls| < WRAP
    requires j < |Run(c, es).ends| && Run(c, es).ends[j].outcome == Returned
    ensures var s := Run(c, es);
            || Delivered(s.handoff, j)
            || (s.busy.Some? && s.busy.value.fragment.mid == j
                && s.busy.value.fragment.num + 1 == s.busy.value.fragment.total)
  {
    RunKeeps(c, es);
    var s := Run(c, es);
    assert Held(s, s.calls[s.ends[j].at]);
  }

  /** The put_packet call that was under way delivers it. */
  lemma ReturnedThenFiled(c: Config, es: seq<Event>, j: nat)
    requires c.psz > 0 && |Run(c, es).calls| < WRAP
    requires j < |Run(c, es).ends| && Run(c, es).ends[j].outcome == Returned
    ensures Delivered(Run(c, es + [FileIt]).handoff, j)
  {
    RunOne(c, es, FileIt);
    FiledUnmoved(c, Run(c, es));
    ReturnedMeansDelivered(c, es + [FileIt], j);
  }

  lemma FiledUnmoved(c: Config, s: Sys)
    requires c.psz > 0
    ensures var t := Step(c, s, FileIt);
            t.calls == s.calls && t.ends == s.ends && t.busy == None
  {
  }

  /** A message whose send_msg returned is delivered before any delivery of a later message. */
  lemma DeliveredInSendOrder(c: Config, es: seq<Event>, k: nat, j: nat)
    requires c.psz > 0 && |Run(c, es).calls| < WRAP && k < |Run(c, es).handoff|
    requires j < Run(c, es).handoff[k].mid && j < |Run(c, es).ends| && Run(c, es).ends[j].outcome == Returned
    ensures Delivered(Run(c, es).handoff[..k], j)
  {
    RunKeeps(c, es);
  }

  /** When no send_msg gave up on a last fragment, first deliveries come in exactly the order of sending. */
  lemma FirstDeliveriesInOrder(c: Config, es: seq<Event>)
    requires c.psz > 0 && |Run(c, es).calls| < WRAP
    requires forall j :: !GaveUpOnLast(Run(c, es), j)
    ensures var h := Run(c, es).handoff;
            forall a: nat, b: nat | a < b < |h| && First(h, a) && First(h, b) :: h[a].mid < h[b].mid
  {
    var h := Run(c, es).handoff;
    forall a: nat, b: nat | a < b < |h| && First(h, a) && First(h, b)
      ensures h[a].mid < h[b].mid
    {
      if h[a].mid > h[b].mid {
        FirstAfter(h, a, b);
        LateGaveUp(c, es, h[b].mid);
      }
    }
  }

  lemma FirstAfter(h: seq<Delivery>, a: nat, b: nat)
    requires a < b < |h| && First(h, b) && h[a].mid > h[b].mid
    ensures DeliveredLate(h, h[b].mid)
  {
    assert !Delivered(h[..a], h[b].mid);
  }

  // ------------------------------------------------------------------ how often a message is delivered

  /** How often message j is handed on. */
  function Deliveries(h: seq<Delivery>, j: nat): nat {
    if h == [] then 0 else Deliveries(h[..|h| - 1], j) + if h[|h| - 1].mid == j then 1 else 0
  }

  /** A frame that carries message j's last fragment. */
  predicate EndsMessage(f: Frame, j: nat) {
    f.fragment.mid == j && f.fragment.num + 1 == f.fragment.total
  }

  /** This step hands a copy of message j's last fragment to the receiving thread. */
  ghost predicate TakesLast(c: Config, s: Sys, e: Event, j: nat)
    requires c.psz > 0
  {
    e.Receive? && EndsMessage(e.frame, j) && Step(c, s, e) != s
  }

  /** How many copies of message j's last fragment the receiving thread took from the network. */
  ghost function LastsTaken(c: Config, es: seq<Event>, j: nat): nat
    requires c.psz > 0
  {
    if es == [] then 0
    else
      LastsTaken(c, es[..|es| - 1], j)
      + if TakesLast(c, Run(c, es[..|es| - 1]), es[|es| - 1], j) then 1 else 0
  }

  /** The copy the receiving thread has taken and not filed yet. */
  ghost function InHand(s: Sys, j: nat): nat {
    if HoldsLast(s, j) then 1 else 0
  }

  lemma DeliveriesMore(h: seq<Delivery>, d: Delivery, j: nat)
    ensures Deliveries(h + [d], j) == Deliveries(h, j) + if d.mid == j then 1 else 0
  {
    assert (h + [d])[..|h|] == h;
  }

  lemma FileCounts(s: Sys, j: nat)
    requires SenderInv(s) && ReceiverInv(s) && s.busy.Some?
    ensures var t := FileStep(s, s.busy.value);
            Deliveries(t.handoff, j) == Deliveries(s.handoff, j) + InHand(s, j) && InHand(t, j) == 0
  {
    FileState(s);
    var t := FileStep(s, s.busy.value);
    if |t.handoff| > |s.handoff| {
      assert t.handoff == s.handoff + [t.handoff[|s.handoff|]];
      DeliveriesMore(s.handoff, t.handoff[|s.handoff|], j);
    }
  }

  /** A step adds as many deliveries and copies in hand as it takes copies. */
  ghost predicate Counts(c: Config, s: Sys, e: Event, j: nat)
    requires c.psz > 0
  {
    var t := Step(c, s, e);
    Deliveries(t.handoff, j) + InHand(t, j)
    == Deliveries(s.handoff, j) + InHand(s, j) + if TakesLast(c, s, e, j) then 1 else 0
  }

  lemma ReceiveCounts(c: Config, s: Sys, f: Frame, j: nat)
    requires c.psz > 0
    ensures Counts(c, s, Receive(f), j)
  {
  }

  lemma FileItCounts(c: Config, s: Sys, j: nat)
    requires c.psz > 0 && SenderInv(s) && ReceiverInv(s)
    ensures Counts(c, s, FileIt, j)
  {
    if s.busy.Some? {
      FileCounts(s, j);
    }
  }

  lemma SenderCounts(c: Config, s: Sys, e: Event, j: nat)
    requires c.psz > 0 && !e.Receive? && !e.FileIt?
    ensures Counts(c, s, e, j)
  {
    SenderGrows(c, s, e);
  }

  lemma StepCounts(c: Config, s: Sys, e: Event, j: nat)
    requires c.psz > 0 && SenderInv(s) && ReceiverInv(s)
    ensures Counts(c, s, e, j)
  {
    match e
    case FileIt => FileItCounts(c, s, j);
    case Receive(f) => ReceiveCounts(c, s, f, j);
    case _ => SenderCounts(c, s, e, j);
  }

  /** In every run a message is delivered once for each copy of its last fragment taken, but for one still in hand. */
  lemma {:induction false} DeliveriesCounted(c: Config, es: seq<Event>, j: nat)
    requires c.psz > 0 && |Run(c, es).calls| < WRAP
    ensures Deliveries(Run(c, es).handoff, j) + InHand(Run(c, es), j) == LastsTaken(c, es, j)
  {
    if es != [] {
      var before, e := es[..|es| - 1], es[|es| - 1];
      CallsGrow(c, Run(c, before), e);
      RunKeeps(c, before);
      DeliveriesCounted(c, before, j);
      StepCounts(c, Run(c, before), e, j);
    }
  }

  lemma {:induction false} DeliveredCounts(h: seq<Delivery>, j: nat)
    ensures Delivered(h, j) <==> Deliveries(h, j) > 0
  {
    if h != [] {
      DeliveredCounts(h[..|h| - 1], j);
      assert h == h[..|h| - 1] + [h[|h| - 1]];
      DeliveredGrows(h[..|h| - 1], h[|h| - 1], j);
    }
  }

  /**
   * Between calls of put_packet, a message is delivered exactly once exactly when one copy of its last fragment has
   * been taken from the network; and if its send_msg returned, at least one has.
   */
  lemma ExactlyOnce(c: Config, es: seq<Event>, j: nat)
    requires c.psz > 0 && |Run(c, es).calls| < WRAP && Run(c, es).busy == None
    ensures Deliveries(Run(c, es).handoff, j) == 1 <==> LastsTaken(c, es, j) == 1
    ensures j < |Run(c, es).ends| && Run(c, es).ends[j].outcome == Returned ==> LastsTaken(c, es, j) >= 1
  {
    DeliveriesCounted(c, es, j);
    DeliveredCounts(Run(c, es).handoff, j);
    if j < |Run(c, es).ends| && Run(c, es).ends[j].outcome == Returned {
      ReturnedMeansDelivered(c, es, j);
    }
  }

  // ------------------------------------------------------------------ returning before delivery

  /** The sending thread is about to transmit the last call's fragment for the first time; the receiving one is free. */
  ghost predicate Fresh(s: Sys) {
    s.phase == Ready(0) && s.calls != [] && s.msgs != [] && s.busy == None && !s.crashed
  }

  /** A first transmission is received, and its acknowledgement arrives. */
  function Answered(s: Sys, f: Frame): Sys {
    s.(wire := s.wire + {f}, acks := s.acks + {f.fragment.pid}, busy := Some(f), phase := Waiting(1), flag := true)
  }

  lemma FragmentAnswered(c: Config, es: seq<Event>) returns (more: seq<Event>)
    requires c.psz > 0 && c.attempts > 0 && Fresh(Run(c, es))
    ensures es <= more && Run(c, more) == Answered(Run(c, es), Last(Run(c, es)).frame)
  {
    var s := Run(c, es);
    var f := Last(s).frame;
    var sent := s.(wire := s.wire + {f}, phase := Waiting(1));
    assert Step(c, s, Transmit) == sent;
    RunOne(c, es, Transmit);
    var got := sent.(acks := s.acks + {f.fragment.pid}, busy := Some(f));
    assert Step(c, sent, Receive(f)) == got;
    RunOne(c, es + [Transmit], Receive(f));
    assert Step(c, got, AckArrives(f.fragment.pid)) == Answered(s, f);
    RunOne(c, es + [Transmit] + [Receive(f)], AckArrives(f.fragment.pid));
    more := es + [Transmit] + [Receive(f)] + [AckArrives(f.fragment.pid)];
  }

  /** How many fragments of the message come after the last call's. */
  ghost predicate Left(s: Sys, n: nat) {
    s.calls != [] && s.msgs != [] && Last(s).i + n + 1 == |s.msgs[|s.msgs| - 1].parts|
  }

  ghost predicate SameMessages(s: Sys, t: Sys) {
    t.msgs == s.msgs && t.ends == s.ends && t.handoff == s.handoff
  }

  /** The sending thread's event is set, and the receiving thread is free. */
  ghost predicate Woken(s: Sys) {
    s.phase == Waiting(1) && s.flag && s.busy == None && !s.crashed
  }

  lemma NotTheLast(s: Sys, n: nat)
    requires CallsGenuine(s.msgs, s.calls) && CallsCurrent(s.msgs, s.calls) && Left(s, n) && n > 0
    ensures Last(s).frame.fragment.num + 1 != Last(s).frame.fragment.total
  {
    var k := |s.calls| - 1;
    assert s.calls[k].frame.fragment.num == s.calls[k].i;
  }

  lemma LeftUnmoved(s: Sys, t: Sys, n: nat)
    requires Left(s, n) && t.calls == s.calls && t.msgs == s.msgs
    ensures Left(t, n)
  {
  }

  /** put_packet ends: the fragment is in its dock and the sender still has its event. */
  lemma FileAnswered(c: Config, es: seq<Event>, s: Sys, n: nat)
    requires c.psz > 0 && |Run(c, es).calls| < WRAP && Fresh(s) && Left(s, n) && n > 0
    requires Run(c, es) == Answered(s, Last(s).frame)
    ensures var t := Run(c, es + [FileIt]);
            SameMessages(s, t) && t.calls == s.calls && Woken(t) && Left(t, n)
  {
    RunKeeps(c, es);
    NotTheLast(s, n);
    FileHeld(c, es);
    LeftUnmoved(s, Run(c, es + [FileIt]), n);
  }

  lemma ResumeFresh(c: Config, s: Sys, n: nat)
    requires c.psz > 0 && Woken(s) && Left(s, n) && n > 0
    ensures var t := Step(c, s, Resume);
            Fresh(t) && Left(t, n - 1) && SameMessages(s, t) && |t.calls| == |s.calls| + 1
  {
  }

  lemma ResumeNext(c: Config, es: seq<Event>, n: nat)
    requires c.psz > 0 && Woken(Run(c, es)) && Left(Run(c, es), n) && n > 0
    ensures var s, t := Run(c, es), Run(c, es + [Resume]);
            Fresh(t) && Left(t, n - 1) && SameMessages(s, t) && |t.calls| == |s.calls| + 1
  {
    ResumeFresh(c, Run(c, es), n);
    RunOne(c, es, Resume);
  }

  /** The same, then put_packet ends and the next fragment is sent. */
  lemma NextFragment(c: Config, es: seq<Event>, n: nat) returns (more: seq<Event>)
    requires c.psz > 0 && c.attempts > 0 && Fresh(Run(c, es)) && Left(Run(c, es), n) && n > 0
    requires |Run(c, es).calls| < WRAP
    ensures es <= more && Fresh(Run(c, more)) && Left(Run(c, more), n - 1)
    ensures SameMessages(Run(c, es), Run(c, more)) && |Run(c, more).calls| == |Run(c, es).calls| + 1
  {
    more := FragmentAnswered(c, es);
    FileAnswered(c, more, Run(c, es), n);
    ResumeNext(c, more + [FileIt], n);
    more := more + [FileIt] + [Resume];
  }

  /** One more message, and its send_msg returned. */
  ghost predicate OneMoreReturned(s: Sys, t: Sys) {
    t.phase.Idle? && |t.ends| == |s.ends| + 1 && s.ends <= t.ends && t.ends[|s.ends|].outcome == Returned
  }

  lemma ResumeReturns(c: Config, s: Sys, f: Frame)
    requires c.psz > 0 && Left(s, 0)
    ensures var t := Step(c, Answered(s, f), Resume);
            OneMoreReturned(s, t) && t.msgs == s.msgs && t.handoff == s.handoff
  {
    var u := Answered(s, f);
    assert Step(c, u, Resume) == Finish(u, Returned);
  }

  lemma LastFragment(c: Config, es: seq<Event>) returns (more: seq<Event>)
    requires c.psz > 0 && c.attempts > 0 && Fresh(Run(c, es)) && Left(Run(c, es), 0)
    ensures es <= more && OneMoreReturned(Run(c, es), Run(c, more))
    ensures Run(c, more).msgs == Run(c, es).msgs && Run(c, more).handoff == Run(c, es).handoff
  {
    ResumeReturns(c, Run(c, es), Last(Run(c, es)).frame);
    var answered := FragmentAnswered(c, es);
    RunOne(c, answered, Resume);
    more := answered + [Resume];
  }

  lemma {:induction false} AllAnswered(c: Config, es: seq<Event>, n: nat) returns (more: seq<Event>)
    requires c.psz > 0 && c.attempts > 0 && Fresh(Run(c, es)) && Left(Run(c, es), n)
    requires |Run(c, es).calls| + n < WRAP
    ensures es <= more && OneMoreReturned(Run(c, es), Run(c, more))
    ensures Run(c, more).msgs == Run(c, es).msgs && Run(c, more).handoff == Run(c, es).handoff
    decreases n
  {
    if n > 0 {
      var next := NextFragment(c, es, n);
      more := AllAnswered(c, next, n - 1);
    } else {
      more := LastFragment(c, es);
    }
  }

  /**
   * Whenever send_msg can be called with at least one attempt, any message of at most 255 packets can be acknowledged
   * to the end, and its send_msg return, before it is handed on: the last acknowledgement leaves first.
   */
  lemma ReturnBeforeDelivery(c: Config, es: seq<Event>, id: nat, bytes: seq<byte>) returns (more: seq<Event>)
    requires c.psz > 0 && c.attempts > 0 && Run(c, es).phase.Idle?
    requires NumPackets(|bytes|, c.psz) <= 255 && |Run(c, es).calls| + 255 < WRAP
    ensures es <= more && OneMoreReturned(Run(c, es), Run(c, more))
    ensures Run(c, more).msgs == Run(c, es).msgs + [NewMessage(c, id, bytes)]
    ensures !Delivered(Run(c, more).handoff, |Run(c, es).msgs|)
  {
    var free := FreeReceiver(c, es);
    var s, started := Run(c, free), free + [Start(id, bytes)];
    RunOne(c, free, Start(id, bytes));
    StartFresh(c, s, id, bytes);
    more := AllAnswered(c, started, NumPackets(|bytes|, c.psz) - 1);
  }

  lemma FreeReceiver(c: Config, es: seq<Event>) returns (more: seq<Event>)
    requires c.psz > 0 && |Run(c, es).calls| < WRAP
    ensures es <= more && SameSender(Run(c, es), Run(c, more)) && Run(c, more).busy == None && !Run(c, more).crashed
    ensures !Delivered(Run(c, more).handoff, |Run(c, es).msgs|)
  {
    more := es;
    if Run(c, es).busy.Some? {
      FileHeld(c, es);
      more := es + [FileIt];
    }
    RunKeeps(c, more);
    NothingNewDelivered(c, more);
  }

  lemma NothingNewDelivered(c: Config, es: seq<Event>)
    requires c.psz > 0 && |Run(c, es).calls| < WRAP
    ensures !Delivered(Run(c, es).handoff, |Run(c, es).msgs|)
  {
    RunDelivers(c, es);
    var s := Run(c, es);
    if Delivered(s.handoff, |s.msgs|) {
      var n := DeliveredCall(s, |s.msgs|);
    }
  }

  lemma StartFresh(c: Config, s: Sys, id: nat, bytes: seq<byte>)
    requires c.psz > 0 && s.busy == None && !s.crashed && NumPackets(|bytes|, c.psz) <= 255
    ensures var t := StartStep(c, s, id, bytes);
            && Fresh(t) && Left(t, NumPackets(|bytes|, c.psz) - 1) && |t.calls| == |s.calls| + 1
            && t.msgs == s.msgs + [NewMessage(c, id, bytes)] && t.ends == s.ends && t.handoff == s.handoff
  {
  }

  // ------------------------------------------------------------------ a TimeoutError that breaks the order

  function TimedOutOnce(c: Config): Sys
    requires c.psz > 0
  {
    var m := NewMessage(c, 3, []);
    var call := MakeCall(m, 0, 0, 0);
    INIT.(msgs := [m], calls := [call], ends := [Ended(TimedOut, 0)], wire := {call.frame})
  }

  lemma FirstTimesOut(c: Config)
    requires c == Config(1280, 1)
    ensures Run(c, [Start(3, [])] + [Transmit] + [Expire] + [GiveUp]) == TimedOutOnce(c)
  {
    StartEmpty(c, INIT);
    RunOne(c, [], Start(3, []));
    RunOne(c, [Start(3, [])], Transmit);
    RunOne(c, [Start(3, [])] + [Transmit], Expire);
    RunOne(c, [Start(3, [])] + [Transmit] + [Expire], GiveUp);
    assert [] + [Start(3, [])] == [Start(3, [])];
  }

  /** One TimeoutError, and the late frame of message 0 follows message 1. */
  lemma TimeoutBreaksOrder() returns (c: Config, es: seq<Event>)
    ensures c.psz > 0 && |Run(c, es).calls| < WRAP
    ensures Run(c, es).ends != [] && Run(c, es).ends[0].outcome == TimedOut && DeliveredLate(Run(c, es).handoff, 0)
  {
    c := Config(1280, 1);
    es := [Start(3, [])] + [Transmit] + [Expire] + [GiveUp];
    FirstTimesOut(c);
    assert LastOnWire(Run(c, es), 0);
    var more := LateFollows(c, es, 0);
    RunGrown(c, es, more);
    es := more;
  }
}
