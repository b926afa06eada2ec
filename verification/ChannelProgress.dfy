// Progress of send_msg in the runs of the channel: its transmissions are the rounds of the sender, each frame that
// arrives and whose acknowledgement comes back in time lets it go on, and it returns exactly when all of them do.
module ChannelProgress {
  import opened Basics
  import opened Words
  import opened InnerChannel
  import opened ChannelRuns
  import opened ChannelOrder

  // ------------------------------------------------------------------ transmissions are rounds

  /** A Transmit step does something here. */
  predicate Transmits(c: Config, s: Sys) {
    s.phase.Ready? && s.calls != [] && s.msgs != [] && s.phase.tries < c.attempts
  }

  /** What one step transmits for message j. */
  function Adds(c: Config, s: Sys, e: Event, j: nat): seq<Frame> {
    if e.Transmit? && Transmits(c, s) && |s.msgs| == j + 1 then [Last(s).frame] else []
  }

  /** The frames put on the wire for message j, in order. */
  function Transmitted(c: Config, es: seq<Event>, j: nat): seq<Frame>
    requires c.psz > 0
  {
    if es == [] then []
    else
      var s := Run(c, es[..|es| - 1]);
      Transmitted(c, es[..|es| - 1], j) + Adds(c, s, es[|es| - 1], j)
  }

  /** Message j's transmissions so far: counts[x] of fragment x, the first of them under packet number pid + 1. */
  ghost predicate InRounds(c: Config, s: Sys, sent: seq<Frame>, j: nat, pid: nat, counts: seq<nat>) {
    && j < |s.msgs| && 0 < |counts| <= |s.msgs[j].parts|
    && pid < |s.calls| && s.calls[pid].j == j && s.calls[pid].i == 0
    && sent == Rounds(s.msgs[j].id, s.msgs[j].parts, j, pid, counts)
    && (forall x | 0 <= x < |counts| :: counts[x] <= c.attempts)
    && (j < |s.ends| && s.ends[j].outcome == Returned ==> |counts| == |s.msgs[j].parts|)
    && (j < |s.ends| && s.ends[j].outcome == TimedOut ==> counts[|counts| - 1] == c.attempts)
    && (j < |s.ends| && s.ends[j].outcome == Overflowed ==> counts == [0])
    && (j + 1 == |s.msgs| && !s.phase.Idle? ==>
          && s.calls != [] && |counts| == Last(s).i + 1 && pid + |counts| == |s.calls|
          && counts[|counts| - 1] == s.phase.tries)
  }

  lemma RoundGrows(f: Frame, n: nat)
    ensures Repeat(f, n + 1) == Repeat(f, n) + [f]
  {
  }

  lemma RoundsGrow(id: nat, parts: seq<seq<byte>>, mid: nat, pid: nat, counts: seq<nat>)
    requires 0 < |counts| <= |parts|
    ensures var k := |counts| - 1;
            Rounds(id, parts, mid, pid, counts[k := counts[k] + 1])
            == Rounds(id, parts, mid, pid, counts)
               + [Frame(id, Fragment(k, |parts|, NthPid(pid, k + 1), mid, parts[k]))]
  {
    var k := |counts| - 1;
    var f := Frame(id, Fragment(k, |parts|, NthPid(pid, k + 1), mid, parts[k]));
    RoundGrows(f, counts[k]);
    assert counts[k := counts[k] + 1][..k] == counts[..k];
    Reassociate(Rounds(id, parts, mid, pid, counts[..k]), Repeat(f, counts[k]), [f]);
  }

  lemma RoundsOpen(id: nat, parts: seq<seq<byte>>, mid: nat, pid: nat, counts: seq<nat>)
    requires |counts| < |parts|
    ensures Rounds(id, parts, mid, pid, counts + [0]) == Rounds(id, parts, mid, pid, counts)
  {
    RoundsExtend(id, parts, mid, pid, counts, 0);
  }

  lemma StartRounds(c: Config, s: Sys, id: nat, bytes: seq<byte>)
    requires c.psz > 0 && |s.ends| == |s.msgs|
    ensures InRounds(c, StartStep(c, s, id, bytes), [], |s.msgs|, |s.calls|, [0])
  {
    var m := NewMessage(c, id, bytes);
    RoundsOpen(m.id, m.parts, |s.msgs|, |s.calls|, []);
  }

  lemma TransmitRounds(c: Config, s: Sys, sent: seq<Frame>, j: nat, pid: nat, counts: seq<nat>)
    requires InRounds(c, s, sent, j, pid, counts) && Transmits(c, s) && |s.msgs| == j + 1 && |s.ends| == j
    requires CallsGenuine(s.msgs, s.calls) && CallsCurrent(s.msgs, s.calls) && |s.calls| < WRAP
    ensures var k := |counts| - 1;
            InRounds(c, TransmitStep(s), sent + [Last(s).frame], j, pid, counts[k := counts[k] + 1])
  {
    var k := |counts| - 1;
    RoundsGrow(s.msgs[j].id, s.msgs[j].parts, j, pid, counts);
    var call := s.calls[|s.calls| - 1];
    assert call.frame == Frame(s.msgs[j].id, Fragment(k, |s.msgs[j].parts|, |s.calls|, j, s.msgs[j].parts[k]));
  }

  lemma ResumeRounds(c: Config, s: Sys, sent: seq<Frame>, j: nat, pid: nat, counts: seq<nat>)
    requires InRounds(c, s, sent, j, pid, counts) && !s.phase.Idle? && |s.msgs| == j + 1 && |s.ends| == j
    requires Last(s).i + 1 < |s.msgs[j].parts|
    ensures InRounds(c, ResumeStep(s), sent, j, pid, counts + [0])
  {
    RoundsOpen(s.msgs[j].id, s.msgs[j].parts, j, pid, counts);
  }

  lemma EndRounds(c: Config, s: Sys, sent: seq<Frame>, j: nat, pid: nat, counts: seq<nat>, o: Outcome)
    requires InRounds(c, s, sent, j, pid, counts) && !s.phase.Idle? && |s.msgs| == j + 1 && |s.ends| == j
    requires o == Returned ==> Last(s).i + 1 == |s.msgs[j].parts|
    requires o == TimedOut ==> Exhausted(c, s)
    requires o != Overflowed
    ensures InRounds(c, Finish(s, o), sent, j, pid, counts)
  {
  }

  /** A step of the sending thread while it sends message j. */
  lemma CurrentRounds(c: Config, s: Sys, sent: seq<Frame>, j: nat, pid: nat, counts: seq<nat>, e: Event)
    returns (more: seq<nat>)
    requires c.psz > 0 && InRounds(c, s, sent, j, pid, counts) && !s.phase.Idle? && |s.msgs| == j + 1 && |s.ends| == j
    requires CallsGenuine(s.msgs, s.calls) && CallsCurrent(s.msgs, s.calls) && |s.calls| < WRAP
    ensures InRounds(c, SenderStep(c, s, e), sent + Adds(c, s, e, j), j, pid, more)
  {
    more := counts;
    if SenderStep(c, s, e) == s {
      assert sent + [] == sent;
    } else if e.Transmit? {
      TransmitRounds(c, s, sent, j, pid, counts);
      more := counts[|counts| - 1 := counts[|counts| - 1] + 1];
    } else {
      assert sent + [] == sent;
      if e.GiveUp? {
        EndRounds(c, s, sent, j, pid, counts, TimedOut);
      } else if e.Resume? {
        if Last(s).i + 1 < |s.msgs[j].parts| {
          ResumeRounds(c, s, sent, j, pid, counts);
          more := counts + [0];
        } else {
          EndRounds(c, s, sent, j, pid, counts, Returned);
        }
      }
    }
  }

  /** Any other step. */
  lemma OtherRounds(c: Config, s: Sys, sent: seq<Frame>, j: nat, pid: nat, counts: seq<nat>, e: Event)
    requires c.psz > 0 && InRounds(c, s, sent, j, pid, counts) && SenderPhase(s)
    requires s.phase.Idle? || |s.msgs| > j + 1 || e.Receive? || e.FileIt?
    ensures InRounds(c, Step(c, s, e), sent + Adds(c, s, e, j), j, pid, counts)
  {
    assert sent + [] == sent;
  }

  lemma {:induction false} NothingTransmitted(c: Config, es: seq<Event>, j: nat)
    requires c.psz > 0 && |Run(c, es).msgs| <= j
    ensures Transmitted(c, es, j) == []
  {
    if es != [] {
      MessagesGrow(c, Run(c, es[..|es| - 1]), es[|es| - 1]);
      NothingTransmitted(c, es[..|es| - 1], j);
    }
  }

  lemma MessagesGrow(c: Config, s: Sys, e: Event)
    requires c.psz > 0
    ensures |s.msgs| <= |Step(c, s, e).msgs|
    ensures |Step(c, s, e).msgs| > |s.msgs| ==>
              e.Start? && s.phase.Idle? && Step(c, s, e) == StartStep(c, s, e.id, e.bytes)
  {
  }

  /**
   * In every run, what is transmitted for a message is its rounds: part by part, each at most attempts times; exactly
   * that many for the part it times out on, and none at all for a message refused.
   */
  lemma {:induction false} TransmittedAreRounds(c: Config, es: seq<Event>, j: nat) returns (pid: nat, counts: seq<nat>)
    requires c.psz > 0 && |Run(c, es).calls| < WRAP && j < |Run(c, es).msgs|
    ensures InRounds(c, Run(c, es), Transmitted(c, es, j), j, pid, counts)
    decreases |es|
  {
    var before, e := es[..|es| - 1], es[|es| - 1];
    var s := Run(c, before);
    CallsGrow(c, s, e);
    MessagesGrow(c, s, e);
    RunKeeps(c, before);
    if j < |s.msgs| {
      pid, counts := TransmittedAreRounds(c, before, j);
      if s.phase.Idle? || |s.msgs| > j + 1 || e.Receive? || e.FileIt? {
        OtherRounds(c, s, Transmitted(c, before, j), j, pid, counts, e);
      } else {
        counts := CurrentRounds(c, s, Transmitted(c, before, j), j, pid, counts, e);
      }
    } else {
      NothingTransmitted(c, before, j);
      StartRounds(c, s, e.id, e.bytes);
      pid, counts := |s.calls|, [0];
    }
  }

  /** No message is transmitted more than attempts times for each of its packets. */
  lemma TransmissionsBounded(c: Config, es: seq<Event>, j: nat)
    requires c.psz > 0 && |Run(c, es).calls| < WRAP && j < |Run(c, es).msgs|
    ensures |Transmitted(c, es, j)| <= c.attempts * |Run(c, es).msgs[j].parts|
  {
    var pid, counts := TransmittedAreRounds(c, es, j);
    var m := Run(c, es).msgs[j];
    RoundsLength(m.id, m.parts, j, pid, counts);
    SumBound(counts, c.attempts, |m.parts|);
  }

  // ------------------------------------------------------------------ returning is being heard

  /** The sending thread has made its last transmission of this fragment and its last wait is over. */
  predicate Exhausted(c: Config, s: Sys) {
    s.phase.Ready? && s.phase.tries >= c.attempts
  }

  /** An acknowledgement of call n that arrives here is still noticed. */
  predicate Hears(c: Config, s: Sys, n: nat) {
    |s.calls| == n + 1 && !s.phase.Idle? && n + 1 in s.acks && !Exhausted(c, s)
  }

  /** Somewhere in the run an acknowledgement of call n arrived in time. */
  ghost predicate Heard(c: Config, es: seq<Event>, n: nat)
    requires c.psz > 0
  {
    exists d: nat :: d < |es| && es[d] == AckArrives(n + 1) && Hears(c, Run(c, es[..d]), n)
  }

  lemma HeardMore(c: Config, es: seq<Event>, e: Event, n: nat)
    requires c.psz > 0
    ensures Heard(c, es + [e], n) <==> Heard(c, es, n) || (e == AckArrives(n + 1) && Hears(c, Run(c, es), n))
  {
    var more := es + [e];
    assert forall d: nat | d <= |es| :: more[..d] == es[..d];
    assert es[..|es|] == es;
    if Heard(c, es, n) {
      var d: nat :| d < |es| && es[d] == AckArrives(n + 1) && Hears(c, Run(c, es[..d]), n);
      assert more[d] == es[d] && Hears(c, Run(c, more[..d]), n);
    }
    if e == AckArrives(n + 1) && Hears(c, Run(c, es), n) {
      assert more[|es|] == e && Hears(c, Run(c, more[..|es|]), n);
    }
  }

  /** What the sending thread knows is what it heard; heard(n) stands for the run so far. */
  ghost predicate KnowsWhatItHeard(c: Config, s: Sys, heard: set<nat>) {
    && (forall n | n in heard :: n < |s.calls|)
    && (!s.phase.Idle? && s.calls != [] ==>
          if |s.calls| - 1 in heard then s.flag && !Exhausted(c, s) else s.flag ==> Exhausted(c, s))
    && (forall a, b | 0 <= a < |s.calls| && b == a + 1 < |s.calls| && s.calls[b].j == s.calls[a].j :: a in heard)
    && (forall j: nat | j < |s.ends| :: s.ends[j].outcome == Returned <==> s.ends[j].at in heard)
  }

  /** The calls heard so far. */
  ghost function HeardCalls(c: Config, es: seq<Event>): (heard: set<nat>)
    requires c.psz > 0
    ensures forall n: nat :: n in heard <==> n < |Run(c, es).calls| && Heard(c, es, n)
  {
    set n: nat | n < |Run(c, es).calls| && Heard(c, es, n)
  }

  lemma StartKnows(c: Config, s: Sys, heard: set<nat>, id: nat, bytes: seq<byte>)
    requires c.psz > 0 && KnowsWhatItHeard(c, s, heard) && |s.ends| == |s.msgs| && CallsGenuine(s.msgs, s.calls)
    requires EndsLast(s.calls, s.ends)
    ensures KnowsWhatItHeard(c, StartStep(c, s, id, bytes), heard)
  {
    forall j: nat | j < |s.ends|
      ensures s.ends[j].at < |s.calls|
    {
      assert EndsAt(s.calls, j, s.ends[j].at);
    }
  }

  lemma ResumeKnows(c: Config, s: Sys, heard: set<nat>)
    requires KnowsWhatItHeard(c, s, heard) && s.phase.Waiting? && s.flag && s.calls != [] && s.msgs != []
    ensures KnowsWhatItHeard(c, ResumeStep(s), heard)
  {
  }

  lemma GiveUpKnows(c: Config, s: Sys, heard: set<nat>)
    requires KnowsWhatItHeard(c, s, heard) && Exhausted(c, s) && s.calls != []
    ensures KnowsWhatItHeard(c, Finish(s, TimedOut), heard)
  {
  }

  lemma AckKnows(c: Config, s: Sys, heard: set<nat>)
    requires KnowsWhatItHeard(c, s, heard) && !s.phase.Idle? && s.calls != []
    requires |s.ends| < |s.msgs| && forall j: nat | j < |s.ends| :: s.ends[j].at < |s.calls| - 1
    ensures var n: nat := |s.calls| - 1;
            KnowsWhatItHeard(c, s.(flag := true), if Exhausted(c, s) then heard else heard + {n})
  {
  }

  /** The receiving thread changes none of this. */
  lemma ReceiverKnows(c: Config, s: Sys, heard: set<nat>, e: Event)
    requires c.psz > 0 && KnowsWhatItHeard(c, s, heard) && (e.Receive? || e.FileIt?)
    ensures KnowsWhatItHeard(c, Step(c, s, e), heard)
  {
  }

  lemma WaitKnows(c: Config, s: Sys, heard: set<nat>, e: Event)
    requires c.psz > 0 && KnowsWhatItHeard(c, s, heard) && (e.Transmit? || e.Expire?)
    ensures KnowsWhatItHeard(c, SenderStep(c, s, e), heard)
  {
  }

  /** The call an AckArrives step makes heard, if any. */
  function NewlyHeard(c: Config, s: Sys, e: Event): set<nat> {
    if e.AckArrives? && s.calls != [] && e.pid == |s.calls| && Hears(c, s, |s.calls| - 1) then {|s.calls| - 1} else {}
  }

  lemma EndedBefore(s: Sys)
    requires EndsLast(s.calls, s.ends) && CallsCurrent(s.msgs, s.calls) && SenderPhase(s) && !s.phase.Idle?
    ensures |s.ends| < |s.msgs| && forall j: nat | j < |s.ends| :: s.ends[j].at < |s.calls| - 1
  {
    forall j: nat | j < |s.ends|
      ensures s.ends[j].at < |s.calls| - 1
    {
      assert EndsAt(s.calls, j, s.ends[j].at);
    }
  }

  lemma SenderKnows(c: Config, s: Sys, heard: set<nat>, e: Event)
    requires c.psz > 0 && KnowsWhatItHeard(c, s, heard) && CallsGenuine(s.msgs, s.calls)
    requires CallsCurrent(s.msgs, s.calls) && SenderPhase(s) && EndsLast(s.calls, s.ends)
    requires |s.calls| < WRAP && !e.Receive? && !e.FileIt?
    ensures KnowsWhatItHeard(c, SenderStep(c, s, e), heard + NewlyHeard(c, s, e))
  {
    assert heard + {} == heard;
    if s.phase.Idle? {
      if e.Start? {
        StartKnows(c, s, heard, e.id, e.bytes);
      }
    } else if e.Transmit? || e.Expire? {
      WaitKnows(c, s, heard, e);
    } else if e.Resume? && SenderStep(c, s, e) != s {
      ResumeKnows(c, s, heard);
    } else if e.GiveUp? && SenderStep(c, s, e) != s {
      GiveUpKnows(c, s, heard);
    } else if e.AckArrives? && SenderStep(c, s, e) != s {
      EndedBefore(s);
      assert s.calls[|s.calls| - 1].frame.fragment.pid == |s.calls|;
      AckKnows(c, s, heard);
    }
  }

  lemma HeardIsCall(c: Config, es: seq<Event>, n: nat)
    requires c.psz > 0 && Heard(c, es, n)
    ensures n < |Run(c, es).calls|
  {
    var d: nat :| d < |es| && es[d] == AckArrives(n + 1) && Hears(c, Run(c, es[..d]), n);
    CallsOnlyGrow(c, es, d);
  }

  lemma {:induction false} CallsOnlyGrow(c: Config, es: seq<Event>, d: nat)
    requires c.psz > 0 && d <= |es|
    ensures |Run(c, es[..d]).calls| <= |Run(c, es).calls|
    decreases |es|
  {
    if d < |es| {
      CallsGrow(c, Run(c, es[..|es| - 1]), es[|es| - 1]);
      CallsOnlyGrow(c, es[..|es| - 1], d);
      assert es[..|es| - 1][..d] == es[..d];
    } else {
      assert es[..d] == es;
    }
  }

  lemma HeardCallMore(c: Config, es: seq<Event>, e: Event, n: nat)
    requires c.psz > 0
    ensures (n < |Run(c, es + [e]).calls| && Heard(c, es + [e], n))
            <==> (n < |Run(c, es).calls| && Heard(c, es, n)) || n in NewlyHeard(c, Run(c, es), e)
  {
    RunOne(c, es, e);
    CallsGrow(c, Run(c, es), e);
    HeardMore(c, es, e, n);
    if Heard(c, es, n) {
      HeardIsCall(c, es, n);
    }
  }

  lemma HeardCallsMore(c: Config, es: seq<Event>, e: Event)
    requires c.psz > 0
    ensures HeardCalls(c, es + [e]) == HeardCalls(c, es) + NewlyHeard(c, Run(c, es), e)
  {
    forall n: nat
      ensures n in HeardCalls(c, es + [e]) <==> n in HeardCalls(c, es) || n in NewlyHeard(c, Run(c, es), e)
    {
      HeardCallMore(c, es, e, n);
    }
  }

  lemma {:induction false} RunKnows(c: Config, es: seq<Event>)
    requires c.psz > 0 && |Run(c, es).calls| < WRAP
    ensures KnowsWhatItHeard(c, Run(c, es), HeardCalls(c, es))
  {
    if es != [] {
      var before, e := es[..|es| - 1], es[|es| - 1];
      var s := Run(c, before);
      assert before + [e] == es;
      CallsGrow(c, s, e);
      RunKnows(c, before);
      HeardCallsMore(c, before, e);
      RunKeeps(c, before);
      RunOrdered(c, before);
      if e.Receive? || e.FileIt? {
        assert HeardCalls(c, before) + {} == HeardCalls(c, before);
        ReceiverKnows(c, s, HeardCalls(c, before), e);
      } else {
        SenderKnows(c, s, HeardCalls(c, before), e);
      }
    }
  }

  /** Every fragment of message j was sent, and heard of in time. */
  ghost predicate AllHeard(c: Config, es: seq<Event>, j: nat)
    requires c.psz > 0 && j < |Run(c, es).msgs|
  {
    forall x: nat | x < |Run(c, es).msgs[j].parts| :: FragmentHeard(c, es, j, x)
  }

  ghost predicate FragmentHeard(c: Config, es: seq<Event>, j: nat, x: nat)
    requires c.psz > 0
  {
    var calls := Run(c, es).calls;
    exists n: nat :: n < |calls| && calls[n].j == j && calls[n].i == x && Heard(c, es, n)
  }

  /** Down from the last call of a message that returned: every fragment before was heard too. */
  lemma {:induction false} HeardDown(c: Config, es: seq<Event>, n: nat, x: nat)
    requires c.psz > 0 && |Run(c, es).calls| < WRAP && n < |Run(c, es).calls| && Heard(c, es, n)
    requires x <= Run(c, es).calls[n].i
    ensures FragmentHeard(c, es, Run(c, es).calls[n].j, x)
    decreases n
  {
    var s := Run(c, es);
    if x < s.calls[n].i {
      RunOrdered(c, es);
      RunKnows(c, es);
      assert n > 0 && Follows(s.calls[n - 1], s.calls[n]);
      assert n - 1 in HeardCalls(c, es);
      HeardDown(c, es, n - 1, x);
    }
  }

  /** A send_msg that ended returned exactly when every fragment was sent and an acknowledgement of it came in time. */
  lemma ReturnedExactly(c: Config, es: seq<Event>, j: nat)
    requires c.psz > 0 && |Run(c, es).calls| < WRAP && j < |Run(c, es).ends| <= |Run(c, es).msgs|
    ensures Run(c, es).ends[j].outcome == Returned <==> AllHeard(c, es, j)
  {
    var s := Run(c, es);
    RunKeeps(c, es);
    RunOrdered(c, es);
    RunKnows(c, es);
    var at := s.ends[j].at;
    if s.ends[j].outcome == Returned {
      assert EndRight(s.msgs, s.calls, s.acks, j, at);
      forall x: nat | x < |s.msgs[j].parts|
        ensures FragmentHeard(c, es, j, x)
      {
        HeardDown(c, es, at, x);
      }
    }
    if AllHeard(c, es, j) {
      assert FragmentHeard(c, es, j, |s.msgs[j].parts| - 1);
      var n: nat :| n < |s.calls| && s.calls[n].j == j && s.calls[n].i == |s.msgs[j].parts| - 1 && Heard(c, es, n);
      LastCall(s, n, j);
      assert n in HeardCalls(c, es);
    }
  }

  // ------------------------------------------------------------------ what arrives in time is heard

  /**
   * An attempt that works: call n is transmitted at step a, its frame is received by a free receiving thread at step b,
   * the acknowledgement arrives at step d, and the wait that began at a has not expired.
   */
  ghost predicate Works(c: Config, es: seq<Event>, n: nat, a: nat, b: nat, d: nat)
    requires c.psz > 0
  {
    && a < b < d < |es|
    && es[a] == Transmit && Transmits(c, Run(c, es[..a])) && |Run(c, es[..a]).calls| == n + 1
    && es[b] == Receive(Last(Run(c, es[..a])).frame) && Run(c, es[..b]).busy == None
    && es[d] == AckArrives(n + 1)
    && forall x | a < x < d :: es[x] != Expire
  }

  /** Waiting for call n, whose frame is on the wire. */
  ghost predicate Awaits(s: Sys, n: nat) {
    s.phase.Waiting? && |s.calls| == n + 1 && Last(s).frame in s.wire
  }

  lemma AwaitsOn(c: Config, s: Sys, e: Event, n: nat)
    requires c.psz > 0 && Awaits(s, n) && !s.flag && e != Expire
    ensures Awaits(Step(c, s, e), n) && Step(c, s, e).calls == s.calls
  {
  }

  lemma TransmitAwaits(c: Config, s: Sys, n: nat)
    requires c.psz > 0 && Transmits(c, s) && |s.calls| == n + 1
    ensures Awaits(Step(c, s, Transmit), n) && Step(c, s, Transmit).calls == s.calls
  {
  }

  lemma ReceiveAcks(c: Config, s: Sys, n: nat)
    requires c.psz > 0 && Inv(s) && Awaits(s, n) && s.busy == None
    ensures n + 1 in Step(c, s, Receive(Last(s).frame)).acks
  {
    LastPid(s);
  }

  lemma RunPrefix(c: Config, es: seq<Event>, x: nat)
    requires c.psz > 0 && x < |es|
    ensures Run(c, es[..x + 1]) == Step(c, Run(c, es[..x]), es[x])
    ensures es[..x + 1] == es[..x] + [es[x]]
  {
    assert es[..x + 1][..x] == es[..x];
  }

  lemma HeardLater(c: Config, es: seq<Event>, x: nat, y: nat, n: nat)
    requires c.psz > 0 && x <= y <= |es| && Heard(c, es[..x], n)
    ensures Heard(c, es[..y], n)
  {
    var d: nat :| d < x && es[..x][d] == AckArrives(n + 1) && Hears(c, Run(c, es[..x][..d]), n);
    assert es[..x][..d] == es[..d] == es[..y][..d];
  }

  /** From the transmission on, the sender waits for call n until it hears of it. */
  lemma {:induction false} WaitsOrHeard(c: Config, es: seq<Event>, n: nat, a: nat, b: nat, d: nat, x: nat)
    requires c.psz > 0 && Works(c, es, n, a, b, d) && |Run(c, es).calls| < WRAP && a < x <= d
    ensures Heard(c, es[..x], n) || (Awaits(Run(c, es[..x]), n) && Run(c, es[..x]).calls == Run(c, es[..a]).calls)
    decreases x
  {
    RunPrefix(c, es, x - 1);
    if x == a + 1 {
      TransmitAwaits(c, Run(c, es[..a]), n);
    } else {
      WaitsOrHeard(c, es, n, a, b, d, x - 1);
      if Heard(c, es[..x - 1], n) {
        HeardLater(c, es, x - 1, x, n);
      } else {
        WaitsUnflagged(c, es, n, x - 1);
        AwaitsOn(c, Run(c, es[..x - 1]), es[x - 1], n);
      }
    }
  }

  lemma WaitsUnflagged(c: Config, es: seq<Event>, n: nat, x: nat)
    requires c.psz > 0 && x <= |es| && |Run(c, es).calls| < WRAP
    requires Awaits(Run(c, es[..x]), n) && !Heard(c, es[..x], n)
    ensures !Run(c, es[..x]).flag
  {
    CallsOnlyGrow(c, es, x);
    RunKnows(c, es[..x]);
    assert n !in HeardCalls(c, es[..x]);
  }

  lemma {:induction false} AcksStay(c: Config, es: seq<Event>, x: nat, y: nat, p: nat)
    requires c.psz > 0 && x <= y <= |es| && p in Run(c, es[..x]).acks
    ensures p in Run(c, es[..y]).acks
    decreases y
  {
    if x < y {
      AcksStay(c, es, x, y - 1, p);
      RunPrefix(c, es, y - 1);
    }
  }

  /** A transmission that arrives, and whose acknowledgement comes back before the wait is over, is heard. */
  lemma WorksIsHeard(c: Config, es: seq<Event>, n: nat, a: nat, b: nat, d: nat)
    requires c.psz > 0 && Works(c, es, n, a, b, d) && |Run(c, es).calls| < WRAP
    ensures Heard(c, es, n)
  {
    ArrivalAcked(c, es, n, a, b, d);
    WaitsOrHeard(c, es, n, a, b, d, d);
    assert es[..|es|] == es;
    if Heard(c, es[..d], n) {
      HeardLater(c, es, d, |es|, n);
    } else {
      assert Hears(c, Run(c, es[..d]), n);
    }
  }

  lemma AckedAt(c: Config, es: seq<Event>, n: nat, b: nat)
    requires c.psz > 0 && b < |es| && |Run(c, es).calls| < WRAP && Awaits(Run(c, es[..b]), n)
    requires es[b] == Receive(Last(Run(c, es[..b])).frame) && Run(c, es[..b]).busy == None
    ensures n + 1 in Run(c, es[..b + 1]).acks
  {
    CallsOnlyGrow(c, es, b);
    RunKeeps(c, es[..b]);
    ReceiveAcks(c, Run(c, es[..b]), n);
    RunPrefix(c, es, b);
  }

  lemma ArrivalAcked(c: Config, es: seq<Event>, n: nat, a: nat, b: nat, d: nat)
    requires c.psz > 0 && Works(c, es, n, a, b, d) && |Run(c, es).calls| < WRAP
    ensures Heard(c, es[..d], n) || n + 1 in Run(c, es[..d]).acks
  {
    WaitsOrHeard(c, es, n, a, b, d, b);
    if Heard(c, es[..b], n) {
      HeardLater(c, es, b, d, n);
    } else {
      AckedAt(c, es, n, b);
      AcksStay(c, es, b + 1, d, n + 1);
    }
  }

  ghost predicate HasWorkingAttempt(c: Config, es: seq<Event>, n: nat)
    requires c.psz > 0
  {
    exists a: nat, b: nat, d: nat :: Works(c, es, n, a, b, d)
  }

  /** If every fragment sent for a message has an attempt that works, its send_msg does not end but by returning. */
  lemma WorkingReturns(c: Config, es: seq<Event>, j: nat)
    requires c.psz > 0 && |Run(c, es).calls| < WRAP && j < |Run(c, es).ends|
    requires forall n: nat | n < |Run(c, es).calls| && Run(c, es).calls[n].j == j :: HasWorkingAttempt(c, es, n)
    ensures Run(c, es).ends[j].outcome == Returned
  {
    var s := Run(c, es);
    RunOrdered(c, es);
    RunKnows(c, es);
    var at := s.ends[j].at;
    assert EndsAt(s.calls, j, at);
    assert HasWorkingAttempt(c, es, at);
    var a: nat, b: nat, d: nat :| Works(c, es, at, a, b, d);
    WorksIsHeard(c, es, at, a, b, d);
    assert at in HeardCalls(c, es);
  }

  // ------------------------------------------------------------------ send_msg comes to an end

  /** No more steps than this are left to the sending thread before send_msg ends. */
  function StepsLeft(c: Config, s: Sys): int
    requires !s.phase.Idle? ==> s.calls != [] && s.msgs != []
  {
    if s.phase.Idle? then 0
    else
      (|s.msgs[|s.msgs| - 1].parts| - 1 - Last(s).i) * (2 * c.attempts + 1)
      + 2 * (c.attempts - s.phase.tries) + if s.phase.Ready? then 1 else 2
  }

  predicate OwnStep(e: Event) {
    e.Transmit? || e.Expire? || e.Resume? || e.GiveUp?
  }

  /** The next step of the sending thread: it is never stuck inside send_msg. */
  function NextOwn(c: Config, s: Sys): Event {
    if s.phase.Ready? then if s.phase.tries < c.attempts then Transmit else GiveUp
    else if s.flag then Resume else Expire
  }

  /** What the sending thread is in the middle of makes sense. */
  ghost predicate Sending(c: Config, s: Sys) {
    !s.phase.Idle? ==>
      && s.calls != [] && s.msgs != [] && 0 <= Last(s).i < |s.msgs[|s.msgs| - 1].parts|
      && (s.phase.Ready? ==> s.phase.tries <= c.attempts) && (s.phase.Waiting? ==> 1 <= s.phase.tries <= c.attempts)
  }

  lemma LessLeft(m: int, k: int)
    ensures (m - 1) * k == m * k - k
  {
  }

  lemma ResumeCloser(c: Config, s: Sys)
    requires Sending(c, s) && s.phase.Waiting?
    ensures Sending(c, ResumeStep(s)) && 0 <= StepsLeft(c, ResumeStep(s)) < StepsLeft(c, s)
  {
    var m, k := |s.msgs[|s.msgs| - 1].parts| - 1 - Last(s).i, 2 * c.attempts + 1;
    LessLeft(m, k);
    LeftNatural(m, k);
    if m > 0 {
      LeftNatural(m - 1, k);
    }
  }

  lemma LeftNatural(m: nat, k: nat)
    ensures m * k >= 0
  {
  }

  /** The sending thread always has a step, and each of its steps brings the end of send_msg closer. */
  lemma OwnStepCloser(c: Config, s: Sys)
    requires c.psz > 0 && Sending(c, s) && !s.phase.Idle?
    ensures OwnStep(NextOwn(c, s))
    ensures var t := Step(c, s, NextOwn(c, s));
            Sending(c, t) && t != s && t.msgs == s.msgs && 0 <= StepsLeft(c, t) < StepsLeft(c, s)
  {
    LeftNatural(|s.msgs[|s.msgs| - 1].parts| - 1 - Last(s).i, 2 * c.attempts + 1);
    if s.phase.Waiting? && s.flag {
      ResumeCloser(c, s);
    }
  }

  /** It has no other, and steps of others leave it as far from the end as it was. */
  lemma OtherStepsKeep(c: Config, s: Sys, e: Event)
    requires c.psz > 0 && Sending(c, s) && (s.phase.Idle? ==> !e.Start?) && (s.phase.Idle? || e != NextOwn(c, s))
    ensures var t := Step(c, s, e);
            && Sending(c, t) && t.msgs == s.msgs && StepsLeft(c, t) == StepsLeft(c, s)
            && (OwnStep(e) ==> t == s)
  {
  }

  lemma StartSending(c: Config, s: Sys, id: nat, bytes: seq<byte>)
    requires c.psz > 0
    ensures var t := StartStep(c, s, id, bytes);
            && Sending(c, t) && |t.msgs| == |s.msgs| + 1 && s.msgs <= t.msgs
            && StepsLeft(c, t) <= (2 * c.attempts + 1) * |t.msgs[|s.msgs|].parts|
  {
    var n := |NewMessage(c, id, bytes).parts|;
    LessLeft(n, 2 * c.attempts + 1);
    LeftNatural(n, 2 * c.attempts + 1);
  }

  /** How many steps the sending thread took for message j. */
  function OwnSteps(c: Config, es: seq<Event>, j: nat): nat
    requires c.psz > 0
  {
    if es == [] then 0
    else
      var s, e := Run(c, es[..|es| - 1]), es[|es| - 1];
      OwnSteps(c, es[..|es| - 1], j) + if OwnStep(e) && Step(c, s, e) != s && |s.msgs| == j + 1 then 1 else 0
  }

  ghost predicate WithinSteps(c: Config, s: Sys, j: nat, steps: nat)
    requires Sending(c, s)
  {
    if j >= |s.msgs| then steps == 0
    else steps + (if j + 1 == |s.msgs| then StepsLeft(c, s) else 0) <= (2 * c.attempts + 1) * |s.msgs[j].parts|
  }

  lemma {:induction false} RunWithinSteps(c: Config, es: seq<Event>, j: nat)
    requires c.psz > 0
    ensures Sending(c, Run(c, es)) && WithinSteps(c, Run(c, es), j, OwnSteps(c, es, j))
  {
    if es != [] {
      var before, e := es[..|es| - 1], es[|es| - 1];
      RunWithinSteps(c, before, j);
      StepWithinSteps(c, Run(c, before), e, j, OwnSteps(c, before, j));
    }
  }

  lemma StepWithinSteps(c: Config, s: Sys, e: Event, j: nat, steps: nat)
    requires c.psz > 0 && Sending(c, s) && WithinSteps(c, s, j, steps)
    ensures var t := Step(c, s, e);
            Sending(c, t)
            && WithinSteps(c, t, j, steps + if OwnStep(e) && t != s && |s.msgs| == j + 1 then 1 else 0)
  {
    if s.phase.Idle? && e.Start? {
      StartSending(c, s, e.id, e.bytes);
    } else if !s.phase.Idle? && e == NextOwn(c, s) {
      OwnStepCloser(c, s);
    } else {
      OtherStepsKeep(c, s, e);
    }
  }

  lemma LeftAtLeastZero(c: Config, s: Sys)
    requires Sending(c, s)
    ensures StepsLeft(c, s) >= 0
  {
    if !s.phase.Idle? {
      LeftNatural(|s.msgs[|s.msgs| - 1].parts| - 1 - Last(s).i, 2 * c.attempts + 1);
    }
  }

  /** Inside one send_msg the sending thread takes at most 2 * attempts + 1 steps for each packet. */
  lemma StepsBounded(c: Config, es: seq<Event>, j: nat)
    requires c.psz > 0 && j < |Run(c, es).msgs|
    ensures OwnSteps(c, es, j) <= (2 * c.attempts + 1) * |Run(c, es).msgs[j].parts|
  {
    RunWithinSteps(c, es, j);
    LeftAtLeastZero(c, Run(c, es));
  }
}
