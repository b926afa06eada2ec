// The inner channel of python/protocol_core.py as a step system: one sending thread, one receiving
// thread, and a network that loses, repeats and reorders whatever has ever been put on it. Losing is
// never choosing a frame, repeating is choosing it again.
module ChannelRuns {
  import opened Basics
  import opened Words
  import opened InnerChannel

  datatype Config = Config(psz: nat, attempts: nat)

  datatype Message = Message(id: nat, bytes: seq<byte>, parts: seq<seq<byte>>)

  /** One call of send: fragment i of message j, and the packet it builds. */
  datatype Call = Call(j: nat, i: nat, frame: Frame)

  /** How a call of send_msg ended, and the number of the last send it made. */
  datatype Ended = Ended(outcome: Outcome, at: nat)

  /** The sending thread: between messages, about to transmit, or inside event.wait. */
  datatype Phase = Idle | Ready(tries: nat) | Waiting(tries: nat)

  datatype Sys = Sys(
    msgs: seq<Message>, calls: seq<Call>, ends: seq<Ended>, phase: Phase, flag: bool,
    wire: set<Frame>, acks: set<nat>,
    docks: Docks, busy: Option<Frame>, crashed: bool, handoff: seq<Delivery>)

  const INIT := Sys([], [], [], Idle, false, {}, {}, map[], None, false, [])

  datatype Event =
    | Start(id: nat, bytes: seq<byte>)   // send_msg is called
    | Transmit | Expire | Resume | GiveUp
    | AckArrives(pid: nat)
    | Receive(frame: Frame)              // put_packet begins: the ack goes out
    | FileIt                             // put_packet ends: docks, hand-off

  // ------------------------------------------------------------------ steps

  function NewMessage(c: Config, id: nat, bytes: seq<byte>): (m: Message)
    requires c.psz > 0
    ensures m.id == id && m.bytes == bytes && m.parts != [] && Flatten(m.parts) == bytes
  {
    SplitJoin(bytes, c.psz);
    Message(id, bytes, Chunks(bytes, c.psz, NumPackets(|bytes|, c.psz)))
  }

  /** The n-th call of send (from 0) draws packet number n + 1. */
  function MakeCall(m: Message, j: nat, i: nat, n: nat): Call
    requires i < |m.parts|
  {
    Call(j, i, Frame(m.id, Fragment(i, |m.parts|, (n + 1) % WRAP, j % WRAP, m.parts[i])))
  }

  function Last(s: Sys): Call
    requires s.calls != []
  {
    s.calls[|s.calls| - 1]
  }

  function Finish(s: Sys, o: Outcome): Sys
    requires s.calls != []
  {
    s.(ends := s.ends + [Ended(o, |s.calls| - 1)], phase := Idle)
  }

  function StartStep(c: Config, s: Sys, id: nat, bytes: seq<byte>): Sys
    requires c.psz > 0
  {
    var m := NewMessage(c, id, bytes);
    var s' := s.(msgs := s.msgs + [m], calls := s.calls + [MakeCall(m, |s.msgs|, 0, |s.calls|)],
                 phase := Ready(0), flag := false);
    if |m.parts| > 255 then Finish(s', Overflowed) else s'
  }

  /** event.wait returned: on to the next fragment, or out of send_msg. */
  function ResumeStep(s: Sys): Sys
    requires s.calls != [] && s.msgs != []
  {
    var m := s.msgs[|s.msgs| - 1];
    if Last(s).i + 1 < |m.parts| then
      s.(calls := s.calls + [MakeCall(m, |s.msgs| - 1, Last(s).i + 1, |s.calls|)], phase := Ready(0), flag := false)
    else Finish(s, Returned)
  }

  function TransmitStep(s: Sys): Sys
    requires s.calls != [] && s.phase.Ready?
  {
    s.(wire := s.wire + {Last(s).frame}, phase := Waiting(s.phase.tries + 1))
  }

  /** put_packet up to and including the acknowledgement. */
  function ReceiveStep(s: Sys, f: Frame): Sys {
    s.(acks := s.acks + {f.fragment.pid}, busy := Some(f))
  }

  /** The rest of put_packet. */
  function FileStep(s: Sys, f: Frame): Sys {
    var r := Store(s.docks, f.id, f.fragment);
    s.(docks := r.docks, busy := None, crashed := r.raised,
       handoff := if r.delivery.Some? then s.handoff + [r.delivery.value] else s.handoff)
  }

  function SenderStep(c: Config, s: Sys, e: Event): Sys
    requires c.psz > 0
  {
    if s.phase.Idle? then
      match e
      case Start(id, bytes) => StartStep(c, s, id, bytes)
      case _ => s
    else if s.calls == [] || s.msgs == [] then s
    else
      match e
      case Transmit => if s.phase.Ready? && s.phase.tries < c.attempts then TransmitStep(s) else s
      case Expire => if s.phase.Waiting? && !s.flag then s.(phase := Ready(s.phase.tries)) else s
      case Resume => if s.phase.Waiting? && s.flag then ResumeStep(s) else s
      case GiveUp => if s.phase.Ready? && s.phase.tries >= c.attempts then Finish(s, TimedOut) else s
      case AckArrives(pid) => if pid in s.acks && pid == Last(s).frame.fragment.pid then s.(flag := true) else s
      case _ => s
  }

  /** A step that is not enabled leaves the system as it is. */
  function Step(c: Config, s: Sys, e: Event): Sys
    requires c.psz > 0
  {
    match e
    case Receive(f) => if f in s.wire && s.busy == None && !s.crashed then ReceiveStep(s, f) else s
    case FileIt => if s.busy.Some? then FileStep(s, s.busy.value) else s
    case _ => SenderStep(c, s, e)
  }

  function Run(c: Config, es: seq<Event>): Sys
    requires c.psz > 0
  {
    if es == [] then INIT else Step(c, Run(c, es[..|es| - 1]), es[|es| - 1])
  }

  // ------------------------------------------------------------------ what every run keeps

  ghost predicate Delivered(handoff: seq<Delivery>, j: nat) {
    exists k: nat :: k < |handoff| && handoff[k].mid == j
  }

  ghost predicate First(handoff: seq<Delivery>, k: nat)
    requires k < |handoff|
  {
    forall k': nat | k' < k :: handoff[k'].mid != handoff[k].mid
  }

  /** Every place of the dock is empty or holds its own part. */
  ghost predicate PartlyFilled(dock: seq<seq<byte>>, parts: seq<seq<byte>>) {
    |dock| == |parts| && forall i | 0 <= i < |dock| :: dock[i] == [] || dock[i] == parts[i]
  }

  /** Some of the parts in order, the last one among them. */
  ghost predicate PiecesOf(message: seq<byte>, parts: seq<seq<byte>>) {
    exists dock :: parts != [] && PartlyFilled(dock, parts) && dock[|parts| - 1] == parts[|parts| - 1]
                   && message == Flatten(dock)
  }

  ghost predicate MessagesCut(msgs: seq<Message>) {
    forall j | 0 <= j < |msgs| :: msgs[j].parts != [] && Flatten(msgs[j].parts) == msgs[j].bytes
  }

  /** The n-th packet carries packet number n + 1, its message's number, and its own part. */
  ghost predicate CallsGenuine(msgs: seq<Message>, calls: seq<Call>) {
    forall n: nat | n < |calls| ::
      var call := calls[n];
      && call.j < |msgs| && call.j <= n && call.i < |msgs[call.j].parts|
      && call.frame == Frame(msgs[call.j].id,
                             Fragment(call.i, |msgs[call.j].parts|, n + 1, call.j, msgs[call.j].parts[call.i]))
  }

  ghost predicate CallsCurrent(msgs: seq<Message>, calls: seq<Call>) {
    (msgs == [] <==> calls == []) && (calls != [] ==> calls[|calls| - 1].j == |msgs| - 1)
  }

  ghost predicate PartAcked(calls: seq<Call>, acks: set<nat>, j: nat, x: nat) {
    exists n: nat :: n < |calls| && calls[n].j == j && calls[n].i == x && n + 1 in acks
  }

  /** Stop and wait: when a fragment is sent, all those in front of it have been acknowledged. */
  ghost predicate StopAndWait(calls: seq<Call>, acks: set<nat>) {
    forall n: nat, x: nat | n < |calls| && x < calls[n].i :: PartAcked(calls, acks, calls[n].j, x)
  }

  ghost predicate SenderPhase(s: Sys) {
    && |s.ends| == (if s.phase.Idle? then |s.msgs| else |s.msgs| - 1)
    && (!s.phase.Idle? ==> s.calls != [])
    && (!s.phase.Idle? && s.flag ==> |s.calls| in s.acks)
  }

  /** A send_msg that returned had its last fragment acknowledged. */
  ghost predicate EndRight(msgs: seq<Message>, calls: seq<Call>, acks: set<nat>, j: nat, at: nat) {
    at < |calls| && at + 1 in acks && calls[at].j == j && j < |msgs| && calls[at].i == |msgs[j].parts| - 1
  }

  ghost predicate EndsRight(msgs: seq<Message>, calls: seq<Call>, ends: seq<Ended>, acks: set<nat>) {
    forall j: nat | j < |ends| && ends[j].outcome == Returned :: EndRight(msgs, calls, acks, j, ends[j].at)
  }

  ghost predicate WireGenuine(calls: seq<Call>, wire: set<Frame>, busy: Option<Frame>, acks: set<nat>) {
    && (forall f | f in wire :: 0 < f.fragment.pid <= |calls| && f == calls[f.fragment.pid - 1].frame)
    && (busy.Some? ==> busy.value in wire && busy.value.fragment.pid in acks)
  }

  /** An acknowledged fragment is delivered, waiting in its dock, or in the receiving thread's hands. */
  ghost predicate Held(s: Sys, call: Call) {
    || Delivered(s.handoff, call.j)
    || s.busy == Some(call.frame)
    || (call.i + 1 < call.frame.fragment.total && call.j in s.docks && call.i < |s.docks[call.j]|
        && s.docks[call.j][call.i] == call.frame.fragment.payload)
  }

  ghost predicate AcksHeld(s: Sys) {
    forall p | p in s.acks :: 0 < p <= |s.calls| && Held(s, s.calls[p - 1])
  }

  ghost predicate DocksGenuine(msgs: seq<Message>, docks: Docks) {
    forall j | j in docks :: j < |msgs| && PartlyFilled(docks[j], msgs[j].parts)
  }

  ghost predicate Genuine(msgs: seq<Message>, handoff: seq<Delivery>, k: nat)
    requires k < |handoff|
  {
    var d := handoff[k];
    && d.mid < |msgs| && d.id == msgs[d.mid].id
    && PiecesOf(d.message, msgs[d.mid].parts)
    && (First(handoff, k) ==> d.message == msgs[d.mid].bytes)
  }

  ghost predicate HandoffGenuine(msgs: seq<Message>, handoff: seq<Delivery>) {
    forall k: nat | k < |handoff| :: Genuine(msgs, handoff, k)
  }

  /** A message whose send_msg returned is delivered before any later one. */
  ghost predicate InOrder(ends: seq<Ended>, handoff: seq<Delivery>) {
    forall k: nat, j: nat | k < |handoff| && j < handoff[k].mid && j < |ends| && ends[j].outcome == Returned ::
      Delivered(handoff[..k], j)
  }

  ghost predicate SenderInv(s: Sys) {
    && MessagesCut(s.msgs) && CallsGenuine(s.msgs, s.calls) && CallsCurrent(s.msgs, s.calls)
    && StopAndWait(s.calls, s.acks) && SenderPhase(s) && EndsRight(s.msgs, s.calls, s.ends, s.acks)
  }

  ghost predicate ReceiverInv(s: Sys) {
    && WireGenuine(s.calls, s.wire, s.busy, s.acks) && AcksHeld(s) && DocksGenuine(s.msgs, s.docks)
    && HandoffGenuine(s.msgs, s.handoff) && !s.crashed
  }

  ghost predicate Inv(s: Sys) {
    SenderInv(s) && ReceiverInv(s) && InOrder(s.ends, s.handoff)
  }

  // ------------------------------------------------------------------ the sending thread's steps

  /** Messages and calls are only ever appended by the sending thread. */
  ghost predicate Extends(s: Sys, t: Sys) {
    && s.msgs <= t.msgs && s.calls <= t.calls && s.wire == t.wire && s.acks == t.acks
    && s.docks == t.docks && s.busy == t.busy && s.handoff == t.handoff && s.crashed == t.crashed
  }

  lemma HeldUnmoved(s: Sys, t: Sys)
    requires AcksHeld(s) && s.calls <= t.calls && s.acks == t.acks
    requires s.docks == t.docks && s.busy == t.busy && s.handoff == t.handoff
    ensures AcksHeld(t)
  {
  }

  lemma HandoffUnmoved(s: Sys, t: Sys)
    requires HandoffGenuine(s.msgs, s.handoff) && s.msgs <= t.msgs && s.handoff == t.handoff
    ensures HandoffGenuine(t.msgs, t.handoff)
  {
    forall k: nat | k < |t.handoff|
      ensures Genuine(t.msgs, t.handoff, k)
    {
      assert Genuine(s.msgs, s.handoff, k);
    }
  }

  lemma ReceiverUnmoved(s: Sys, t: Sys)
    requires ReceiverInv(s) && Extends(s, t)
    ensures ReceiverInv(t)
  {
    HeldUnmoved(s, t);
    HandoffUnmoved(s, t);
  }

  /** A new call for the newest message. */
  ghost predicate Appends(s: Sys, t: Sys, i: nat) {
    && t.msgs != [] && s.msgs <= t.msgs && i < |t.msgs[|t.msgs| - 1].parts|
    && t.calls == s.calls + [MakeCall(t.msgs[|t.msgs| - 1], |t.msgs| - 1, i, |s.calls|)]
  }

  lemma NewCallGenuine(s: Sys, t: Sys, i: nat)
    requires CallsGenuine(s.msgs, s.calls) && Appends(s, t, i) && |t.msgs| <= |t.calls| < WRAP
    ensures CallsGenuine(t.msgs, t.calls)
  {
  }

  lemma NewCallWaits(s: Sys, t: Sys, i: nat)
    requires StopAndWait(s.calls, s.acks) && Appends(s, t, i) && s.acks == t.acks
    requires i > 0 ==> s.calls != [] && Last(s).j == |t.msgs| - 1 && Last(s).i == i - 1 && |s.calls| in s.acks
    ensures StopAndWait(t.calls, t.acks)
  {
    forall n: nat, x: nat | n < |t.calls| && x < t.calls[n].i
      ensures PartAcked(t.calls, t.acks, t.calls[n].j, x)
    {
      if n == |s.calls| && x == i - 1 {
        assert t.calls[n - 1] == Last(s);
      } else {
        var prior := if n < |s.calls| then n else n - 1;
        assert PartAcked(s.calls, s.acks, s.calls[prior].j, x);
        var w: nat :| w < |s.calls| && s.calls[w].j == s.calls[prior].j && s.calls[w].i == x && w + 1 in s.acks;
        assert t.calls[w] == s.calls[w];
      }
    }
  }

  lemma EndsUnmoved(s: Sys, t: Sys)
    requires EndsRight(s.msgs, s.calls, s.ends, s.acks)
    requires s.msgs <= t.msgs && s.calls <= t.calls && s.ends == t.ends && s.acks <= t.acks
    ensures EndsRight(t.msgs, t.calls, t.ends, t.acks)
  {
  }

  /** There are at least as many calls as messages. */
  lemma MessagesBounded(s: Sys)
    requires CallsGenuine(s.msgs, s.calls) && CallsCurrent(s.msgs, s.calls)
    ensures |s.msgs| <= |s.calls|
  {
    if s.calls != [] {
      assert s.calls[|s.calls| - 1].j <= |s.calls| - 1;
    }
  }

  lemma NewCallKeeps(s: Sys, t: Sys, i: nat)
    requires SenderInv(s) && Appends(s, t, i) && |t.calls| < WRAP
    requires s.acks == t.acks && s.ends == t.ends && |t.msgs| <= |s.msgs| + 1
    requires i > 0 ==> s.calls != [] && Last(s).j == |t.msgs| - 1 && Last(s).i == i - 1 && |s.calls| in s.acks
    ensures CallsGenuine(t.msgs, t.calls) && CallsCurrent(t.msgs, t.calls)
    ensures StopAndWait(t.calls, t.acks) && EndsRight(t.msgs, t.calls, t.ends, t.acks)
  {
    MessagesBounded(s);
    NewCallGenuine(s, t, i);
    NewCallWaits(s, t, i);
    EndsUnmoved(s, t);
  }

  lemma FinishEnds(s: Sys, o: Outcome)
    requires EndsRight(s.msgs, s.calls, s.ends, s.acks) && CallsCurrent(s.msgs, s.calls) && s.calls != []
    requires |s.ends| == |s.msgs| - 1
    requires o == Returned ==> |s.calls| in s.acks && Last(s).i == |s.msgs[|s.msgs| - 1].parts| - 1
    ensures EndsRight(s.msgs, s.calls, Finish(s, o).ends, s.acks)
  {
  }

  lemma FinishKeeps(s: Sys, o: Outcome)
    requires SenderInv(s) && !s.phase.Idle?
    requires o == Returned ==> |s.calls| in s.acks && Last(s).i == |s.msgs[|s.msgs| - 1].parts| - 1
    ensures SenderInv(Finish(s, o))
  {
    FinishEnds(s, o);
  }

  lemma StartKeepsSender(c: Config, s: Sys, id: nat, bytes: seq<byte>)
    requires c.psz > 0 && SenderInv(s) && s.phase.Idle? && |s.calls| + 1 < WRAP
    ensures SenderInv(StartStep(c, s, id, bytes))
  {
    var m := NewMessage(c, id, bytes);
    var t := s.(msgs := s.msgs + [m], calls := s.calls + [MakeCall(m, |s.msgs|, 0, |s.calls|)],
                phase := Ready(0), flag := false);
    assert MessagesCut(t.msgs);
    NewCallKeeps(s, t, 0);
    assert SenderPhase(t);
    if |m.parts| > 255 {
      FinishKeeps(t, Overflowed);
    }
  }

  lemma ResumeKeepsSender(s: Sys)
    requires SenderInv(s) && s.phase.Waiting? && s.flag && |ResumeStep(s).calls| < WRAP
    ensures SenderInv(ResumeStep(s))
  {
    var m := s.msgs[|s.msgs| - 1];
    assert Last(s).i < |m.parts|;
    if Last(s).i + 1 < |m.parts| {
      NewCallKeeps(s, ResumeStep(s), Last(s).i + 1);
    } else {
      FinishKeeps(s, Returned);
    }
  }

  lemma WaitsUnmoved(s: Sys, t: Sys)
    requires StopAndWait(s.calls, s.acks) && s.calls == t.calls && s.acks <= t.acks
    ensures StopAndWait(t.calls, t.acks)
  {
    forall n: nat, x: nat | n < |t.calls| && x < t.calls[n].i
      ensures PartAcked(t.calls, t.acks, t.calls[n].j, x)
    {
      assert PartAcked(s.calls, s.acks, s.calls[n].j, x);
    }
  }

  /** More acknowledgements, or another phase with the same calls, keep the sender's part. */
  lemma SenderUnmoved(s: Sys, t: Sys)
    requires SenderInv(s) && s.msgs == t.msgs && s.calls == t.calls && s.ends == t.ends && s.acks <= t.acks
    requires s.phase.Idle? <==> t.phase.Idle?
    requires t.flag ==> s.flag || t.phase.Idle? || |t.calls| in t.acks
    ensures SenderInv(t)
  {
    EndsUnmoved(s, t);
    WaitsUnmoved(s, t);
  }

  lemma OrderUnmoved(s: Sys, t: Sys)
    requires InOrder(s.ends, s.handoff) && HandoffGenuine(s.msgs, s.handoff) && s.handoff == t.handoff
    requires |s.ends| <= |s.msgs| && s.ends <= t.ends && |t.ends| <= |s.ends| + 1
    requires |t.ends| > |s.ends| ==> |s.ends| + 1 >= |s.msgs|
    ensures InOrder(t.ends, t.handoff)
  {
    forall k: nat, j: nat | k < |t.handoff| && j < t.handoff[k].mid && j < |t.ends| && t.ends[j].outcome == Returned
      ensures Delivered(t.handoff[..k], j)
    {
      assert Genuine(s.msgs, s.handoff, k);
      assert j < |s.ends|;
    }
  }

  // ------------------------------------------------------------------ the network's and the receiving thread's steps

  lemma TransmitKeepsWire(s: Sys)
    requires WireGenuine(s.calls, s.wire, s.busy, s.acks) && s.phase.Ready?
    requires s.calls != [] && Last(s).frame.fragment.pid == |s.calls|
    ensures WireGenuine(TransmitStep(s).calls, TransmitStep(s).wire, TransmitStep(s).busy, TransmitStep(s).acks)
  {
  }

  lemma TransmitKeepsReceiver(s: Sys)
    requires SenderInv(s) && ReceiverInv(s) && s.phase.Ready?
    ensures ReceiverInv(TransmitStep(s))
  {
    assert s.calls[|s.calls| - 1].frame.fragment.pid == |s.calls|;
    TransmitKeepsWire(s);
    HeldUnmoved(s, TransmitStep(s));
    HandoffUnmoved(s, TransmitStep(s));
  }

  lemma ReceiveKeepsReceiver(s: Sys, f: Frame)
    requires ReceiverInv(s) && f in s.wire && s.busy == None
    ensures ReceiverInv(ReceiveStep(s, f))
  {
  }

  /** The call a frame in the receiving thread's hands came from. */
  lemma BusyCall(s: Sys) returns (n: nat)
    requires SenderInv(s) && ReceiverInv(s) && s.busy.Some?
    ensures n < |s.calls| && s.busy == Some(s.calls[n].frame) && n + 1 in s.acks
    ensures var call := s.calls[n];
            && call.j < |s.msgs| && call.i < |s.msgs[call.j].parts|
            && call.frame == Frame(s.msgs[call.j].id, Fragment(call.i, |s.msgs[call.j].parts|, n + 1, call.j,
                                                               s.msgs[call.j].parts[call.i]))
  {
    n := s.busy.value.fragment.pid - 1;
  }

  /** When a last fragment is filed for the first time, its dock already holds every other part. */
  lemma DockComplete(s: Sys, n: nat, x: nat)
    requires SenderInv(s) && ReceiverInv(s) && n < |s.calls| && s.busy == Some(s.calls[n].frame)
    requires x < s.calls[n].i && !Delivered(s.handoff, s.calls[n].j)
    ensures var j := s.calls[n].j;
            j in s.docks && x < |s.docks[j]| && s.docks[j][x] == s.msgs[j].parts[x]
  {
    assert PartAcked(s.calls, s.acks, s.calls[n].j, x);
    var w: nat :| w < |s.calls| && s.calls[w].j == s.calls[n].j && s.calls[w].i == x && w + 1 in s.acks;
    assert Held(s, s.calls[w]);
    assert s.calls[w].frame.fragment.num == x;
  }

  /** The dock as put_packet leaves it just before the last-fragment test. */
  function Filled(s: Sys, f: Fragment): seq<seq<byte>>
    requires f.num < |DockOf(s.docks, f)|
  {
    DockOf(s.docks, f)[f.num := f.payload]
  }

  /** The frame being filed belongs to call n, and its dock will hold only that message's parts. */
  ghost predicate Filing(s: Sys, n: nat) {
    && n < |s.calls| && s.busy == Some(s.calls[n].frame)
    && var frame, j := s.calls[n].frame, s.calls[n].j;
    && j < |s.msgs| && frame.id == s.msgs[j].id && frame.fragment.mid == j
    && frame.fragment.total == |s.msgs[j].parts| == |DockOf(s.docks, frame.fragment)|
    && frame.fragment.num == s.calls[n].i < |s.msgs[j].parts| && frame.fragment.payload == s.msgs[j].parts[s.calls[n].i]
    && PartlyFilled(Filled(s, frame.fragment), s.msgs[j].parts)
    && (s.calls[n].i + 1 == |s.msgs[j].parts| && !Delivered(s.handoff, j) ==>
          Filled(s, frame.fragment) == s.msgs[j].parts)
  }

  lemma FilledGenuine(s: Sys, n: nat)
    requires SenderInv(s) && ReceiverInv(s) && n < |s.calls| && s.busy == Some(s.calls[n].frame)
    ensures Filing(s, n)
  {
    var f, m := s.calls[n].frame.fragment, s.msgs[s.calls[n].j];
    var dock := DockOf(s.docks, f);
    assert PartlyFilled(dock, m.parts);
    if f.num + 1 == |m.parts| && !Delivered(s.handoff, s.calls[n].j) {
      forall x | 0 <= x < |m.parts|
        ensures Filled(s, f)[x] == m.parts[x]
      {
        if x < f.num {
          DockComplete(s, n, x);
        }
      }
    }
  }

  lemma {:induction false} DeliveredGrows(h: seq<Delivery>, d: Delivery, j: nat)
    ensures Delivered(h + [d], j) <==> Delivered(h, j) || d.mid == j
    ensures (h + [d])[..|h|] == h
  {
    if Delivered(h, j) {
      var k: nat :| k < |h| && h[k].mid == j;
      assert (h + [d])[k].mid == j;
    }
    if d.mid == j {
      assert (h + [d])[|h|].mid == j;
    }
  }

  lemma StoreOne(s: Sys, n: nat)
    requires Filing(s, n)
    ensures var frame, j := s.calls[n].frame, s.calls[n].j;
            var t := FileStep(s, frame);
            var filled := Filled(s, frame.fragment);
            && !t.crashed
            && (if s.calls[n].i + 1 == |s.msgs[j].parts|
                then t.docks == s.docks - {j} && t.handoff == s.handoff + [Delivery(Flatten(filled), s.msgs[j].id, j)]
                else t.docks == s.docks[j := filled] && t.handoff == s.handoff)
  {
  }

  /** Filing keeps every acknowledged fragment held. */
  lemma FileKeepsHeld(s: Sys, n: nat)
    requires CallsGenuine(s.msgs, s.calls) && AcksHeld(s) && Filing(s, n)
    ensures AcksHeld(FileStep(s, s.calls[n].frame))
  {
    var t := FileStep(s, s.calls[n].frame);
    StoreOne(s, n);
    forall p | p in t.acks
      ensures 0 < p <= |t.calls| && Held(t, t.calls[p - 1])
    {
      var call := s.calls[p - 1];
      assert Held(s, call);
      if |t.handoff| > |s.handoff| {
        DeliveredGrows(s.handoff, t.handoff[|s.handoff|], call.j);
      }
    }
  }

  lemma FileKeepsDocks(s: Sys, n: nat)
    requires DocksGenuine(s.msgs, s.docks) && WireGenuine(s.calls, s.wire, s.busy, s.acks) && Filing(s, n)
    ensures var t := FileStep(s, s.calls[n].frame);
            DocksGenuine(t.msgs, t.docks) && WireGenuine(t.calls, t.wire, t.busy, t.acks) && !t.crashed
  {
    StoreOne(s, n);
  }

  lemma FileKeepsHandoff(s: Sys, n: nat)
    requires HandoffGenuine(s.msgs, s.handoff) && MessagesCut(s.msgs) && Filing(s, n)
    ensures HandoffGenuine(FileStep(s, s.calls[n].frame).msgs, FileStep(s, s.calls[n].frame).handoff)
  {
    var t := FileStep(s, s.calls[n].frame);
    StoreOne(s, n);
    forall k: nat | k < |t.handoff|
      ensures Genuine(t.msgs, t.handoff, k)
    {
      if k < |s.handoff| {
        assert Genuine(s.msgs, s.handoff, k);
        FirstUnmoved(s.handoff, t.handoff, k);
      } else {
        NewDeliveryGenuine(s, n);
      }
    }
  }

  lemma FirstUnmoved(h: seq<Delivery>, g: seq<Delivery>, k: nat)
    requires h <= g && k < |h|
    ensures First(g, k) <==> First(h, k)
  {
    assert forall k': nat | k' <= k :: g[k'] == h[k'];
  }

  lemma NewDeliveryGenuine(s: Sys, n: nat)
    requires MessagesCut(s.msgs) && Filing(s, n) && s.calls[n].i + 1 == |s.msgs[s.calls[n].j].parts|
    ensures Genuine(FileStep(s, s.calls[n].frame).msgs, FileStep(s, s.calls[n].frame).handoff, |s.handoff|)
  {
    var j, t := s.calls[n].j, FileStep(s, s.calls[n].frame);
    StoreOne(s, n);
    var filled := Filled(s, s.calls[n].frame.fragment);
    assert PiecesOf(Flatten(filled), s.msgs[j].parts);
    if Delivered(s.handoff, j) {
      var k: nat :| k < |s.handoff| && s.handoff[k].mid == j;
      assert t.handoff[k].mid == j;
      assert !First(t.handoff, |s.handoff|);
    }
  }

  /** While a fragment of one message is being filed, every earlier message that returned is delivered. */
  lemma EarlierDelivered(s: Sys, n: nat, j: nat)
    requires EndsRight(s.msgs, s.calls, s.ends, s.acks) && AcksHeld(s) && CallsGenuine(s.msgs, s.calls)
    requires n < |s.calls| && s.busy == Some(s.calls[n].frame)
    requires j < s.calls[n].j && j < |s.ends| && s.ends[j].outcome == Returned
    ensures Delivered(s.handoff, j)
  {
    assert Held(s, s.calls[s.ends[j].at]);
  }

  lemma FileKeepsOrder(s: Sys, n: nat)
    requires InOrder(s.ends, s.handoff) && EndsRight(s.msgs, s.calls, s.ends, s.acks) && AcksHeld(s)
    requires CallsGenuine(s.msgs, s.calls) && Filing(s, n)
    ensures InOrder(FileStep(s, s.calls[n].frame).ends, FileStep(s, s.calls[n].frame).handoff)
  {
    var t := FileStep(s, s.calls[n].frame);
    StoreOne(s, n);
    forall j: nat | j < s.calls[n].j && j < |s.ends| && s.ends[j].outcome == Returned
      ensures Delivered(s.handoff, j)
    {
      EarlierDelivered(s, n, j);
    }
    if |t.handoff| > |s.handoff| {
      OrderExtends(s, t, s.calls[n].j);
    }
  }

  lemma OrderExtends(s: Sys, t: Sys, mid: nat)
    requires InOrder(s.ends, s.handoff) && s.ends == t.ends && |t.handoff| == |s.handoff| + 1 && s.handoff <= t.handoff
    requires t.handoff[|s.handoff|].mid == mid
    requires forall j: nat | j < mid && j < |s.ends| && s.ends[j].outcome == Returned :: Delivered(s.handoff, j)
    ensures InOrder(t.ends, t.handoff)
  {
  }

  // ------------------------------------------------------------------ every run

  lemma StartKeeps(c: Config, s: Sys, id: nat, bytes: seq<byte>)
    requires c.psz > 0 && Inv(s) && s.phase.Idle? && |s.calls| + 1 < WRAP
    ensures Inv(StartStep(c, s, id, bytes))
  {
    var t := StartStep(c, s, id, bytes);
    StartKeepsSender(c, s, id, bytes);
    ReceiverUnmoved(s, t);
    OrderUnmoved(s, t);
  }

  lemma ResumeKeeps(s: Sys)
    requires Inv(s) && s.phase.Waiting? && s.flag && |ResumeStep(s).calls| < WRAP
    ensures Inv(ResumeStep(s))
  {
    var t := ResumeStep(s);
    ResumeKeepsSender(s);
    ReceiverUnmoved(s, t);
    OrderUnmoved(s, t);
  }

  lemma GiveUpKeeps(s: Sys)
    requires Inv(s) && !s.phase.Idle?
    ensures Inv(Finish(s, TimedOut))
  {
    var t := Finish(s, TimedOut);
    FinishKeeps(s, TimedOut);
    ReceiverUnmoved(s, t);
    OrderUnmoved(s, t);
  }

  lemma TransmitKeeps(s: Sys)
    requires Inv(s) && s.phase.Ready?
    ensures Inv(TransmitStep(s))
  {
    var t := TransmitStep(s);
    SenderUnmoved(s, t);
    TransmitKeepsReceiver(s);
    OrderUnmoved(s, t);
  }

  lemma ReceiveKeeps(s: Sys, f: Frame)
    requires Inv(s) && f in s.wire && s.busy == None
    ensures Inv(ReceiveStep(s, f))
  {
    var t := ReceiveStep(s, f);
    SenderUnmoved(s, t);
    ReceiveKeepsReceiver(s, f);
    OrderUnmoved(s, t);
  }

  /** Expire and AckArrives: only the phase or the flag changes. */
  lemma WaitKeeps(s: Sys, phase: Phase, flag: bool)
    requires Inv(s) && !s.phase.Idle? && !phase.Idle?
    requires flag ==> s.flag || |s.calls| in s.acks
    ensures Inv(s.(phase := phase, flag := flag))
  {
    var t := s.(phase := phase, flag := flag);
    SenderUnmoved(s, t);
    ReceiverUnmoved(s, t);
    OrderUnmoved(s, t);
  }

  lemma FileKeeps(s: Sys)
    requires Inv(s) && s.busy.Some?
    ensures Inv(FileStep(s, s.busy.value))
  {
    var n := BusyCall(s);
    FilledGenuine(s, n);
    SenderUnmoved(s, FileStep(s, s.busy.value));
    FileKeepsHeld(s, n);
    FileKeepsDocks(s, n);
    FileKeepsHandoff(s, n);
    FileKeepsOrder(s, n);
  }

  lemma LastPid(s: Sys)
    requires Inv(s) && s.calls != []
    ensures Last(s).frame.fragment.pid == |s.calls| && s.msgs != []
  {
    assert s.calls[|s.calls| - 1].frame.fragment.pid == |s.calls|;
  }

  lemma SenderStepKeeps(c: Config, s: Sys, e: Event)
    requires c.psz > 0 && Inv(s) && |SenderStep(c, s, e).calls| < WRAP
    ensures Inv(SenderStep(c, s, e))
  {
    if SenderStep(c, s, e) == s {
    } else if s.phase.Idle? {
      StartKeeps(c, s, e.id, e.bytes);
    } else {
      LastPid(s);
      match e
      case Transmit => TransmitKeeps(s);
      case Expire => WaitKeeps(s, Ready(s.phase.tries), s.flag);
      case Resume => ResumeKeeps(s);
      case GiveUp => GiveUpKeeps(s);
      case AckArrives(pid) => WaitKeeps(s, s.phase, true);
      case _ =>
    }
  }

  /** Every step of either thread and of the network keeps the invariant. */
  lemma StepKeeps(c: Config, s: Sys, e: Event)
    requires c.psz > 0 && Inv(s) && |Step(c, s, e).calls| < WRAP
    ensures Inv(Step(c, s, e))
  {
    match e
    case Receive(f) =>
      if Step(c, s, e) != s {
        ReceiveKeeps(s, f);
      }
    case FileIt =>
      if s.busy.Some? {
        FileKeeps(s);
      }
    case _ => SenderStepKeeps(c, s, e);
  }

  lemma CallsGrow(c: Config, s: Sys, e: Event)
    requires c.psz > 0
    ensures |s.calls| <= |Step(c, s, e).calls|
  {
  }

  lemma RunOne(c: Config, es: seq<Event>, e: Event)
    requires c.psz > 0
    ensures Run(c, es + [e]) == Step(c, Run(c, es), e)
  {
    assert (es + [e])[..|es|] == es;
  }

  lemma {:induction false} RunKeeps(c: Config, es: seq<Event>)
    requires c.psz > 0 && |Run(c, es).calls| < WRAP
    ensures Inv(Run(c, es))
  {
    if es != [] {
      var before := Run(c, es[..|es| - 1]);
      CallsGrow(c, before, es[|es| - 1]);
      RunKeeps(c, es[..|es| - 1]);
      StepKeeps(c, before, es[|es| - 1]);
    }
  }
}
