// The timing wheel of cpp/stuff.hpp seen from outside: for each coming drain, the FIFO of packets it will
// send. Place j of a schedule belongs to the (j + 1)-th drain from now.
module Schedule {
  import opened Bags
  import opened Basics

  type Plan<P> = seq<seq<P>>

  // ------------------------------------------------------------------ offsets

  /** Integer division as C++ does it, towards zero. */
  function TruncDiv(a: int, b: int): int
    requires b > 0
  {
    if a >= 0 then a / b else -((-a) / b)
  }

  function Offset(timestamp: int, now: int, spin: int): (num: int)
    requires spin > 0
    ensures num >= 1
  {
    var q := TruncDiv(timestamp - now, spin);
    if q > 1 then q else 1
  }

  /** Offset M is the current bucket again. */
  function Place(d: nat, m: nat): (j: nat)
    requires 0 < m && d <= m
    ensures j < m
  {
    if d == m then 0 else d
  }

  // ------------------------------------------------------------------ push and drain

  function FirstFit<P>(s: Plan<P>, n: nat, d: nat): (r: Option<nat>)
    requires 1 <= d && |s| >= 2
    ensures r.Some? ==> d <= r.value <= |s| && |s[Place(r.value, |s|)]| < n
    decreases |s| + 1 - d
  {
    if d > |s| then None
    else if |s[Place(d, |s|)]| < n then Some(d)
    else FirstFit(s, n, d + 1)
  }

  /** The offset push settles on, or None when it returns false. */
  function Accept<P>(s: Plan<P>, n: nat, num: int): Option<nat>
    requires num >= 1 && |s| >= 2
  {
    if num > |s| - 1 then None else FirstFit(s, n, num)
  }

  function Pushed<P>(s: Plan<P>, n: nat, num: int, p: P): Plan<P>
    requires num >= 1 && |s| >= 2
  {
    match Accept(s, n, num)
    case None => s
    case Some(d) => var j := Place(d, |s|); s[j := s[j] + [p]]
  }

  function Drained<P>(s: Plan<P>): Plan<P>
    requires |s| >= 2
  {
    s[1..] + [[]]
  }

  /** First fit: everything before the chosen offset is full, and everything is full when there is none. */
  lemma {:induction false} FirstFitExact<P>(s: Plan<P>, n: nat, d: nat)
    requires 1 <= d && |s| >= 2
    ensures var r := FirstFit(s, n, d);
            var end := if r.Some? then r.value else |s| + 1;
            forall x: nat | d <= x < end :: |s[Place(x, |s|)]| >= n
    decreases |s| + 1 - d
  {
    if d <= |s| && |s[Place(d, |s|)]| >= n {
      FirstFitExact(s, n, d + 1);
    }
  }

  /** push refuses exactly when the time is past the horizon or every bucket it may try is full. */
  lemma AcceptExact<P>(s: Plan<P>, n: nat, num: int)
    requires num >= 1 && |s| >= 2
    ensures Accept(s, n, num) == None <==>
            num > |s| - 1 || forall x: nat | num <= x <= |s| :: |s[Place(x, |s|)]| >= n
    ensures Accept(s, n, num).Some? ==> forall x: nat | num <= x < Accept(s, n, num).value :: |s[Place(x, |s|)]| >= n
  {
    if num <= |s| - 1 {
      FirstFitExact(s, n, num);
      var r := FirstFit(s, n, num);
      if r.Some? {
        assert |s[Place(r.value, |s|)]| < n;
      }
    }
  }

  /** Right after a drain the farthest bucket is empty, so a push inside the horizon is accepted. */
  lemma AcceptAfterDrain<P>(s: Plan<P>, n: nat, num: int)
    requires 1 <= num <= |s| - 1 && |s| >= 2 && n >= 1
    ensures Accept(Drained(s), n, num).Some?
  {
    var t := Drained(s);
    AcceptExact(t, n, num);
    assert |t[Place(|t| - 1, |t|)]| == 0;
  }

  // ------------------------------------------------------------------ runs

  /** timestamp and now are the arguments push computes its offset from. */
  datatype Op<P> = Push(p: P, timestamp: int, now: int) | Drain

  /** An accepted push: after `at` drains, to be sent by drain number due (from 0). */
  datatype Entry<P> = Entry(p: P, timestamp: int, now: int, at: nat, due: nat)

  datatype Log<P> = Log(plan: Plan<P>, ticks: nat, accepted: seq<Entry<P>>, sent: seq<seq<P>>)

  function Empty<P>(m: nat): Log<P> {
    Log(seq(m, _ => []), 0, [], [])
  }

  function Step<P>(l: Log<P>, n: nat, spin: int, op: Op<P>): Log<P>
    requires |l.plan| >= 2 && spin > 0
  {
    match op
    case Push(p, timestamp, now) =>
      var num := Offset(timestamp, now, spin);
      (match Accept(l.plan, n, num)
       case None => l
       case Some(d) =>
         l.(plan := Pushed(l.plan, n, num, p),
            accepted := l.accepted + [Entry(p, timestamp, now, l.ticks, l.ticks + Place(d, |l.plan|))]))
    case Drain =>
      l.(plan := Drained(l.plan), ticks := l.ticks + 1, sent := l.sent + [l.plan[0]])
  }

  /**
   * What one push does, whatever the schedule: past the horizon, or with no room from its own bucket to the current
   * one, nothing; else the packet joins the end of the first bucket with room, once, and no other bucket changes.
   */
  lemma PushExact<P>(l: Log<P>, n: nat, spin: int, p: P, timestamp: int, now: int, d: nat)
    requires |l.plan| >= 2 && spin > 0
    ensures var num, m, t := Offset(timestamp, now, spin), |l.plan|, Step(l, n, spin, Push(p, timestamp, now));
            (num > m - 1 || forall x: nat | num <= x <= m :: |l.plan[Place(x, m)]| >= n) ==> t == l
    ensures var num, m, t := Offset(timestamp, now, spin), |l.plan|, Step(l, n, spin, Push(p, timestamp, now));
            num <= d <= m && num <= m - 1 && |l.plan[Place(d, m)]| < n
            && (forall x: nat | num <= x < d :: |l.plan[Place(x, m)]| >= n) ==>
              && t.plan == l.plan[Place(d, m) := l.plan[Place(d, m)] + [p]]
              && t.accepted == l.accepted + [Entry(p, timestamp, now, l.ticks, l.ticks + Place(d, m))]
              && t.sent == l.sent && t.ticks == l.ticks
  {
    AcceptExact(l.plan, n, Offset(timestamp, now, spin));
  }

  /** What one drain does: the nearest bucket is sent, every other one is a drain closer, and the farthest is empty. */
  lemma DrainExact<P>(l: Log<P>, n: nat, spin: int, j: nat)
    requires |l.plan| >= 2 && spin > 0 && j < |l.plan|
    ensures var t := Step(l, n, spin, Drain);
            && |t.plan| == |l.plan| && t.plan[j] == (if j + 1 < |l.plan| then l.plan[j + 1] else [])
            && t.sent == l.sent + [l.plan[0]] && t.ticks == l.ticks + 1 && t.accepted == l.accepted
  {
  }

  function Steps<P>(l: Log<P>, n: nat, spin: int, ops: seq<Op<P>>): (r: Log<P>)
    requires |l.plan| >= 2 && spin > 0
    ensures |r.plan| == |l.plan|
  {
    if ops == [] then l else Step(Steps(l, n, spin, ops[..|ops| - 1]), n, spin, ops[|ops| - 1])
  }

  function Drains<P>(ops: seq<Op<P>>): nat {
    if ops == [] then 0 else Drains(ops[..|ops| - 1]) + if ops[|ops| - 1].Drain? then 1 else 0
  }

  lemma {:induction false} StepsTick<P>(l: Log<P>, n: nat, spin: int, ops: seq<Op<P>>)
    requires |l.plan| >= 2 && spin > 0
    ensures Steps(l, n, spin, ops).ticks == l.ticks + Drains(ops)
  {
    if ops != [] {
      StepsTick(l, n, spin, ops[..|ops| - 1]);
    }
  }

  function Run<P>(m: nat, n: nat, spin: int, ops: seq<Op<P>>): (l: Log<P>)
    requires m >= 2 && spin > 0
    ensures |l.plan| == m
  {
    Steps(Empty(m), n, spin, ops)
  }

  /** The accepted packets due at one drain, in the order they were accepted. */
  function DueAt<P>(accepted: seq<Entry<P>>, t: nat): seq<P> {
    if accepted == [] then []
    else
      var e := accepted[|accepted| - 1];
      var before := DueAt(accepted[..|accepted| - 1], t);
      if e.due == t then before + [e.p] else before
  }

  ghost predicate OnSchedule<P>(l: Log<P>, n: nat) {
    && |l.plan| >= 2 && |l.sent| == l.ticks
    && (forall t: nat | t < l.ticks :: l.sent[t] == DueAt(l.accepted, t))
    && (forall j: nat | j < |l.plan| :: l.plan[j] == DueAt(l.accepted, l.ticks + j) && |l.plan[j]| <= n)
    && (forall e | e in l.accepted :: e.at <= e.due < e.at + |l.plan| && e.at <= l.ticks)
  }

  lemma {:induction false} NoneDue<P>(accepted: seq<Entry<P>>, t: nat)
    requires forall e | e in accepted :: e.due != t
    ensures DueAt(accepted, t) == []
  {
    if accepted != [] {
      NoneDue(accepted[..|accepted| - 1], t);
    }
  }

  lemma PushOnSchedule<P>(l: Log<P>, n: nat, spin: int, op: Op<P>)
    requires OnSchedule(l, n) && spin > 0 && op.Push?
    ensures OnSchedule(Step(l, n, spin, op), n)
  {
    var t := Step(l, n, spin, op);
    if t != l {
      var d := Accept(l.plan, n, Offset(op.timestamp, op.now, spin)).value;
      EntryOnSchedule(l, t, n, Place(d, |l.plan|), t.accepted[|l.accepted|]);
    }
  }

  lemma EntryOnSchedule<P>(l: Log<P>, t: Log<P>, n: nat, j: nat, e: Entry<P>)
    requires OnSchedule(l, n) && j < |l.plan| && |l.plan[j]| < n
    requires e.at == l.ticks && e.due == l.ticks + j
    requires t == l.(plan := l.plan[j := l.plan[j] + [e.p]], accepted := l.accepted + [e])
    ensures OnSchedule(t, n)
  {
  }

  lemma DrainOnSchedule<P>(l: Log<P>, n: nat, spin: int)
    requires OnSchedule(l, n) && spin > 0
    ensures OnSchedule(Step(l, n, spin, Drain), n)
  {
    var t := Step(l, n, spin, Drain);
    assert l.plan[0] == DueAt(l.accepted, l.ticks + 0);
    NoneDue(l.accepted, l.ticks + |l.plan|);
    forall j: nat | j < |t.plan|
      ensures t.plan[j] == DueAt(t.accepted, t.ticks + j) && |t.plan[j]| <= n
    {
      if j + 1 < |l.plan| {
        assert l.plan[j + 1] == DueAt(l.accepted, l.ticks + (j + 1));
      }
    }
  }

  lemma StepOnSchedule<P>(l: Log<P>, n: nat, spin: int, op: Op<P>)
    requires OnSchedule(l, n) && spin > 0
    ensures OnSchedule(Step(l, n, spin, op), n)
  {
    if op.Push? {
      PushOnSchedule(l, n, spin, op);
    } else {
      DrainOnSchedule(l, n, spin);
    }
  }

  lemma {:induction false} StepsOnSchedule<P>(l: Log<P>, n: nat, spin: int, ops: seq<Op<P>>)
    requires OnSchedule(l, n) && spin > 0
    ensures OnSchedule(Steps(l, n, spin, ops), n)
  {
    if ops != [] {
      StepsOnSchedule(l, n, spin, ops[..|ops| - 1]);
      StepOnSchedule(Steps(l, n, spin, ops[..|ops| - 1]), n, spin, ops[|ops| - 1]);
    }
  }

  lemma EmptyOnSchedule<P>(m: nat, n: nat)
    requires m >= 2
    ensures OnSchedule(Empty<P>(m), n)
  {
    assert forall t: nat :: DueAt<P>([], t) == [];
  }

  /**
   * In every run of pushes and drains, drain t sends exactly the accepted packets due at t, in acceptance order,
   * each due within m drains of its acceptance; what waits is exactly what is due later.
   */
  lemma RunOnSchedule<P>(m: nat, n: nat, spin: int, ops: seq<Op<P>>)
    requires m >= 2 && spin > 0
    ensures OnSchedule(Run(m, n, spin, ops), n)
  {
    EmptyOnSchedule<P>(m, n);
    StepsOnSchedule(Empty<P>(m), n, spin, ops);
  }

  lemma {:induction false} DueContains<P>(accepted: seq<Entry<P>>, e: Entry<P>)
    requires e in accepted
    ensures e.p in DueAt(accepted, e.due)
  {
    if e != accepted[|accepted| - 1] {
      DueContains(accepted[..|accepted| - 1], e);
    }
  }

  /** What was accepted stays so, and once its drain has happened it was sent there. */
  lemma {:induction false} SentWhenDue<P>(l: Log<P>, n: nat, spin: int, ops: seq<Op<P>>, e: Entry<P>)
    requires OnSchedule(l, n) && spin > 0 && e in l.accepted
    ensures var r := Steps(l, n, spin, ops);
            OnSchedule(r, n) && e in r.accepted && (e.due < r.ticks ==> e.p in r.sent[e.due])
  {
    if ops != [] {
      SentWhenDue(l, n, spin, ops[..|ops| - 1], e);
      StepOnSchedule(Steps(l, n, spin, ops[..|ops| - 1]), n, spin, ops[|ops| - 1]);
    }
    DueContains(Steps(l, n, spin, ops).accepted, e);
  }

  // ------------------------------------------------------------------ nothing lost, nothing twice

  function Multisets<P>(parts: seq<seq<P>>): (ms: seq<multiset<P>>)
    ensures |ms| == |parts| && forall i | 0 <= i < |parts| :: ms[i] == multiset(parts[i])
  {
    seq(|parts|, i requires 0 <= i < |parts| => multiset(parts[i]))
  }

  function PacketsOf<P>(accepted: seq<Entry<P>>): (ps: seq<P>)
    ensures |ps| == |accepted| && forall i | 0 <= i < |ps| :: ps[i] == accepted[i].p
  {
    seq(|accepted|, i requires 0 <= i < |accepted| => accepted[i].p)
  }

  lemma AddBalanced<P>(parts: seq<seq<P>>, j: nat, p: P)
    requires j < |parts|
    ensures Total(Multisets(parts[j := parts[j] + [p]])) == Total(Multisets(parts)) + multiset{p}
  {
    var ms, x := Multisets(parts), multiset(parts[j] + [p]);
    assert Multisets(parts[j := parts[j] + [p]]) == ms[j := x];
    TotalUpdate(ms, j, x);
    assert Total(ms[j := x]) + ms[j] == (Total(ms) + multiset{p}) + ms[j];
    Cancel(Total(ms[j := x]), Total(ms) + multiset{p}, ms[j]);
  }

  // ------------------------------------------------------------------ against the pushes that were made

  /** Whether push returns true; a drain counts as false. */
  predicate Takes<P>(l: Log<P>, n: nat, spin: int, op: Op<P>)
    requires |l.plan| >= 2 && spin > 0
  {
    op.Push? && Accept(l.plan, n, Offset(op.timestamp, op.now, spin)).Some?
  }

  /** What each of these operations returned. */
  function Answers<P>(l: Log<P>, n: nat, spin: int, ops: seq<Op<P>>): (oks: seq<bool>)
    requires |l.plan| >= 2 && spin > 0
    ensures |oks| == |ops|
  {
    if ops == [] then []
    else
      var before := ops[..|ops| - 1];
      Answers(l, n, spin, before) + [Takes(Steps(l, n, spin, before), n, spin, ops[|ops| - 1])]
  }

  /** The packets of the pushes that returned true. */
  function TakenOf<P>(ops: seq<Op<P>>, oks: seq<bool>): seq<P>
    requires |oks| == |ops|
  {
    if ops == [] then []
    else
      var k := |ops| - 1;
      TakenOf(ops[..k], oks[..k]) + if oks[k] && ops[k].Push? then [ops[k].p] else []
  }

  /** All packets that were pushed. */
  function PushedOf<P>(ops: seq<Op<P>>): seq<P> {
    if ops == [] then []
    else PushedOf(ops[..|ops| - 1]) + if ops[|ops| - 1].Push? then [ops[|ops| - 1].p] else []
  }

  lemma {:induction false} TakenFromPushed<P>(ops: seq<Op<P>>, oks: seq<bool>)
    requires |oks| == |ops|
    ensures multiset(TakenOf(ops, oks)) <= multiset(PushedOf(ops))
  {
    if ops != [] {
      var k := |ops| - 1;
      TakenFromPushed(ops[..k], oks[..k]);
    }
  }

  function AllSent<P>(l: Log<P>): multiset<P> { Total(Multisets(l.sent)) }

  function AllWaiting<P>(l: Log<P>): multiset<P> { Total(Multisets(l.plan)) }

  lemma PushConserves<P>(l: Log<P>, n: nat, spin: int, op: Op<P>)
    requires |l.plan| >= 2 && spin > 0 && op.Push?
    ensures var t := Step(l, n, spin, op);
            && AllSent(t) == AllSent(l)
            && AllWaiting(t) == AllWaiting(l) + if Takes(l, n, spin, op) then multiset{op.p} else multiset{}
  {
    var num := Offset(op.timestamp, op.now, spin);
    if Takes(l, n, spin, op) {
      AddBalanced(l.plan, Place(Accept(l.plan, n, num).value, |l.plan|), op.p);
    } else {
      assert AllWaiting(l) + multiset{} == AllWaiting(l);
    }
  }

  lemma DrainConserves<P>(l: Log<P>, n: nat, spin: int)
    requires |l.plan| >= 2 && spin > 0
    ensures var t, out := Step(l, n, spin, Drain), multiset(l.plan[0]);
            AllSent(t) == AllSent(l) + out && AllWaiting(l) == out + AllWaiting(t)
  {
    var first, rest := multiset(l.plan[0]), Multisets(l.plan[1..]);
    assert Multisets(l.sent + [l.plan[0]]) == Multisets(l.sent) + [first];
    assert Multisets(l.plan) == [first] + rest;
    assert Multisets(Drained(l.plan)) == rest + [multiset{}];
    TotalLast(Multisets(l.sent), first);
    TotalFirst(first, rest);
    TotalLast(rest, multiset{});
  }

  lemma AnswersMore<P>(l: Log<P>, n: nat, spin: int, ops: seq<Op<P>>)
    requires |l.plan| >= 2 && spin > 0 && ops != []
    ensures var k, oks := |ops| - 1, Answers(l, n, spin, ops);
            && oks[..k] == Answers(l, n, spin, ops[..k])
            && oks[k] == Takes(Steps(l, n, spin, ops[..k]), n, spin, ops[k])
  {
  }

  /** Operation by operation. */
  lemma PrefixMore<P>(l: Log<P>, n: nat, spin: int, ops: seq<Op<P>>, i: nat)
    requires |l.plan| >= 2 && spin > 0 && i < |ops|
    ensures var s, ok := Steps(l, n, spin, ops[..i]), Takes(Steps(l, n, spin, ops[..i]), n, spin, ops[i]);
            && Steps(l, n, spin, ops[..i + 1]) == Step(s, n, spin, ops[i])
            && Answers(l, n, spin, ops[..i + 1]) == Answers(l, n, spin, ops[..i]) + [ok]
            && TakenOf(ops[..i + 1], Answers(l, n, spin, ops[..i + 1]))
               == TakenOf(ops[..i], Answers(l, n, spin, ops[..i])) + (if ok then [ops[i].p] else [])
            && Drains(ops[..i + 1]) == Drains(ops[..i]) + if ops[i].Drain? then 1 else 0
  {
    assert ops[..i + 1][..i] == ops[..i];
    AnswersMore(l, n, spin, ops[..i + 1]);
  }

  /** Any operations: what was sent before or waited, and what they took, is what is sent or waits after. */
  lemma {:induction false} StepsConserve<P>(l: Log<P>, n: nat, spin: int, ops: seq<Op<P>>)
    requires |l.plan| >= 2 && spin > 0
    ensures var r := Steps(l, n, spin, ops);
            AllSent(r) + AllWaiting(r)
            == (AllSent(l) + AllWaiting(l)) + multiset(TakenOf(ops, Answers(l, n, spin, ops)))
  {
    if ops != [] {
      var k := |ops| - 1;
      var s := Steps(l, n, spin, ops[..k]);
      StepsConserve(l, n, spin, ops[..k]);
      AnswersMore(l, n, spin, ops);
      StepConserves(s, n, spin, ops[k]);
    }
  }

  lemma StepConserves<P>(s: Log<P>, n: nat, spin: int, op: Op<P>)
    requires |s.plan| >= 2 && spin > 0
    ensures var t := Step(s, n, spin, op);
            AllSent(t) + AllWaiting(t)
            == (AllSent(s) + AllWaiting(s)) + if Takes(s, n, spin, op) then multiset{op.p} else multiset{}
  {
    if op.Push? {
      PushConserves(s, n, spin, op);
    } else {
      DrainConserves(s, n, spin);
    }
  }

  /**
   * In every run what was sent and what waits are together, each as often, the packets of the pushes that returned
   * true; so nothing is sent more often than it was pushed.
   */
  lemma RunConserves<P>(m: nat, n: nat, spin: int, ops: seq<Op<P>>)
    requires m >= 2 && spin > 0
    ensures var l := Run(m, n, spin, ops);
            && AllSent(l) + AllWaiting(l) == multiset(TakenOf(ops, Answers(Empty<P>(m), n, spin, ops)))
            && AllSent(l) + AllWaiting(l) <= multiset(PushedOf(ops))
  {
    StepsConserve(Empty<P>(m), n, spin, ops);
    TakenFromPushed(ops, Answers(Empty<P>(m), n, spin, ops));
    TotalNone(Multisets(Empty<P>(m).plan));
  }

  /** The entries these operations should make, each due where its push finds the first room. */
  function EntriesOf<P>(l: Log<P>, n: nat, spin: int, ops: seq<Op<P>>): seq<Entry<P>>
    requires |l.plan| >= 2 && spin > 0
  {
    if ops == [] then []
    else
      var before, op := ops[..|ops| - 1], ops[|ops| - 1];
      var s, at := Steps(l, n, spin, before), l.ticks + Drains(before);
      EntriesOf(l, n, spin, before)
      + if Takes(s, n, spin, op) then
          [Entry(op.p, op.timestamp, op.now, at,
                 at + Place(Accept(s.plan, n, Offset(op.timestamp, op.now, spin)).value, |s.plan|))]
        else []
  }

  /** In every run the accepted entries are those of the pushes that returned true, in order. */
  lemma {:induction false} AcceptedAreTaken<P>(l: Log<P>, n: nat, spin: int, ops: seq<Op<P>>)
    requires |l.plan| >= 2 && spin > 0
    ensures Steps(l, n, spin, ops).accepted == l.accepted + EntriesOf(l, n, spin, ops)
    ensures PacketsOf(EntriesOf(l, n, spin, ops)) == TakenOf(ops, Answers(l, n, spin, ops))
  {
    if ops != [] {
      var k := |ops| - 1;
      AcceptedAreTaken(l, n, spin, ops[..k]);
      StepsTick(l, n, spin, ops[..k]);
      AnswersMore(l, n, spin, ops);
    }
  }

  /** So in every run what was sent and what waits are together the accepted packets. */
  lemma RunBalanced<P>(m: nat, n: nat, spin: int, ops: seq<Op<P>>)
    requires m >= 2 && spin > 0
    ensures var l := Run(m, n, spin, ops);
            AllSent(l) + AllWaiting(l) == multiset(PacketsOf(l.accepted))
  {
    RunConserves(m, n, spin, ops);
    AcceptedAreTaken(Empty<P>(m), n, spin, ops);
    assert Run(m, n, spin, ops).accepted == EntriesOf(Empty<P>(m), n, spin, ops);
  }

  // ------------------------------------------------------------------ pacing

  /** The moment of drain i when the drains keep their beat. */
  function Beat(start: int, spin: int, i: nat): int { start + i * spin }

  /** The offset is the number of whole beats until the packet's time, or one when that is less. */
  lemma OffsetBounds(timestamp: int, now: int, spin: int)
    requires spin > 0
    ensures var num := Offset(timestamp, now, spin);
            if timestamp - now >= spin then num * spin <= timestamp - now < num * spin + spin else num == 1
  {
  }

  /**
   * Pushed between two drains, a packet whose time is at least one beat ahead and that ends up `spill` buckets
   * after its own leaves between spill - 1 and spill + 1 beats after its time.
   */
  lemma PacingBound(start: int, spin: int, at: nat, due: nat, timestamp: int, now: int, spill: nat)
    requires spin > 0 && timestamp - now >= spin
    requires Beat(start, spin, at) - spin <= now <= Beat(start, spin, at)
    requires due == at + Offset(timestamp, now, spin) + spill
    ensures timestamp + spill * spin - spin <= Beat(start, spin, due) <= timestamp + spill * spin + spin
  {
  }

  /** Entry e was pushed between two drains that keep their beat. */
  ghost predicate OnTheBeat<P>(e: Entry<P>, start: int, spin: int) {
    Beat(start, spin, e.at) - spin <= e.now <= Beat(start, spin, e.at)
  }

  /** How many buckets past its own an entry ended up; m - Offset means it wrapped onto the current one. */
  ghost predicate SpilledBy<P>(e: Entry<P>, m: nat, spin: int, spill: nat)
    requires spin > 0 && m > 0
  {
    var d := Offset(e.timestamp, e.now, spin) + spill;
    Offset(e.timestamp, e.now, spin) <= m - 1 && d <= m && e.due == e.at + Place(d, m)
  }

  /** Entry e was made by operation i, whose push found as many buckets full as the entry spilled over. */
  ghost predicate MadeBy<P>(m: nat, n: nat, spin: int, ops: seq<Op<P>>, e: Entry<P>, i: nat, spill: nat)
    requires m >= 2 && spin > 0
  {
    && i < |ops| && ops[i] == Push(e.p, e.timestamp, e.now) && SpilledBy(e, m, spin, spill)
    && var plan, num := Run(m, n, spin, ops[..i]).plan, Offset(e.timestamp, e.now, spin);
    && (forall x: nat | num <= x < num + spill :: |plan[Place(x, m)]| >= n) && |plan[Place(num + spill, m)]| < n
  }

  lemma MadeBefore<P>(m: nat, n: nat, spin: int, ops: seq<Op<P>>, e: Entry<P>, i: nat, spill: nat)
    requires m >= 2 && spin > 0 && ops != [] && MadeBy(m, n, spin, ops[..|ops| - 1], e, i, spill)
    ensures MadeBy(m, n, spin, ops, e, i, spill)
  {
    assert ops[..|ops| - 1][..i] == ops[..i];
  }

  lemma LastMade<P>(m: nat, n: nat, spin: int, ops: seq<Op<P>>, e: Entry<P>) returns (spill: nat)
    requires m >= 2 && spin > 0 && ops != []
    requires e in Run(m, n, spin, ops).accepted && e !in Run(m, n, spin, ops[..|ops| - 1]).accepted
    ensures MadeBy(m, n, spin, ops, e, |ops| - 1, spill)
  {
    var l, op := Run(m, n, spin, ops[..|ops| - 1]), ops[|ops| - 1];
    var num := Offset(op.timestamp, op.now, spin);
    spill := Accept(l.plan, n, num).value - num;
    AcceptExact(l.plan, n, num);
  }

  lemma {:induction false} RunSpills<P>(m: nat, n: nat, spin: int, ops: seq<Op<P>>, e: Entry<P>)
    returns (i: nat, spill: nat)
    requires m >= 2 && spin > 0 && e in Run(m, n, spin, ops).accepted
    ensures MadeBy(m, n, spin, ops, e, i, spill)
  {
    var before := ops[..|ops| - 1];
    if e in Run(m, n, spin, before).accepted {
      i, spill := RunSpills(m, n, spin, before, e);
      MadeBefore(m, n, spin, ops, e, i, spill);
    } else {
      i := |ops| - 1;
      spill := LastMade(m, n, spin, ops, e);
    }
  }

  /**
   * In every run, an accepted packet pushed on the beat and at least one beat ahead of its time leaves within one
   * beat of its time, plus one beat for each full bucket it spilled over; or it wrapped and leaves with the next drain.
   */
  lemma RunPaced<P>(m: nat, n: nat, spin: int, ops: seq<Op<P>>, start: int, e: Entry<P>) returns (i: nat, spill: nat)
    requires m >= 2 && spin > 0 && e in Run(m, n, spin, ops).accepted
    requires OnTheBeat(e, start, spin) && e.timestamp - e.now >= spin
    ensures MadeBy(m, n, spin, ops, e, i, spill)
    ensures e.due == e.at || -spin <= Beat(start, spin, e.due) - e.timestamp - spill * spin <= spin
  {
    i, spill := RunSpills(m, n, spin, ops, e);
    if e.due != e.at {
      PacingBound(start, spin, e.at, e.due, e.timestamp, e.now, spill);
    }
  }

  // ------------------------------------------------------------------ retrying

  lemma QuotientFalls(a: int, b: int, spin: int)
    requires spin > 0 && 0 <= b <= a - spin
    ensures b / spin < a / spin
  {
    var p, q := a / spin, b / spin;
    assert a == p * spin + a % spin && b == q * spin + b % spin;
  }

  /** One beat of clock time brings the offset one bucket closer, down to the first. */
  lemma OffsetFalls(timestamp: int, now: int, later: int, spin: int)
    requires spin > 0 && later >= now + spin
    ensures Offset(timestamp, later, spin) <= Offset(timestamp, now, spin)
    ensures Offset(timestamp, now, spin) > 1 ==> Offset(timestamp, later, spin) <= Offset(timestamp, now, spin) - 1
  {
    var a, b := timestamp - now, timestamp - later;
    if b >= 0 {
      QuotientFalls(a, b, spin);
    } else {
      assert (-b) / spin >= 0;
    }
  }
}
