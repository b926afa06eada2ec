// Karusel_Buffer of cpp/stuff.hpp with push and one turn of the send loop as whole operations, proved against
// the schedule of coming drains. M bucket counters and M rows of N packets lie inside the object itself.
module Carousel {
  import opened Bags
  import opened Basics
  import opened Packets
  import opened Schedule

  /** Each bucket counts as many packets as the plan has for it, capped at N. */
  ghost predicate Planned(plan: Plan<NetworkPacket>, counts: seq<nat>, k: nat, n: nat) {
    k < |plan| == |counts| && forall j: nat | j < |plan| :: |plan[j]| == Min(counts[Spot(k, j, |plan|)], n)
  }

  /** A bucket is full exactly when its counter has reached N; the schedule of offset num says the same. */
  lemma FullAt(plan: Plan<NetworkPacket>, counts: seq<nat>, k: nat, n: nat, num: nat)
    requires Planned(plan, counts, k, n) && 2 <= |plan| && 1 <= num <= |plan|
    ensures |plan[Place(num, |plan|)]| == Min(counts[Spot(k, num, |plan|)], n)
    ensures FirstFit(plan, n, num) == if counts[Spot(k, num, |plan|)] < n then Some(num)
                                      else if num < |plan| then FirstFit(plan, n, num + 1) else None
  {
    assert Spot(k, Place(num, |plan|), |plan|) == Spot(k, num, |plan|);
  }

  /** The counters after the loop has tried offsets up to num and read last from that one. */
  ghost predicate Tried(plan: Plan<NetworkPacket>, was: seq<nat>, now: seq<nat>, k: nat, n: nat, num: nat, last: nat) {
    && Planned(plan, was, k, n) && |was| == |now| && 2 <= |plan| && 1 <= num <= |was|
    && now[Spot(k, num, |was|)] == last + 1 && last == was[Spot(k, num, |was|)]
    && (forall i: nat | i < |was| && i != Spot(k, num, |was|) :: Min(now[i], n) == Min(was[i], n))
    && (forall x: nat | num < x <= |was| :: now[Spot(k, x, |was|)] == was[Spot(k, x, |was|)])
  }

  lemma TriedFirst(plan: Plan<NetworkPacket>, was: seq<nat>, k: nat, n: nat, num: nat)
    requires Planned(plan, was, k, n) && 2 <= |plan| && 1 <= num <= |was|
    ensures var i := Spot(k, num, |was|);
            Tried(plan, was, was[i := was[i] + 1], k, n, num, was[i])
  {
    assert forall x: nat | num < x <= |was| :: Spot(k, x, |was|) != Spot(k, num, |was|);
  }

  lemma TriedNext(plan: Plan<NetworkPacket>, was: seq<nat>, now: seq<nat>, k: nat, n: nat, num: nat, last: nat)
    requires Tried(plan, was, now, k, n, num, last) && num < |was| && last >= n
    ensures var i := Spot(k, num + 1, |was|);
            Tried(plan, was, now[i := now[i] + 1], k, n, num + 1, now[i])
    ensures FirstFit(plan, n, num) == FirstFit(plan, n, num + 1)
  {
    FullAt(plan, was, k, n, num);
    assert forall x: nat | num + 1 < x <= |was| :: Spot(k, x, |was|) != Spot(k, num + 1, |was|);
  }

  /** The counters when the loop ends: only the last one tried can have gained a packet. */
  ghost predicate Claimed(plan: Plan<NetworkPacket>, now: seq<nat>, k: nat, n: nat, num: nat, last: nat) {
    && k < |plan| == |now| && 1 <= num <= |plan| && |plan[Place(num, |plan|)]| == Min(last, n)
    && now[Spot(k, num, |plan|)] == last + 1
    && forall j: nat | j < |plan| && j != Place(num, |plan|) :: |plan[j]| == Min(now[Spot(k, j, |plan|)], n)
  }

  lemma TriedLast(plan: Plan<NetworkPacket>, was: seq<nat>, now: seq<nat>, k: nat, n: nat, num: nat, last: nat)
    requires Tried(plan, was, now, k, n, num, last) && (last < n || num == |was|)
    ensures Claimed(plan, now, k, n, num, last)
    ensures FirstFit(plan, n, num) == if last < n then Some(num) else None
  {
    FullAt(plan, was, k, n, num);
    assert forall j: nat | j < |plan| && j != Place(num, |plan|) :: Spot(k, j, |plan|) != Spot(k, num, |plan|);
  }

  lemma ClaimedPlanned(plan: Plan<NetworkPacket>, now: seq<nat>, k: nat, n: nat, num: nat, last: nat, p: NetworkPacket)
    requires Claimed(plan, now, k, n, num, last)
    ensures var j := Place(num, |plan|);
            Planned(if last < n then plan[j := plan[j] + [p]] else plan, now, k, n)
  {
    assert Spot(k, Place(num, |plan|), |plan|) == Spot(k, num, |plan|);
  }

  lemma DrainedPlanned(plan: Plan<NetworkPacket>, was: seq<nat>, k: nat, n: nat)
    requires Planned(plan, was, k, n) && 2 <= |plan|
    ensures Planned(Drained(plan), was[Spot(k, 0, |plan|) := 0], Spot(k, 1, |plan|), n)
  {
    forall j: nat | j < |plan|
      ensures |Drained(plan)[j]| == Min(was[k := 0][Spot(Spot(k, 1, |plan|), j, |plan|)], n)
    {
      SpotNext(k, |plan|, j);
    }
  }

  function WireParts(plan: Plan<NetworkPacket>): (r: seq<seq<Sent>>)
    ensures |r| == |plan| && forall j | 0 <= j < |plan| :: r[j] == Wires(plan[j])
  {
    seq(|plan|, j requires 0 <= j < |plan| => Wires(plan[j]))
  }

  /** Datagrams sent and to be sent are those to be sent at first and those of the packets taken. */
  ghost predicate WiresBalanced(start: Plan<NetworkPacket>, plan: Plan<NetworkPacket>, outs: seq<seq<Sent>>,
                                taken: seq<NetworkPacket>) {
    Total(Multisets(outs)) + Total(Multisets(WireParts(plan)))
    == Total(Multisets(WireParts(start))) + multiset(Wires(taken))
  }

  lemma StartsBalanced(plan: Plan<NetworkPacket>)
    ensures WiresBalanced(plan, plan, [], [])
  {
    assert Multisets<Sent>([]) == [];
    assert Wires([]) == [];
  }

  lemma WiresMore(ps: seq<NetworkPacket>, p: NetworkPacket)
    ensures Wires(ps + [p]) == Wires(ps) + [Wire(p)]
  {
  }

  lemma PushWires(start: Plan<NetworkPacket>, plan: Plan<NetworkPacket>, j: nat, p: NetworkPacket,
                  outs: seq<seq<Sent>>, taken: seq<NetworkPacket>)
    requires j < |plan| && WiresBalanced(start, plan, outs, taken)
    ensures WiresBalanced(start, plan[j := plan[j] + [p]], outs, taken + [p])
  {
    var parts := WireParts(plan);
    WiresMore(plan[j], p);
    WiresMore(taken, p);
    assert WireParts(plan[j := plan[j] + [p]]) == parts[j := parts[j] + [Wire(p)]];
    AddBalanced(parts, j, Wire(p));
    AddRight(Total(Multisets(outs)), Total(Multisets(parts)), Total(Multisets(WireParts(start))),
             multiset(Wires(taken)), multiset{Wire(p)});
  }

  lemma DrainWires(start: Plan<NetworkPacket>, plan: Plan<NetworkPacket>, outs: seq<seq<Sent>>,
                   taken: seq<NetworkPacket>)
    requires |plan| >= 2 && WiresBalanced(start, plan, outs, taken)
    ensures WiresBalanced(start, Drained(plan), outs + [Wires(plan[0])], taken)
  {
    var first, rest := multiset(Wires(plan[0])), Multisets(WireParts(plan[1..]));
    assert Multisets(outs + [Wires(plan[0])]) == Multisets(outs) + [first];
    assert Multisets(WireParts(plan)) == [first] + rest;
    assert Wires([]) == [];
    assert Multisets(WireParts(Drained(plan))) == rest + [multiset{}];
    TotalLast(Multisets(outs), first);
    TotalFirst(first, rest);
    TotalLast(rest, multiset{});
    assert (Total(Multisets(outs)) + first) + Total(rest) == Total(Multisets(outs)) + (first + Total(rest));
  }

  /** One operation: the packet it takes joins what is to be sent; what it drains is sent. */
  lemma StepWires(start: Plan<NetworkPacket>, l: Log<NetworkPacket>, n: nat, spin: int, op: Op<NetworkPacket>,
                  outs: seq<seq<Sent>>, taken: seq<NetworkPacket>)
    requires |l.plan| >= 2 && spin > 0 && WiresBalanced(start, l.plan, outs, taken)
    ensures WiresBalanced(start, Step(l, n, spin, op).plan,
                          outs + if op.Drain? then [Wires(l.plan[0])] else [],
                          taken + if Takes(l, n, spin, op) then [op.p] else [])
  {
    assert outs + [] == outs && taken + [] == taken;
    if op.Drain? {
      DrainWires(start, l.plan, outs, taken);
    } else if Takes(l, n, spin, op) {
      var d := Accept(l.plan, n, Offset(op.timestamp, op.now, spin)).value;
      PushWires(start, l.plan, Place(d, |l.plan|), op.p, outs, taken);
    }
  }

  /** These are the datagrams of the drains between two logs. */
  ghost predicate OutputsOf(start: Log<NetworkPacket>, l: Log<NetworkPacket>, outs: seq<seq<Sent>>) {
    && start.ticks + |outs| == l.ticks == |l.sent|
    && forall t: nat | t < |outs| :: outs[t] == Wires(l.sent[start.ticks + t])
  }

  lemma StepOutputs(start: Log<NetworkPacket>, l: Log<NetworkPacket>, n: nat, spin: int, op: Op<NetworkPacket>,
                    outs: seq<seq<Sent>>)
    requires |l.plan| >= 2 && spin > 0 && OutputsOf(start, l, outs)
    ensures OutputsOf(start, Step(l, n, spin, op), outs + if op.Drain? then [Wires(l.plan[0])] else [])
  {
    if op.Push? {
      assert outs + [] == outs;
    }
  }

  /** The log, the answers and the outputs after these operations. */
  ghost predicate Played(start: Log<NetworkPacket>, n: nat, spin: int, ops: seq<Op<NetworkPacket>>,
                         l: Log<NetworkPacket>, oks: seq<bool>, outs: seq<seq<Sent>>) {
    && |start.plan| >= 2 && spin > 0 && l == Steps(start, n, spin, ops) && oks == Answers(start, n, spin, ops)
    && OutputsOf(start, l, outs) && |outs| == Drains(ops)
    && WiresBalanced(start.plan, l.plan, outs, TakenOf(ops, oks))
  }

  lemma PlayedNone(start: Log<NetworkPacket>, n: nat, spin: int)
    requires |start.plan| >= 2 && spin > 0 && start.ticks == |start.sent|
    ensures Played(start, n, spin, [], start, [], [])
  {
    StartsBalanced(start.plan);
  }

  lemma PlayedMore(start: Log<NetworkPacket>, n: nat, spin: int, ops: seq<Op<NetworkPacket>>, i: nat,
                   l: Log<NetworkPacket>, oks: seq<bool>, outs: seq<seq<Sent>>)
    requires i < |ops| && Played(start, n, spin, ops[..i], l, oks, outs)
    ensures Played(start, n, spin, ops[..i + 1], Step(l, n, spin, ops[i]), oks + [Takes(l, n, spin, ops[i])],
                   outs + if ops[i].Drain? then [Wires(l.plan[0])] else [])
  {
    PrefixMore(start, n, spin, ops, i);
    StepWires(start.plan, l, n, spin, ops[i], outs, TakenOf(ops[..i], oks));
    StepOutputs(start, l, n, spin, ops[i], outs);
  }

  class Karusel {
    const m: nat
    const n: nat
    const spin: int   // SPIN_THRESHOLD
    var k: nat
    var counts: array<nat>
    var packets: array2<NetworkPacket>
    ghost var log: Log<NetworkPacket>

    ghost predicate Shape()
      reads this
    {
      m >= 2 && n >= 1 && spin > 0 && k < m && counts.Length == m && packets.Length0 == m && packets.Length1 == n
    }

    /** The first slots of each bucket hold what the plan says. */
    ghost predicate SlotsMatch(plan: Plan<NetworkPacket>)
      reads this, packets
      requires Shape() && |plan| == m
    {
      forall j: nat, x: nat | j < m && x < |plan[j]| && x < n :: plan[j][x] == packets[Spot(k, j, m), x]
    }

    /** Counters and slots are those of the schedule, and the schedule is one that a run can reach. */
    ghost predicate Valid()
      reads this, counts, packets
    {
      && Shape() && |log.plan| == m
      && Planned(log.plan, counts[..], k, n) && SlotsMatch(log.plan)
      && OnSchedule(log, n)
    }

    constructor (m: nat, n: nat, spin: int, blank: NetworkPacket)
      requires m >= 2 && n >= 1 && spin > 0
      ensures Valid() && fresh(counts) && fresh(packets) && this.m == m && this.n == n && this.spin == spin
      ensures log == Empty(m)
    {
      this.m, this.n, this.spin, k := m, n, spin, 0;
      counts := new nat[m](_ => 0);
      packets := new NetworkPacket[m, n]((i, j) => blank);
      log := Empty(m);
      EmptyOnSchedule<NetworkPacket>(m, n);
    }

    method At(d: nat) returns (ind: nat)
      requires m >= 2 && k < m && d <= m
      ensures ind == Spot(k, d, m)
    {
      SpotMod(k, d, m);
      ind := (k + d) % m;
    }

    method Advance()
      requires m >= 2 && k < m
      modifies `k
      ensures k == Spot(old(k), 1, m)
    {
      SpotMod(k, 1, m);
      k := k + 1;
      k := k % m;
    }

    /** fetch_add on the counter of the bucket at offset d. */
    method FetchAdd(d: nat) returns (ind: nat, last: nat)
      requires Shape() && d <= m
      modifies counts
      ensures ind == Spot(k, d, m) && last == old(counts[..])[ind]
      ensures counts[..] == old(counts[..])[ind := last + 1]
    {
      ind := At(d);
      last := counts[ind];
      ghost var was: seq<nat> := counts[..];
      counts[ind] := counts[ind] + 1;
      assert counts[..] == was[ind := last + 1];
    }

    /** The bucket at offset num was full: on to the next one. */
    method TryNext(num: nat, ghost last: nat, ghost plan: Plan<NetworkPacket>, ghost was: seq<nat>)
      returns (ind: nat, lastSpace: nat)
      requires Shape() && num < |was| == m && last >= n && Tried(plan, was, counts[..], k, n, num, last)
      modifies counts
      ensures ind == Spot(k, num + 1, m) && Tried(plan, was, counts[..], k, n, num + 1, lastSpace)
      ensures FirstFit(plan, n, num) == FirstFit(plan, n, num + 1)
    {
      TriedNext(plan, was, counts[..], k, n, num, last);
      ind, lastSpace := FetchAdd(num + 1);
    }

    /** The fetch_add loop of push: counters of full buckets go up and stay as they read, past N. */
    method Claim(first: nat, ghost plan: Plan<NetworkPacket>) returns (num: nat, ind: nat, lastSpace: nat)
      requires Shape() && |plan| == m && Planned(plan, counts[..], k, n) && 1 <= first <= m - 1
      modifies counts
      ensures first <= num <= m && ind == Spot(k, num, m)
      ensures FirstFit(plan, n, first) == if lastSpace < n then Some(num) else None
      ensures Claimed(plan, counts[..], k, n, num, lastSpace)
    {
      num := first;
      ghost var was: seq<nat> := counts[..];
      TriedFirst(plan, was, k, n, num);
      ind, lastSpace := FetchAdd(num);
      while lastSpace >= n && num < m
        invariant first <= num <= m && ind == Spot(k, num, m)
        invariant Tried(plan, was, counts[..], k, n, num, lastSpace)
        invariant FirstFit(plan, n, first) == FirstFit(plan, n, num)
        decreases m - num
      {
        ind, lastSpace := TryNext(num, lastSpace, plan, was);
        num := num + 1;
      }
      TriedLast(plan, was, counts[..], k, n, num, lastSpace);
    }

    /** The write under the bucket's mutex, into the slot the counter handed out. */
    method WriteSlot(j: nat, slot: nat, pkt: NetworkPacket, ghost plan: Plan<NetworkPacket>)
      requires Shape() && |plan| == m && SlotsMatch(plan) && j < m && |plan[j]| == slot < n
      modifies packets
      ensures SlotsMatch(plan[j := plan[j] + [pkt]])
    {
      packets[Spot(k, j, m), slot] := pkt;
    }

    method Push(pkt: NetworkPacket, timestamp: int, now: int) returns (ok: bool)
      requires Valid()
      modifies counts, packets, `log
      ensures Valid()
      ensures ok <==> Accept(old(log).plan, n, Offset(timestamp, now, spin)).Some?
      ensures log == Step(old(log), n, spin, Op.Push(pkt, timestamp, now))
    {
      var first: nat := Offset(timestamp, now, spin);
      ghost var before := log;
      StepOnSchedule(log, n, spin, Op.Push(pkt, timestamp, now));
      log := Step(log, n, spin, Op.Push(pkt, timestamp, now));
      if first > m - 1 {
        return false;
      }
      var num, ind, lastSpace := Claim(first, before.plan);
      ClaimedPlanned(before.plan, counts[..], k, n, num, lastSpace, pkt);
      ok := lastSpace < n;
      if ok {
        WriteSlot(Place(num, m), lastSpace, pkt, before.plan);
      }
    }

    /** One turn of the send loop: the datagrams handed to the socket, in order. */
    method DrainOnce() returns (out: seq<Sent>)
      requires Valid()
      modifies `k, counts, `log
      ensures Valid()
      ensures out == Wires(old(log).plan[0])
      ensures log == Step(old(log), n, spin, Drain)
    {
      var ind := At(0);
      out := [];
      for i := 0 to Min(counts[ind], n)
        invariant out == Wires(log.plan[0][..i])
      {
        assert log.plan[0][..i + 1] == log.plan[0][..i] + [log.plan[0][i]];
        out := out + [Wire(packets[ind, i])];
      }
      assert log.plan[0][..|log.plan[0]|] == log.plan[0];
      ghost var was: seq<nat> := counts[..];
      counts[ind] := 0;
      assert counts[..] == was[ind := 0];
      ghost var before := k;
      DrainedPlanned(log.plan, was, k, n);
      StepOnSchedule(log, n, spin, Drain);
      Advance();
      log := Step(log, n, spin, Drain);
      forall j: nat | j < m
        ensures Spot(k, j, m) == if j == m - 1 then before else Spot(before, j + 1, m)
      {
        SpotNext(before, m, j);
      }
    }

    /** One operation; a drain's output joins the outputs. */
    method PlayOne(op: Op<NetworkPacket>, outs: seq<seq<Sent>>) returns (ok: bool, more: seq<seq<Sent>>)
      requires Valid()
      modifies `k, counts, packets, `log
      ensures Valid() && log == Step(old(log), n, spin, op) && ok == Takes(old(log), n, spin, op)
      ensures more == outs + if op.Drain? then [Wires(old(log).plan[0])] else []
    {
      match op
      case Push(pkt, timestamp, now) =>
        ok := Push(pkt, timestamp, now);
        more := outs;
      case Drain =>
        var out := DrainOnce();
        ok, more := false, outs + [out];
    }

    /**
     * Any pushes and drains, one after another: the wheel goes through exactly the run of its schedule. What it sends
     * and what it still has to send are, each as often, what it had to send before and the packets it took.
     */
    method Play(ops: seq<Op<NetworkPacket>>) returns (oks: seq<bool>, outs: seq<seq<Sent>>)
      requires Valid()
      modifies `k, counts, packets, `log
      ensures Valid() && log == Steps(old(log), n, spin, ops) && oks == Answers(old(log), n, spin, ops)
      ensures OutputsOf(old(log), log, outs) && |outs| == Drains(ops)
      ensures WiresBalanced(old(log).plan, log.plan, outs, TakenOf(ops, oks))
    {
      ghost var start := log;
      oks, outs := [], [];
      PlayedNone(start, n, spin);
      for i := 0 to |ops|
        invariant Valid() && Played(start, n, spin, ops[..i], log, oks, outs)
      {
        PlayedMore(start, n, spin, ops, i, log, oks, outs);
        var ok;
        ok, outs := PlayOne(ops[i], outs);
        oks := oks + [ok];
      }
      assert ops[..|ops|] == ops;
    }
  }
}
