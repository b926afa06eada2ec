// ThreadSafeQueue of cpp/stuff.hpp. The priority queue is a bag whose top is any packet of least timestamp;
// clock readings, stop flags and other threads' pushes are inputs.
module DeadlineQueue {
  import opened Words

  datatype OldPacket = OldPacket(data: seq<byte>, timestamp: int)

  ghost predicate Monotone(clock: seq<int>) {
    forall i, j | 0 <= i <= j < |clock| :: clock[i] <= clock[j]
  }

  ghost predicate Sorted(s: seq<OldPacket>) {
    forall i, j | 0 <= i <= j < |s| :: s[i].timestamp <= s[j].timestamp
  }

  ghost predicate IsTop(raw: multiset<OldPacket>, p: OldPacket) {
    p in raw && forall q | q in raw :: p.timestamp <= q.timestamp
  }

  ghost predicate TooEarly(raw: multiset<OldPacket>, now: int) {
    forall p | p in raw :: p.timestamp > now
  }

  /** Each packet was due at the reading made for it. */
  ghost predicate OnTime(got: seq<OldPacket>, clock: seq<int>) {
    |got| <= |clock| && forall i | 0 <= i < |got| :: got[i].timestamp <= clock[i]
  }

  /** Nothing queued is earlier than anything collected. */
  ghost predicate Ahead(got: seq<OldPacket>, raw: multiset<OldPacket>) {
    forall p, q | p in got && q in raw :: p.timestamp <= q.timestamp
  }

  lemma {:induction false} TopExists(raw: multiset<OldPacket>) returns (p: OldPacket)
    requires raw != multiset{}
    ensures IsTop(raw, p)
    decreases |raw|
  {
    var q :| q in raw;
    var rest := raw - multiset{q};
    if rest == multiset{} {
      assert raw == multiset{q};
      p := q;
    } else {
      p := TopExists(rest);
      assert forall x | x in raw :: x == q || x in rest;
      if q.timestamp < p.timestamp {
        p := q;
      }
    }
  }

  /** What was queued at first and what came in the first k rounds. */
  function AllArrived(first: multiset<OldPacket>, arrivals: seq<multiset<OldPacket>>, k: nat): multiset<OldPacket>
    requires k <= |arrivals|
  {
    if k == 0 then first else AllArrived(first, arrivals, k - 1) + arrivals[k - 1]
  }

  /** The flag was up at first or went up in the first k rounds. */
  ghost predicate StoppedBy(first: bool, stops: seq<bool>, k: nat)
    requires k <= |stops|
  {
    first || exists i :: 0 <= i < k && stops[i]
  }

  /** In round i the flag was down and, had nothing been taken before, no packet was due. */
  ghost predicate Nothing(first: multiset<OldPacket>, stopped: bool, arrivals: seq<multiset<OldPacket>>,
                          stops: seq<bool>, clock: seq<int>, i: nat)
    requires i < |arrivals| == |stops| == |clock|
  {
    !StoppedBy(stopped, stops, i + 1) && TooEarly(AllArrived(first, arrivals, i + 1), clock[i])
  }

  class ThreadSafeQueue {
    var raw: multiset<OldPacket>
    var stopped: bool

    constructor ()
      ensures raw == multiset{} && !stopped
    {
      raw, stopped := multiset{}, false;
    }

    method Push(p: OldPacket)
      modifies `raw
      ensures raw == old(raw) + multiset{p}
    {
      raw := raw + multiset{p};
    }

    method Stop()
      modifies `stopped
      ensures stopped
    {
      stopped := true;
    }

    method Top() returns (p: OldPacket)
      requires raw != multiset{}
      ensures IsTop(raw, p)
    {
      ghost var w := TopExists(raw);
      p :| p in raw && forall q | q in raw :: p.timestamp <= q.timestamp;
    }

    /** One turn of the collecting loop: the top joins the batch if its time has come by this reading. */
    method TakeIfDue(got: seq<OldPacket>, now: int) returns (due: bool, more: seq<OldPacket>)
      requires raw != multiset{} && Sorted(got) && Ahead(got, raw)
      modifies `raw
      ensures Sorted(more) && Ahead(more, raw) && multiset(more) + raw == multiset(got) + old(raw)
      ensures due ==> |more| == |got| + 1 && more[..|got|] == got && more[|got|].timestamp <= now
      ensures due ==> |raw| + 1 == |old(raw)|
      ensures !due ==> more == got && raw == old(raw) && TooEarly(raw, now)
    {
      var top := Top();
      due, more := top.timestamp <= now, got;
      if due {
        TakeOne(got, raw, top);
        more := got + [top];
        raw := raw - multiset{top};
      }
    }

    /** The collecting loop; clock holds its successive readings, one for each packet looked at, taken counts them. */
    method Collect(clock: seq<int>) returns (got: seq<OldPacket>, taken: nat)
      requires Monotone(clock) && |clock| > |raw|
      modifies `raw
      ensures taken <= |clock| && Sorted(got) && multiset(got) + raw == old(raw)
      ensures taken == |got| + (if raw == multiset{} then 0 else 1) && OnTime(got, clock)
      ensures taken > 0 ==> (forall p | p in got :: p.timestamp <= clock[taken - 1])
                            && (forall p | p in raw :: p.timestamp > clock[taken - 1])
    {
      got, taken := [], 0;
      var due := true;
      while due && raw != multiset{}
        invariant taken + |raw| < |clock| + (if due then 0 else 1) && |got| + (if due then 0 else 1) == taken
        invariant Sorted(got) && Ahead(got, raw) && multiset(got) + raw == old(raw) && OnTime(got, clock)
        invariant !due ==> raw != multiset{} && TooEarly(raw, clock[taken - 1])
        decreases |raw|, due
      {
        taken := taken + 1;
        due, got := TakeIfDue(got, clock[taken - 1]);
      }
      AllOnTime(got, clock, taken);
    }

    /**
     * pop_batch, whose two waits give the mutex up: others push `before` until the first one is over, with the queue
     * non-empty or the flag up, and `during` while it sleeps for a packet whose time has not come. On the path that
     * collects, the batch gains exactly the packets due at the last reading, in timestamp order, and the others stay.
     */
    method PopBatch(batch: seq<OldPacket>, before: multiset<OldPacket>, stop: bool, during: multiset<OldPacket>,
                    clock: seq<int>)
      returns (ok: bool, out: seq<OldPacket>, taken: nat)
      requires stopped || stop || raw + before != multiset{}
      requires Monotone(clock) && |clock| > |raw| + |before| + 1
      modifies this
      ensures stopped == (old(stopped) || stop) && ok == !stopped && taken <= |clock| && batch <= out
      ensures stopped ==> out == batch && raw == old(raw) + before
      ensures !stopped && TooEarly(old(raw) + before, clock[0]) ==> out == batch && raw == old(raw) + before + during
      ensures !stopped && !TooEarly(old(raw) + before, clock[0]) ==>
                && taken == 1 + |out| - |batch| + (if raw == multiset{} then 0 else 1)
                && out != batch && Sorted(out[|batch|..])
                && OnTime(out[|batch|..], clock[1..])
                && multiset(out[|batch|..]) + raw == old(raw) + before
                && (forall p | p in out[|batch|..] :: p.timestamp <= clock[taken - 1])
                && (forall p | p in raw :: p.timestamp > clock[taken - 1])
    {
      raw := raw + before;
      stopped := stopped || stop;
      out, taken := batch, 0;
      ok := !stopped;
      if !ok {
        return;
      }
      var first := Top();
      taken := 1;
      if first.timestamp > clock[0] {
        raw := raw + during;
      } else {
        var got, more := Collect(clock[1..]);
        assert clock[1..][more - 1] == clock[more];
        assert first !in raw;
        out := batch + got;
        taken := 1 + more;
        assert out[|batch|..] == got;
      }
    }

    /** Of all these packets one least one was taken, or none was; the others are queued. */
    ghost predicate TookFrom(total: multiset<OldPacket>, r: PopResult)
      reads this
    {
      if r.Popped? then IsTop(total, r.pkt) && raw + multiset{r.pkt} == total else raw == total
    }

    /**
     * One turn of pop's outer loop: others have pushed while the mutex was free, now is the clock reading. The
     * thread stops, takes a due top, or (Waiting) gives the mutex up again to sleep or spin.
     */
    method PopRound(arrived: multiset<OldPacket>, stop: bool, now: int) returns (r: PopResult)
      modifies this
      ensures stopped == (old(stopped) || stop) && (r.Ended? <==> stopped)
      ensures TookFrom(old(raw) + arrived, r) && (r.Popped? ==> r.pkt.timestamp <= now)
      ensures r.Waiting? ==> forall q | q in raw :: q.timestamp > now
    {
      raw := raw + arrived;
      stopped := stopped || stop;
      if stopped {
        return Ended;
      }
      r := Waiting;
      if raw != multiset{} {
        var top := Top();
        if top.timestamp <= now {
          PutBack(raw, top);
          raw := raw - multiset{top};
          r := Popped(top);
        }
      }
    }

    /**
     * pop over as many rounds as there are readings. It ends as soon as the flag is up, else as soon as a packet is
     * due, and then with a least one; Waiting means that neither was so in any round.
     */
    method Pop(arrivals: seq<multiset<OldPacket>>, stops: seq<bool>, clock: seq<int>)
      returns (r: PopResult, rounds: nat)
      requires |arrivals| == |stops| == |clock|
      modifies this
      ensures rounds <= |clock| && (r.Waiting? ==> rounds == |clock|) && (!r.Waiting? ==> rounds > 0)
      ensures TookFrom(AllArrived(old(raw), arrivals, rounds), r)
      ensures r.Popped? ==> r.pkt.timestamp <= clock[rounds - 1]
      ensures stopped <==> StoppedBy(old(stopped), stops, rounds)
      ensures rounds > 0 ==> (r.Ended? <==> stopped)
      ensures forall i | 0 <= i < rounds && (i < rounds - 1 || r.Waiting?) ::
                Nothing(old(raw), old(stopped), arrivals, stops, clock, i)
    {
      rounds := 0;
      r := Waiting;
      while rounds < |clock| && r.Waiting?
        invariant rounds <= |clock| && (!r.Waiting? ==> rounds > 0)
        invariant stopped <==> StoppedBy(old(stopped), stops, rounds)
        invariant rounds > 0 ==> (r.Ended? <==> stopped)
        invariant TookFrom(AllArrived(old(raw), arrivals, rounds), r)
        invariant r.Popped? ==> r.pkt.timestamp <= clock[rounds - 1]
        invariant forall i | 0 <= i < rounds && (i < rounds - 1 || r.Waiting?) ::
                    Nothing(old(raw), old(stopped), arrivals, stops, clock, i)
        decreases |clock| - rounds
      {
        r := PopRound(arrivals[rounds], stops[rounds], clock[rounds]);
        rounds := rounds + 1;
      }
    }
  }

  datatype PopResult = Popped(pkt: OldPacket) | Ended | Waiting

  lemma PutBack(raw: multiset<OldPacket>, p: OldPacket)
    requires p in raw
    ensures (raw - multiset{p}) + multiset{p} == raw
    ensures forall q | q in raw - multiset{p} :: q in raw
  {
  }

  lemma AllOnTime(got: seq<OldPacket>, clock: seq<int>, taken: nat)
    requires OnTime(got, clock) && Monotone(clock) && |got| <= taken <= |clock|
    ensures taken > 0 ==> forall p | p in got :: p.timestamp <= clock[taken - 1]
  {
  }

  /** Moving a least packet to the end of the collected ones. */
  lemma TakeOne(got: seq<OldPacket>, raw: multiset<OldPacket>, top: OldPacket)
    requires Sorted(got) && IsTop(raw, top) && Ahead(got, raw)
    ensures Sorted(got + [top]) && Ahead(got + [top], raw - multiset{top})
    ensures multiset(got + [top]) + (raw - multiset{top}) == multiset(got) + raw
  {
  }
}
