// Mode 0 of cpp/client.hpp and cpp/server.hpp: append a hash, retry push until the carousel takes the packet,
// and the receiver's length-and-hash check. The hash is any function of fixed output length.
module ModeZero {
  import opened Basics
  import opened Words
  import opened Packets
  import opened Schedule
  import opened Carousel

  type Hash = seq<byte> -> seq<byte>

  ghost predicate FixedLength(hash: Hash, size: nat) {
    forall s :: |hash(s)| == size
  }

  // ------------------------------------------------------------------ receiving

  /** receive_from into the reused buffer: bytes past the datagram keep their old values. */
  function Received(buffer: seq<byte>, datagram: seq<byte>): (b: seq<byte>)
    requires |buffer| == PACKET_BYTES && |datagram| <= PACKET_BYTES
    ensures |b| == PACKET_BYTES
  {
    datagram + buffer[|datagram|..]
  }

  /** The payload when the datagram passes, None when it is dropped. */
  function Check(buffer: seq<byte>, len: nat, hash: Hash, size: nat): Option<seq<byte>>
    requires |buffer| == PACKET_BYTES
  {
    if len < 2 * size || len > PACKET_BYTES then None
    else if hash(buffer[..len - size]) != buffer[len - size..len] then None
    else Some(buffer[..len - size])
  }

  /** A sealed payload is accepted exactly when it is at least as long as the hash; shorter ones are dropped. */
  lemma SealedAccepted(buffer: seq<byte>, payload: seq<byte>, hash: Hash, size: nat)
    requires |buffer| == PACKET_BYTES && FixedLength(hash, size) && |payload| + size <= PACKET_BYTES
    ensures |payload + hash(payload)| <= PACKET_BYTES
    ensures Check(Received(buffer, payload + hash(payload)), |payload + hash(payload)|, hash, size)
            == if |payload| >= size then Some(payload) else None
  {
    var d := payload + hash(payload);
    var b := Received(buffer, d);
    assert b[..|payload|] == payload;
    assert b[|payload|..|d|] == hash(payload);
  }

  /** Of any datagram the receiver keeps a payload exactly when it is that payload, long enough, with its hash. */
  lemma CheckExact(buffer: seq<byte>, datagram: seq<byte>, payload: seq<byte>, hash: Hash, size: nat)
    requires |buffer| == PACKET_BYTES && FixedLength(hash, size) && |datagram| <= PACKET_BYTES
    ensures Check(Received(buffer, datagram), |datagram|, hash, size) == Some(payload)
            <==> |payload| >= size && datagram == payload + hash(payload)
  {
    var b := Received(buffer, datagram);
    assert b[..|datagram|] == datagram;
    if Check(b, |datagram|, hash, size) == Some(payload) {
      assert datagram == b[..|datagram| - size] + b[|datagram| - size..|datagram|];
    }
    if |payload| >= size && datagram == payload + hash(payload) {
      SealedAccepted(buffer, payload, hash, size);
    }
  }

  // ------------------------------------------------------------------ sending

  type Script = seq<Op<NetworkPacket>>

  /** What happens to the wheel while send_packet waits: pushes and drains of other threads, a drain the last. */
  predicate EndsInDrain(ops: Script) { ops != [] && ops[|ops| - 1].Drain? }

  /** The schedule after a series of waits. */
  function After(l: Log<NetworkPacket>, n: nat, spin: int, waits: seq<Script>): (r: Log<NetworkPacket>)
    requires |l.plan| >= 2 && spin > 0
    ensures |r.plan| == |l.plan|
  {
    if waits == [] then l else Steps(After(l, n, spin, waits[..|waits| - 1]), n, spin, waits[|waits| - 1])
  }

  /** How often send_packet may have to try again. */
  function RetryBound(timestamp: int, now: int, spin: int, m: nat): int
    requires spin > 0
  {
    var over := Offset(timestamp, now, spin) - (m - 1);
    if over > 1 then over else 1
  }

  /** After i beats an offset has come down by i, but not below the first bucket. */
  function LaterOffset(num: int, i: nat): int {
    if num - i > 1 then num - i else 1
  }

  /** clock[i] is what push reads on try i; tries are at least one beat apart. */
  ghost predicate Beats(clock: seq<int>, spin: int) {
    clock != [] && forall i, j | 0 <= i < j < |clock| && j == i + 1 :: clock[j] >= clock[i] + spin
  }

  /** There are readings and waits for as many tries as the bound allows. */
  ghost predicate Retries(timestamp: int, clock: seq<int>, spin: int, m: nat, waits: seq<Script>)
    requires spin > 0
  {
    && Beats(clock, spin) && |waits| >= RetryBound(timestamp, clock[0], spin, m) && |clock| > |waits|
    && forall i | 0 <= i < |waits| :: EndsInDrain(waits[i])
  }

  lemma {:induction false} LaterOffsets(timestamp: int, clock: seq<int>, spin: int, i: nat)
    requires spin > 0 && Beats(clock, spin) && i < |clock|
    ensures Offset(timestamp, clock[i], spin) <= LaterOffset(Offset(timestamp, clock[0], spin), i)
  {
    if i > 0 {
      LaterOffsets(timestamp, clock, spin, i - 1);
      OffsetFalls(timestamp, clock[i - 1], clock[i], spin);
    }
  }

  /** Try i, made when the schedule stands at l, is refused. */
  predicate Refused(l: Log<NetworkPacket>, n: nat, timestamp: int, now: int, spin: int)
    requires |l.plan| >= 2 && spin > 0
  {
    Accept(l.plan, n, Offset(timestamp, now, spin)) == None
  }

  /** After a wait the last bucket is empty. */
  lemma AcceptedAfterWait(l: Log<NetworkPacket>, n: nat, spin: int, wait: Script, num: int)
    requires |l.plan| >= 2 && n >= 1 && spin > 0 && EndsInDrain(wait) && 1 <= num <= |l.plan| - 1
    ensures Accept(Steps(l, n, spin, wait).plan, n, num).Some?
  {
    AcceptAfterDrain(Steps(l, n, spin, wait[..|wait| - 1]).plan, n, num);
  }

  /** No try is refused once the bound is reached. */
  lemma RetryEnds(start: Log<NetworkPacket>, n: nat, timestamp: int, clock: seq<int>, spin: int, waits: seq<Script>,
                  i: nat)
    requires |start.plan| >= 2 && n >= 1 && spin > 0 && Retries(timestamp, clock, spin, |start.plan|, waits)
    requires i <= |waits| && Refused(After(start, n, spin, waits[..i]), n, timestamp, clock[i], spin)
    ensures i < RetryBound(timestamp, clock[0], spin, |start.plan|)
  {
    LaterOffsets(timestamp, clock, spin, i);
    var num := Offset(timestamp, clock[i], spin);
    if i > 0 && num <= |start.plan| - 1 {
      assert waits[..i][..i - 1] == waits[..i - 1];
      AcceptedAfterWait(After(start, n, spin, waits[..i - 1]), n, spin, waits[i - 1], num);
    }
  }

  /** Every try before the last was refused, and the last one was not. */
  ghost predicate TakenAt(start: Log<NetworkPacket>, n: nat, timestamp: int, clock: seq<int>, spin: int,
                          waits: seq<Script>, tries: nat)
    requires |start.plan| >= 2 && spin > 0 && |clock| > |waits|
  {
    && tries <= |waits|
    && (forall i: nat | i < tries :: Refused(After(start, n, spin, waits[..i]), n, timestamp, clock[i], spin))
    && !Refused(After(start, n, spin, waits[..tries]), n, timestamp, clock[tries], spin)
  }

  /** One wait, and the next try. */
  method Retry(q: Karusel, pkt: NetworkPacket, timestamp: int, now: int, wait: Script) returns (ok: bool)
    requires q.Valid()
    modifies q`k, q`log, q.counts, q.packets
    ensures q.Valid()
    ensures var l := Steps(old(q.log), q.n, q.spin, wait);
            && ok == !Refused(l, q.n, timestamp, now, q.spin)
            && q.log == if ok then Step(l, q.n, q.spin, Push(pkt, timestamp, now)) else l
  {
    var oks, outs := q.Play(wait);
    ok := q.Push(pkt, timestamp, now);
  }

  lemma AfterMore(l: Log<NetworkPacket>, n: nat, spin: int, waits: seq<Script>, i: nat)
    requires |l.plan| >= 2 && spin > 0 && i < |waits|
    ensures After(l, n, spin, waits[..i + 1]) == Steps(After(l, n, spin, waits[..i]), n, spin, waits[i])
  {
    assert waits[..i + 1][..i] == waits[..i];
  }

  /** The retry loop: at least one drain, and at least one beat of clock time, between tries. */
  method PushUntilTaken(q: Karusel, pkt: NetworkPacket, timestamp: int, clock: seq<int>, waits: seq<Script>)
    returns (tries: nat)
    requires q.Valid() && Retries(timestamp, clock, q.spin, q.m, waits)
    modifies q`k, q`log, q.counts, q.packets
    ensures q.Valid() && tries <= RetryBound(timestamp, clock[0], q.spin, q.m)
    ensures TakenAt(old(q.log), q.n, timestamp, clock, q.spin, waits, tries)
    ensures q.log == Step(After(old(q.log), q.n, q.spin, waits[..tries]), q.n, q.spin,
                          Push(pkt, timestamp, clock[tries]))
  {
    tries := 0;
    ghost var start, n, spin := q.log, q.n, q.spin;
    assert waits[..0] == [];
    var ok := q.Push(pkt, timestamp, clock[0]);
    while !ok
      invariant q.Valid() && tries <= RetryBound(timestamp, clock[0], spin, q.m)
      invariant forall i: nat | i < tries :: Refused(After(start, n, spin, waits[..i]), n, timestamp, clock[i], spin)
      invariant ok == !Refused(After(start, n, spin, waits[..tries]), n, timestamp, clock[tries], spin)
      invariant ok ==> q.log == Step(After(start, n, spin, waits[..tries]), n, spin, Push(pkt, timestamp, clock[tries]))
      invariant !ok ==> q.log == After(start, n, spin, waits[..tries])
      decreases RetryBound(timestamp, clock[0], spin, q.m) - tries, !ok
    {
      RetryEnds(start, n, timestamp, clock, spin, waits, tries);
      AfterMore(start, n, spin, waits, tries);
      tries := tries + 1;
      ok := Retry(q, pkt, timestamp, clock[tries], waits[tries - 1]);
    }
  }

  /** Mode 0 of send_packet; None is the runtime_error of a payload that does not fit with its hash. */
  method SendPacket(q: Karusel, data: seq<byte>, addr: Endpoint, hash: Hash, timestamp: int, clock: seq<int>,
                    waits: seq<Script>, garbage: seq<byte>)
    returns (r: Option<NetworkPacket>, tries: nat)
    requires q.Valid() && Retries(timestamp, clock, q.spin, q.m, waits) && |garbage| == PACKET_BYTES
    modifies q`k, q`log, q.counts, q.packets
    ensures q.Valid()
    ensures r == None <==> |data + hash(data)| > PACKET_BYTES
    ensures r == None ==> q.log == old(q.log)
    ensures r.Some? ==> Wire(r.value) == Sent(data + hash(data), addr)
    ensures r.Some? ==>
              && tries <= RetryBound(timestamp, clock[0], q.spin, q.m)
              && TakenAt(old(q.log), q.n, timestamp, clock, q.spin, waits, tries)
              && q.log == Step(After(old(q.log), q.n, q.spin, waits[..tries]), q.n, q.spin,
                               Push(r.value, timestamp, clock[tries]))
  {
    tries := 0;
    r := ConvertVectorToArray(data + hash(data), addr, garbage);
    if r.Some? {
      tries := PushUntilTaken(q, r.value, timestamp, clock, waits);
    }
  }

  // ------------------------------------------------------------------ end to end

  /** How many drains a packet accepted by schedule l waits for before its own. */
  function Wait(l: Log<NetworkPacket>, n: nat, timestamp: int, now: int, spin: int): (d: nat)
    requires |l.plan| >= 2 && spin > 0 && !Refused(l, n, timestamp, now, spin)
    ensures d < |l.plan|
  {
    Place(Accept(l.plan, n, Offset(timestamp, now, spin)).value, |l.plan|)
  }

  /** Whatever happens after a packet is accepted, it goes out with the drain it is due at. */
  lemma AcceptedSent(l: Log<NetworkPacket>, n: nat, spin: int, pkt: NetworkPacket, timestamp: int, now: int,
                     later: Script)
    requires OnSchedule(l, n) && spin > 0 && !Refused(l, n, timestamp, now, spin)
    ensures var due := l.ticks + Wait(l, n, timestamp, now, spin);
            var r := Steps(Step(l, n, spin, Push(pkt, timestamp, now)), n, spin, later);
            |r.sent| == r.ticks && (due < r.ticks ==> pkt in r.sent[due])
  {
    var s := Step(l, n, spin, Push(pkt, timestamp, now));
    StepOnSchedule(l, n, spin, Push(pkt, timestamp, now));
    var e := s.accepted[|l.accepted|];
    assert e in s.accepted;
    SentWhenDue(s, n, spin, later, e);
  }

  lemma DueOutput(l: Log<NetworkPacket>, n: nat, spin: int, pkt: NetworkPacket, timestamp: int, now: int,
                  later: Script, outs: seq<seq<Sent>>)
    requires OnSchedule(l, n) && spin > 0 && !Refused(l, n, timestamp, now, spin)
    requires var s := Step(l, n, spin, Push(pkt, timestamp, now)); OutputsOf(s, Steps(s, n, spin, later), outs)
    ensures var due := Wait(l, n, timestamp, now, spin);
            due < |outs| ==> Wire(pkt) in outs[due]
  {
    AcceptedSent(l, n, spin, pkt, timestamp, now, later);
  }

  lemma {:induction false} AfterOnSchedule(l: Log<NetworkPacket>, n: nat, spin: int, waits: seq<Script>)
    requires OnSchedule(l, n) && spin > 0
    ensures OnSchedule(After(l, n, spin, waits), n)
  {
    if waits != [] {
      AfterOnSchedule(l, n, spin, waits[..|waits| - 1]);
      StepsOnSchedule(After(l, n, spin, waits[..|waits| - 1]), n, spin, waits[|waits| - 1]);
    }
  }

  /**
   * send_packet, then any pushes and drains: the drain the packet is due at, less than m drains on, sends the
   * payload with its hash, and a receiver that gets that datagram keeps exactly the payload, if it is as long as
   * the hash at least.
   */
  method EndToEnd(q: Karusel, data: seq<byte>, addr: Endpoint, hash: Hash, ghost size: nat, timestamp: int,
                  clock: seq<int>, waits: seq<Script>, garbage: seq<byte>, later: Script)
    returns (taken: bool, outs: seq<seq<Sent>>, ghost due: nat)
    requires q.Valid() && Retries(timestamp, clock, q.spin, q.m, waits) && |garbage| == PACKET_BYTES
    requires FixedLength(hash, size)
    modifies q`k, q`log, q.counts, q.packets
    ensures q.Valid() && (taken <==> |data| + size <= PACKET_BYTES) && |outs| == Drains(later)
    ensures taken ==> due < q.m && (due < |outs| ==> Sent(data + hash(data), addr) in outs[due])
    ensures taken ==>
              forall buffer: seq<byte> | |buffer| == PACKET_BYTES ::
                Check(Received(buffer, data + hash(data)), |data + hash(data)|, hash, size)
                == if |data| >= size then Some(data) else None
  {
    var r, tries := SendPacket(q, data, addr, hash, timestamp, clock, waits, garbage);
    taken := r.Some?;
    due := 0;
    var oks;
    oks, outs := q.Play(later);
    if taken {
      ghost var l := After(old(q.log), q.n, q.spin, waits[..tries]);
      AfterOnSchedule(old(q.log), q.n, q.spin, waits[..tries]);
      due := Wait(l, q.n, timestamp, clock[tries], q.spin);
      DueOutput(l, q.n, q.spin, r.value, timestamp, clock[tries], later, outs);
      forall buffer: seq<byte> | |buffer| == PACKET_BYTES
        ensures Check(Received(buffer, data + hash(data)), |data + hash(data)|, hash, size)
                == if |data| >= size then Some(data) else None
      {
        SealedAccepted(buffer, data, hash, size);
      }
    }
  }
}
