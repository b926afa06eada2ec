// The inner channel of python/protocol_core.py: splitting a message, the inner header, the
// reassembly docks of put_packet, and the stop-and-wait sender.
module InnerChannel {
  import opened Basics
  import opened Words
  import opened Framing

  const WRAP := 0x1_0000_0000

  datatype Fragment = Fragment(num: nat, total: nat, pid: nat, mid: nat, payload: seq<byte>)

  datatype Delivery = Delivery(message: seq<byte>, id: nat, mid: nat)

  // ------------------------------------------------------------------ inner header

  predicate Encodable(f: Fragment) {
    f.num < 256 && f.total < 256 && f.pid < WRAP && f.mid < WRAP
  }

  function Encode(f: Fragment): seq<byte>
    requires Encodable(f)
  {
    Widths();
    BigEndian(f.num, 1) + BigEndian(f.total, 1) + BigEndian(f.pid, 4) + BigEndian(f.mid, 4) + f.payload
  }

  /** The header fields as put_packet reads them; short input reads as zeros. */
  function Decode(data: seq<byte>): Fragment {
    Fragment(FromBytes(Slice(data, 0, 1)), FromBytes(Slice(data, 1, 2)),
             FromBytes(Slice(data, 2, 6)), FromBytes(Slice(data, 6, 10)), From(data, 10))
  }

  /** The four bytes put_packet echoes as the acknowledgement. */
  function AckOf(data: seq<byte>): seq<byte> { Slice(data, 2, 6) }

  lemma DecodeEncode(f: Fragment)
    requires Encodable(f)
    ensures Decode(Encode(f)) == f
    ensures FromBytes(AckOf(Encode(f))) == f.pid
  {
    Widths();
    var n, t, p, m := BigEndian(f.num, 1), BigEndian(f.total, 1), BigEndian(f.pid, 4), BigEndian(f.mid, 4);
    var s := Encode(f);
    assert Slice(s, 0, 1) == n && Slice(s, 1, 2) == t;
    assert Slice(s, 2, 6) == p;
    assert Slice(s, 6, 10) == m;
    assert From(s, 10) == f.payload;
    FromBigEndian(f.num, 1);
    FromBigEndian(f.total, 1);
    FromBigEndian(f.pid, 4);
    FromBigEndian(f.mid, 4);
  }

  /** The header on the wire: number, count, packet number and message number, most significant bytes first. */
  lemma EncodeLayout(f: Fragment)
    requires Encodable(f)
    ensures var s := Encode(f);
            && |s| == 10 + |f.payload| && s[0] as int == f.num && s[1] as int == f.total && s[10..] == f.payload
            && s[2..6] == AckOf(s) && FromBytes(s[2..6]) == f.pid && FromBytes(s[6..10]) == f.mid
  {
    Widths();
    OneByte(f.num);
    OneByte(f.total);
    var n, t, p, m := BigEndian(f.num, 1), BigEndian(f.total, 1), BigEndian(f.pid, 4), BigEndian(f.mid, 4);
    var s := Encode(f);
    FromBigEndian(f.pid, 4);
    FromBigEndian(f.mid, 4);
    assert s[2..6] == p && s[6..10] == m;
  }

  /** Dispatch on the global part of a packet id. */
  datatype Routed = Put(innerId: nat, data: seq<byte>) | Ack(pid: nat) | Ignored

  function Route(d: Datagram): Routed {
    if d.id / 10 == 0 then Put(d.id % 10, d.data)
    else if d.id / 10 == 1 then Ack(FromBytes(Slice(d.data, 0, 4)))
    else Ignored
  }

  /** Ids below 10 carry fragments, ids 10 to 19 acknowledgements, all others nothing the inner channel reads. */
  lemma RouteExact(d: Datagram)
    ensures Route(d).Put? <==> d.id < 10
    ensures Route(d).Put? ==> Route(d) == Put(d.id, d.data)
    ensures Route(d).Ack? <==> 10 <= d.id < 20
    ensures Route(d).Ack? ==> Route(d).pid == FromBytes(if |d.data| < 4 then d.data else d.data[..4])
  {
    assert Slice(d.data, 0, 4) == if |d.data| < 4 then d.data else d.data[..4];
  }

  // ------------------------------------------------------------------ splitting

  /** The ceiling of length / psz, but at least one packet. */
  function NumPackets(length: nat, psz: nat): (n: nat)
    requires psz > 0
    ensures n >= 1
  {
    if length == 0 then 1 else (length - 1) / psz + 1
  }

  /** The last packet is needed, and all of them suffice. */
  lemma NumPacketsExact(length: nat, psz: nat)
    requires psz > 0
    ensures var n := NumPackets(length, psz);
            length <= n * psz && (length > 0 ==> (n - 1) * psz < length)
  {
  }

  /** One header byte holds the packet count exactly when the message has at most 255 * psz bytes. */
  lemma FitsInOneByte(length: nat, psz: nat)
    requires psz > 0
    ensures NumPackets(length, psz) <= 255 <==> length <= 255 * psz
  {
    NumPacketsExact(length, psz);
    var n := NumPackets(length, psz);
    if n <= 255 {
      MulMonotone(n, 255, psz);
    } else {
      MulMonotone(255, n - 1, psz);
    }
  }

  lemma MulMonotone(a: nat, b: nat, p: nat)
    requires a <= b
    ensures a * p <= b * p
  {
    assert (b - a) * p == b * p - a * p;
    assert (b - a) * p >= 0;
  }

  function Chunk(msg: seq<byte>, psz: nat, i: nat): seq<byte> {
    Slice(msg, i * psz, (i + 1) * psz)
  }

  function Flatten(parts: seq<seq<byte>>): seq<byte> {
    if parts == [] then [] else Flatten(parts[..|parts| - 1]) + parts[|parts| - 1]
  }

  function Chunks(msg: seq<byte>, psz: nat, n: nat): (r: seq<seq<byte>>)
    ensures |r| == n && forall i | 0 <= i < n :: r[i] == Chunk(msg, psz, i)
  {
    seq(n, i requires 0 <= i < n => Chunk(msg, psz, i))
  }

  lemma SliceJoin(msg: seq<byte>, lo: nat, hi: nat)
    requires lo <= hi
    ensures Slice(msg, 0, lo) + Slice(msg, lo, hi) == Slice(msg, 0, hi)
  {
  }

  lemma ChunkJoin(msg: seq<byte>, psz: nat, k: nat)
    requires k > 0
    ensures Slice(msg, 0, (k - 1) * psz) + Chunk(msg, psz, k - 1) == Slice(msg, 0, k * psz)
  {
    assert k * psz == (k - 1) * psz + psz;
    SliceJoin(msg, (k - 1) * psz, k * psz);
  }

  lemma {:induction false} ChunksPrefix(msg: seq<byte>, psz: nat, k: nat)
    requires psz > 0
    ensures Flatten(Chunks(msg, psz, k)) == Slice(msg, 0, k * psz)
  {
    if k > 0 {
      ChunksPrefix(msg, psz, k - 1);
      assert Chunks(msg, psz, k)[..k - 1] == Chunks(msg, psz, k - 1);
      ChunkJoin(msg, psz, k);
    }
  }

  /** Cutting a message into packets and joining them gives the message back, the empty one included. */
  lemma SplitJoin(msg: seq<byte>, psz: nat)
    requires psz > 0
    ensures Flatten(Chunks(msg, psz, NumPackets(|msg|, psz))) == msg
  {
    NumPacketsExact(|msg|, psz);
    ChunksPrefix(msg, psz, NumPackets(|msg|, psz));
  }

  /** Packet i holds the bytes from i * psz on, psz of them or what is left. */
  lemma ChunkBytes(msg: seq<byte>, psz: nat, i: nat, x: nat)
    requires psz > 0 && x < |Chunk(msg, psz, i)|
    ensures i * psz + x < |msg| && Chunk(msg, psz, i)[x] == msg[i * psz + x]
    ensures |Chunk(msg, psz, i)| == Min(psz, |msg| - i * psz)
  {
    assert (i + 1) * psz == i * psz + psz;
  }

  lemma ChunkSize(msg: seq<byte>, psz: nat, i: nat)
    ensures |Chunk(msg, psz, i)| <= psz
  {
    assert (i + 1) * psz == i * psz + psz;
  }

  // ------------------------------------------------------------------ reassembly

  type Docks = map<nat, seq<seq<byte>>>

  /** The effect of the second half of put_packet: raised stands for the IndexError of a bad number. */
  datatype Stored = Stored(docks: Docks, delivery: Option<Delivery>, raised: bool)

  function EmptyDock(total: nat): (d: seq<seq<byte>>)
    ensures |d| == total && forall i | 0 <= i < total :: d[i] == []
  {
    seq(total, _ => [])
  }

  function DockOf(docks: Docks, f: Fragment): seq<seq<byte>> {
    if f.mid in docks then docks[f.mid] else EmptyDock(f.total)
  }

  function Store(docks: Docks, id: nat, f: Fragment): Stored {
    var dock := DockOf(docks, f);
    if f.num >= |dock| then
      Stored(docks[f.mid := dock], None, true)
    else
      var filled := dock[f.num := f.payload];
      if f.num == f.total - 1 then
        Stored(docks - {f.mid}, Some(Delivery(Flatten(filled), id, f.mid)), false)
      else
        Stored(docks[f.mid := filled], None, false)
  }

  /** What filing does to any docks, with any fragment. */
  lemma StoreExact(docks: Docks, id: nat, f: Fragment, other: nat)
    ensures var r := Store(docks, id, f);
            var size := if f.mid in docks then |docks[f.mid]| else f.total;
            && (r.raised <==> f.num >= size)
            && (r.delivery.Some? <==> !r.raised && f.num + 1 == f.total)
            && (f.mid in r.docks <==> r.delivery == None)
            && (other != f.mid ==> (other in r.docks <==> other in docks))
            && (other != f.mid && other in docks ==> r.docks[other] == docks[other])
  {
  }

  /** Where the bytes go: the fragment into its place, every other place as it was, empty in a new dock. */
  lemma StoreFills(docks: Docks, id: nat, f: Fragment, x: nat)
    requires Store(docks, id, f).delivery == None && x < |DockOf(docks, f)|
    ensures var dock := Store(docks, id, f).docks[f.mid];
            && |dock| == |DockOf(docks, f)|
            && dock[x] == if x == f.num then f.payload else if f.mid in docks then docks[f.mid][x] else []
  {
  }

  class Receiver {
    var docks: Docks
    var lastReceivedId: int
    var acks: seq<seq<byte>>
    var handoff: seq<Delivery>

    constructor ()
      ensures docks == map[] && lastReceivedId == -1 && acks == [] && handoff == []
    {
      docks, lastReceivedId, acks, handoff := map[], -1, [], [];
    }

    static method NewDock(total: nat) returns (dock: seq<seq<byte>>)
      ensures dock == EmptyDock(total)
    {
      dock := [];
      for i := 0 to total
        invariant dock == EmptyDock(i)
      {
        dock := dock + [[]];
      }
    }

    static method Join(dock: seq<seq<byte>>) returns (message: seq<byte>)
      ensures message == Flatten(dock)
    {
      message := [];
      for i := 0 to |dock|
        invariant message == Flatten(dock[..i])
      {
        assert dock[..i + 1][..i] == dock[..i];
        message := message + dock[i];
      }
      assert dock[..|dock|] == dock;
    }

    /** The second half of put_packet: file the fragment, and hand a finished message on. */
    method Reassemble(id: nat, f: Fragment) returns (raised: bool)
      modifies `docks, `handoff
      ensures var r := Store(old(docks), id, f);
              && docks == r.docks && raised == r.raised
              && handoff == old(handoff) + (if r.delivery.Some? then [r.delivery.value] else [])
    {
      var dock: seq<seq<byte>>;
      if f.mid !in docks {
        dock := NewDock(f.total);
        docks := docks[f.mid := dock];
      } else {
        dock := docks[f.mid];
      }
      if f.num >= |dock| {
        return true;
      }
      dock := dock[f.num := f.payload];
      docks := docks[f.mid := dock];
      if f.num == f.total - 1 {
        var message := Join(dock);
        docks := docks - {f.mid};
        handoff := handoff + [Delivery(message, id, f.mid)];
      }
      return false;
    }

    method PutPacket(id: nat, data: seq<byte>) returns (raised: bool)
      modifies this
      ensures acks == old(acks) + [AckOf(data)]
      ensures lastReceivedId == NextReceived(old(lastReceivedId), Decode(data).pid)
      ensures var r := Store(old(docks), id, Decode(data));
              && docks == r.docks && raised == r.raised
              && handoff == old(handoff) + (if r.delivery.Some? then [r.delivery.value] else [])
    {
      var f := Decode(data);
      acks := acks + [AckOf(data)];
      if f.pid > lastReceivedId {
        lastReceivedId := f.pid;
      }
      if lastReceivedId == WRAP - 1 {
        lastReceivedId := -1;
      }
      raised := Reassemble(id, f);
    }
  }

  /** The largest packet number seen, reset when it reaches the top of its range. */
  function NextReceived(last: int, pid: nat): (next: int)
    ensures last < WRAP - 1 && pid < WRAP - 1 ==> next >= last && next >= pid && (next == last || next == pid)
    ensures last <= WRAP - 1 && pid == WRAP - 1 ==> next == -1
  {
    var top := if last >= pid then last else pid;
    if top == WRAP - 1 then -1 else top
  }

  // ------------------------------------------------------------------ the stop-and-wait sender

  datatype Outcome = Returned | TimedOut | Overflowed

  /** One call of conn.send_packet with the encoding of a fragment. */
  datatype Frame = Frame(id: nat, fragment: Fragment)

  function Repeat(t: Frame, n: nat): (r: seq<Frame>)
    ensures |r| == n
  {
    seq(n, _ => t)
  }

  /** Part j sent counts[j] times, under the packet number j + 1 after pid. */
  function Rounds(id: nat, parts: seq<seq<byte>>, mid: nat, pid: nat, counts: seq<nat>): seq<Frame>
    requires |counts| <= |parts|
    decreases counts
  {
    if counts == [] then []
    else
      var j := |counts| - 1;
      Rounds(id, parts, mid, pid, counts[..j]) + Round(id, parts, mid, NthPid(pid, j + 1), j, counts[j])
  }

  function NthPid(pid: nat, j: nat): (p: nat)
    ensures p < WRAP
  {
    (pid + j) % WRAP
  }

  function Round(id: nat, parts: seq<seq<byte>>, mid: nat, pid: nat, j: nat, count: nat): seq<Frame>
    requires j < |parts|
  {
    Repeat(Frame(id, Fragment(j, |parts|, pid, mid, parts[j])), count)
  }

  lemma RoundsLength(id: nat, parts: seq<seq<byte>>, mid: nat, pid: nat, counts: seq<nat>)
    requires |counts| <= |parts|
    ensures |Rounds(id, parts, mid, pid, counts)| == Sum(counts)
    decreases counts
  {
    if counts != [] {
      RoundsLength(id, parts, mid, pid, counts[..|counts| - 1]);
    }
  }

  lemma RoundsExtend(id: nat, parts: seq<seq<byte>>, mid: nat, pid: nat, counts: seq<nat>, c: nat)
    requires |counts| < |parts|
    ensures var j := |counts|;
            Rounds(id, parts, mid, pid, counts + [c])
            == Rounds(id, parts, mid, pid, counts) + Round(id, parts, mid, NthPid(pid, j + 1), j, c)
  {
    assert (counts + [c])[..|counts|] == counts;
  }

  function Sum(counts: seq<nat>): nat {
    if counts == [] then 0 else Sum(counts[..|counts| - 1]) + counts[|counts| - 1]
  }

  lemma SumBound(counts: seq<nat>, bound: nat, n: nat)
    requires |counts| <= n && forall i | 0 <= i < |counts| :: counts[i] <= bound
    ensures Sum(counts) <= bound * n
  {
    if counts == [] {
      assert 0 <= bound * n;
    } else {
      SumBound(counts[..|counts| - 1], bound, n - 1);
      assert bound * (n - 1) == bound * n - bound;
    }
  }

  /** The waiting packet numbers after k fragments sent from pid on were answered. */
  function Popped(waiting: set<nat>, pid: nat, k: nat): set<nat> {
    if k == 0 then waiting else Popped(waiting, pid, k - 1) - {NthPid(pid, k)}
  }

  /** After a message whose rounds these are: what was answered no longer waits, what was given up on does. */
  function WaitingAfter(waiting: set<nat>, pid: nat, k: nat, r: Outcome): set<nat> {
    if r == Returned || k == 0 then Popped(waiting, pid, k) else Popped(waiting, pid, k - 1) + {NthPid(pid, k)}
  }

  lemma NextPid(pid: nat, i: nat)
    ensures (NthPid(pid, i) + 1) % WRAP == NthPid(pid, i + 1)
  {
  }

  /** Some attempt of fragment i is answered within its wait. */
  ghost predicate Answered(answered: set<(nat, nat)>, i: nat, attempts: nat) {
    exists t: nat :: t < attempts && (i, t) in answered
  }

  class Sender {
    const psz: nat
    const attempts: nat   // int(timeout / 0.2)
    var lastSentPacketId: nat
    var messageId: nat
    var waiting: set<nat>
    var transmissions: seq<Frame>

    ghost predicate Valid()
      reads this
    {
      psz > 0 && lastSentPacketId < WRAP && messageId < WRAP
    }

    constructor (psz: nat, attempts: nat)
      requires psz > 0
      ensures Valid() && this.psz == psz && this.attempts == attempts
      ensures lastSentPacketId == 0 && messageId == 0 && waiting == {} && transmissions == []
    {
      this.psz, this.attempts := psz, attempts;
      lastSentPacketId, messageId, waiting, transmissions := 0, 0, {}, [];
    }

    /** One fragment: transmit, wait, repeat. answered holds (num, t) when the wait after attempt t sees the ack. */
    method Send(id: nat, packet: seq<byte>, num: nat, total: nat, mid: nat, answered: set<(nat, nat)>)
      returns (r: Outcome, tries: nat)
      requires Valid() && mid < WRAP
      modifies `lastSentPacketId, `waiting, `transmissions
      ensures Valid()
      ensures lastSentPacketId == (old(lastSentPacketId) + 1) % WRAP
      ensures r == Overflowed <==> num > 255 || total > 255
      ensures r == Overflowed ==> tries == 0 && waiting == old(waiting) && transmissions == old(transmissions)
      ensures r != Overflowed ==>
                transmissions == old(transmissions)
                                 + Repeat(Frame(id, Fragment(num, total, lastSentPacketId, mid, packet)), tries)
      ensures r == Returned ==> 0 < tries <= attempts && (num, tries - 1) in answered
      ensures r == Returned ==> waiting == old(waiting) - {lastSentPacketId}
      ensures r == TimedOut ==> tries == attempts && waiting == old(waiting) + {lastSentPacketId}
      ensures r != Overflowed ==> forall t | 0 <= t < tries && (r == TimedOut || t < tries - 1) :: (num, t) !in answered
      ensures r != Overflowed ==> (r == Returned <==> Answered(answered, num, attempts))
    {
      lastSentPacketId := (lastSentPacketId + 1) % WRAP;
      tries := 0;
      if num > 255 || total > 255 {
        return Overflowed, 0;
      }
      var t := Frame(id, Fragment(num, total, lastSentPacketId, mid, packet));
      assert Encodable(t.fragment);
      waiting := waiting + {lastSentPacketId};
      while tries < attempts
        invariant tries <= attempts && waiting == old(waiting) + {lastSentPacketId}
        invariant transmissions == old(transmissions) + Repeat(t, tries)
        invariant lastSentPacketId == (old(lastSentPacketId) + 1) % WRAP
        invariant forall k | 0 <= k < tries :: (num, k) !in answered
      {
        transmissions := transmissions + [t];
        tries := tries + 1;
        if (num, tries - 1) in answered {
          waiting := waiting - {lastSentPacketId};
          return Returned, tries;
        }
      }
      return TimedOut, tries;
    }

    /** The parts of one message in turn, up to the first that is never answered. */
    method SendAll(id: nat, parts: seq<seq<byte>>, mid: nat, answered: set<(nat, nat)>)
      returns (r: Outcome, counts: seq<nat>)
      requires Valid() && mid < WRAP && parts != []
      modifies `lastSentPacketId, `waiting, `transmissions
      ensures Valid()
      ensures r == Overflowed <==> |parts| > 255
      ensures r == Overflowed ==> transmissions == old(transmissions) && counts == []
      ensures r != Overflowed ==> (r == Returned <==> forall i: nat | i < |parts| :: Answered(answered, i, attempts))
      ensures |counts| <= |parts| && (r == Returned ==> |counts| == |parts|)
      ensures r != Overflowed ==>
                transmissions == old(transmissions) + Rounds(id, parts, mid, old(lastSentPacketId), counts)
      ensures forall i | 0 <= i < |counts| :: counts[i] <= attempts
      ensures waiting == WaitingAfter(old(waiting), old(lastSentPacketId), |counts|, r)
      ensures lastSentPacketId == NthPid(old(lastSentPacketId), if r == Overflowed then 1 else |counts|)
    {
      ghost var pid := lastSentPacketId;
      counts := [];
      r := Returned;
      var i := 0;
      while i < |parts| && r == Returned
        invariant Valid() && i <= |parts|
        invariant r == Returned ==> |counts| == i && lastSentPacketId == NthPid(pid, i)
        invariant r == TimedOut ==> |counts| == i + 1 <= |parts| && !Answered(answered, i, attempts)
        invariant r != Returned ==> lastSentPacketId == NthPid(pid, i + 1)
        invariant waiting == WaitingAfter(old(waiting), pid, |counts|, r)
        invariant r == Overflowed ==> i == 0
        invariant r == Overflowed <==> |parts| > 255 && !(r == Returned && i == 0)
        invariant |parts| > 255 ==> counts == [] && transmissions == old(transmissions)
        invariant |parts| <= 255 ==>
                    && |counts| <= |parts|
                    && transmissions == old(transmissions) + Rounds(id, parts, mid, pid, counts)
        invariant forall j | 0 <= j < |counts| :: counts[j] <= attempts
        invariant forall j: nat | j < i :: Answered(answered, j, attempts)
        decreases |parts| - i, r == Returned
      {
        NextPid(pid, i);
        var tries;
        r, tries := Send(id, parts[i], i, |parts|, mid, answered);
        if r != Overflowed {
          RoundsExtend(id, parts, mid, pid, counts, tries);
          counts := counts + [tries];
        }
        if r == Returned {
          i := i + 1;
        }
      }
    }

    /** send_msg: every fragment within attempts transmissions, or an error; no more than attempts * n in all. */
    method SendMsg(id: nat, msg: seq<byte>, answered: set<(nat, nat)>)
      returns (r: Outcome, n: nat, counts: seq<nat>)
      requires Valid()
      modifies `messageId, `lastSentPacketId, `waiting, `transmissions
      ensures Valid() && messageId == (old(messageId) + 1) % WRAP && n == NumPackets(|msg|, psz)
      ensures r == Overflowed <==> |msg| > 255 * psz
      ensures r == Overflowed ==> transmissions == old(transmissions) && counts == []
      ensures r != Overflowed ==> (r == Returned <==> forall i: nat | i < n :: Answered(answered, i, attempts))
      ensures |counts| <= n && (r == Returned ==> |counts| == n)
      ensures r != Overflowed ==>
                && n < 256
                && transmissions == old(transmissions)
                                    + Rounds(id, Chunks(msg, psz, n), old(messageId), old(lastSentPacketId), counts)
      ensures forall i | 0 <= i < |counts| :: counts[i] <= attempts
      ensures |transmissions| - |old(transmissions)| == Sum(counts) <= attempts * n
      ensures waiting == WaitingAfter(old(waiting), old(lastSentPacketId), |counts|, r)
      ensures lastSentPacketId == NthPid(old(lastSentPacketId), if r == Overflowed then 1 else |counts|)
    {
      n := NumPackets(|msg|, psz);
      FitsInOneByte(|msg|, psz);
      var mid := messageId;
      messageId := (messageId + 1) % WRAP;
      r, counts := SendAll(id, Chunks(msg, psz, n), mid, answered);
      SumBound(counts, attempts, n);
      if r != Overflowed {
        RoundsLength(id, Chunks(msg, psz, n), mid, old(lastSentPacketId), counts);
      }
    }
  }
}
