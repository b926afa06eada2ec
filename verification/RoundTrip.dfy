// From send_msg to delivery over a network that behaves: split, header, frame, check, dispatch and
// reassembly compose to the identity, in either direction.
module RoundTrip {
  import opened Basics
  import opened Words
  import opened Framing
  import opened InnerChannel

  const BUFFER := 1500   // recvfrom(1500), bytearray(1500)
  const PSZ := 1280

  /** What the server knows: whether the sender's address has a connection, and which connections there are. */
  datatype Registry = Registry(addressKnown: bool, connections: set<nat>)

  /** Which end sends: a client names its connection in every frame, a server does not. */
  datatype Side = FromClient(connection: nat, registry: Registry) | FromServer

  predicate GoodSide(side: Side) { side.FromClient? ==> side.connection < WRAP }

  /** A client frame that the server takes for a request to open a connection. */
  predicate Opening(side: Side, id: nat) {
    side.FromClient? && id == 0 && side.connection == 0 && !side.registry.addressKnown
  }

  /** A frame that reaches the channel of the connection it names. */
  predicate Registered(side: Side, id: nat) {
    side.FromClient? ==> side.connection in side.registry.connections && !Opening(side, id)
  }

  function FrameOf(side: Side, id: nat, data: seq<byte>): seq<byte>
    requires GoodSide(side) && id < 256
  {
    Widths();
    match side
    case FromClient(c, _) => ClientFrame(id, BigEndian(c, 4), data)
    case FromServer => ServerFrame(id, data)
  }

  function ReceiveFrom(side: Side, frame: seq<byte>): Option<Datagram> {
    match side
    case FromClient(_, _) => ServerReceive(frame)
    case FromServer => ClientReceive(frame)
  }

  /** What a received frame asks for: nothing, a new connection, filing a fragment, noting an acknowledgement. */
  datatype Reading = Nothing | Opens | File(id: nat, fragment: Fragment) | Acked(pid: nat)

  function Interpret(d: Datagram): Reading {
    match Route(d)
    case Put(id, data) => File(id, Decode(data))
    case Ack(pid) => Acked(pid)
    case Ignored => Nothing
  }

  /** The server's receive loop: open a connection, hand on to the connection named, or drop. */
  function Dispatch(registry: Registry, d: Datagram): Reading {
    if d.id == 0 && d.connection == 0 && !registry.addressKnown then Opens
    else if d.connection in registry.connections then Interpret(d)
    else Nothing
  }

  function Read(side: Side, frame: seq<byte>): Reading {
    match ReceiveFrom(side, frame)
    case None => Nothing
    case Some(d) => if side.FromClient? then Dispatch(side.registry, d) else Interpret(d)
  }

  function ReadAll(side: Side, frames: seq<seq<byte>>): (r: seq<Reading>)
    ensures |r| == |frames| && forall i | 0 <= i < |r| :: r[i] == Read(side, frames[i])
  {
    seq(|frames|, i requires 0 <= i < |frames| => Read(side, frames[i]))
  }

  /** The docks and the hand-off queue after a series of readings. */
  function Apply(docks: Docks, rs: seq<Reading>): (Docks, seq<Delivery>) {
    if rs == [] then (docks, [])
    else
      var (before, made) := Apply(docks, rs[..|rs| - 1]);
      match rs[|rs| - 1]
      case File(id, f) => Filed(before, made, id, f)
      case _ => (before, made)
  }

  function Filed(docks: Docks, made: seq<Delivery>, id: nat, f: Fragment): (Docks, seq<Delivery>) {
    var r := Store(docks, id, f);
    (r.docks, if r.delivery.Some? then made + [r.delivery.value] else made)
  }

  /** One part of a message, framed under a packet number. */
  function PartFrame(side: Side, id: nat, parts: seq<seq<byte>>, mid: nat, pid: nat, i: nat): seq<byte>
    requires GoodSide(side) && id < 10 && i < |parts| < 256 && mid < WRAP && pid < WRAP
  {
    FrameOf(side, id, Encode(Fragment(i, |parts|, pid, mid, parts[i])))
  }

  lemma FrameReceived(side: Side, id: nat, data: seq<byte>)
    requires GoodSide(side) && id < 256
    ensures var d := ReceiveFrom(side, FrameOf(side, id, data));
            && d.Some? && d.value.id == id && d.value.data == data
            && (side.FromClient? ==> d.value.connection == side.connection)
  {
    Widths();
    match side
    case FromClient(c, _) => ClientToServer(id, c, data);
    case FromServer => ServerToClient(id, data);
  }

  lemma FragmentInterpreted(d: Datagram, f: Fragment)
    requires Encodable(f) && d.id < 10 && d.data == Encode(f)
    ensures Interpret(d) == File(d.id, f)
  {
    DecodeEncode(f);
  }

  /** A fragment is filed by the channel of its connection exactly when the server has that connection. */
  lemma FrameRead(side: Side, id: nat, f: Fragment)
    requires GoodSide(side) && id < 10 && Encodable(f)
    ensures Read(side, FrameOf(side, id, Encode(f)))
            == if Opening(side, id) then Opens else if Registered(side, id) then File(id, f) else Nothing
  {
    FrameReceived(side, id, Encode(f));
    FragmentInterpreted(ReceiveFrom(side, FrameOf(side, id, Encode(f))).value, f);
  }

  lemma AckInterpreted(d: Datagram, f: Fragment)
    requires Encodable(f) && d.id == 10 && d.data == AckOf(Encode(f))
    ensures Interpret(d) == Acked(f.pid)
  {
    DecodeEncode(f);
    assert Slice(d.data, 0, 4) == d.data;
  }

  /** An acknowledgement comes back to a sender that is still connected as its fragment's packet number. */
  lemma AckArrives(side: Side, f: Fragment)
    requires GoodSide(side) && Encodable(f)
    ensures Read(side, FrameOf(side, 10, AckOf(Encode(f)))) == if Registered(side, 10) then Acked(f.pid) else Nothing
  {
    var a := AckOf(Encode(f));
    FrameReceived(side, 10, a);
    AckInterpreted(ReceiveFrom(side, FrameOf(side, 10, a)).value, f);
  }

  /** Every frame of a message fits the receive buffers. */
  lemma FrameFits(side: Side, id: nat, msg: seq<byte>, n: nat, mid: nat, pid: nat, i: nat)
    requires GoodSide(side) && id < 10 && i < n < 256 && mid < WRAP && pid < WRAP
    ensures |PartFrame(side, id, Chunks(msg, PSZ, n), mid, pid, i)| <= 1299 < BUFFER
  {
    ChunkSize(msg, PSZ, i);
  }

  /** The dock of a message after its first k parts. */
  function Partial(parts: seq<seq<byte>>, k: nat): seq<seq<byte>>
    requires k <= |parts|
  {
    parts[..k] + EmptyDock(|parts| - k)
  }

  lemma PartialNext(parts: seq<seq<byte>>, k: nat)
    requires k < |parts|
    ensures Partial(parts, k)[k := parts[k]] == Partial(parts, k + 1)
    ensures Partial(parts, 0) == EmptyDock(|parts|)
    ensures Partial(parts, |parts|) == parts
  {
  }

  lemma StoreNext(docks: Docks, id: nat, parts: seq<seq<byte>>, mid: nat, pid: nat, k: nat)
    requires k < |parts| && (if k == 0 then mid !in docks else mid in docks && docks[mid] == Partial(parts, k))
    ensures Store(docks, id, Fragment(k, |parts|, pid, mid, parts[k]))
            == if k + 1 < |parts| then Stored(docks[mid := Partial(parts, k + 1)], None, false)
               else Stored(docks - {mid}, Some(Delivery(Flatten(parts), id, mid)), false)
  {
    PartialNext(parts, k);
    assert DockOf(docks, Fragment(k, |parts|, pid, mid, parts[k])) == Partial(parts, k);
  }

  ghost predicate GoodPids(pids: seq<nat>, n: nat) {
    |pids| == n && forall i | 0 <= i < n :: pids[i] < WRAP
  }

  /** Frames of the first k parts, under any packet numbers. */
  ghost function Frames(side: Side, id: nat, parts: seq<seq<byte>>, mid: nat, pids: seq<nat>, k: nat)
    : (r: seq<seq<byte>>)
    requires GoodSide(side) && id < 10 && k <= |parts| < 256 && mid < WRAP && GoodPids(pids, |parts|)
    ensures |r| == k && forall i | 0 <= i < k :: r[i] == PartFrame(side, id, parts, mid, pids[i], i)
  {
    seq(k, i requires 0 <= i < k => PartFrame(side, id, parts, mid, pids[i], i))
  }

  /** The docks and deliveries after the first k parts. */
  ghost function After(docks: Docks, id: nat, parts: seq<seq<byte>>, mid: nat, k: nat): (Docks, seq<Delivery>)
    requires k <= |parts|
  {
    if k == 0 then (docks, [])
    else if k < |parts| then (docks[mid := Partial(parts, k)], [])
    else (docks, [Delivery(Flatten(parts), id, mid)])
  }

  lemma AfterStored(docks: Docks, id: nat, parts: seq<seq<byte>>, mid: nat, pid: nat, k: nat)
    requires k < |parts| && mid !in docks
    ensures var (before, made) := After(docks, id, parts, mid, k);
            && made == []
            && Filed(before, [], id, Fragment(k, |parts|, pid, mid, parts[k])) == After(docks, id, parts, mid, k + 1)
  {
    var before := After(docks, id, parts, mid, k).0;
    StoreNext(before, id, parts, mid, pid, k);
    assert before[mid := Partial(parts, k + 1)] == docks[mid := Partial(parts, k + 1)];
    assert before - {mid} == docks;
    assert [] + [Delivery(Flatten(parts), id, mid)] == [Delivery(Flatten(parts), id, mid)];
  }

  lemma {:induction false} PrefixFiled(docks: Docks, id: nat, parts: seq<seq<byte>>, mid: nat, pids: seq<nat>,
                                       rs: seq<Reading>)
    requires |rs| <= |parts| == |pids| && mid !in docks
    requires forall i | 0 <= i < |rs| :: rs[i] == File(id, Fragment(i, |parts|, pids[i], mid, parts[i]))
    ensures Apply(docks, rs) == After(docks, id, parts, mid, |rs|)
  {
    if rs != [] {
      var k := |rs| - 1;
      PrefixFiled(docks, id, parts, mid, pids, rs[..k]);
      AfterStored(docks, id, parts, mid, pids[k], k);
    }
  }

  /**
   * On a connection the server has, every message of at most 255 packets, the empty one included, is delivered whole
   * and leaves no dock behind.
   */
  lemma MessageRoundTrip(side: Side, docks: Docks, id: nat, msg: seq<byte>, psz: nat, mid: nat, pids: seq<nat>)
    requires GoodSide(side) && Registered(side, id) && id < 10 && mid < WRAP && mid !in docks
    requires psz > 0 && |msg| <= 255 * psz && GoodPids(pids, NumPackets(|msg|, psz))
    ensures var parts := Chunks(msg, psz, NumPackets(|msg|, psz));
            && |parts| < 256
            && Apply(docks, ReadAll(side, Frames(side, id, parts, mid, pids, |parts|)))
               == (docks, [Delivery(msg, id, mid)])
  {
    FitsInOneByte(|msg|, psz);
    var parts := Chunks(msg, psz, NumPackets(|msg|, psz));
    var rs := ReadAll(side, Frames(side, id, parts, mid, pids, |parts|));
    forall i | 0 <= i < |parts|
      ensures rs[i] == File(id, Fragment(i, |parts|, pids[i], mid, parts[i]))
    {
      FrameRead(side, id, Fragment(i, |parts|, pids[i], mid, parts[i]));
    }
    PrefixFiled(docks, id, parts, mid, pids, rs);
    SplitJoin(msg, psz);
  }

  // ------------------------------------------------------------------ damaged frames

  /** A datagram that is no body with its trailer asks for nothing, in either direction. */
  lemma DroppedUnread(side: Side, frame: seq<byte>)
    requires forall body :: frame != Seal(body)
    ensures Read(side, frame) == Nothing
  {
    ServerDrops(frame);
    ClientDrops(frame);
  }

  /** So a frame altered inside four consecutive bytes before its trailer is not acted on. */
  lemma WindowUnread(side: Side, before: seq<byte>, x: seq<byte>, y: seq<byte>, after: seq<byte>)
    requires |x| == |y| <= 4 && x != y
    ensures Read(side, before + y + after + Trailer(before + x + after)) == Nothing
  {
    WindowRejected(before, x, y, after);
    Drops(before + y + after + Trailer(before + x + after));
    DroppedUnread(side, before + y + after + Trailer(before + x + after));
  }

  /** Nor is one altered inside a run of at most 32 bits. */
  lemma BurstUnread(side: Side, sent: seq<byte>, got: seq<byte>,
                    before: seq<bool>, x: seq<bool>, y: seq<bool>, after: seq<bool>)
    requires Bits(sent) == before + x + after && Bits(got) == before + y + after
    requires |x| == |y| <= 32 && sent != got
    ensures Read(side, got + Trailer(sent)) == Nothing
  {
    BurstRejected(sent, got, before, x, y, after);
    Drops(got + Trailer(sent));
    DroppedUnread(side, got + Trailer(sent));
  }
}
