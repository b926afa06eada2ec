// Datagram framing of python/protocol_core.py: big-endian integers, the CRC trailer, and the two
// frame layouts (a client names its connection, a server does not).
module Framing {
  import opened Basics
  import opened Words
  import opened Crc32

  // ------------------------------------------------------------------ int.to_bytes, int.from_bytes

  function Pow256(w: nat): nat {
    if w == 0 then 1 else 256 * Pow256(w - 1)
  }

  /** The byte of value n. */
  function ByteOf(n: nat): (b: byte)
    requires n < 256
    ensures b as int == n
  {
    if n == 0 then 0 else NextByte(ByteOf(n - 1)); ByteOf(n - 1) + 1
  }

  lemma NextByte(b: byte)
    ensures b as int < 255 ==> (b + 1) as int == b as int + 1
  {
  }

  function BigEndian(n: nat, w: nat): (s: seq<byte>)
    requires n < Pow256(w)
    ensures |s| == w
  {
    if w == 0 then [] else BigEndian(n / 256, w - 1) + [ByteOf(n % 256)]
  }

  /** int.from_bytes(s, 'big'); the empty string reads as zero. */
  function FromBytes(s: seq<byte>): nat {
    if s == [] then 0 else 256 * FromBytes(s[..|s| - 1]) + s[|s| - 1] as int
  }

  lemma {:induction false} FromBigEndian(n: nat, w: nat)
    requires n < Pow256(w)
    ensures FromBytes(BigEndian(n, w)) == n
  {
    if w > 0 {
      FromBigEndian(n / 256, w - 1);
      assert BigEndian(n, w)[..w - 1] == BigEndian(n / 256, w - 1);
    }
  }

  lemma ByteBack(b: byte)
    ensures 0 <= b as int < 256 && ByteOf(b as int) == b
  {
    SameByte(ByteOf(b as int), b);
  }

  lemma SameByte(a: byte, b: byte)
    requires a as int == b as int
    ensures a == b
  {
  }

  lemma BigEndianStep(high: nat, b: byte, w: nat)
    requires high < Pow256(w)
    ensures 0 <= b as int && 256 * high + b as int < Pow256(w + 1)
    ensures BigEndian(256 * high + b as int, w + 1) == BigEndian(high, w) + [b]
  {
    ByteBack(b);
    DigitsBack(high, b as int);
  }

  /** Writing back what was read. */
  lemma {:induction false} BigEndianBack(s: seq<byte>)
    ensures FromBytes(s) < Pow256(|s|) && BigEndian(FromBytes(s), |s|) == s
  {
    if s != [] {
      var k := |s| - 1;
      BigEndianBack(s[..k]);
      BigEndianStep(FromBytes(s[..k]), s[k], k);
    }
  }

  lemma DigitsBack(high: nat, low: nat)
    requires low < 256
    ensures (256 * high + low) / 256 == high && (256 * high + low) % 256 == low
  {
  }

  lemma {:induction false} PowPositive(w: nat)
    ensures Pow256(w) > 0
  {
    if w > 0 {
      PowPositive(w - 1);
    }
  }

  lemma DivDiv(n: nat, d: nat)
    requires d > 0
    ensures (n / 256) / d == n / (256 * d)
  {
    var q, r := n / 256 / d, n / 256 % d;
    assert n / 256 == d * q + r && n == 256 * (n / 256) + n % 256;
    assert 256 * (d * q) == (256 * d) * q;
    QuotientIs(n, 256 * d, q, 256 * r + n % 256);
  }

  lemma SmallMultiple(d: int, x: int)
    requires -d < d * x < d
    ensures x == 0
  {
  }

  lemma QuotientIs(n: nat, d: nat, q: nat, r: nat)
    requires r < d && n == d * q + r
    ensures n / d == q
  {
    var p := n / d;
    assert d * (p - q) == d * p - d * q;
    SmallMultiple(d, p - q);
  }

  /** The most significant byte comes first. */
  lemma {:induction false} BigEndianAt(n: nat, w: nat, i: nat)
    requires n < Pow256(w) && i < w
    ensures Pow256(w - 1 - i) > 0 && BigEndian(n, w)[i] as int == n / Pow256(w - 1 - i) % 256
  {
    PowPositive(w - 1 - i);
    if i < w - 1 {
      BigEndianAt(n / 256, w - 1, i);
      PowPositive(w - 2 - i);
      DivDiv(n, Pow256(w - 2 - i));
    }
  }

  lemma Widths()
    ensures Pow256(1) == 256 && Pow256(4) == 0x1_0000_0000
  {
    assert Pow256(2) == 65536;
  }

  // ------------------------------------------------------------------ slices

  /** s[lo:hi] in Python: bounds past the end are cut back. */
  function Slice(s: seq<byte>, lo: nat, hi: nat): seq<byte> {
    var h := if hi < |s| then hi else |s|;
    if lo <= h then s[lo..h] else []
  }

  function From(s: seq<byte>, lo: nat): seq<byte> { Slice(s, lo, |s|) }

  // ------------------------------------------------------------------ trailer

  function Number(c: bv32): nat { c as int }

  function WordOfNumber(n: nat): bv32
    requires n < Pow256(4)
  {
    Widths();
    n as bv32
  }

  lemma NumberBack(c: bv32)
    ensures Number(c) < Pow256(4) && WordOfNumber(Number(c)) == c
  {
    Widths();
  }

  function Trailer(body: seq<byte>): (t: seq<byte>)
    ensures |t| == 4
  {
    NumberBack(Crc(body));
    BigEndian(Number(Crc(body)), 4)
  }

  function Seal(body: seq<byte>): seq<byte> {
    body + Trailer(body)
  }

  /** The receive loops: split off the last four bytes and compare. */
  function Unseal(frame: seq<byte>): Option<seq<byte>> {
    var cut := if |frame| < 4 then 0 else |frame| - 4;
    if Trailer(frame[..cut]) != frame[cut..] then None else Some(frame[..cut])
  }

  /** The trailer is the checksum, most significant byte first. */
  lemma TrailerValue(body: seq<byte>)
    ensures FromBytes(Trailer(body)) == Number(Crc(body))
  {
    NumberBack(Crc(body));
    FromBigEndian(Number(Crc(body)), 4);
  }

  lemma TrailerInjective(a: seq<byte>, b: seq<byte>)
    requires Trailer(a) == Trailer(b)
    ensures Crc(a) == Crc(b)
  {
    NumberBack(Crc(a));
    NumberBack(Crc(b));
    FromBigEndian(Number(Crc(a)), 4);
    FromBigEndian(Number(Crc(b)), 4);
  }

  /** A frame passes the check exactly when it is some body with that body's trailer. */
  lemma UnsealExact(frame: seq<byte>, body: seq<byte>)
    ensures Unseal(frame) == Some(body) <==> frame == Seal(body)
  {
    if frame == Seal(body) {
      assert frame[..|frame| - 4] == body && frame[|frame| - 4..] == Trailer(body);
    }
    if Unseal(frame) == Some(body) {
      var cut := if |frame| < 4 then 0 else |frame| - 4;
      assert frame == frame[..cut] + frame[cut..];
    }
  }

  /** A change confined to four consecutive bytes before an intact trailer is always rejected. */
  lemma WindowRejected(before: seq<byte>, x: seq<byte>, y: seq<byte>, after: seq<byte>)
    requires |x| == |y| <= 4 && x != y
    ensures Unseal(before + y + after + Trailer(before + x + after)) == None
  {
    var sent, got := before + x + after, before + y + after;
    var frame := got + Trailer(sent);
    assert frame[..|frame| - 4] == got && frame[|frame| - 4..] == Trailer(sent);
    CrcDetectsWindow(before, x, y, after);
    if Trailer(got) == Trailer(sent) {
      TrailerInjective(got, sent);
    }
  }

  /** So is any change of one run of at most 32 bits, wherever it starts in the body. */
  lemma BurstRejected(sent: seq<byte>, got: seq<byte>,
                      before: seq<bool>, x: seq<bool>, y: seq<bool>, after: seq<bool>)
    requires Bits(sent) == before + x + after && Bits(got) == before + y + after
    requires |x| == |y| <= 32 && sent != got
    ensures Unseal(got + Trailer(sent)) == None
  {
    var frame := got + Trailer(sent);
    assert frame[..|frame| - 4] == got && frame[|frame| - 4..] == Trailer(sent);
    CrcDetectsBurst(sent, got, before, x, y, after);
    if Trailer(got) == Trailer(sent) {
      TrailerInjective(got, sent);
    }
  }

  // ------------------------------------------------------------------ the two frame layouts

  /** What a receive loop hands on: the packet id, the connection named (server side), the rest. */
  datatype Datagram = Datagram(id: nat, connection: nat, data: seq<byte>)

  function ClientFrame(id: nat, idHash: seq<byte>, data: seq<byte>): seq<byte>
    requires id < 256
  {
    Widths();
    Seal(BigEndian(id, 1) + idHash + data)
  }

  function ServerFrame(id: nat, data: seq<byte>): seq<byte>
    requires id < 256
  {
    Widths();
    Seal(BigEndian(id, 1) + data)
  }

  function ServerReceive(frame: seq<byte>): Option<Datagram> {
    match Unseal(frame)
    case None => None
    case Some(body) => Some(Datagram(FromBytes(Slice(body, 0, 1)), FromBytes(Slice(body, 1, 5)), From(body, 5)))
  }

  function ClientReceive(frame: seq<byte>): Option<Datagram> {
    match Unseal(frame)
    case None => None
    case Some(body) => Some(Datagram(FromBytes(Slice(body, 0, 1)), 0, From(body, 1)))
  }

  /** What a client frames, the server reads back, for every id, connection and payload. */
  lemma ClientToServer(id: nat, connection: nat, data: seq<byte>)
    requires id < 256 && connection < Pow256(4)
    ensures ServerReceive(ClientFrame(id, BigEndian(connection, 4), data)) == Some(Datagram(id, connection, data))
  {
    Widths();
    var hash := BigEndian(connection, 4);
    var body := BigEndian(id, 1) + hash + data;
    UnsealExact(Seal(body), body);
    FromBigEndian(id, 1);
    FromBigEndian(connection, 4);
    assert Slice(body, 0, 1) == BigEndian(id, 1);
    assert Slice(body, 1, 5) == hash;
    assert From(body, 5) == data;
  }

  lemma ServerToClient(id: nat, data: seq<byte>)
    requires id < 256
    ensures ClientReceive(ServerFrame(id, data)) == Some(Datagram(id, 0, data))
  {
    Widths();
    var body := BigEndian(id, 1) + data;
    UnsealExact(Seal(body), body);
    FromBigEndian(id, 1);
    assert Slice(body, 0, 1) == BigEndian(id, 1);
    assert From(body, 1) == data;
  }

  // ------------------------------------------------------------------ what the receive loops let through

  /** The server drops exactly the datagrams that are no body with its trailer. */
  lemma ServerDrops(frame: seq<byte>)
    ensures ServerReceive(frame) == None <==> forall body :: frame != Seal(body)
  {
    Drops(frame);
  }

  lemma ClientDrops(frame: seq<byte>)
    ensures ClientReceive(frame) == None <==> forall body :: frame != Seal(body)
  {
    Drops(frame);
  }

  lemma Drops(frame: seq<byte>)
    ensures Unseal(frame) == None <==> forall body :: frame != Seal(body)
  {
    if Unseal(frame) == None {
      forall body
        ensures frame != Seal(body)
      {
        UnsealExact(frame, body);
      }
    } else {
      UnsealExact(frame, Unseal(frame).value);
    }
  }

  lemma ServerFields(body: seq<byte>, id: nat, connection: nat)
    requires |body| >= 5 && FromBytes(body[..1]) == id && FromBytes(body[1..5]) == connection
    ensures id < Pow256(1) && connection < Pow256(4)
    ensures body == BigEndian(id, 1) + BigEndian(connection, 4) + body[5..]
  {
    BigEndianBack(body[..1]);
    BigEndianBack(body[1..5]);
  }

  /** What the server hands on of a datagram with room for the fields is what a client framed, and nothing else. */
  lemma ServerExact(frame: seq<byte>, id: nat, connection: nat, data: seq<byte>)
    requires id < 256 && connection < Pow256(4) && |frame| >= 9
    ensures ServerReceive(frame) == Some(Datagram(id, connection, data))
            <==> frame == ClientFrame(id, BigEndian(connection, 4), data)
  {
    Widths();
    ClientToServer(id, connection, data);
    if ServerReceive(frame) == Some(Datagram(id, connection, data)) {
      var body := Unseal(frame).value;
      UnsealExact(frame, body);
      ServerSlices(body);
      ServerFields(body, id, connection);
      assert frame == Seal(BigEndian(id, 1) + BigEndian(connection, 4) + data);
    }
  }

  lemma ServerSlices(body: seq<byte>)
    requires |body| >= 5
    ensures Slice(body, 0, 1) == body[..1] && Slice(body, 1, 5) == body[1..5] && From(body, 5) == body[5..]
  {
  }

  lemma ClientExact(frame: seq<byte>, id: nat, data: seq<byte>)
    requires id < 256 && |frame| >= 5
    ensures ClientReceive(frame) == Some(Datagram(id, 0, data)) <==> frame == ServerFrame(id, data)
  {
    ServerToClient(id, data);
    if ClientReceive(frame) == Some(Datagram(id, 0, data)) {
      Widths();
      var body := Unseal(frame).value;
      UnsealExact(frame, body);
      BigEndianBack(Slice(body, 0, 1));
      assert body == Slice(body, 0, 1) + From(body, 1);
    }
  }

  /** The layout on the wire: id, connection, data, and the checksum of them all. */
  lemma ClientLayout(id: nat, idHash: seq<byte>, data: seq<byte>)
    requires id < 256 && |idHash| == 4
    ensures var f := ClientFrame(id, idHash, data);
            && |f| == 9 + |data| && f[0] as int == id && f[1..5] == idHash && f[5..|f| - 4] == data
            && FromBytes(f[|f| - 4..]) == Number(Crc(f[..|f| - 4]))
  {
    Widths();
    OneByte(id);
    var first := BigEndian(id, 1);
    SealedLayout(first, idHash, data);
    assert first + idHash + data == first + (idHash + data);
  }

  lemma ServerLayout(id: nat, data: seq<byte>)
    requires id < 256
    ensures var f := ServerFrame(id, data);
            && |f| == 5 + |data| && f[0] as int == id && f[1..|f| - 4] == data
            && FromBytes(f[|f| - 4..]) == Number(Crc(f[..|f| - 4]))
  {
    Widths();
    OneByte(id);
    SealedLayout(BigEndian(id, 1), [], data);
    assert [] + data == data;
  }

  lemma OneByte(id: nat)
    requires id < Pow256(1)
    ensures |BigEndian(id, 1)| == 1 && BigEndian(id, 1)[0] as int == id
  {
    Widths();
    assert id / 256 == 0 && id % 256 == id;
    assert BigEndian(id, 1) == BigEndian(0, 0) + [ByteOf(id)];
  }

  lemma SealedLayout(first: seq<byte>, second: seq<byte>, data: seq<byte>)
    requires |first| == 1
    ensures var f := Seal(first + (second + data));
            && |f| == 5 + |second| + |data| && f[0] == first[0] && f[1..1 + |second|] == second
            && f[1 + |second|..|f| - 4] == data && FromBytes(f[|f| - 4..]) == Number(Crc(f[..|f| - 4]))
  {
    var body := first + (second + data);
    TrailerValue(body);
    var f := Seal(body);
    assert f[..|f| - 4] == body && f[|f| - 4..] == Trailer(body);
  }
}
