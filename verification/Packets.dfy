// NetworkPacket and convert_vector_to_array of cpp/stuff.hpp.
module Packets {
  import opened Basics
  import opened Words

  const PACKET_BYTES := 1500

  datatype Endpoint = Endpoint(ip: nat, port: nat)

  datatype Packet = Packet(data: seq<byte>, size: nat, addr: Endpoint)

  /** A fixed array of which the first size bytes count. */
  type NetworkPacket = p: Packet | |p.data| == PACKET_BYTES && p.size <= PACKET_BYTES
    witness Packet(seq(PACKET_BYTES, _ => 0), 0, Endpoint(0, 0))

  /** What socket.send_to puts on the wire: the first size bytes, to the packet's own address. */
  datatype Sent = Sent(bytes: seq<byte>, addr: Endpoint)

  function Wire(p: NetworkPacket): Sent {
    Sent(p.data[..p.size], p.addr)
  }

  function Wires(ps: seq<NetworkPacket>): (r: seq<Sent>)
    ensures |r| == |ps| && forall i | 0 <= i < |ps| :: r[i] == Wire(ps[i])
  {
    seq(|ps|, i requires 0 <= i < |ps| => Wire(ps[i]))
  }

  /** None is the runtime_error; garbage is the uninitialised rest of the fixed array. */
  method ConvertVectorToArray(vec: seq<byte>, addr: Endpoint, garbage: seq<byte>) returns (r: Option<NetworkPacket>)
    requires |garbage| == PACKET_BYTES
    ensures r == None <==> |vec| > PACKET_BYTES
    ensures r.Some? ==> Wire(r.value) == Sent(vec, addr)
  {
    if |vec| > PACKET_BYTES {
      return None;
    }
    var data := garbage;
    for i := 0 to |vec|
      invariant |data| == PACKET_BYTES && data[..i] == vec[..i]
    {
      data := data[i := vec[i]];
    }
    r := Some(Packet(data, |vec|, addr));
  }
}
