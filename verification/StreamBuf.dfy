// basic_streambuf of cpp/include/asio/basic_streambuf.hpp: get and put pointers as offsets into one growing
// buffer, held to a plain FIFO of bytes. A thrown length_error is the result false. Where a vector puts its
// elements is an input; pointers are addresses of 64 bits, and sums of them wrap.
module StreamBuf {
  import opened Basics
  import opened Words

  const BUFFER_DELTA := 128
  const INT_MAX := 0x7FFF_FFFF
  const ADDRESSES := 0x1_0000_0000_0000_0000   // one more than SIZE_MAX

  /** static_cast<int> of a size_t. */
  function Int32(n: nat): int {
    var r := n % 0x1_0000_0000;
    if r <= INT_MAX then r else r - 0x1_0000_0000
  }

  /** pbump and gbump move by the amount asked exactly when it fits in an int. */
  lemma CastExact(n: nat)
    ensures Int32(n) == n <==> n <= INT_MAX
  {
  }

  /** How far consume moves the get pointer g, in a buffer at address base that is written up to p. */
  function ConsumeCount(base: nat, g: nat, p: nat, n: nat): int
    requires g <= p
  {
    Int32(if (base + g + n) % ADDRESSES > base + p then p - g else n)
  }

  predicate CountClamps(base: nat, g: nat, p: nat, n: nat)
    requires g <= p
  {
    if base + g + n < ADDRESSES then Min(n, p - g) <= INT_MAX
    else p - g <= INT_MAX && n % 0x1_0000_0000 == p - g
  }

  lemma CountExact(base: nat, g: nat, p: nat, n: nat)
    requires g <= p && base + p < ADDRESSES && n < ADDRESSES
    ensures ConsumeCount(base, g, p, n) == Min(n, p - g) <==> CountClamps(base, g, p, n)
    ensures base + g + n < ADDRESSES ==> ConsumeCount(base, g, p, n) == Int32(Min(n, p - g))
    ensures base + g + n >= ADDRESSES ==> ConsumeCount(base, g, p, n) == Int32(n) && n > p - g
  {
    if base + g + n >= ADDRESSES {
      assert (base + g + n) % ADDRESSES == base + g + n - ADDRESSES;
    }
  }

  class BasicStreambuf {
    const maxSize: nat
    var base: nat    // address of the first byte of the buffer
    var buffer: array<byte>
    var gptr: int    // next byte to read
    var egptr: int   // end of the get area as last set
    var pptr: int    // next byte to write
    var epptr: int   // end of the put area
    ghost var committed: seq<byte>   // every byte ever added to the input sequence
    ghost var consumed: seq<byte>    // every byte ever removed from it

    ghost predicate Shape()
      reads this, buffer
    {
      && 0 <= gptr <= egptr <= pptr <= epptr <= maxSize && buffer.Length == Max(epptr, 1)
      && base + buffer.Length < ADDRESSES
    }

    /** data(): the input sequence. */
    ghost function Contents(): seq<byte>
      reads this, buffer
      requires Shape()
    {
      buffer[..][gptr..pptr]
    }

    /** The put area: where prepared bytes are written. */
    ghost function PutArea(): seq<byte>
      reads this, buffer
      requires Shape()
    {
      buffer[..][pptr..epptr]
    }

    /** FIFO: what went in is what came out followed by what is there; a throw can end that (see ThrowCanCorrupt). */
    ghost predicate Valid()
      reads this, buffer
    {
      Shape() && committed == consumed + Contents()
    }

    function Size(): nat
      reads this
      requires gptr <= pptr
    {
      pptr - gptr
    }

    constructor (maximum: nat, address: nat)
      requires address + Max(Min(maximum, BUFFER_DELTA), 1) < ADDRESSES
      ensures Valid() && fresh(buffer) && maxSize == maximum && Contents() == []
      ensures committed == [] && consumed == [] && base == address
      ensures gptr == pptr == 0 && epptr == Min(maximum, BUFFER_DELTA)
    {
      var pend := Min(maximum, BUFFER_DELTA);
      maxSize := maximum;
      buffer, base := new byte[Max(pend, 1)](_ => 0), address;
      gptr, egptr, pptr, epptr := 0, 0, 0, pend;
      committed, consumed := [], [];
    }

    static method Cast(n: nat) returns (d: int)
      ensures d == Int32(n) && (d == n <==> n <= INT_MAX)
    {
      CastExact(n);
      d := Int32(n);
    }

    /** memmove of the contents to the start of the buffer. */
    method Compact()
      requires Shape()
      modifies buffer
      ensures buffer[..] == old(buffer[..])[gptr..pptr] + old(buffer[..])[pptr - gptr..]
    {
      ghost var was := buffer[..];
      var n := pptr - gptr;
      for i := 0 to n
        invariant forall x | 0 <= x < i :: buffer[x] == was[gptr + x]
        invariant forall x | i <= x < buffer.Length :: buffer[x] == was[x]
      {
        buffer[i] := buffer[gptr + i];
      }
    }

    /** vector::resize to a larger size. */
    method Grow(size: nat, address: nat, ghost kept: nat)
      requires size >= buffer.Length >= kept && address + size < ADDRESSES
      modifies `buffer, `base
      ensures fresh(buffer) && buffer.Length == size && base == address
      ensures buffer[..][..kept] == old(buffer[..])[..kept]
    {
      var from := buffer;
      var bigger := new byte[size](_ => 0);
      for i := 0 to from.Length
        invariant forall x | 0 <= x < i :: bigger[x] == from[x]
        invariant forall x | 0 <= x < from.Length :: from[x] == old(from[x])
      {
        bigger[i] := from[i];
      }
      buffer, base := bigger, address;
      assert buffer[..][..kept] == old(buffer[..])[..kept];
    }

    /** A request that fits can be placed: growing to it succeeds, at this address. */
    ghost predicate Placed(n: nat, address: nat)
      reads this
      requires gptr <= pptr
    {
      Size() + n <= maxSize ==> address + Max(Size() + n, 1) < ADDRESSES
    }

    /**
     * Throws exactly when the request does not fit under max_size. When it throws the bytes have already been moved
     * but the pointers have not, so the input sequence reads as Shuffled.
     */
    method Reserve(n: nat, address: nat) returns (ok: bool)
      requires Shape() && Placed(n, address)
      modifies this, buffer
      ensures Shape() && (fresh(buffer) || buffer == old(buffer))
      ensures ok <==> old(Size()) + n <= maxSize
      ensures committed == old(committed) && consumed == old(consumed)
      ensures gptr == (if ok && n > old(epptr - pptr) then 0 else old(gptr)) && Size() == old(Size())
      ensures epptr == (if ok then Max(old(epptr), old(Size()) + n) else old(epptr)) && (ok ==> epptr - pptr >= n)
      ensures !ok || n <= old(epptr - pptr) ==> egptr == old(egptr) && buffer == old(buffer) && base == old(base)
      ensures Contents() == if ok then old(Contents()) else Shuffled(old(Contents()), old(gptr))
      ensures ok && old(Valid()) ==> Valid()
    {
      if n <= epptr - pptr {
        return true;
      }
      ok := Relocate(n, address);
    }

    /** The contents go to the start of the buffer; under the unmoved pointers they read as Shuffled. */
    method Slide() returns (pnext: int)
      requires Shape()
      modifies buffer
      ensures Shape() && pnext == Size() && buffer[..][..pnext] == old(Contents())
      ensures Contents() == Shuffled(old(Contents()), gptr)
    {
      ghost var was := buffer[..];
      MovedDown(was, gptr, pptr);
      pnext := pptr;
      if gptr > 0 {
        pnext := pnext - gptr;
        Compact();
        assert buffer[..] == was[gptr..pptr] + was[pptr - gptr..];
      } else {
        assert was[..pptr] == was[gptr..pptr];
      }
    }

    /** setg and setp at the end of reserve. */
    method SetPointers(pnext: int, pend: int)
      requires 0 <= pnext <= pend <= maxSize && buffer.Length == Max(pend, 1) && base + buffer.Length < ADDRESSES
      modifies `gptr, `egptr, `pptr, `epptr
      ensures Shape() && Contents() == buffer[..][..pnext] && gptr == 0 && pptr == pnext && epptr == pend
    {
      gptr, egptr, pptr, epptr := 0, pnext, pnext, pend;
    }

    /** The buffer does not hold pnext bytes and n more: grow it, or throw. */
    method Enlarge(pnext: int, n: nat, address: nat) returns (ok: bool)
      requires Shape() && pnext == Size() && n > epptr - pnext && Placed(n, address)
      modifies `gptr, `egptr, `pptr, `epptr, `buffer, `base
      ensures Shape() && (ok <==> pnext + n <= maxSize)
      ensures ok ==> fresh(buffer) && Contents() == old(buffer[..][..pnext]) && gptr == 0 && epptr - pptr == n
      ensures !ok ==> unchanged(this) && Contents() == old(Contents())
    {
      ok := n <= maxSize && pnext <= maxSize - n;
      if ok {
        var pend := pnext + n;
        Grow(Max(pend, 1), address, pnext);
        SetPointers(pnext, pend);
      }
    }

    /** The rest of reserve, when the put area is too small: move the contents down, then grow. */
    method Relocate(n: nat, address: nat) returns (ok: bool)
      requires Shape() && n > epptr - pptr && Placed(n, address)
      modifies `gptr, `egptr, `pptr, `epptr, `buffer, `base, buffer
      ensures Shape() && (fresh(buffer) || buffer == old(buffer))
      ensures ok <==> old(Size()) + n <= maxSize
      ensures gptr == (if ok then 0 else old(gptr)) && Size() == old(Size())
      ensures epptr == if ok then Max(old(epptr), old(Size()) + n) else old(epptr)
      ensures !ok ==> egptr == old(egptr) && buffer == old(buffer) && base == old(base)
      ensures Contents() == if ok then old(Contents()) else Shuffled(old(Contents()), old(gptr))
      ensures ok && old(Valid()) ==> Valid()
    {
      ghost var s := Contents();
      var pnext := Slide();
      assert buffer[..][..pnext] == s && Contents() == Shuffled(s, gptr);
      if n > epptr - pnext {
        ok := Enlarge(pnext, n, address);
        assert if ok then Contents() == s else Contents() == Shuffled(s, gptr);
      } else {
        SetPointers(pnext, epptr);
        assert Contents() == s;
        ok := true;
      }
    }

    method Prepare(n: nat, address: nat) returns (ok: bool)
      requires Shape() && Placed(n, address)
      modifies this, buffer
      ensures Shape() && (fresh(buffer) || buffer == old(buffer))
      ensures ok <==> old(Size()) + n <= maxSize
      ensures Contents() == if ok then old(Contents()) else Shuffled(old(Contents()), old(gptr))
      ensures gptr == (if ok && n > old(epptr - pptr) then 0 else old(gptr)) && (ok ==> |PutArea()| >= n)
      ensures epptr == if ok then Max(old(epptr), old(Size()) + n) else old(epptr)
      ensures !ok || n <= old(epptr - pptr) ==> egptr == old(egptr) && buffer == old(buffer) && base == old(base)
      ensures ok && old(Valid()) ==> Valid()
      ensures committed == old(committed) && consumed == old(consumed)
    {
      ghost var s := Contents();
      ok := Reserve(n, address);
      assert Contents() == if ok then s else Shuffled(s, gptr);
      PutAreaSize();
    }

    lemma PutAreaSize()
      requires Shape()
      ensures |PutArea()| == epptr - pptr
    {
    }

    /** The caller writing into the buffer prepare returned. */
    method WriteAt(i: nat, b: byte)
      requires Shape() && i < epptr - pptr
      modifies buffer
      ensures Shape() && Contents() == old(Contents()) && PutArea() == old(PutArea())[i := b]
    {
      ghost var was := buffer[..];
      buffer[pptr + i] := b;
      assert buffer[..] == was[pptr + i := b];
    }

    /** Writes bytes at the front of the put area. */
    method Fill(bytes: seq<byte>)
      requires Shape() && |bytes| <= epptr - pptr
      modifies buffer
      ensures Shape() && Contents() == old(Contents()) && PutArea()[..|bytes|] == bytes
    {
      for i := 0 to |bytes|
        invariant Shape() && Contents() == old(Contents()) && PutArea()[..i] == bytes[..i]
      {
        WriteAt(i, bytes[i]);
        assert PutArea()[..i + 1] == PutArea()[..i] + [bytes[i]];
      }
      assert bytes[..|bytes|] == bytes;
    }

    /** Moves what was written at the front of the put area to the input sequence, as far as an int can count. */
    method Commit(n: nat)
      requires Shape()
      modifies `pptr, `egptr, `committed
      ensures pptr == old(pptr) + Int32(Min(n, epptr - old(pptr)))
      ensures var k := Min(n, epptr - old(pptr));
              if k <= INT_MAX then
                && Shape() && Contents() == old(Contents()) + old(PutArea())[..k]
                && committed == old(committed) + old(PutArea())[..k] && (old(Valid()) ==> Valid())
              else pptr != old(pptr) + k
    {
      var k := Min(n, epptr - pptr);
      ghost var s, put := Contents(), PutArea();
      SliceMoves(buffer[..], gptr, pptr, epptr, k);
      Reassociate(consumed, s, put[..k]);
      committed := committed + put[..k];
      var d := Cast(k);
      pptr := pptr + d;
      egptr := pptr;
    }

    /**
     * Exactly when consume removes min(n, size) bytes: the pointer sum stays below 2^64 and the count in an int, or
     * the sum wraps and the low half of n happens to be the size.
     */
    predicate Clamps(n: nat)
      reads this
      requires 0 <= gptr <= pptr
    {
      CountClamps(base, gptr, pptr, n)
    }

    /** The test of consume. */
    method Clamp(n: nat) returns (k: nat)
      requires 0 <= gptr <= pptr
      ensures Int32(k) == ConsumeCount(base, gptr, pptr, n)
    {
      k := n;
      if (base + gptr + n) % ADDRESSES > base + pptr {
        k := pptr - gptr;
      }
    }

    /** Removes bytes from the front of the input sequence, when the count clamps; else the get pointer goes astray. */
    method Consume(n: nat)
      requires Shape() && n < ADDRESSES
      modifies `gptr, `egptr, `consumed
      ensures gptr == old(gptr) + Min(n, old(Size())) <==> old(Clamps(n))
      ensures gptr == old(gptr) + if base + old(gptr) + n < ADDRESSES then Int32(Min(n, old(Size()))) else Int32(n)
      ensures old(Clamps(n)) ==> Taken(old(Contents()), old(consumed), Min(n, old(Size())))
      ensures old(Clamps(n)) && old(Valid()) ==> Valid()
      ensures egptr == pptr && (gptr < old(gptr) ==> consumed == old(consumed))
    {
      CountExact(base, gptr, pptr, n);
      if egptr < pptr {
        egptr := pptr;
      }
      var k := Clamp(n);
      var d := Cast(k);
      MoveGet(d);
    }

    /** The first k of these contents have joined these consumed bytes, and the others are the contents. */
    ghost predicate Taken(contents: seq<byte>, before: seq<byte>, k: nat)
      reads this, buffer
    {
      Shape() && k <= |contents| && Contents() == contents[k..] && consumed == before + contents[..k]
    }

    /** gbump: d bytes are taken from the front, as long as there are that many. */
    method MoveGet(d: int)
      requires Shape() && egptr == pptr
      modifies `gptr, `consumed
      ensures gptr == old(gptr) + d
      ensures 0 <= d <= old(Size()) ==> Taken(old(Contents()), old(consumed), d) && (old(Valid()) ==> Valid())
      ensures !(0 <= d <= old(Size())) ==> consumed == old(consumed)
    {
      if 0 <= d <= Size() {
        ghost var s := Contents();
        SliceLeaves(buffer[..], gptr, pptr, d);
        Reassociate(consumed, s[..d], s[d..]);
        consumed := consumed + s[..d];
      }
      gptr := gptr + d;
    }

    /** None is eof. */
    method Underflow() returns (r: Option<byte>)
      requires Shape()
      modifies `egptr
      ensures Shape() && Contents() == old(Contents()) && (old(Valid()) ==> Valid())
      ensures r == (if Contents() == [] then None else Some(Contents()[0]))
      ensures r.Some? ==> egptr == pptr
    {
      if gptr < pptr {
        egptr := pptr;
        return Some(buffer[gptr]);
      }
      return None;
    }

    /** Space for one byte: all that max_size leaves when that is little, else another BUFFER_DELTA. */
    method MakeRoom(address: nat) returns (ok: bool)
      requires Shape() && Placed(Min(BUFFER_DELTA, maxSize - Size()), address)
      modifies this, buffer
      ensures Shape() && (fresh(buffer) || buffer == old(buffer))
      ensures (ok <==> old(Size()) < maxSize) && (ok ==> pptr < epptr)
      ensures Contents() == old(Contents())
      ensures committed == old(committed) && consumed == old(consumed)
    {
      ok := true;
      if pptr == epptr {
        ghost var s := Contents();
        NothingMoves(s);
        var size := pptr - gptr;
        if size < maxSize && maxSize - size < BUFFER_DELTA {
          ok := Reserve(maxSize - size, address);
        } else {
          ok := Reserve(BUFFER_DELTA, address);
        }
      }
    }

    /**
     * c == None is eof, which stores nothing; a real character throws exactly when the buffer is full, and then
     * nothing has been read of it, so the throw leaves the contents alone.
     */
    method Overflow(c: Option<byte>, address: nat) returns (ok: bool)
      requires Shape() && Placed(Min(BUFFER_DELTA, maxSize - Size()), address)
      modifies this, buffer
      ensures Shape() && (fresh(buffer) || buffer == old(buffer))
      ensures ok <==> c == None || old(Size()) < maxSize
      ensures Contents() == old(Contents()) + (if ok && c.Some? then [c.value] else [])
      ensures committed == old(committed) + (if ok && c.Some? then [c.value] else []) && consumed == old(consumed)
      ensures old(Valid()) ==> Valid()
    {
      assert Contents() + [] == Contents() && committed + [] == committed;
      if c == None {
        return true;
      }
      ok := MakeRoom(address);
      if ok {
        StoreOne(c.value);
      }
    }

    /** *pptr() = c and pbump(1). */
    method StoreOne(c: byte)
      requires Shape() && pptr < epptr
      modifies `pptr, `committed, buffer
      ensures Shape() && Contents() == old(Contents()) + [c] && committed == old(committed) + [c]
    {
      ghost var was := buffer[..];
      buffer[pptr] := c;
      assert buffer[..] == was[pptr := c];
      assert buffer[..][gptr..pptr + 1] == was[gptr..pptr] + [c];
      pptr := pptr + 1;
      committed := committed + [c];
    }

    /** read_size_helper; capacity is whatever the vector has allocated. */
    function ReadSize(capacity: nat, limit: nat): (r: nat)
      reads this, buffer
      requires Shape() && capacity >= buffer.Length
      ensures r <= limit && Size() + r <= maxSize && r <= Max(512, capacity - Size())
      ensures r >= Min(512, Min(limit, maxSize - Size())) && r >= Min(capacity - Size(), Min(limit, maxSize - Size()))
    {
      Min(Max(512, capacity - Size()), Min(limit, maxSize - Size()))
    }

    /** Preparing what read_size_helper suggests never throws. */
    method PrepareSuggested(capacity: nat, limit: nat, address: nat) returns (ok: bool)
      requires Shape() && capacity >= buffer.Length && Placed(ReadSize(capacity, limit), address)
      modifies this, buffer
      ensures ok && Shape() && Contents() == old(Contents()) && (old(Valid()) ==> Valid())
    {
      ok := Prepare(ReadSize(capacity, limit), address);
    }
  }

  lemma SliceMoves(b: seq<byte>, g: nat, p: nat, e: nat, k: nat)
    requires g <= p && p + k <= e <= |b|
    ensures b[g..p + k] == b[g..p] + b[p..p + k] && b[p..e][..k] == b[p..p + k]
  {
  }

  lemma SliceLeaves(b: seq<byte>, g: nat, p: nat, k: nat)
    requires g + k <= p <= |b|
    ensures var s := b[g..p]; s == s[..k] + s[k..] && s[k..] == b[g + k..p]
  {
  }

  /** The input sequence after a throw, g bytes past the start of the buffer: moved down under unmoved pointers. */
  function Shuffled(s: seq<byte>, g: nat): (r: seq<byte>)
    ensures |r| == |s|
  {
    if g >= |s| then s else s[g..] + s[|s| - g..]
  }

  lemma NothingMoves(s: seq<byte>)
    ensures Shuffled(s, 0) == s
  {
  }

  /** What the memmove leaves at the start of the buffer, and under the old pointers. */
  lemma MovedDown(was: seq<byte>, g: nat, p: nat)
    requires g <= p <= |was|
    ensures var now := was[g..p] + was[p - g..];
            |now| == |was| && now[..p - g] == was[g..p] && now[g..p] == Shuffled(was[g..p], g)
    ensures g == 0 ==> Shuffled(was[g..p], g) == was[g..p]
  {
  }

  /** A throw leaves the contents alone exactly when none were read before, or they do not overlap, or repeat. */
  lemma ThrowKeepsExactly(s: seq<byte>, g: nat)
    ensures Shuffled(s, g) == s <==> g >= |s| || forall i | 0 <= i < |s| - g :: s[i + g] == s[i]
  {
  }

  /** A full buffer of exactly these bytes. */
  method Holding(bytes: seq<byte>, address: nat) returns (b: BasicStreambuf)
    requires 0 < |bytes| <= BUFFER_DELTA && address + |bytes| < ADDRESSES
    ensures fresh(b) && fresh(b.buffer) && b.Valid() && b.maxSize == |bytes| && b.base == address
    ensures b.gptr == 0 && b.pptr == |bytes| && b.buffer[..] == bytes == b.committed && b.consumed == []
  {
    b := new BasicStreambuf(|bytes|, address);
    var ok := b.Prepare(|bytes|, address);
    b.Fill(bytes);
    b.Commit(|bytes|);
    assert b.buffer[..] == b.Contents();
  }

  /** Two bytes left of three, one already read, no room for two more: the throw changes what is read next. */
  method ThrowCanCorrupt(address: nat) returns (b: BasicStreambuf, ok: bool)
    requires address + 3 < ADDRESSES
    ensures fresh(b) && !ok && b.Shape() && !b.Valid()
    ensures b.committed == [1, 2, 3] && b.consumed == [1] && b.Contents() == [3, 3]
  {
    b := Holding([1, 2, 3], address);
    b.Consume(1);
    assert b.Contents() == [2, 3] && Shuffled([2, 3], 1) == [3, 3];
    ok := b.Prepare(2, address);
    assert (b.consumed + b.Contents())[1] == 3 && b.committed[1] == 2;
  }

  /** One of two bytes already read: consuming SIZE_MAX brings it back instead of emptying the buffer. */
  method ConsumeCanUnread(address: nat) returns (b: BasicStreambuf)
    requires address + 2 < ADDRESSES
    ensures fresh(b) && b.Shape() && b.committed == [7, 8] && b.consumed == [7] && b.Contents() == [7, 8]
  {
    b := Holding([7, 8], address);
    b.Consume(1);
    assert b.consumed == [7] && b.buffer[..][0..2] == [7, 8] && Int32(ADDRESSES - 1) == -1;
    b.Consume(ADDRESSES - 1);
  }

  /** One byte more than INT_MAX written and committed at once: the put pointer goes back as far as it should go on. */
  method CommitCanGoBack(address: nat) returns (b: BasicStreambuf, ok: bool)
    requires address + INT_MAX + 1 < ADDRESSES
    ensures fresh(b) && ok && b.pptr == -(INT_MAX + 1)
  {
    b := new BasicStreambuf(INT_MAX + 1, address);
    ok := b.Prepare(INT_MAX + 1, address);
    b.Commit(INT_MAX + 1);
  }
}
