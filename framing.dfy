/**
 * The datagram layout both shims use, `[payload length][payload][context]`
 * with the length as a 4-byte big-endian two's-complement int (what
 * `ByteBuffer.putInt` writes), the packets it is read from and written to,
 * and the receive buffer that grows by doubling.
 */
module Framing {
  import opened Common

  /** Integer.SIZE / Byte.SIZE: the width of the payload-length field. */
  const LengthFieldSize: nat := 4

  /** The receive buffer's initial size, 2 * 1024 bytes. */
  const DefaultReceivePacketSize: nat := 2 * 1024

  /** `putInt(n)`: the four bytes of n's 32-bit two's complement, most significant first. */
  function EncodeInt32(n: int): (bs: seq<Byte>)
    requires IsJavaInt(n)
    ensures |bs| == LengthFieldSize
  {
    var u := if n < 0 then n + 2 * IntLimit else n;
    var u1 := u / 256;
    var u2 := u1 / 256;
    [u2 / 256, u2 % 256, u1 % 256, u % 256]
  }

  /** `getInt()`: the int whose two's complement the four bytes spell. */
  function DecodeInt32(bs: seq<Byte>): (n: int)
    requires |bs| == LengthFieldSize
    ensures IsJavaInt(n)
  {
    var u := ((bs[0] as int * 256 + bs[1]) * 256 + bs[2]) * 256 + bs[3];
    if u >= IntLimit then u - 2 * IntLimit else u
  }

  /** Every int survives the length field. */
  lemma Int32RoundTrip(n: int)
    requires IsJavaInt(n)
    ensures DecodeInt32(EncodeInt32(n)) == n
  {
    var u := if n < 0 then n + 2 * IntLimit else n;
    var u1 := u / 256;
    var u2 := u1 / 256;
    assert u == u1 * 256 + u % 256;
    assert u1 == u2 * 256 + u1 % 256;
    assert u2 == (u2 / 256) * 256 + u2 % 256;
  }

  /** Every four bytes are the encoding of the int they decode to. */
  lemma Int32BytesRoundTrip(bs: seq<Byte>)
    requires |bs| == LengthFieldSize
    ensures EncodeInt32(DecodeInt32(bs)) == bs
  {
    var u2 := bs[0] as int * 256 + bs[1];
    var u1 := u2 * 256 + bs[2] as int;
    var u := u1 * 256 + bs[3] as int;
    assert u / 256 == u1 && u % 256 == bs[3];
    assert u1 / 256 == u2 && u1 % 256 == bs[2];
    assert u2 / 256 == bs[0] && u2 % 256 == bs[1];
  }

  /** What getSendPacket sends: the length field, the payload, then the context bytes. */
  function Frame(payload: seq<Byte>, context: seq<Byte>): (f: seq<Byte>)
    requires |payload| < IntLimit
    ensures |f| == LengthFieldSize + |payload| + |context|
  {
    EncodeInt32(|payload|) + payload + context
  }

  datatype ShimError =
    | BufferUnderflow
    | NegativeArraySize
    | IllegalArgument
    | IndexOutOfBounds

  /** A received frame split into payload and context, or the exception that stopped it. */
  datatype Parse = Parsed(payload: seq<Byte>, context: seq<Byte>) | Failed(error: ShimError)

  /**
   * How the current shim reads a received region: the length field (too
   * short a region underflows), a payload array of that length (a negative
   * length cannot be allocated), the payload itself (a region shorter than
   * announced underflows), and what follows is the context.
   */
  function Unframe(region: seq<Byte>): Parse {
    if |region| < LengthFieldSize then Failed(BufferUnderflow)
    else
      var n := DecodeInt32(region[..LengthFieldSize]);
      if n < 0 then Failed(NegativeArraySize)
      else if |region| - LengthFieldSize < n then Failed(BufferUnderflow)
      else Parsed(region[LengthFieldSize..LengthFieldSize + n], region[LengthFieldSize + n..])
  }

  /** Unframing what was framed gives back the payload and the context. */
  lemma FrameRoundTrip(payload: seq<Byte>, context: seq<Byte>)
    requires |payload| < IntLimit
    ensures Unframe(Frame(payload, context)) == Parsed(payload, context)
  {
    var f := Frame(payload, context);
    assert f[..LengthFieldSize] == EncodeInt32(|payload|);
    Int32RoundTrip(|payload|);
    assert f[LengthFieldSize..LengthFieldSize + |payload|] == payload;
    assert f[LengthFieldSize + |payload|..] == context;
  }

  /** And every region that unframes is the frame of what it unframes to. */
  lemma UnframeFrames(region: seq<Byte>)
    requires Unframe(region).Parsed?
    ensures |Unframe(region).payload| < IntLimit
    ensures Frame(Unframe(region).payload, Unframe(region).context) == region
  {
    var header := region[..LengthFieldSize];
    Int32BytesRoundTrip(header);
    assert region == header + region[LengthFieldSize..];
  }

  /** s with the window starting at `at` replaced by src. */
  function Overwrite(s: seq<Byte>, at: nat, src: seq<Byte>): (r: seq<Byte>)
    requires at + |src| <= |s|
    ensures |r| == |s|
    ensures r[at..at + |src|] == src
    ensures forall i :: 0 <= i < |s| && !(at <= i < at + |src|) ==> r[i] == s[i]
  {
    s[..at] + src + s[at + |src|..]
  }

  /** Writing one more byte after the window extends the window by that byte. */
  lemma OverwriteStep(s: seq<Byte>, at: nat, src: seq<Byte>, b: Byte)
    requires at + |src| + 1 <= |s|
    ensures Overwrite(s, at, src)[at + |src| := b] == Overwrite(s, at, src + [b])
  {
    var l, r := Overwrite(s, at, src)[at + |src| := b], Overwrite(s, at, src + [b]);
    forall i | 0 <= i < |s| ensures l[i] == r[i] {
      if at <= i < at + |src| {
        assert r[i] == r[at..at + |src| + 1][i - at];
        assert l[i] == Overwrite(s, at, src)[at..at + |src|][i - at];
      } else if i == at + |src| {
        assert r[i] == r[at..at + |src| + 1][|src|];
      }
    }
  }

  /** A java.net.DatagramPacket: a buffer and the window of it that holds data. */
  class Packet {
    var data: array<Byte>
    var offset: int
    var length: int

    ghost predicate Valid()
      reads this
    {
      0 <= offset && 0 <= length && offset + length <= data.Length < IntLimit
    }

    constructor (data: array<Byte>, offset: int, length: int)
      requires 0 <= offset && 0 <= length && offset + length <= data.Length < IntLimit
      ensures Valid()
      ensures this.data == data && this.offset == offset && this.length == length
    {
      this.data := data;
      this.offset := offset;
      this.length := length;
    }

    /** The bytes of the packet's window. */
    function Content(): (c: seq<Byte>)
      requires Valid()
      reads this, data
      ensures |c| == length
    {
      data[offset..offset + length]
    }

    /** `setLength(len)`: refused (IllegalArgumentException) when the window would leave the buffer. */
    method SetLength(len: int) returns (ok: bool)
      requires Valid()
      modifies this
      ensures Valid()
      ensures ok <==> 0 <= len && offset + len <= data.Length
      ensures data == old(data) && offset == old(offset)
      ensures length == if ok then len else old(length)
    {
      ok := 0 <= len && offset + len <= data.Length;
      if ok {
        length := len;
      }
    }
  }

  /** Copies src into dst starting at `at`, one byte at a time. */
  method CopyInto(dst: array<Byte>, at: nat, src: seq<Byte>)
    requires at + |src| <= dst.Length
    modifies dst
    ensures dst[..] == Overwrite(old(dst[..]), at, src)
  {
    for i := 0 to |src|
      invariant dst[..] == Overwrite(old(dst[..]), at, src[..i])
    {
      OverwriteStep(old(dst[..]), at, src[..i], src[i]);
      assert src[..i + 1] == src[..i] + [src[i]];
      dst[at + i] := src[i];
    }
    assert src[..|src|] == src;
  }

  /**
   * `getSendPacket(p)`: a new packet holding the frame of p's window and
   * the context bytes, addressed like p (the address is not modelled).
   */
  method FramePacket(p: Packet, contextBytes: seq<Byte>) returns (send: Packet)
    requires p.Valid()
    requires IsJavaInt(LengthFieldSize + p.length + |contextBytes|)
    ensures fresh(send) && fresh(send.data) && send.Valid()
    ensures send.offset == 0 && send.length == send.data.Length
    ensures send.data[..] == Frame(p.Content(), contextBytes)
  {
    var payloadLength := p.length;
    var bytesToSend := new Byte[LengthFieldSize + payloadLength + |contextBytes|](_ => 0);
    ghost var frame := Frame(p.Content(), contextBytes);
    CopyInto(bytesToSend, 0, EncodeInt32(payloadLength));
    CopyInto(bytesToSend, LengthFieldSize, p.data[p.offset..p.offset + payloadLength]);
    CopyInto(bytesToSend, LengthFieldSize + payloadLength, contextBytes);
    assert bytesToSend[..] == frame by {
      forall i | 0 <= i < |frame| ensures bytesToSend[i] == frame[i] {
      }
    }
    send := new Packet(bytesToSend, 0, bytesToSend.Length);
  }

  /** The size after doubling `size` until it reaches `need`. */
  function GrownSize(size: int, need: int): int
    requires size > 0
    decreases if need > size then need - size else 0
  {
    if size >= need then size else GrownSize(2 * size, need)
  }

  /** size doubled k times. */
  function Doubled(size: int, k: nat): int {
    if k == 0 then size else 2 * Doubled(size, k - 1)
  }

  /**
   * Doubling stops at the first size that is large enough: it is at least
   * `need`, less than twice `need` unless no doubling was needed, and a
   * power-of-two multiple of the start.
   */
  lemma {:induction false} GrownSizeBounds(size: int, need: int) returns (k: nat)
    requires size > 0
    ensures GrownSize(size, need) >= need && GrownSize(size, need) >= size
    ensures GrownSize(size, need) == size || GrownSize(size, need) < 2 * need
    ensures GrownSize(size, need) == Doubled(size, k)
    decreases if need > size then need - size else 0
  {
    if size >= need {
      k := 0;
    } else {
      var j := GrownSizeBounds(2 * size, need);
      k := j + 1;
      DoubledShift(size, j);
    }
  }

  lemma {:induction false} DoubledShift(size: int, j: nat)
    ensures Doubled(2 * size, j) == Doubled(size, j + 1)
  {
    if j > 0 {
      DoubledShift(size, j - 1);
    }
  }

  /**
   * The shim's receive buffer, a field both shims own: it starts at 2048
   * bytes and is only ever replaced by a zeroed buffer twice its size.
   */
  class ReceiveBuffer {
    var buffer: array<Byte>

    ghost predicate Valid()
      reads this
    {
      buffer.Length >= DefaultReceivePacketSize
    }

    constructor ()
      ensures Valid() && fresh(buffer)
      ensures buffer.Length == DefaultReceivePacketSize
    {
      buffer := new Byte[DefaultReceivePacketSize](_ => 0);
    }

    /** `increaseReceiveBufferSize()`: a new, zeroed buffer of twice the length. */
    method Increase()
      requires Valid()
      modifies this
      ensures Valid() && fresh(buffer)
      ensures buffer.Length == 2 * old(buffer.Length)
      ensures forall i :: 0 <= i < buffer.Length ==> buffer[i] == 0
    {
      buffer := new Byte[2 * buffer.Length](_ => 0);
    }

    /**
     * `getReceivePacket(p)`: a packet over the whole receive buffer, doubled
     * until it holds p's length plus the length field.
     */
    method GetReceivePacket(p: Packet) returns (receivePacket: Packet)
      requires Valid()
      requires IsJavaInt(GrownSize(buffer.Length, p.length + LengthFieldSize))
      modifies this
      ensures Valid()
      ensures buffer.Length == GrownSize(old(buffer.Length), p.length + LengthFieldSize)
      ensures old(buffer.Length) >= p.length + LengthFieldSize ==> buffer == old(buffer)
      ensures buffer != old(buffer) ==> fresh(buffer)
      ensures fresh(receivePacket) && receivePacket.Valid()
      ensures receivePacket.data == buffer && receivePacket.offset == 0 && receivePacket.length == buffer.Length
    {
      var need := p.length + LengthFieldSize;
      ghost var target := GrownSize(buffer.Length, need);
      ghost var _ := GrownSizeBounds(buffer.Length, need);
      receivePacket := new Packet(buffer, 0, buffer.Length);
      while receivePacket.length < need
        invariant Valid()
        invariant GrownSize(buffer.Length, need) == target
        invariant buffer.Length <= target
        invariant buffer != old(buffer) ==> fresh(buffer)
        invariant old(buffer.Length) >= need ==> buffer == old(buffer)
        invariant fresh(receivePacket) && receivePacket.Valid()
        invariant receivePacket.data == buffer && receivePacket.offset == 0 && receivePacket.length == buffer.Length
        decreases need - buffer.Length
      {
        Increase();
        ghost var _ := GrownSizeBounds(buffer.Length, need);
        receivePacket := new Packet(buffer, 0, buffer.Length);
      }
    }
  }
}
