/**
 * The older datagram shim. It sends the same frame as the current one and
 * grows its receive buffer the same way, but it unframes differently: it
 * parses its whole receive buffer rather than the received window, copies
 * at most p's length payload bytes without resetting p's length, and
 * starts the context right after the bytes it copied.
 */
module LegacyShim {
  import opened Common
  import opened Framing

  /**
   * How the older shim reads its receive buffer, for a destination window
   * of `capacity` bytes: n = min(announced length, capacity) payload bytes
   * (a negative n is refused by the bulk get, too few bytes underflow), and
   * the context is taken to start at 4 + n.
   */
  function LegacyUnframe(buffer: seq<Byte>, capacity: int): Parse {
    if |buffer| < LengthFieldSize then Failed(BufferUnderflow)
    else
      var n := Min(DecodeInt32(buffer[..LengthFieldSize]), capacity);
      if n < 0 then Failed(IndexOutOfBounds)
      else if |buffer| - LengthFieldSize < n then Failed(BufferUnderflow)
      else Parsed(buffer[LengthFieldSize..LengthFieldSize + n], buffer[LengthFieldSize + n..])
  }

  /**
   * When the destination can hold the whole payload, the older shim reads
   * the frame like the current one; whatever stale bytes follow the frame
   * in its buffer are handed on as part of the context.
   */
  lemma LegacyUnframeWhenRoomy(payload: seq<Byte>, context: seq<Byte>, stale: seq<Byte>, capacity: int)
    requires |payload| < IntLimit && capacity >= |payload|
    ensures LegacyUnframe(Frame(payload, context) + stale, capacity) == Parsed(payload, context + stale)
  {
    var f := Frame(payload, context) + stale;
    assert f[..LengthFieldSize] == EncodeInt32(|payload|);
    Int32RoundTrip(|payload|);
    assert f[LengthFieldSize..LengthFieldSize + |payload|] == payload;
    assert f[LengthFieldSize + |payload|..] == context + stale;
  }

  /**
   * As written: when the payload is longer than the destination window,
   * the older shim starts the context inside the payload, so the context
   * it hands on is the payload's uncopied tail followed by the real
   * context, never the real context alone.
   */
  lemma LegacyTruncationShiftsContext(payload: seq<Byte>, context: seq<Byte>, capacity: int)
    requires |payload| < IntLimit && 0 <= capacity < |payload|
    ensures LegacyUnframe(Frame(payload, context), capacity)
         == Parsed(payload[..capacity], payload[capacity..] + context)
    ensures LegacyUnframe(Frame(payload, context), capacity).context != context
    ensures Unframe(Frame(payload, context)).context == context
  {
    var f := Frame(payload, context);
    assert f[..LengthFieldSize] == EncodeInt32(|payload|);
    Int32RoundTrip(|payload|);
    assert f[LengthFieldSize..LengthFieldSize + capacity] == payload[..capacity];
    assert f[LengthFieldSize + capacity..] == payload[capacity..] + context;
    FrameRoundTrip(payload, context);
  }

  /** The concrete case: ten payload bytes, one context byte, a five-byte destination. */
  lemma LegacyContextCounterexample()
    ensures var frame := Frame(seq(10, _ => 0), [7]);
      && LegacyUnframe(frame, 5).context == seq(6, i => if i < 5 then 0 else 7)
      && Unframe(frame).context == [7]
  {
    var payload: seq<Byte> := seq(10, _ => 0);
    LegacyTruncationShiftsContext(payload, [7], 5);
    assert payload[5..] + [7] == seq(6, i => if i < 5 then 0 else 7);
  }

  class LegacyDatagramContextShim {
    const receive: ReceiveBuffer

    ghost predicate Valid()
      reads this, receive
    {
      receive.Valid()
    }

    constructor ()
      ensures Valid() && fresh(receive)
      ensures receive.buffer.Length == DefaultReceivePacketSize
    {
      receive := new ReceiveBuffer();
    }

    /** `getSendPacket(p)`: the same frame as the current shim sends. */
    method GetSendPacket(p: Packet, contextBytes: seq<Byte>) returns (send: Packet)
      requires p.Valid()
      requires IsJavaInt(LengthFieldSize + p.length + |contextBytes|)
      ensures fresh(send) && fresh(send.data) && send.Valid()
      ensures send.offset == 0 && send.length == send.data.Length
      ensures send.data[..] == Frame(p.Content(), contextBytes)
    {
      send := FramePacket(p, contextBytes);
    }

    /** `getReceivePacket(p)`: as in the current shim. */
    method GetReceivePacket(p: Packet) returns (receivePacket: Packet)
      requires Valid()
      requires IsJavaInt(GrownSize(receive.buffer.Length, p.length + LengthFieldSize))
      modifies receive
      ensures Valid()
      ensures receive.buffer.Length == GrownSize(old(receive.buffer.Length), p.length + LengthFieldSize)
      ensures old(receive.buffer.Length) >= p.length + LengthFieldSize ==> receive.buffer == old(receive.buffer)
      ensures fresh(receivePacket) && receivePacket.Valid()
      ensures receivePacket.data == receive.buffer && receivePacket.offset == 0
      ensures receivePacket.length == receive.buffer.Length
    {
      receivePacket := receive.GetReceivePacket(p);
    }

    /**
     * `processReceivedPacket(receivePacket, p)`: the receive buffer (not
     * the packet) is read with `LegacyUnframe`; the payload bytes read are
     * copied into p's window, whose length is left as it was; the rest goes
     * to `processContext`, and its failure doubles the receive buffer.
     */
    method ProcessReceivedPacket(receivePacket: Packet, p: Packet, processContext: seq<Byte> -> bool)
      returns (result: Outcome<ShimError>)
      requires Valid() && p.Valid()
      modifies receive, p.data
      ensures Valid()
      ensures p.length == old(p.length)
      ensures var parse := LegacyUnframe(old(receive.buffer[..]), p.length);
        && (parse.Failed? ==>
              && result == Fail(parse.error)
              && p.data[..] == old(p.data[..]) && receive.buffer == old(receive.buffer))
        && (parse.Parsed? ==>
              && result.Pass?
              && p.data[..] == Overwrite(old(p.data[..]), p.offset, parse.payload)
              && (processContext(parse.context) ==> receive.buffer == old(receive.buffer))
              && (!processContext(parse.context) ==>
                    fresh(receive.buffer) && receive.buffer.Length == 2 * old(receive.buffer.Length)))
    {
      var parse := LegacyUnframe(receive.buffer[..], p.length);
      if parse.Failed? {
        return Fail(parse.error);
      }
      CopyInto(p.data, p.offset, parse.payload);
      var processed := processContext(parse.context);
      if !processed {
        receive.Increase();
      }
      result := Pass;
    }
  }
}
