/**
 * The current datagram shim: it wraps each outgoing datagram with the
 * payload length and the node's context bytes, and unwraps incoming ones,
 * handing the context bytes to the summary layer. Producing and consuming
 * the context bytes (Kryo over the handler's summaries) is a parameter.
 */
module Shim {
  import opened Common
  import opened Framing

  class DatagramContextShim {
    const receive: ReceiveBuffer

    ghost predicate Valid()
      reads this, receive
    {
      receive.Valid()
    }

    constructor ()
      ensures Valid() && fresh(receive)
      ensures receive.buffer.Length == DefaultReceivePacketSize
    {
      receive := new ReceiveBuffer();
    }

    /** `getSendPacket(p)`: the frame of p's window and the context bytes. */
    method GetSendPacket(p: Packet, contextBytes: seq<Byte>) returns (send: Packet)
      requires p.Valid()
      requires IsJavaInt(LengthFieldSize + p.length + |contextBytes|)
      ensures fresh(send) && fresh(send.data) && send.Valid()
      ensures send.offset == 0 && send.length == send.data.Length
      ensures send.data[..] == Frame(p.Content(), contextBytes)
    {
      send := FramePacket(p, contextBytes);
    }

    /** `getReceivePacket(p)`: the whole receive buffer, grown to hold p's length and the length field. */
    method GetReceivePacket(p: Packet) returns (receivePacket: Packet)
      requires Valid()
      requires IsJavaInt(GrownSize(receive.buffer.Length, p.length + LengthFieldSize))
      modifies receive
      ensures Valid()
      ensures receive.buffer.Length == GrownSize(old(receive.buffer.Length), p.length + LengthFieldSize)
      ensures old(receive.buffer.Length) >= p.length + LengthFieldSize ==> receive.buffer == old(receive.buffer)
      ensures fresh(receivePacket) && receivePacket.Valid()
      ensures receivePacket.data == receive.buffer && receivePacket.offset == 0
      ensures receivePacket.length == receive.buffer.Length
    {
      receivePacket := receive.GetReceivePacket(p);
    }

    /**
     * `processReceivedPacket(receivePacket, p)`: the received window is
     * unframed; up to p's length payload bytes are copied into p's window;
     * p's length is set to the announced payload length; the rest is
     * handed to `processContext`, and when that fails the receive buffer is
     * doubled. The exceptions thrown before the context step escape; the
     * context step's own failure is swallowed.
     */
    method ProcessReceivedPacket(receivePacket: Packet, p: Packet, processContext: seq<Byte> -> bool)
      returns (result: Outcome<ShimError>)
      requires Valid() && receivePacket.Valid() && p.Valid()
      modifies receive, p, p.data
      ensures Valid()
      ensures p.data == old(p.data) && p.offset == old(p.offset)
      ensures var parse := Unframe(old(receivePacket.Content()));
        && (parse.Failed? ==>
              && result == Fail(parse.error)
              && p.length == old(p.length) && p.data[..] == old(p.data[..])
              && receive.buffer == old(receive.buffer))
        && (parse.Parsed? ==>
              && p.data[..] == Overwrite(old(p.data[..]), p.offset, parse.payload[..Min(old(p.length), |parse.payload|)])
              && (result.Pass? <==> p.offset + |parse.payload| <= p.data.Length)
              && (result.Fail? ==>
                    && result.error == IllegalArgument
                    && p.length == old(p.length) && receive.buffer == old(receive.buffer))
              && (result.Pass? ==>
                    && p.length == |parse.payload|
                    && (processContext(parse.context) ==> receive.buffer == old(receive.buffer))
                    && (!processContext(parse.context) ==>
                          fresh(receive.buffer) && receive.buffer.Length == 2 * old(receive.buffer.Length))))
    {
      var region := receivePacket.data[receivePacket.offset..receivePacket.offset + receivePacket.length];
      var parse := Unframe(region);
      if parse.Failed? {
        return Fail(parse.error);
      }
      var payloadData := parse.payload;
      var packetOffset := p.offset;
      var packetData := p.data;
      var packetLength := 0;
      while packetLength < p.length && packetLength < |payloadData|
        invariant 0 <= packetLength <= p.length && packetLength <= |payloadData|
        invariant p.data == packetData && p.offset == packetOffset && p.length == old(p.length)
        invariant receive.buffer == old(receive.buffer)
        invariant packetData[..] == Overwrite(old(p.data[..]), packetOffset, payloadData[..packetLength])
        decreases |payloadData| - packetLength
      {
        OverwriteStep(old(p.data[..]), packetOffset, payloadData[..packetLength], payloadData[packetLength]);
        assert payloadData[..packetLength + 1] == payloadData[..packetLength] + [payloadData[packetLength]];
        packetData[packetOffset + packetLength] := payloadData[packetLength];
        packetLength := packetLength + 1;
      }
      assert packetLength == Min(old(p.length), |payloadData|);
      var ok := p.SetLength(|payloadData|);
      if !ok {
        return Fail(IllegalArgument);
      }
      var processed := processContext(parse.context);
      if !processed {
        receive.Increase();
      }
      result := Pass;
    }
  }
}
