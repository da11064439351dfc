/** StreamBuffer_t with its circular array, written and read in at most two chunks.  Here
    one call runs at a time; StreamInterleaving lets the writer and the reader run against
    each other. */
module StreamBuffer {
  import opened Arithmetic
  import opened StreamSpec

  class StreamBuffer {
    var xTail: nat
    var xHead: nat
    const xLength: nat
    const pucBuffer: array<Byte>
    const isMessageBuffer: bool
    const sbBYTES_TO_STORE_MESSAGE_LENGTH: nat

    ghost predicate Valid()
      reads this
    {
      && pucBuffer.Length == xLength && xTail < xLength && xHead < xLength
      && 1 <= sbBYTES_TO_STORE_MESSAGE_LENGTH
    }

    /** The bytes accepted and not yet received. */
    ghost function Bytes(): seq<Byte>
      requires Valid()
      reads this, pucBuffer
    {
      Content(pucBuffer[..], xTail, xHead)
    }

    ghost function Free(): nat
      requires Valid()
      reads this
    {
      StreamSpec.SpacesAvailable(xLength, xTail, xHead)
    }

    /** The messages ms, in order, are what the buffer holds. */
    ghost predicate Holds(ms: seq<seq<Byte>>)
      requires Valid()
      reads this, pucBuffer
    {
      && (forall m :: m in ms ==> Sendable(m, sbBYTES_TO_STORE_MESSAGE_LENGTH))
      && Bytes() == Frames(ms, sbBYTES_TO_STORE_MESSAGE_LENGTH)
    }

    /** prvInitialiseNewStreamBuffer */
    constructor (bufferSizeBytes: nat, messages: bool, lengthBytes: nat)
      requires 1 <= bufferSizeBytes && 1 <= lengthBytes
      requires messages ==> bufferSizeBytes > lengthBytes
      ensures Valid() && xLength == bufferSizeBytes && isMessageBuffer == messages
      ensures sbBYTES_TO_STORE_MESSAGE_LENGTH == lengthBytes && fresh(pucBuffer)
      ensures Bytes() == []
    {
      xTail, xHead, xLength := 0, 0, bufferSizeBytes;
      pucBuffer := new Byte[bufferSizeBytes](i => 0);
      isMessageBuffer := messages;
      sbBYTES_TO_STORE_MESSAGE_LENGTH := lengthBytes;
    }

    /** memcpy into the array. */
    method CopyIn(at: nat, data: seq<Byte>)
      requires at + |data| <= pucBuffer.Length
      modifies pucBuffer
      ensures forall k :: 0 <= k < pucBuffer.Length ==>
                pucBuffer[k] == if at <= k < at + |data| then data[k - at] else old(pucBuffer[k])
    {
      for i := 0 to |data|
        invariant forall k :: 0 <= k < pucBuffer.Length ==>
                    pucBuffer[k] == if at <= k < at + i then data[k - at] else old(pucBuffer[k])
      {
        pucBuffer[at + i] := data[i];
      }
    }

    /** prvWriteBytesToBuffer: up to the end of the array, then on from its start.  The head
        is not published here. */
    method WriteBytesToBuffer(data: seq<Byte>, head: nat) returns (newHead: nat)
      requires Valid() && head < xLength && 0 < |data| <= xLength
      modifies pucBuffer
      ensures pucBuffer[..] == Put(old(pucBuffer[..]), head, data)
      ensures newHead == Advance(xLength, head, |data|)
    {
      hide Put;
      var xFirstLength := Min(xLength - head, |data|);
      CopyIn(head, data[..xFirstLength]);
      if |data| > xFirstLength {
        CopyIn(0, data[xFirstLength..]);
      }
      newHead := head + |data|;
      if newHead >= xLength {
        newHead := newHead - xLength;
      }
    }

    /** prvReadBytesFromBuffer */
    method ReadBytesFromBuffer(count: nat, tail: nat) returns (data: seq<Byte>, newTail: nat)
      requires Valid() && tail < xLength && 0 < count <= xLength
      ensures data == Span(pucBuffer[..], tail, count)
      ensures newTail == Advance(xLength, tail, count)
    {
      var xFirstLength := Min(xLength - tail, count);
      data := pucBuffer[tail..tail + xFirstLength];
      if count > xFirstLength {
        data := data + pucBuffer[..count - xFirstLength];
      }
      newTail := tail + count;
      if newTail >= xLength {
        newTail := newTail - xLength;
      }
    }

    /** prvWriteMessageToBuffer: a message goes in whole or not at all, a stream as far as
        there is space. */
    method WriteMessageToBuffer(data: seq<Byte>, xSpace: nat, xRequiredSpace: nat) returns (n: nat)
      requires Valid() && xSpace <= Free()
      requires isMessageBuffer ==>
                 && xRequiredSpace == |data| + sbBYTES_TO_STORE_MESSAGE_LENGTH
                 && |data| < Power256(sbBYTES_TO_STORE_MESSAGE_LENGTH)
      modifies this`xHead, pucBuffer
      ensures Valid()
      ensures isMessageBuffer ==> n == if xSpace >= xRequiredSpace then |data| else 0
      ensures !isMessageBuffer ==> n == Min(|data|, xSpace)
      ensures Bytes() == old(Bytes()) +
                (if n == 0 then [] else if isMessageBuffer then Frame(data, sbBYTES_TO_STORE_MESSAGE_LENGTH)
                 else data[..n])
    {
      assert xHead == Advance(xLength, xHead, 0);
      hide Put, Span, Content, EncodeLength, Power256, Advance, StreamSpec.SpacesAvailable, BytesInBuffer;
      ghost var buf, head := pucBuffer[..], xHead;
      UsedAndFreeAddUp(xLength, xTail, head);
      var xNextHead := xHead;
      ghost var written := [];
      if isMessageBuffer {
        n := |data|;
        if xSpace >= xRequiredSpace {
          var encoded := EncodeLength(|data|, sbBYTES_TO_STORE_MESSAGE_LENGTH);
          xNextHead := WriteBytesToBuffer(encoded, xNextHead);
          written := encoded;
        } else {
          n := 0;
        }
      } else {
        n := Min(|data|, xSpace);
      }
      assert pucBuffer[..] == Put(buf, head, written) && xNextHead == Advance(xLength, head, |written|);
      assert isMessageBuffer && n != 0 ==> data[..n] == data;
      if n != 0 {
        PutTwice(buf, head, written, data[..n]);
        xHead := WriteBytesToBuffer(data[..n], xNextHead);
        PutAndPublish(buf, xTail, head, written + data[..n]);
      } else {
        PutIsOutside(buf, xTail, head, written);
      }
    }

    /** prvReadMessageFromBuffer of a stream buffer: as much as is asked for and there. */
    method ReadStream(xBufferLengthBytes: nat, xBytesAvailable: nat) returns (data: seq<Byte>)
      requires Valid() && xBytesAvailable <= |Bytes()|
      modifies this`xTail
      ensures Valid()
      ensures |data| == Min(xBufferLengthBytes, xBytesAvailable)
      ensures old(Bytes()) == data + Bytes()
    {
      UsedAndFreeAddUp(xLength, xTail, xHead);
      var xCount := Min(xBufferLengthBytes, xBytesAvailable);
      data := [];
      if xCount != 0 {
        ConsumeDrops(pucBuffer[..], xTail, xHead, xCount);
        data, xTail := ReadBytesFromBuffer(xCount, xTail);
      }
    }

    /** prvReadMessageFromBuffer of a message buffer: the next message, or, if the caller's
        buffer is too short for it, nothing; the buffer is then as it was. */
    method ReadMessage(xBufferLengthBytes: nat, xBytesAvailable: nat, ghost ms: seq<seq<Byte>>)
      returns (data: seq<Byte>)
      requires Valid() && isMessageBuffer && ms != [] && Holds(ms)
      requires |Frame(ms[0], sbBYTES_TO_STORE_MESSAGE_LENGTH)| <= xBytesAvailable <= |Bytes()|
      modifies this`xTail
      ensures Valid()
      ensures |ms[0]| <= xBufferLengthBytes ==> data == ms[0] && Holds(ms[1..])
      ensures |ms[0]| > xBufferLengthBytes ==> data == [] && Holds(ms) && xTail == old(xTail)
    {
      assert ms[0] in ms;
      FirstMessageInArray(pucBuffer[..], xTail, xHead, ms, sbBYTES_TO_STORE_MESSAGE_LENGTH);
      var encoded, xNextTail := ReadBytesFromBuffer(sbBYTES_TO_STORE_MESSAGE_LENGTH, xTail);
      var xNextMessageLength := DecodeLength(encoded);
      if xNextMessageLength > xBufferLengthBytes {
        xNextMessageLength := 0;
      }
      var xCount := Min(xNextMessageLength, xBytesAvailable - sbBYTES_TO_STORE_MESSAGE_LENGTH);
      data := [];
      if xCount != 0 {
        data, xTail := ReadBytesFromBuffer(xCount, xNextTail);
      }
    }

    /** xStreamBufferNextMessageLengthBytes: 0 for a plain stream buffer. */
    method NextMessageLengthBytes(ghost ms: seq<seq<Byte>>) returns (n: nat)
      requires Valid() && (isMessageBuffer ==> Holds(ms))
      ensures n == if !isMessageBuffer || ms == [] then 0 else |ms[0]|
    {
      n := 0;
      if isMessageBuffer {
        if ms != [] {
          assert ms[0] in ms;
          FirstFrame(ms, sbBYTES_TO_STORE_MESSAGE_LENGTH);
        }
        UsedAndFreeAddUp(xLength, xTail, xHead);
        if StreamSpec.BytesInBuffer(xLength, xTail, xHead) > sbBYTES_TO_STORE_MESSAGE_LENGTH {
          var encoded, _ := ReadBytesFromBuffer(sbBYTES_TO_STORE_MESSAGE_LENGTH, xTail);
          assert encoded == Bytes()[..sbBYTES_TO_STORE_MESSAGE_LENGTH];
          n := DecodeLength(encoded);
        } else {
          assert StreamSpec.BytesInBuffer(xLength, xTail, xHead) == 0;
        }
      }
    }

    /** xStreamBufferSend and xStreamBufferSendFromISR, once they no longer wait for space. */
    method Send(data: seq<Byte>) returns (n: nat)
      requires Valid()
      requires isMessageBuffer ==> |data| < Power256(sbBYTES_TO_STORE_MESSAGE_LENGTH)
      modifies this`xHead, pucBuffer
      ensures Valid()
      ensures isMessageBuffer ==>
                n == if |data| + sbBYTES_TO_STORE_MESSAGE_LENGTH <= old(Free()) then |data| else 0
      ensures !isMessageBuffer ==> n == Min(|data|, old(Free()))
      ensures Bytes() == old(Bytes()) +
                (if n == 0 then [] else if isMessageBuffer then Frame(data, sbBYTES_TO_STORE_MESSAGE_LENGTH)
                 else data[..n])
    {
      var required := |data|;
      if isMessageBuffer {
        required := required + sbBYTES_TO_STORE_MESSAGE_LENGTH;
      } else if required > xLength - 1 {
        required := xLength - 1;
      }
      var space := StreamSpec.SpacesAvailable(xLength, xTail, xHead);
      n := WriteMessageToBuffer(data, space, required);
    }
  }
}
