/** One writer and one reader of a stream or message buffer, run against each other without
    any mutual exclusion.  A step is one read of an index, one byte copied, or one index
    published; any interleaving of the two is a run. */
module StreamInterleaving {
  import opened Arithmetic
  import opened StreamSpec

  type Message = seq<Byte>

  /** Where the writer is inside xStreamBufferSend or its interrupt version. */
  datatype Writer =
    | WriterIdle
    | Asking(data: Message)                            // about to read xTail
    | HasTail(data: Message, original: nat)            // has read xOriginalTail
    | HasSpace(data: Message, original: nat, space: nat)  // has computed xSpace from a second read
    | Deciding(data: Message, space: nat)              // xTail had not moved between the reads
    | Writing(data: Message, payload: seq<Byte>, done: nat, publish: bool)

  /** Where the reader is inside xStreamBufferReceive or its interrupt version. */
  datatype Reader =
    | ReaderIdle
    | Sampling(max: nat)                               // about to read xHead
    | Sampled(max: nat, available: nat)
    | ReadingLength(max: nat, available: nat, got: seq<Byte>)
    | Reading(offset: nat, count: nat, out: seq<Byte>)

  datatype State = State(
    buf: seq<Byte>, tail: nat, head: nat, messages: bool, k: nat,
    w: Writer, r: Reader,
    accepted: seq<Byte>, received: seq<Byte>,           // history of a stream buffer
    sent: seq<Message>, delivered: seq<Message>)        // history of a message buffer

  datatype Step =
    | CallSend(data: Message)
    | ReadTail | ComputeSpace | CompareTail | Decide(wait: bool) | WriteByte | PublishHead
    | CallReceive(max: nat)
    | ReadHead | DecideRead(wait: bool) | ReadLengthByte | LengthKnown | ReadByte | PublishTail

  predicate Enabled(s: State, e: Step)
    requires s.tail < |s.buf| && s.head < |s.buf|
  {
    match e
    case CallSend(data) => s.w.WriterIdle? && (s.messages ==> |data| < Power256(s.k))
    case ReadTail => s.w.Asking?
    case ComputeSpace => s.w.HasTail?
    case CompareTail => s.w.HasSpace?
    case Decide(wait) => s.w.Deciding?
    case WriteByte => s.w.Writing? && s.w.done < |s.w.payload| <= |s.buf|
    case PublishHead => s.w.Writing? && s.w.done == |s.w.payload| <= |s.buf|
    case CallReceive(max) => s.r.ReaderIdle?
    case ReadHead => s.r.Sampling?
    case DecideRead(wait) => s.r.Sampled?
    case ReadLengthByte => s.r.ReadingLength? && |s.r.got| < s.k <= |s.buf|
    case LengthKnown => s.r.ReadingLength? && |s.r.got| == s.k <= s.r.available
    case ReadByte => s.r.Reading? && |s.r.out| < s.r.count && s.r.offset + s.r.count <= |s.buf|
    case PublishTail => s.r.Reading? && |s.r.out| == s.r.count && s.r.offset + s.r.count <= |s.buf|
  }

  /** prvWriteMessageToBuffer, up to the copying. */
  function StartWrite(s: State, data: Message, space: nat): Writer {
    if s.messages then
      if space < |data| + s.k then WriterIdle
      else if |data| == 0 then Writing(data, EncodeLength(0, s.k), 0, false)
      else Writing(data, Frame(data, s.k), 0, true)
    else
      var n := Min(|data|, space);
      if n == 0 then WriterIdle else Writing(data, data[..n], 0, true)
  }

  function Apply(s: State, e: Step): State
    requires s.tail < |s.buf| && s.head < |s.buf| && Enabled(s, e)
  {
    match e
    case CallSend(data) => s.(w := Asking(data))
    case ReadTail => s.(w := HasTail(s.w.data, s.tail))
    case ComputeSpace => s.(w := HasSpace(s.w.data, s.w.original, SpacesAvailable(|s.buf|, s.tail, s.head)))
    case CompareTail => s.(w := if s.w.original != s.tail then Asking(s.w.data) else Deciding(s.w.data, s.w.space))
    case Decide(wait) => s.(w := if wait then Asking(s.w.data) else StartWrite(s, s.w.data, s.w.space))
    case WriteByte =>
      s.(buf := s.buf[Advance(|s.buf|, s.head, s.w.done) := s.w.payload[s.w.done]],
         w := s.w.(done := s.w.done + 1))
    case PublishHead =>
      if !s.w.publish then s.(w := WriterIdle)
      else s.(head := Advance(|s.buf|, s.head, |s.w.payload|), w := WriterIdle,
              accepted := if s.messages then s.accepted else s.accepted + s.w.payload,
              sent := if s.messages then s.sent + [s.w.data] else s.sent)
    case CallReceive(max) => s.(r := Sampling(max))
    case ReadHead => s.(r := Sampled(s.r.max, BytesInBuffer(|s.buf|, s.tail, s.head)))
    case DecideRead(wait) =>
      s.(r := if s.r.available <= (if s.messages then s.k else 0) then (if wait then Sampling(s.r.max) else ReaderIdle)
              else if s.messages then ReadingLength(s.r.max, s.r.available, [])
              else StartRead(0, Min(s.r.max, s.r.available)))
    case ReadLengthByte =>
      s.(r := s.r.(got := s.r.got + [s.buf[Advance(|s.buf|, s.tail, |s.r.got|)]]))
    case LengthKnown =>
      var n := DecodeLength(s.r.got);
      s.(r := StartRead(s.k, Min(if n > s.r.max then 0 else n, s.r.available - s.k)))
    case ReadByte =>
      s.(r := s.r.(out := s.r.out + [s.buf[Advance(|s.buf|, s.tail, s.r.offset + |s.r.out|)]]))
    case PublishTail =>
      s.(tail := Advance(|s.buf|, s.tail, s.r.offset + s.r.count), r := ReaderIdle,
         received := if s.messages then s.received else s.received + s.r.out,
         delivered := if s.messages then s.delivered + [s.r.out] else s.delivered)
  }

  /** With nothing to copy the call returns 0 and the tail stays where it is. */
  function StartRead(offset: nat, count: nat): Reader {
    if count == 0 then ReaderIdle else Reading(offset, count, [])
  }

  // ----- the invariant

  function Bytes(s: State): seq<Byte>
    requires s.tail < |s.buf| && s.head < |s.buf|
  {
    Content(s.buf, s.tail, s.head)
  }

  function Pending(s: State): seq<Message>
    requires |s.delivered| <= |s.sent|
  {
    s.sent[|s.delivered|..]
  }

  ghost predicate HistoryInv(s: State)
    requires s.tail < |s.buf| && s.head < |s.buf|
  {
    if s.messages then
      && s.delivered <= s.sent
      && (forall m :: m in s.sent ==> Sendable(m, s.k))
      && Bytes(s) == Frames(Pending(s), s.k)
    else
      s.received + Bytes(s) == s.accepted
  }

  ghost predicate WriterInv(s: State)
    requires s.tail < |s.buf| && s.head < |s.buf|
  {
    var free := SpacesAvailable(|s.buf|, s.tail, s.head);
    match s.w
    case WriterIdle => true
    case Asking(data) => s.messages ==> |data| < Power256(s.k)
    case HasTail(data, _) => s.messages ==> |data| < Power256(s.k)
    case HasSpace(data, _, space) => space <= free && (s.messages ==> |data| < Power256(s.k))
    case Deciding(data, space) => space <= free && (s.messages ==> |data| < Power256(s.k))
    case Writing(data, payload, done, publish) =>
      && done <= |payload| <= free
      && (forall j :: 0 <= j < done ==> s.buf[Advance(|s.buf|, s.head, j)] == payload[j])
      && (s.messages && publish ==> Sendable(data, s.k) && payload == Frame(data, s.k))
  }

  /** A positive number of available bytes covers the first pending message. */
  ghost predicate Covers(s: State, available: nat)
    requires s.tail < |s.buf| && s.head < |s.buf| && s.delivered <= s.sent
  {
    available > 0 ==> Pending(s) != [] && s.k + |Pending(s)[0]| <= available
  }

  ghost predicate ReaderInv(s: State)
    requires s.tail < |s.buf| && s.head < |s.buf| && (s.messages ==> s.delivered <= s.sent)
  {
    var used := BytesInBuffer(|s.buf|, s.tail, s.head);
    match s.r
    case ReaderIdle => true
    case Sampling(_) => true
    case Sampled(_, available) => available <= used && (s.messages ==> Covers(s, available))
    case ReadingLength(_, available, got) =>
      && s.messages && s.k < available <= used && Covers(s, available)
      && |got| <= s.k && got == Bytes(s)[..|got|]
    case Reading(offset, count, out) =>
      && |out| <= count && 0 < count && offset + count <= used
      && out == Bytes(s)[offset..offset + |out|]
      && (if s.messages then offset == s.k && Pending(s) != [] && count == |Pending(s)[0]| else offset == 0)
  }

  ghost predicate Inv(s: State) {
    && s.tail < |s.buf| && s.head < |s.buf| && 1 <= s.k
    && HistoryInv(s) && WriterInv(s) && ReaderInv(s)
  }

  // ----- every step keeps it

  /** What one side does with its own variables is nothing to the other side. */
  lemma WriterMoves(s: State, w: Writer)
    requires Inv(s)
    ensures HistoryInv(s.(w := w)) && ReaderInv(s.(w := w))
  {
    hide WriterInv, Content, Frames;
  }

  lemma ReaderMoves(s: State, r: Reader)
    requires Inv(s)
    ensures HistoryInv(s.(r := r)) && WriterInv(s.(r := r))
  {
    hide ReaderInv, Content, Frames;
  }

  /** The writer gains nothing and loses nothing while the reader works, and the other way
      round: space only grows behind the writer's back, content only behind the reader's. */
  lemma WriterStepKeepsInv(s: State, e: Step)
    requires Inv(s) && Enabled(s, e)
    requires e.CallSend? || e.ReadTail? || e.ComputeSpace? || e.CompareTail? || e.Decide?
    ensures Inv(Apply(s, e))
  {
    var s' := Apply(s, e);
    assert s' == s.(w := s'.w);
    WriterMoves(s, s'.w);
    hide HistoryInv, ReaderInv;
    UsedAndFreeAddUp(|s.buf|, s.tail, s.head);
    if e.Decide? && !e.wait {
      StartedWrite(s, s.w.data, s.w.space);
    }
  }

  lemma StartedWrite(s: State, data: Message, space: nat)
    requires s.tail < |s.buf| && s.head < |s.buf| && space <= SpacesAvailable(|s.buf|, s.tail, s.head)
    requires s.messages ==> |data| < Power256(s.k)
    ensures WriterInv(s.(w := StartWrite(s, data, space)))
  {
  }

  lemma WriteByteKeepsInv(s: State)
    requires Inv(s) && Enabled(s, WriteByte)
    ensures Inv(Apply(s, WriteByte))
    ensures Bytes(Apply(s, WriteByte)) == Bytes(s)
  {
    var s' := Apply(s, WriteByte);
    StoreIsOutside(s.buf, s.tail, s.head, s.w.done, s.w.payload[s.w.done]);
    assert Bytes(s') == Bytes(s);
    ByteWritten(s);
    hide WriterInv, Content, Frames;
  }

  lemma ByteWritten(s: State)
    requires Inv(s) && Enabled(s, WriteByte)
    ensures WriterInv(Apply(s, WriteByte))
  {
    hide HistoryInv, ReaderInv;
    UsedAndFreeAddUp(|s.buf|, s.tail, s.head);
  }

  /** More content does not disturb a reader in the middle of its work. */
  lemma ReaderSurvivesAppend(s: State, s': State)
    requires Inv(s) && s'.tail == s.tail && s'.head < |s'.buf| && |s'.buf| == |s.buf|
    requires s'.r == s.r && s'.messages == s.messages && s'.k == s.k && s'.delivered == s.delivered
    requires Bytes(s) <= Bytes(s') && s.sent <= s'.sent
    ensures ReaderInv(s')
  {
    if s.messages && Pending(s) != [] {
      assert Pending(s')[0] == Pending(s)[0];
    }
  }

  lemma PublishedHistory(s: State)
    requires Inv(s) && Enabled(s, PublishHead) && s.w.publish
    ensures var s' := Apply(s, PublishHead);
            && Bytes(s') == Bytes(s) + s.w.payload && s.sent <= s'.sent
            && HistoryInv(s')
  {
    var s' := Apply(s, PublishHead);
    PublishAppends(s.buf, s.tail, s.head, s.w.payload);
    if s.messages {
      FramesAppend(Pending(s), s.w.data, s.k);
      assert Pending(s') == Pending(s) + [s.w.data];
    } else {
      Associate(s.received, Bytes(s), s.w.payload);
    }
  }

  lemma PublishHeadKeepsInv(s: State)
    requires Inv(s) && Enabled(s, PublishHead)
    ensures Inv(Apply(s, PublishHead))
    ensures s.w.publish ==> Bytes(Apply(s, PublishHead)) == Bytes(s) + s.w.payload
  {
    hide Content, Frames, Frame;
    if s.w.publish {
      PublishedHistory(s);
      ReaderSurvivesAppend(s, Apply(s, PublishHead));
      hide HistoryInv, ReaderInv;
    }
  }

  lemma PendingIsSendable(s: State)
    requires Inv(s) && s.messages
    ensures forall m :: m in Pending(s) ==> Sendable(m, s.k)
    ensures BytesInBuffer(|s.buf|, s.tail, s.head) > 0 ==>
              Pending(s) != [] && s.k + |Pending(s)[0]| <= BytesInBuffer(|s.buf|, s.tail, s.head)
  {
    if Pending(s) != [] {
      assert Pending(s)[0] in s.sent;
      FirstFrame(Pending(s), s.k);
    }
  }

  lemma ReaderStepKeepsInv(s: State, e: Step)
    requires Inv(s) && Enabled(s, e)
    requires e.CallReceive? || e.ReadHead? || e.DecideRead? || e.ReadLengthByte? || e.ReadByte?
    ensures Inv(Apply(s, e))
  {
    var s' := Apply(s, e);
    assert s' == s.(r := s'.r);
    ReaderMoves(s, s'.r);
    if e.ReadLengthByte? || e.ReadByte? {
      ReaderTakesByte(s, e);
    } else {
      if s.messages { PendingIsSendable(s); }
      hide Frames, Content, WriterInv;
    }
  }

  lemma ReaderTakesByte(s: State, e: Step)
    requires Inv(s) && Enabled(s, e) && (e.ReadLengthByte? || e.ReadByte?)
    ensures ReaderInv(Apply(s, e))
  {
    assert s.messages ==> s.delivered <= s.sent;
    hide HistoryInv, WriterInv, Frames, Covers;
    var at := if e.ReadByte? then s.r.offset + |s.r.out| else |s.r.got|;
    ByteAt(s.buf, s.tail, s.head, if e.ReadByte? then s.r.offset else 0, at);
    hide Content;
    assert Bytes(Apply(s, e)) == Bytes(s);
  }

  lemma ByteAt(buf: seq<Byte>, tail: nat, head: nat, from: nat, at: nat)
    requires tail < |buf| && head < |buf| && from <= at < BytesInBuffer(|buf|, tail, head)
    ensures var c := Content(buf, tail, head); c[from..at + 1] == c[from..at] + [buf[Advance(|buf|, tail, at)]]
  {
    var c := Content(buf, tail, head);
    assert c[at] == buf[Advance(|buf|, tail, at)];
  }

  lemma LengthKnownKeepsInv(s: State)
    requires Inv(s) && Enabled(s, LengthKnown)
    ensures Inv(Apply(s, LengthKnown))
    ensures DecodeLength(s.r.got) == |Pending(s)[0]|
  {
    PendingIsSendable(s);
    assert Pending(s)[0] in Pending(s);
    FirstFrame(Pending(s), s.k);
  }

  /** What a receive hands over is exactly the next message that was sent. */
  lemma PublishTailKeepsInv(s: State)
    requires Inv(s) && Enabled(s, PublishTail)
    ensures Inv(Apply(s, PublishTail))
    ensures s.messages ==> Pending(s) != [] && s.r.out == Pending(s)[0]
    ensures Bytes(Apply(s, PublishTail)) == Bytes(s)[s.r.offset + s.r.count..]
  {
    WriterSurvivesConsume(s, Apply(s, PublishTail), s.r.offset + s.r.count);
    ReceivedHistory(s);
  }

  lemma StillPending(s: State)
    requires Inv(s) && s.messages
    ensures s.delivered <= s.sent
  {
  }

  lemma ReceivedHistory(s: State)
    requires Inv(s) && Enabled(s, PublishTail)
    ensures HistoryInv(Apply(s, PublishTail))
    ensures s.messages ==> Pending(s) != [] && s.r.out == Pending(s)[0]
    ensures Bytes(Apply(s, PublishTail)) == Bytes(s)[s.r.offset + s.r.count..]
  {
    ConsumedBytes(s);
    if s.messages {
      NextMessageRead(s);
    } else {
      StreamBytesMove(s.received, Bytes(s), s.r.count);
    }
  }

  lemma ConsumedBytes(s: State)
    requires Inv(s) && Enabled(s, PublishTail)
    ensures Bytes(Apply(s, PublishTail)) == Bytes(s)[s.r.offset + s.r.count..]
    ensures !s.messages ==> s.r.out == Bytes(s)[..s.r.count]
  {
    hide HistoryInv, WriterInv, Covers, Frames, Content;
    ConsumeDrops(s.buf, s.tail, s.head, s.r.offset + s.r.count);
  }

  lemma StreamBytesMove(received: seq<Byte>, bytes: seq<Byte>, n: nat)
    requires n <= |bytes|
    ensures received + bytes[..n] + bytes[n..] == received + bytes
  {
    assert bytes == bytes[..n] + bytes[n..];
    Associate(received, bytes[..n], bytes[n..]);
  }

  /** Less content does not disturb a writer in the middle of its work. */
  lemma WriterSurvivesConsume(s: State, s': State, n: nat)
    requires Inv(s) && s'.buf == s.buf && s'.head == s.head && s'.w == s.w && s'.messages == s.messages && s'.k == s.k
    requires n <= BytesInBuffer(|s.buf|, s.tail, s.head) && s'.tail == Advance(|s.buf|, s.tail, n)
    ensures WriterInv(s')
  {
    ConsumeDrops(s.buf, s.tail, s.head, n);
    UsedAndFreeAddUp(|s.buf|, s.tail, s.head);
    UsedAndFreeAddUp(|s.buf|, s'.tail, s.head);
  }

  lemma NextMessageRead(s: State)
    requires Inv(s) && s.messages && Enabled(s, PublishTail)
    ensures Pending(s) != [] && s.r.out == Pending(s)[0]
    ensures Bytes(s)[s.r.offset + s.r.count..] == Frames(Pending(s)[1..], s.k)
    ensures s.delivered + [s.r.out] <= s.sent
    ensures s.sent[|s.delivered| + 1..] == Pending(s)[1..]
  {
    hide WriterInv, Content;
    PendingIsSendable(s);
    assert Pending(s)[0] in Pending(s);
    FirstFrame(Pending(s), s.k);
    hide Frames;
    assert s.sent[..|s.delivered| + 1] == s.delivered + [Pending(s)[0]];
  }

  lemma StepKeepsInv(s: State, e: Step)
    requires Inv(s) && Enabled(s, e)
    ensures Inv(Apply(s, e))
  {
    match e
    case WriteByte => WriteByteKeepsInv(s);
    case PublishHead => PublishHeadKeepsInv(s);
    case LengthKnown => LengthKnownKeepsInv(s);
    case PublishTail => PublishTailKeepsInv(s);
    case CallReceive(_) => ReaderStepKeepsInv(s, e);
    case ReadHead => ReaderStepKeepsInv(s, e);
    case DecideRead(_) => ReaderStepKeepsInv(s, e);
    case ReadLengthByte => ReaderStepKeepsInv(s, e);
    case ReadByte => ReaderStepKeepsInv(s, e);
    case CallSend(_) => WriterStepKeepsInv(s, e);
    case ReadTail => WriterStepKeepsInv(s, e);
    case ComputeSpace => WriterStepKeepsInv(s, e);
    case CompareTail => WriterStepKeepsInv(s, e);
    case Decide(_) => WriterStepKeepsInv(s, e);
  }

  // ----- all runs

  ghost predicate Init(s: State) {
    && s.tail == 0 && s.head == 0 && |s.buf| >= 1 && 1 <= s.k
    && s.w == WriterIdle && s.r == ReaderIdle
    && s.accepted == [] && s.received == [] && s.sent == [] && s.delivered == []
  }

  ghost predicate Run(s: State, steps: seq<Step>, s': State)
    requires s.tail < |s.buf| && s.head < |s.buf|
    decreases |steps|
  {
    if steps == [] then s == s'
    else
      && Enabled(s, steps[0])
      && (var t := Apply(s, steps[0]); Run(t, steps[1..], s'))
  }

  lemma StepKeepsShape(s: State, e: Step)
    requires s.tail < |s.buf| && s.head < |s.buf| && Enabled(s, e)
    ensures var t := Apply(s, e); t.messages == s.messages && t.k == s.k && |t.buf| == |s.buf|
  {
  }

  lemma {:induction false} RunKeepsInv(s: State, steps: seq<Step>, s': State)
    requires Inv(s) && Run(s, steps, s')
    ensures Inv(s') && s'.messages == s.messages && s'.k == s.k && |s'.buf| == |s.buf|
    decreases |steps|
  {
    if steps != [] {
      StepKeepsInv(s, steps[0]);
      StepKeepsShape(s, steps[0]);
      hide Apply, Enabled, HistoryInv, WriterInv, ReaderInv;
      RunKeepsInv(Apply(s, steps[0]), steps[1..], s');
    }
  }

  // ----- what the two sides have been asked and have seen, from the steps alone

  /** The argument of the latest send and the space it read last; the buffer size of the
      latest receive and the number of bytes it found. */
  datatype Seen = Seen(data: Message, space: nat, max: nat, available: nat)

  const NOTHING_SEEN := Seen([], 0, 0, 0)

  function See(o: Seen, s: State, e: Step): Seen
    requires s.tail < |s.buf| && s.head < |s.buf|
  {
    match e
    case CallSend(data) => o.(data := data)
    case ComputeSpace => o.(space := SpacesAvailable(|s.buf|, s.tail, s.head))
    case CallReceive(max) => o.(max := max)
    case ReadHead => o.(available := BytesInBuffer(|s.buf|, s.tail, s.head))
    case _ => o
  }

  ghost function SeenIn(s: State, o: Seen, steps: seq<Step>, s': State): Seen
    requires s.tail < |s.buf| && s.head < |s.buf| && Run(s, steps, s')
    decreases |steps|
  {
    if steps == [] then o else SeenIn(Apply(s, steps[0]), See(o, s, steps[0]), steps[1..], s')
  }

  /** Of what a send is given, a stream buffer takes what fits in the space that it saw. */
  function Taken(o: Seen): seq<Byte> {
    o.data[..Min(|o.data|, o.space)]
  }

  /** What the sends of a run put into a stream buffer, one after the other: each that
      publishes, that part of its own argument. */
  ghost function AllTaken(s: State, o: Seen, steps: seq<Step>, s': State): seq<Byte>
    requires s.tail < |s.buf| && s.head < |s.buf| && Run(s, steps, s')
    decreases |steps|
  {
    if steps == [] then []
    else
      (if steps[0] == PublishHead then Taken(o) else [])
      + AllTaken(Apply(s, steps[0]), See(o, s, steps[0]), steps[1..], s')
  }

  /** And into a message buffer: each its own argument, whole, unless that is empty. */
  ghost function AllSent(s: State, o: Seen, steps: seq<Step>, s': State): seq<Message>
    requires s.tail < |s.buf| && s.head < |s.buf| && Run(s, steps, s')
    decreases |steps|
  {
    if steps == [] then []
    else
      (if steps[0] == PublishHead && o.data != [] then [o.data] else [])
      + AllSent(Apply(s, steps[0]), See(o, s, steps[0]), steps[1..], s')
  }

  ghost predicate WriterKnows(messages: bool, w: Writer, o: Seen) {
    match w
    case WriterIdle => true
    case Asking(data) => data == o.data
    case HasTail(data, _) => data == o.data
    case HasSpace(data, _, space) => data == o.data && space == o.space
    case Deciding(data, space) => data == o.data && space == o.space
    case Writing(data, payload, done, publish) =>
      data == o.data && (if messages then publish <==> o.data != [] else publish && payload == Taken(o))
  }

  ghost predicate ReaderKnows(messages: bool, r: Reader, o: Seen) {
    match r
    case ReaderIdle => true
    case Sampling(max) => max == o.max
    case Sampled(max, available) => max == o.max && available == o.available
    case ReadingLength(max, available, _) => messages && max == o.max && available == o.available
    case Reading(_, count, _) => if messages then count <= o.max else count == Min(o.max, o.available)
  }

  ghost predicate Knows(s: State, o: Seen) {
    WriterKnows(s.messages, s.w, o) && ReaderKnows(s.messages, s.r, o)
  }

  lemma StepKeepsKnows(s: State, o: Seen, e: Step)
    requires s.tail < |s.buf| && s.head < |s.buf| && Enabled(s, e) && Knows(s, o)
    ensures Knows(Apply(s, e), See(o, s, e))
    ensures !s.messages ==> Apply(s, e).accepted == s.accepted + (if e == PublishHead then Taken(o) else [])
    ensures s.messages ==>
              Apply(s, e).sent == s.sent + (if e == PublishHead && o.data != [] then [o.data] else [])
  {
    hide Frame, DecodeLength, EncodeLength, Advance;
  }

  lemma {:induction false} RunKeepsKnows(s: State, o: Seen, steps: seq<Step>, s': State)
    requires s.tail < |s.buf| && s.head < |s.buf| && Run(s, steps, s') && Knows(s, o)
    ensures Knows(s', SeenIn(s, o, steps, s')) && s'.messages == s.messages
    ensures !s.messages ==> s'.accepted == s.accepted + AllTaken(s, o, steps, s')
    ensures s.messages ==> s'.sent == s.sent + AllSent(s, o, steps, s')
    decreases |steps|
  {
    if steps == [] {
      assert s'.accepted + [] == s'.accepted && s'.sent + [] == s'.sent;
    } else {
      var t, q, rest := Apply(s, steps[0]), See(o, s, steps[0]), steps[1..];
      StepKeepsShape(s, steps[0]);
      StepKeepsKnows(s, o, steps[0]);
      hide Apply, Enabled, Knows, See;
      RunKeepsKnows(t, q, rest, s');
      if s.messages {
        Associate(s.sent, if steps[0] == PublishHead && o.data != [] then [o.data] else [], AllSent(t, q, rest, s'));
      } else {
        Associate(s.accepted, if steps[0] == PublishHead then Taken(o) else [], AllTaken(t, q, rest, s'));
      }
    }
  }

  /** A send that does not wait goes on to write exactly if it has seen space: for the whole
      message and its length in a message buffer, for one byte of the data it was given in a
      stream buffer. */
  lemma SendWritesIfItFits(s: State, steps: seq<Step>, s': State, wait: bool)
    requires Init(s) && Run(s, steps, s')
    requires s'.tail < |s'.buf| && s'.head < |s'.buf| && Enabled(s', Decide(wait))
    ensures var t, o := Apply(s', Decide(wait)), SeenIn(s, NOTHING_SEEN, steps, s');
            && t == s'.(w := t.w)
            && (wait ==> t.w == Asking(o.data))
            && (!wait ==> t.w.WriterIdle? || (t.w.Writing? && t.w.done == 0))
            && (!wait ==>
                (t.w.Writing? <==>
                 if s'.messages then |o.data| + s'.k <= o.space else o.data != [] && o.space > 0))
  {
    RunKeepsKnows(s, NOTHING_SEEN, steps, s');
    hide Run, SeenIn, AllTaken, AllSent;
  }

  /** A receive from a stream buffer takes the first of the bytes that are there: as many as
      it has seen, or as its caller has room for if that is less. */
  lemma ReceiveTakesWhatFits(s: State, steps: seq<Step>, s': State)
    requires Init(s) && !s.messages && Run(s, steps, s')
    requires s'.tail < |s'.buf| && s'.head < |s'.buf| && Enabled(s', PublishTail)
    ensures var t, o := Apply(s', PublishTail), SeenIn(s, NOTHING_SEEN, steps, s');
            var n := Min(o.max, o.available);
            0 < n <= |Bytes(s')| && t.received == s'.received + Bytes(s')[..n] && Bytes(t) == Bytes(s')[n..]
  {
    RunKeepsKnows(s, NOTHING_SEEN, steps, s');
    RunKeepsInv(s, steps, s');
    hide Run, SeenIn, AllTaken, AllSent, Init;
    ConsumedBytes(s');
    hide WriterInv, HistoryInv, Content;
  }

  /** A receive from a message buffer goes on to read the next message exactly if its caller
      has room for all of it. */
  lemma MessageIsReadIfItFits(s: State, steps: seq<Step>, s': State)
    requires Init(s) && Run(s, steps, s') && s'.tail < |s'.buf| && s'.head < |s'.buf| && Enabled(s', LengthKnown)
    ensures var t, o := Apply(s', LengthKnown), SeenIn(s, NOTHING_SEEN, steps, s');
            && t == s'.(r := t.r) && |s'.delivered| < |s'.sent|
            && (t.r.Reading? <==> |s'.sent[|s'.delivered|]| <= o.max) && (t.r.Reading? || t.r.ReaderIdle?)
  {
    RunKeepsKnows(s, NOTHING_SEEN, steps, s');
    RunKeepsInv(s, steps, s');
    hide Run, SeenIn, AllTaken, AllSent, Init, Content, Frames, DecodeLength;
    LengthKnownKeepsInv(s');
    NextIsSendable(s');
    hide WriterInv, HistoryInv;
  }

  /** And a receive from either kind of buffer looks further exactly if it has seen bytes. */
  lemma ReceiveReadsIfThereAreBytes(s: State, steps: seq<Step>, s': State, wait: bool)
    requires Init(s) && Run(s, steps, s') && s'.tail < |s'.buf| && s'.head < |s'.buf| && Enabled(s', DecideRead(wait))
    ensures var t, o := Apply(s', DecideRead(wait)), SeenIn(s, NOTHING_SEEN, steps, s');
            && t == s'.(r := t.r)
            && (o.available == 0 ==> t.r == if wait then Sampling(o.max) else ReaderIdle)
            && (o.available > 0 ==>
                if s'.messages then t.r == ReadingLength(o.max, o.available, []) else t.r.Reading? <==> o.max > 0)
  {
    RunKeepsKnows(s, NOTHING_SEEN, steps, s');
    RunKeepsInv(s, steps, s');
    hide Run, SeenIn, AllTaken, AllSent, Init, Content, Frames, DecodeLength;
    if s'.messages { NextIsSendable(s'); }
    hide WriterInv, HistoryInv;
  }

  lemma NextIsSendable(s: State)
    requires Inv(s) && s.messages
    ensures s.delivered <= s.sent
    ensures |s.delivered| < |s.sent| ==> Pending(s)[0] == s.sent[|s.delivered|] != []
  {
    if |s.delivered| < |s.sent| {
      assert s.sent[|s.delivered|] in s.sent;
    }
  }

  /** A stream buffer loses, invents and reorders nothing, at any moment of any run: what has
      been received followed by what is in the buffer is what the sends have put in, each as
      much of its own argument as fitted in the space that it saw. */
  lemma StreamConservesBytes(s: State, steps: seq<Step>, s': State)
    requires Init(s) && !s.messages && Run(s, steps, s')
    ensures s'.tail < |s'.buf| && s'.head < |s'.buf|
    ensures s'.received + Bytes(s') == s'.accepted == AllTaken(s, NOTHING_SEEN, steps, s')
    ensures |Bytes(s')| + SpacesAvailable(|s'.buf|, s'.tail, s'.head) == |s'.buf| - 1
  {
    RunKeepsInv(s, steps, s');
    RunKeepsKnows(s, NOTHING_SEEN, steps, s');
    UsedAndFreeAddUp(|s'.buf|, s'.tail, s'.head);
  }

  /** A message buffer delivers whole messages in the order in which they were sent, and at
      any moment of any run what it holds parses as exactly the messages not yet delivered. */
  lemma MessagesArriveWholeAndInOrder(s: State, steps: seq<Step>, s': State)
    requires Init(s) && s.messages && Run(s, steps, s')
    ensures s'.tail < |s'.buf| && s'.head < |s'.buf|
    ensures s'.delivered <= s'.sent == AllSent(s, NOTHING_SEEN, steps, s')
    ensures Parse(Bytes(s'), s'.k) == Some(Pending(s'))
    ensures forall m :: m in s'.sent ==> m != []
  {
    RunKeepsInv(s, steps, s');
    RunKeepsKnows(s, NOTHING_SEEN, steps, s');
    PendingIsSendable(s');
    FramesParse(Pending(s'), s'.k);
  }

  /** A receive either hands over exactly the next message, all of it, or changes nothing the
      writer or a later receive could notice. */
  lemma ReceiveIsAllOrNothing(s: State, steps: seq<Step>, s': State, e: Step)
    requires Init(s) && s.messages && Run(s, steps, s')
    requires s'.tail < |s'.buf| && s'.head < |s'.buf| && Enabled(s', e)
    requires e.CallReceive? || e.ReadHead? || e.DecideRead? || e.ReadLengthByte? || e.LengthKnown? || e.ReadByte?
             || e.PublishTail?
    ensures var t := Apply(s', e);
            if e == PublishTail then
              && |s'.delivered| < |s'.sent| && t.delivered == s'.delivered + [s'.sent[|s'.delivered|]]
              && t.buf == s'.buf && t.head == s'.head
            else
              t.buf == s'.buf && t.head == s'.head && t.tail == s'.tail && t.delivered == s'.delivered
  {
    RunKeepsInv(s, steps, s');
    hide Run, HistoryInv, WriterInv, ReaderInv, Init;
    if e == PublishTail {
      PublishTailKeepsInv(s');
      StillPending(s');
    }
  }

  /** The writer never touches a byte the reader may still read. */
  lemma WriterStaysOutside(s: State, steps: seq<Step>, s': State)
    requires Init(s) && Run(s, steps, s')
    requires s'.tail < |s'.buf| && s'.head < |s'.buf| && Enabled(s', WriteByte)
    ensures Bytes(Apply(s', WriteByte)) == Bytes(s')
  {
    RunKeepsInv(s, steps, s');
    hide Run, HistoryInv, WriterInv, ReaderInv, Init;
    WriteByteKeepsInv(s');
  }
}
