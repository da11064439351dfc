/** What the bytes in a stream buffer mean: the content between the two indices of the
    circular array, and in a message buffer the frames that the content consists of. */
module StreamSpec {
  import opened Arithmetic

  type Byte = b: int | 0 <= b < 256

  datatype Option<T> = None | Some(value: T)

  // ----- the circular array

  /** Index i moved on by n places. */
  function Advance(length: nat, i: nat, n: nat): (j: nat)
    requires i < length && n <= length
    ensures j < length
  {
    if i + n >= length then i + n - length else i + n
  }

  /** prvBytesInBuffer */
  function BytesInBuffer(length: nat, tail: nat, head: nat): (n: nat)
    requires tail < length && head < length
    ensures n < length
    ensures Advance(length, tail, n) == head
  {
    var count := length + head - tail;
    if count >= length then count - length else count
  }

  /** xStreamBufferSpacesAvailable */
  function SpacesAvailable(length: nat, tail: nat, head: nat): (n: nat)
    requires tail < length && head < length
  {
    var space := length + tail - head - 1;
    if space >= length then space - length else space
  }

  /** One place is never used, so that full and empty differ. */
  lemma UsedAndFreeAddUp(length: nat, tail: nat, head: nat)
    requires tail < length && head < length
    ensures BytesInBuffer(length, tail, head) + SpacesAvailable(length, tail, head) == length - 1
  {
  }

  /** n bytes from position i on, going round. */
  function Span(buf: seq<Byte>, i: nat, n: nat): (s: seq<Byte>)
    requires i < |buf| && n <= |buf|
    ensures |s| == n
    ensures forall k :: 0 <= k < n ==> s[k] == buf[Advance(|buf|, i, k)]
  {
    seq(n, k requires 0 <= k < n => buf[Advance(|buf|, i, k)])
  }

  function Content(buf: seq<Byte>, tail: nat, head: nat): (s: seq<Byte>)
    requires tail < |buf| && head < |buf|
    ensures |s| == BytesInBuffer(|buf|, tail, head)
  {
    Span(buf, tail, BytesInBuffer(|buf|, tail, head))
  }

  /** The array after data has been written from position head on, going round. */
  function Put(buf: seq<Byte>, head: nat, data: seq<Byte>): (s: seq<Byte>)
    requires head < |buf| && |data| <= |buf|
    ensures |s| == |buf|
    ensures forall i :: 0 <= i < |s| ==>
              s[i] == (var k := if i >= head then i - head else i + |buf| - head;
                       if k < |data| then data[k] else buf[i])
  {
    seq(|buf|, i requires 0 <= i < |buf| =>
      var k := if i >= head then i - head else i + |buf| - head;
      if k < |data| then data[k] else buf[i])
  }

  /** What is written beyond the content does not change it, and publishing the new head
      appends it. */
  lemma PublishAppends(buf: seq<Byte>, tail: nat, head: nat, data: seq<Byte>)
    requires tail < |buf| && head < |buf|
    requires |data| <= SpacesAvailable(|buf|, tail, head)
    requires forall k :: 0 <= k < |data| ==> buf[Advance(|buf|, head, k)] == data[k]
    ensures Content(buf, tail, Advance(|buf|, head, |data|)) == Content(buf, tail, head) + data
  {
    var n := BytesInBuffer(|buf|, tail, head);
    UsedAndFreeAddUp(|buf|, tail, head);
    var after := Content(buf, tail, Advance(|buf|, head, |data|));
    assert |after| == n + |data|;
    forall k | 0 <= k < |after| ensures after[k] == (Content(buf, tail, head) + data)[k] {
      if k >= n { assert Advance(|buf|, tail, k) == Advance(|buf|, head, k - n); }
    }
  }

  lemma PutIsOutside(buf: seq<Byte>, tail: nat, head: nat, data: seq<Byte>)
    requires tail < |buf| && head < |buf|
    requires |data| <= SpacesAvailable(|buf|, tail, head)
    ensures Content(Put(buf, head, data), tail, head) == Content(buf, tail, head)
    ensures forall k :: 0 <= k < |data| ==> Put(buf, head, data)[Advance(|buf|, head, k)] == data[k]
  {
    UsedAndFreeAddUp(|buf|, tail, head);
  }

  lemma PutAndPublish(buf: seq<Byte>, tail: nat, head: nat, data: seq<Byte>)
    requires tail < |buf| && head < |buf|
    requires |data| <= SpacesAvailable(|buf|, tail, head)
    ensures |data| <= |buf|
    ensures Content(Put(buf, head, data), tail, Advance(|buf|, head, |data|)) == Content(buf, tail, head) + data
  {
    UsedAndFreeAddUp(|buf|, tail, head);
    PutIsOutside(buf, tail, head, data);
    PublishAppends(Put(buf, head, data), tail, head, data);
  }

  /** Two adjoining writes are one. */
  lemma PutTwice(buf: seq<Byte>, head: nat, a: seq<Byte>, b: seq<Byte>)
    requires head < |buf| && |a| + |b| <= |buf|
    ensures Put(Put(buf, head, a), Advance(|buf|, head, |a|), b) == Put(buf, head, a + b)
    ensures Advance(|buf|, Advance(|buf|, head, |a|), |b|) == Advance(|buf|, head, |a + b|)
  {
  }

  /** Overwriting one free place. */
  lemma StoreIsOutside(buf: seq<Byte>, tail: nat, head: nat, k: nat, b: Byte)
    requires tail < |buf| && head < |buf|
    requires k < SpacesAvailable(|buf|, tail, head)
    ensures Content(buf[Advance(|buf|, head, k) := b], tail, head) == Content(buf, tail, head)
  {
    UsedAndFreeAddUp(|buf|, tail, head);
  }

  /** Moving the tail on takes bytes off the front. */
  lemma ConsumeDrops(buf: seq<Byte>, tail: nat, head: nat, n: nat)
    requires tail < |buf| && head < |buf|
    requires n <= BytesInBuffer(|buf|, tail, head)
    ensures Content(buf, Advance(|buf|, tail, n), head) == Content(buf, tail, head)[n..]
    ensures BytesInBuffer(|buf|, Advance(|buf|, tail, n), head) == BytesInBuffer(|buf|, tail, head) - n
  {
    var tail' := Advance(|buf|, tail, n);
    var after, before := Content(buf, tail', head), Content(buf, tail, head)[n..];
    forall k | 0 <= k < |after| ensures after[k] == before[k] {
      assert Advance(|buf|, tail', k) == Advance(|buf|, tail, n + k);
    }
  }

  // ----- frames

  /** A length in k little-endian bytes. */
  function EncodeLength(n: nat, k: nat): (s: seq<Byte>)
    ensures |s| == k
  {
    if k == 0 then [] else [n % 256] + EncodeLength(n / 256, k - 1)
  }

  function DecodeLength(s: seq<Byte>): nat {
    if s == [] then 0 else s[0] + 256 * DecodeLength(s[1..])
  }

  lemma {:induction false} LengthRoundTrip(n: nat, k: nat)
    requires n < Power256(k)
    ensures DecodeLength(EncodeLength(n, k)) == n
  {
    if k > 0 {
      LengthRoundTrip(n / 256, k - 1);
      assert EncodeLength(n, k)[1..] == EncodeLength(n / 256, k - 1);
    }
  }

  /** Whether m can be a message: the length type must hold its length. */
  predicate Sendable(m: seq<Byte>, k: nat) {
    0 < |m| < Power256(k)
  }

  function Frame(m: seq<Byte>, k: nat): seq<Byte> {
    EncodeLength(|m|, k) + m
  }

  function Frames(ms: seq<seq<Byte>>, k: nat): seq<Byte> {
    if ms == [] then [] else Frame(ms[0], k) + Frames(ms[1..], k)
  }

  lemma {:induction false} FramesAppend(ms: seq<seq<Byte>>, m: seq<Byte>, k: nat)
    ensures Frames(ms + [m], k) == Frames(ms, k) + Frame(m, k)
  {
    if ms == [] {
      assert Frames([m], k) == Frame(m, k) + Frames([], k);
      assert ms + [m] == [m];
    } else {
      FramesAppend(ms[1..], m, k);
      assert (ms + [m])[1..] == ms[1..] + [m] && (ms + [m])[0] == ms[0];
      Associate(Frame(ms[0], k), Frames(ms[1..], k), Frame(m, k));
    }
  }

  /** Reading frames off the bytes, with nothing known of how they got there. */
  function Parse(s: seq<Byte>, k: nat): Option<seq<seq<Byte>>> {
    if s == [] then Some([])
    else if |s| < k then None
    else
      var n := DecodeLength(s[..k]);
      if n == 0 || |s| < k + n then None
      else
        var rest := Parse(s[k + n..], k);
        if rest == None then None else Some([s[k..k + n]] + rest.value)
  }

  lemma {:induction false} FramesParse(ms: seq<seq<Byte>>, k: nat)
    requires forall m :: m in ms ==> Sendable(m, k)
    ensures Parse(Frames(ms, k), k) == Some(ms)
  {
    if ms != [] {
      var s, m := Frames(ms, k), ms[0];
      assert m in ms;
      FirstFrame(ms, k);
      assert s[k + |m|..] == Frames(ms[1..], k);
      FramesParse(ms[1..], k);
      assert [m] + ms[1..] == ms;
    }
  }

  /** The front of the frames is the first message behind its length. */
  lemma FirstFrame(ms: seq<seq<Byte>>, k: nat)
    requires ms != [] && Sendable(ms[0], k)
    ensures var s := Frames(ms, k); var n := |ms[0]|;
            && k + n <= |s| && DecodeLength(s[..k]) == n && s[k..k + n] == ms[0]
            && s[k + n..] == Frames(ms[1..], k)
  {
    var s, m := Frames(ms, k), ms[0];
    LengthRoundTrip(|m|, k);
    assert s == EncodeLength(|m|, k) + m + Frames(ms[1..], k);
    assert s[..k] == EncodeLength(|m|, k);
  }

  /** Where in the array the first message and its length are. */
  lemma FirstMessageInArray(buf: seq<Byte>, tail: nat, head: nat, ms: seq<seq<Byte>>, k: nat)
    requires tail < |buf| && head < |buf|
    requires ms != [] && Sendable(ms[0], k) && Content(buf, tail, head) == Frames(ms, k)
    ensures var n := |ms[0]|;
            && k + n <= BytesInBuffer(|buf|, tail, head)
            && Span(buf, tail, k) == EncodeLength(n, k)
            && DecodeLength(Span(buf, tail, k)) == n
            && (var body := Advance(|buf|, tail, k);
                && Span(buf, body, n) == ms[0]
                && Content(buf, Advance(|buf|, body, n), head) == Frames(ms[1..], k))
  {
    hide Frames, Span, Content, EncodeLength, DecodeLength, BytesInBuffer, Advance;
    FirstFrame(ms, k);
    LengthInArray(buf, tail, head, ms, k);
    SpanInContent(buf, tail, head, k, |ms[0]|);
    ConsumeDrops(buf, tail, head, k + |ms[0]|);
  }

  lemma LengthInArray(buf: seq<Byte>, tail: nat, head: nat, ms: seq<seq<Byte>>, k: nat)
    requires tail < |buf| && head < |buf|
    requires ms != [] && Content(buf, tail, head) == Frames(ms, k)
    ensures k <= |Frames(ms, k)| && k <= |buf| && Span(buf, tail, k) == Frames(ms, k)[..k] == EncodeLength(|ms[0]|, k)
  {
    FramesBeginWithLength(ms, k);
    hide Frames, EncodeLength;
    assert Span(buf, tail, k) == Content(buf, tail, head)[..k];
  }

  lemma FramesBeginWithLength(ms: seq<seq<Byte>>, k: nat)
    requires ms != []
    ensures k <= |Frames(ms, k)| && Frames(ms, k)[..k] == EncodeLength(|ms[0]|, k)
  {
    assert Frames(ms, k) == EncodeLength(|ms[0]|, k) + (ms[0] + Frames(ms[1..], k));
  }

  lemma SpanInContent(buf: seq<Byte>, tail: nat, head: nat, k: nat, n: nat)
    requires tail < |buf| && head < |buf| && k + n <= BytesInBuffer(|buf|, tail, head)
    ensures Span(buf, Advance(|buf|, tail, k), n) == Content(buf, tail, head)[k..k + n]
    ensures Advance(|buf|, Advance(|buf|, tail, k), n) == Advance(|buf|, tail, k + n)
  {
    var body := Advance(|buf|, tail, k);
    forall i | 0 <= i < n ensures Span(buf, body, n)[i] == Content(buf, tail, head)[k + i] {
      assert Advance(|buf|, body, i) == Advance(|buf|, tail, k + i);
    }
  }
}
