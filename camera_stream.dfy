/** The camera's isochronous IN state machine, as values: which packet each
    IN call produces and how the state counter and the frame offset move.
    Every delivered packet is 768 bytes; a frame is a 16-byte header with
    the first 752 frame bytes, then body chunks of up to 768 bytes, then a
    16-byte footer, then a tail of NAKs before the next frame. */
module CameraStream {
  import Usb

  const PacketSize: nat := 768
  const HeaderSize: nat := 16
  /** Frame bytes that travel in the header packet. */
  const FirstChunk: nat := PacketSize - HeaderSize
  /** The footer jumps to this state; from here on every call NAKs. */
  const IdleState: nat := 25
  /** The last NAK state: it restarts the cycle. */
  const RestartState: nat := 30

  const HeaderBytes: seq<Usb.byte> :=
    [0xFF, 0xFF, 0xFF, 0x50, 0x00, 0x00, 0x00, 0x00, 0x00, 0x00, 0x03, 0x00, 0x00, 0x00, 0x00, 0x00]
  const FooterBytes: seq<Usb.byte> :=
    [0xFF, 0xFF, 0xFF, 0x51, 0x00, 0x00, 0x00, 0x00, 0x00, 0x00, 0x03, 0x00, 0x00, 0x00, 0x00, 0x00]

  /** The counters of the stream: `state`, the read `offset` into the
      encoded frame, and the frame's length `jpgSize`. */
  datatype Stream = Stream(state: nat, offset: nat, jpgSize: nat)

  /** What one IN call does: a header packet (new frame), a body packet
      carrying frame bytes `[start, start + len)`, a footer packet, or a NAK
      with no data. */
  datatype Event = Header | Body(start: nat, len: nat) | Footer | Nak

  function Min(a: int, b: int): int { if a < b then a else b }
  function Max(a: int, b: int): int { if a < b then b else a }

  /** `frameId` advances by one per encoded frame and wraps from 255 to 0. */
  function NextFrameId(id: Usb.byte): (r: Usb.byte)
    ensures r == (id + 1) % 256
  {
    if id < 255 then id + 1 else 0
  }

  /** One IN call. `encodedSize` is the length of the frame the encoder
      produces; it is consulted only in state 0, where a new frame starts. */
  function Step(s: Stream, encodedSize: nat): (r: (Stream, Event))
    ensures r.1 == Header <==> s.state == 0
    ensures r.1 == Header ==> r.0 == Stream(1, FirstChunk, encodedSize)
    ensures r.1.Body? <==> s.state != 0 && s.offset < s.jpgSize
    ensures r.1.Body? ==>
      && r.1.start == s.offset
      && 0 < r.1.len <= PacketSize
      && (r.1.len == PacketSize || s.offset + r.1.len == s.jpgSize)
      && r.0 == Stream(s.state + 1, s.offset + r.1.len, s.jpgSize)
      && r.0.offset <= s.jpgSize
    ensures r.1 == Footer <==> 0 < s.state < IdleState && s.jpgSize <= s.offset
    ensures r.1 == Footer ==> r.0 == s.(state := IdleState)
    ensures r.1 == Nak <==> s.state >= IdleState && s.jpgSize <= s.offset
    ensures r.1 == Nak ==> r.0 == s.(state := if s.state == RestartState then 0 else s.state + 1)
  {
    if s.state == 0 then
      (Stream(1, FirstChunk, encodedSize), Header)
    else if s.offset < s.jpgSize then
      var len := Min(s.jpgSize - s.offset, PacketSize);
      (Stream(s.state + 1, s.offset + len, s.jpgSize), Body(s.offset, len))
    else if s.state == RestartState then
      (s.(state := 0), Nak)
    else if s.state >= IdleState then
      (s.(state := s.state + 1), Nak)
    else
      (s.(state := IdleState), Footer)
  }

  /** `n` consecutive IN calls, all seeing an encoder that produces frames
      of `encodedSize` bytes: the final counters and the events in order.
      The offset never passes the end of the current frame, except right
      after the header of a frame shorter than the header's 752 bytes. */
  function Run(s: Stream, encodedSize: nat, n: nat): (r: (Stream, seq<Event>))
    ensures |r.1| == n
    ensures s.offset <= Max(s.jpgSize, FirstChunk) ==> r.0.offset <= Max(r.0.jpgSize, FirstChunk)
    decreases n
  {
    if n == 0 then (s, [])
    else
      var step := Step(s, encodedSize);
      var rest := Run(step.0, encodedSize, n - 1);
      (rest.0, [step.1] + rest.1)
  }

  /** `n` NAKs in a row. */
  function Naks(n: nat): (es: seq<Event>)
    ensures |es| == n && forall i | 0 <= i < n :: es[i] == Nak
  {
    seq(n, _ => Nak)
  }

  /** The body packets that carry frame bytes `[from, size)`, in order. */
  function Chunks(from: nat, size: nat): (es: seq<Event>)
    decreases size - from
  {
    if size <= from then []
    else
      var len := Min(size - from, PacketSize);
      [Body(from, len)] + Chunks(from + len, size)
  }

  /** The body packets cover `[from, size)` exactly, in consecutive chunks of
      768 bytes, the last one possibly shorter; there are
      ceil((size - from) / 768) of them. */
  lemma {:induction false} ChunksCover(from: nat, size: nat)
    ensures |Chunks(from, size)| == if size <= from then 0 else (size - from + PacketSize - 1) / PacketSize
    ensures forall k | 0 <= k < |Chunks(from, size)| ::
      Chunks(from, size)[k] == Body(from + PacketSize * k, Min(size - from - PacketSize * k, PacketSize))
    decreases size - from
  {
    if from < size {
      var len := Min(size - from, PacketSize);
      ChunksCover(from + len, size);
      var es := Chunks(from, size);
      assert es == [Body(from, len)] + Chunks(from + len, size);
      forall k | 0 < k < |es|
        ensures es[k] == Body(from + PacketSize * k, Min(size - from - PacketSize * k, PacketSize))
      {
        assert es[k] == Chunks(from + len, size)[k - 1];
        assert len == PacketSize;
      }
    }
  }

  /** Running `m + n` calls is running `m` calls and then `n` more. */
  lemma {:induction false} RunSplit(s: Stream, encodedSize: nat, m: nat, n: nat)
    ensures var first := Run(s, encodedSize, m);
            var second := Run(first.0, encodedSize, n);
            Run(s, encodedSize, m + n) == (second.0, first.1 + second.1)
    decreases m
  {
    if m > 0 {
      var step := Step(s, encodedSize);
      RunSplit(step.0, encodedSize, m - 1, n);
      var first := Run(step.0, encodedSize, m - 1);
      var second := Run(first.0, encodedSize, n);
      assert m + n - 1 == (m - 1) + n;
      assert Run(s, encodedSize, m + n) == (second.0, [step.1] + (first.1 + second.1));
      assert Run(s, encodedSize, m) == (first.0, [step.1] + first.1);
      assert [step.1] + (first.1 + second.1) == ([step.1] + first.1) + second.1;
    } else {
      assert [] + Run(s, encodedSize, n).1 == Run(s, encodedSize, n).1;
    }
  }

  /** Once a frame has started, the body packets follow one per call until
      the offset reaches the frame's end; each advances the state by one,
      however far that takes it past 25. */
  lemma {:induction false} BodyPhase(s: Stream, encodedSize: nat)
    requires s.state > 0
    ensures var k := |Chunks(s.offset, s.jpgSize)|;
      Run(s, encodedSize, k)
        == (Stream(s.state + k, Max(s.offset, s.jpgSize), s.jpgSize), Chunks(s.offset, s.jpgSize))
    decreases s.jpgSize - s.offset
  {
    if s.offset < s.jpgSize {
      var step := Step(s, encodedSize);
      BodyPhase(step.0, encodedSize);
      assert Chunks(s.offset, s.jpgSize) == [step.1] + Chunks(step.0.offset, s.jpgSize);
    }
  }

  /** From a NAK state 25..30 with the frame exhausted, the calls up to and
      including state 30 all NAK, and the last one returns to state 0. The
      offset is left where it was. */
  lemma {:induction false} IdleTail(s: Stream, encodedSize: nat)
    requires IdleState <= s.state <= RestartState && s.jpgSize <= s.offset
    ensures Run(s, encodedSize, RestartState + 1 - s.state)
      == (s.(state := 0), Naks(RestartState + 1 - s.state))
    decreases RestartState - s.state
  {
    var n := RestartState + 1 - s.state;
    var step := Step(s, encodedSize);
    if s.state < RestartState {
      IdleTail(step.0, encodedSize);
      assert [Nak] + Naks(n - 1) == Naks(n);
    } else {
      assert Run(step.0, encodedSize, 0) == (step.0, []);
      assert [step.1] + [] == [step.1];
      assert Naks(1) == [Nak];
    }
  }

  /** With the frame exhausted in a body state below 25, the next call sends
      the footer, the six after it NAK, and the eighth starts a new frame:
      exactly six NAKs separate a footer from the next header. */
  lemma FooterThenGap(s: Stream, encodedSize: nat)
    requires 0 < s.state < IdleState && s.jpgSize <= s.offset
    ensures Run(s, encodedSize, 7) == (s.(state := 0), [Footer] + Naks(6))
    ensures Run(s, encodedSize, 8).1 == [Footer] + Naks(6) + [Header]
  {
    var s1 := s.(state := IdleState);
    assert Step(s, encodedSize) == (s1, Footer);
    IdleTail(s1, encodedSize);
    RunSplit(s, encodedSize, 1, 6);
    RunSplit(s, encodedSize, 7, 1);
    assert Run(s.(state := 0), encodedSize, 1).1 == [Header];
  }

  /** Once the state has passed 30 with the frame exhausted, every call NAKs
      and increments the state: the stream never restarts. */
  lemma {:induction false} RunawayNaks(s: Stream, encodedSize: nat, n: nat)
    requires s.state > RestartState && s.jpgSize <= s.offset
    ensures Run(s, encodedSize, n) == (s.(state := s.state + n), Naks(n))
    decreases n
  {
    if n > 0 {
      RunawayNaks(Step(s, encodedSize).0, encodedSize, n - 1);
      assert [Nak] + Naks(n - 1) == Naks(n);
    }
  }

  /** A whole frame cycle from state 0, for an encoded frame of `size`
      bytes that needs B body packets after the header:
      - B < 24: header, B bodies, footer, six NAKs, back to state 0;
      - 24 <= B < 30: the bodies carry the state to 25 or beyond, so the
        footer is never sent; NAKs follow up to state 30 and the cycle
        takes 31 calls in all. */
  lemma FrameCycle(s: Stream, size: nat)
    requires s.state == 0
    ensures var bodies := Chunks(FirstChunk, size);
            var done := Stream(0, Max(FirstChunk, size), size);
      && (|bodies| < IdleState - 1 ==>
            Run(s, size, |bodies| + 8) == (done, [Header] + bodies + [Footer] + Naks(6)))
      && (IdleState - 1 <= |bodies| < RestartState ==>
            Run(s, size, RestartState + 1) == (done, [Header] + bodies + Naks(RestartState - |bodies|)))
  {
    var bodies := Chunks(FirstChunk, size);
    var b := |bodies|;
    var first := Stream(1, FirstChunk, size);
    assert Run(first, size, 0) == (first, []);
    BodyPhase(first, size);
    var mid := Stream(1 + b, Max(FirstChunk, size), size);
    RunSplit(s, size, 1, b);
    if b < IdleState - 1 {
      FooterThenGap(mid, size);
      RunSplit(s, size, 1 + b, 7);
      assert [Header] + bodies + ([Footer] + Naks(6)) == [Header] + bodies + [Footer] + Naks(6);
    } else if b < RestartState {
      IdleTail(mid, size);
      RunSplit(s, size, 1 + b, RestartState - b);
    }
  }

  /** The runaway case of a frame cycle: when B >= 30 body packets are
      needed, the header and bodies are followed by NAKs forever, with the
      state counting up past 30. */
  lemma RunawayCycle(s: Stream, size: nat, n: nat)
    requires s.state == 0 && |Chunks(FirstChunk, size)| >= RestartState
    ensures var bodies := Chunks(FirstChunk, size);
      Run(s, size, 1 + |bodies| + n)
        == (Stream(1 + |bodies| + n, size, size), [Header] + bodies + Naks(n))
  {
    var bodies := Chunks(FirstChunk, size);
    var b := |bodies|;
    var first := Stream(1, FirstChunk, size);
    assert Run(first, size, 0) == (first, []);
    BodyPhase(first, size);
    assert FirstChunk < size;
    RunSplit(s, size, 1, b);
    RunawayNaks(Stream(1 + b, size, size), size, n);
    RunSplit(s, size, 1 + b, n);
  }
}
