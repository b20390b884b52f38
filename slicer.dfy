/**
 * AudioBufferSlice (src/assets/js/slicer.js): cut the window [begin, end) out
 * of an AudioBuffer into a freshly allocated buffer and hand the result to a
 * callback.
 *
 * Units: every time is an integer number of sample frames at the buffer's
 * rate. The source receives milliseconds, divides by 1000 and multiplies by
 * the rate; with whole offsets that conversion is exact and order-preserving
 * (see RangeChecksAgree), so the model starts from the frame offsets.
 */
module Slicer {
  import opened Options
  import opened WebAudio

  /** The error values AudioBufferSlice can assign to `error`. */
  datatype SliceError =
    | BeginNegative        // RangeError: begin time must be greater than 0
    | EndAfterDuration     // RangeError: end time must be less than or equal to the duration
    | CallbackNotFunction  // TypeError: callback must be a function
    | CreateBufferFailed   // the exception thrown while allocating the new buffer, caught and kept

  /** The `end` argument: a time, or a function, which then takes the callback's place. */
  datatype EndArg = EndAt(frames: int) | EndIsCallback

  /** What a call of AudioBufferSlice amounts to. */
  datatype SliceOutcome =
    | Delivered(error: Option<SliceError>, buffer: Option<AudioBuffer>)  // callback(error, newArrayBuffer) ran once
    | ThrewTypeError                                                     // the callback is not callable: the call itself throws

  /** The contents of the Float32Array after copyFromChannel(array, channel, begin) on a fresh array of `count` frames. */
  function CopyWindow(channel: seq<int>, begin: int, count: nat): (w: seq<int>)
    ensures |w| == count
  {
    FromChannel(Zeros(count), channel, ToUnsignedLong(begin))
  }

  /** The channels [from, to) of `b`, as a buffer of its own. */
  function Window(b: AudioBuffer, from: nat, to: nat): (w: AudioBuffer)
    requires Valid(b) && from < to <= b.length
    ensures Valid(w) && w.sampleRate == b.sampleRate && w.length == to - from && |w.channels| == |b.channels|
  {
    AudioBuffer(b.sampleRate, to - from, seq(|b.channels|, c requires 0 <= c < |b.channels| => b.channels[c][from..to]))
  }

  /**
   * The call once the callback is known to be a function. The checks of
   * lines 71-77 overwrite `error` one after the other; an exception while
   * allocating overwrites it again; the callback always runs.
   */
  function Deliver(b: AudioBuffer, begin: int, endFrame: int): (r: SliceOutcome)
    requires Valid(b)
    ensures r.Delivered?
    ensures r.buffer.Some? <==> 0 < endFrame - begin < UnsignedLongModulus
    ensures r.buffer.None? ==> r.error == Some(CreateBufferFailed)
    ensures r.buffer.Some? ==> (r.error.None? <==> 0 <= begin && endFrame <= b.length)
    ensures r.buffer.Some? && endFrame > b.length ==> r.error == Some(EndAfterDuration)
    ensures r.buffer.Some? && endFrame <= b.length && begin < 0 ==> r.error == Some(BeginNegative)
    ensures r.buffer.Some? ==>
      && Valid(r.buffer.value)
      && r.buffer.value.sampleRate == b.sampleRate
      && |r.buffer.value.channels| == |b.channels|
      && r.buffer.value.length == endFrame - begin
  {
    var count := endFrame - begin;
    var rangeError :=
      if endFrame > b.length then Some(EndAfterDuration)
      else if begin < 0 then Some(BeginNegative)
      else None;
    match CreateBuffer(|b.channels|, count, b.sampleRate)
    case None => Delivered(Some(CreateBufferFailed), None)
    case Some(created) =>
      Delivered(rangeError, Some(created.(channels :=
        seq(|b.channels|, c requires 0 <= c < |b.channels| => CopyWindow(b.channels[c], begin, count)))))
  }

  /** AudioBufferSlice(buffer, begin, end, callback) as a value. */
  function Slice(b: AudioBuffer, begin: int, end: EndArg, callbackIsFunction: bool): (r: SliceOutcome)
    requires Valid(b)
    ensures r.ThrewTypeError? <==> end.EndAt? && !callbackIsFunction
  {
    match end
    case EndIsCallback => Deliver(b, begin, b.length)
    case EndAt(f) => if callbackIsFunction then Deliver(b, begin, f) else ThrewTypeError
  }

  /**
   * Lines 91-97: one Float32Array of frameCount elements, loaded from each
   * source channel at `begin` and stored into the same channel of the new
   * buffer at offset 0.
   */
  method CopyChannels(buffer: AudioBuffer, begin: int, created: AudioBuffer) returns (out: AudioBuffer)
    requires Valid(buffer) && |created.channels| == |buffer.channels| && created.length < UnsignedLongModulus
    requires forall c :: 0 <= c < |created.channels| ==> created.channels[c] == Zeros(created.length)
    ensures out == created.(channels :=
      seq(|buffer.channels|, c requires 0 <= c < |buffer.channels| => CopyWindow(buffer.channels[c], begin, created.length)))
  {
    var frameCount := created.length;
    var channels := |buffer.channels|;
    out := created;
    var another := new int[frameCount](_ => 0);
    ghost var k := ToUnsignedLong(begin);
    ghost var n := FramesCopied(buffer.length, frameCount, k);
    var channel := 0;
    while channel < channels
      invariant 0 <= channel <= channels
      invariant another.Length == frameCount
      invariant forall i :: n <= i < frameCount ==> another[i] == 0
      invariant out.sampleRate == created.sampleRate && out.length == frameCount && |out.channels| == channels
      invariant forall c :: 0 <= c < channel ==> out.channels[c] == CopyWindow(buffer.channels[c], begin, frameCount)
      invariant forall c :: channel <= c < channels ==> out.channels[c] == Zeros(frameCount)
    {
      CopyFromChannel(buffer, another, channel, begin);
      assert another[..] == CopyWindow(buffer.channels[channel], begin, frameCount);
      assert ToChannel(out.channels[channel], another[..], 0) == another[..];
      out := CopyToChannel(out, another[..], channel, 0);
      channel := channel + 1;
    }
  }

  /**
   * The imperative slicer: the checks, createBuffer, and the per-channel
   * copy through one Float32Array of `frameCount` elements.
   */
  method AudioBufferSlice(buffer: AudioBuffer, begin: int, end: EndArg, callbackIsFunction: bool)
    returns (outcome: SliceOutcome)
    requires Valid(buffer)
    ensures outcome == Slice(buffer, begin, end, callbackIsFunction)
  {
    var error: Option<SliceError> := None;
    var duration := buffer.length;
    var channels := |buffer.channels|;
    var rate := buffer.sampleRate;
    var callbackIsFn := callbackIsFunction;
    var endFrame: int;
    if end.EndIsCallback? {
      callbackIsFn := true;
      endFrame := duration;
    } else {
      endFrame := end.frames;
    }
    if begin < 0 {
      error := Some(BeginNegative);
    }
    if endFrame > duration {
      error := Some(EndAfterDuration);
    }
    if !callbackIsFn {
      error := Some(CallbackNotFunction);
    }
    var startOffset := begin;
    var frameCount := endFrame - startOffset;
    var newBuffer: Option<AudioBuffer> := None;
    var created := CreateBuffer(channels, frameCount, rate);
    if created.None? {
      error := Some(CreateBufferFailed);
    } else {
      var out := CopyChannels(buffer, startOffset, created.value);
      newBuffer := Some(out);
    }
    if !callbackIsFn {
      return ThrewTypeError;
    }
    outcome := Delivered(error, newBuffer);
    assert created.Some? ==> error == (if endFrame > duration then Some(EndAfterDuration)
                                       else if begin < 0 then Some(BeginNegative) else None);
    assert created.None? ==> outcome == Deliver(buffer, begin, endFrame);
    assert created.Some? ==> outcome == Deliver(buffer, begin, endFrame);
  }

  /** Lines 63-66: a function passed as `end` becomes the callback, and `end` becomes the whole buffer. */
  lemma DefaultEndIsWholeBuffer(b: AudioBuffer, begin: int, callbackIsFunction: bool)
    requires Valid(b)
    ensures Slice(b, begin, EndIsCallback, callbackIsFunction) == Slice(b, begin, EndAt(b.length), true)
  {
  }

  /** A fresh Float32Array loaded from `begin` within the data holds exactly the source frames. */
  lemma CopyWindowInRange(channel: seq<int>, begin: nat, count: nat)
    requires begin + count <= |channel| < UnsignedLongModulus
    ensures CopyWindow(channel, begin, count) == channel[begin..begin + count]
  {
    var w := CopyWindow(channel, begin, count);
    assert FramesCopied(|channel|, count, begin) == count;
    assert forall i :: 0 <= i < count ==> w[i] == channel[begin + i];
  }

  /**
   * Lines 83-97 within range: the result has the source's rate and channel
   * count, end - begin frames, every channel holds the source channel's
   * frames [begin, end) from offset 0, and no error is delivered.
   */
  lemma SliceInRange(b: AudioBuffer, begin: nat, endFrame: nat)
    requires Valid(b) && begin < endFrame <= b.length
    ensures Slice(b, begin, EndAt(endFrame), true) == Delivered(None, Some(Window(b, begin, endFrame)))
  {
    var count := endFrame - begin;
    forall c | 0 <= c < |b.channels|
      ensures CopyWindow(b.channels[c], begin, count) == b.channels[c][begin..endFrame]
    {
      CopyWindowInRange(b.channels[c], begin, count);
    }
    var r := Slice(b, begin, EndAt(endFrame), true);
    assert r.buffer.value.channels == Window(b, begin, endFrame).channels;
  }

  /**
   * A negative begin is reported (line 72) unless the end check overrides it
   * (line 76), and a buffer is still delivered: WebIDL
   * wraps the offset modulo 2^32 past the data, so every delivered channel is
   * silent.
   */
  lemma NegativeBeginCopiesNothing(b: AudioBuffer, begin: int, endFrame: int)
    requires Valid(b) && begin < 0 && b.length - begin <= UnsignedLongModulus
    ensures var r := Slice(b, begin, EndAt(endFrame), true);
      r.buffer.Some? <==> 0 < endFrame - begin < UnsignedLongModulus
    ensures var r := Slice(b, begin, EndAt(endFrame), true);
      r.buffer.Some? ==> r.error == Some(if endFrame > b.length then EndAfterDuration else BeginNegative)
    ensures var r := Slice(b, begin, EndAt(endFrame), true);
      r.buffer.Some? ==> forall c :: 0 <= c < |b.channels| ==> r.buffer.value.channels[c] == Zeros(endFrame - begin)
  {
    var r := Slice(b, begin, EndAt(endFrame), true);
    if r.buffer.Some? {
      var count := endFrame - begin;
      forall c | 0 <= c < |b.channels| ensures r.buffer.value.channels[c] == Zeros(count) {
        assert ToUnsignedLong(begin) >= |b.channels[c]|;
        assert FramesCopied(|b.channels[c]|, count, ToUnsignedLong(begin)) == 0;
      }
    }
  }

  /**
   * An end past the duration is reported (line 76), yet a buffer is still
   * delivered: the frames from begin to the end of the data, then silence.
   */
  lemma EndPastDurationPadsSilence(b: AudioBuffer, begin: nat, endFrame: int)
    requires Valid(b) && begin < b.length < endFrame && endFrame - begin < UnsignedLongModulus
    ensures var r := Slice(b, begin, EndAt(endFrame), true);
      && r.error == Some(EndAfterDuration) && r.buffer.Some?
      && forall c :: 0 <= c < |b.channels| ==>
           r.buffer.value.channels[c] == b.channels[c][begin..] + Zeros(endFrame - b.length)
  {
    var r := Slice(b, begin, EndAt(endFrame), true);
    var count := endFrame - begin;
    forall c | 0 <= c < |b.channels|
      ensures r.buffer.value.channels[c] == b.channels[c][begin..] + Zeros(endFrame - b.length)
    {
      var w := r.buffer.value.channels[c];
      assert FramesCopied(|b.channels[c]|, count, begin) == b.length - begin;
      assert forall i :: 0 <= i < count ==> w[i] == (b.channels[c][begin..] + Zeros(endFrame - b.length))[i];
    }
  }

  /** The frame offset `rate * ms / 1000` of a time given in milliseconds, defined when it is whole. */
  function FramesOf(rate: nat, ms: int): (f: int)
    requires (rate * ms) % 1000 == 0
    ensures f * 1000 == rate * ms
  {
    rate * ms / 1000
  }

  /**
   * The checks of lines 68-77, made in seconds on `begin / 1000` and
   * `end / 1000` against `duration = length / rate`, agree with the same
   * checks made on whole frame offsets: the model's unit is sound.
   */
  lemma RangeChecksAgree(b: AudioBuffer, beginMs: int, endMs: int)
    requires Valid(b)
    requires (b.sampleRate * beginMs) % 1000 == 0 && (b.sampleRate * endMs) % 1000 == 0
    ensures beginMs < 0 <==> FramesOf(b.sampleRate, beginMs) < 0
    ensures endMs * b.sampleRate > b.length * 1000 <==> FramesOf(b.sampleRate, endMs) > b.length
  {
    var rate := b.sampleRate;
    var fb, fe := FramesOf(rate, beginMs), FramesOf(rate, endMs);
    if beginMs < 0 {
      assert rate * beginMs < 0;
    } else {
      assert rate * beginMs >= 0;
    }
    assert endMs * rate == fe * 1000;
    if fe > b.length {
      assert fe * 1000 > b.length * 1000;
    } else {
      assert fe * 1000 <= b.length * 1000;
    }
  }

  /** The window over all frames is the buffer itself. */
  lemma WindowWhole(b: AudioBuffer)
    requires Valid(b) && 0 < b.length
    ensures Window(b, 0, b.length) == b
  {
    var w := Window(b, 0, b.length);
    assert forall c :: 0 <= c < |b.channels| ==> w.channels[c] == b.channels[c];
  }

  /** Cutting the tail after `skip` frames out of a tail window is one tail window. */
  lemma WindowOfTail(b: AudioBuffer, from: nat, skip: nat)
    requires Valid(b) && from + skip < b.length
    ensures Window(Window(b, from, b.length), skip, b.length - from) == Window(b, from + skip, b.length)
  {
    var inner := Window(b, from, b.length);
    var outer := Window(inner, skip, b.length - from);
    var direct := Window(b, from + skip, b.length);
    forall c | 0 <= c < |b.channels| ensures outer.channels[c] == direct.channels[c] {
      assert inner.channels[c] == b.channels[c][from..];
    }
  }
}
