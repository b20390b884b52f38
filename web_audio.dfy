/**
 * The part of the Web Audio API's AudioBuffer interface (section 1.4 of the
 * W3C Web Audio API Recommendation) that the slicer calls: createBuffer,
 * copyFromChannel and copyToChannel. Samples are modelled as integers;
 * Float32 values and their rounding are not part of this model.
 */
module WebAudio {
  import opened Options

  /** WebIDL `unsigned long` values lie in [0, 2^32). */
  const UnsignedLongModulus: int := 0x1_0000_0000

  /** An AudioBuffer: its sample rate, its length in sample frames, and one sample sequence per channel. */
  datatype AudioBuffer = AudioBuffer(sampleRate: nat, length: nat, channels: seq<seq<int>>)

  /** What every AudioBuffer the host hands out satisfies. */
  predicate Valid(b: AudioBuffer) {
    && b.sampleRate > 0
    && 1 <= |b.channels|
    && b.length < UnsignedLongModulus
    && forall c :: 0 <= c < |b.channels| ==> |b.channels[c]| == b.length
  }

  /** A channel of `count` silent frames. */
  function Zeros(count: nat): (z: seq<int>)
    ensures |z| == count && forall i :: 0 <= i < count ==> z[i] == 0
  {
    seq(count, _ => 0)
  }

  /** WebIDL conversion of an integral Number to `unsigned long` (no [EnforceRange]): reduction modulo 2^32. */
  function ToUnsignedLong(x: int): (r: nat)
    ensures r < UnsignedLongModulus
    ensures 0 <= x < UnsignedLongModulus ==> r == x
    ensures -UnsignedLongModulus <= x < 0 ==> r == x + UnsignedLongModulus
  {
    x % UnsignedLongModulus
  }

  /** The number of frames a copy moves: max(0, min(Nb - k, Nf)). */
  function FramesCopied(nb: nat, nf: nat, k: nat): (n: nat)
    ensures n <= nf
    ensures n > 0 ==> k + n <= nb
    ensures k <= nb ==> n == if nb - k < nf then nb - k else nf
  {
    if k >= nb then 0 else if nb - k < nf then nb - k else nf
  }

  /**
   * The destination array after copyFromChannel(destination, channel, k):
   * its first FramesCopied(Nb, Nf, k) elements are the channel's frames from
   * k on; the remaining elements are not modified.
   */
  function FromChannel(destination: seq<int>, channel: seq<int>, k: nat): (r: seq<int>)
    ensures |r| == |destination|
    ensures forall i :: 0 <= i < |r| ==>
      r[i] == if i < FramesCopied(|channel|, |destination|, k) then channel[k + i] else destination[i]
  {
    var n := FramesCopied(|channel|, |destination|, k);
    if n == 0 then destination else channel[k..k + n] + destination[n..]
  }

  /**
   * The channel after copyToChannel(source, channel, k): FramesCopied(Nb, Nf, k)
   * of its frames, starting at k, are replaced by the first elements of `source`.
   */
  function ToChannel(channel: seq<int>, source: seq<int>, k: nat): (r: seq<int>)
    ensures |r| == |channel|
    ensures forall i :: 0 <= i < |r| ==>
      r[i] == if k <= i < k + FramesCopied(|channel|, |source|, k) then source[i - k] else channel[i]
  {
    var n := FramesCopied(|channel|, |source|, k);
    if n == 0 then channel else channel[..k] + source[..n] + channel[k + n..]
  }

  /**
   * createBuffer(numberOfChannels, length, sampleRate): a silent buffer, or
   * None where the call throws. A length of zero is a NotSupportedError;
   * a negative length (which WebIDL would wrap) or one of 2^32 frames or more
   * is treated as an allocation failure.
   */
  function CreateBuffer(numberOfChannels: nat, length: int, sampleRate: nat): (r: Option<AudioBuffer>)
    ensures r.Some? <==> 0 < numberOfChannels && 0 < length < UnsignedLongModulus
    ensures r.Some? ==> && r.value.sampleRate == sampleRate && r.value.length == length
                        && |r.value.channels| == numberOfChannels
                        && (sampleRate > 0 ==> Valid(r.value))
                        && forall c :: 0 <= c < numberOfChannels ==> r.value.channels[c] == Zeros(length)
  {
    if numberOfChannels == 0 || length <= 0 || length >= UnsignedLongModulus then None
    else Some(AudioBuffer(sampleRate, length, seq(numberOfChannels, _ => Zeros(length))))
  }

  /** The copyToChannel call on channel `channelNumber` of buffer `b`. */
  function CopyToChannel(b: AudioBuffer, source: seq<int>, channelNumber: nat, k: nat): (r: AudioBuffer)
    requires channelNumber < |b.channels|
    ensures r.sampleRate == b.sampleRate && r.length == b.length && |r.channels| == |b.channels|
    ensures r.channels[channelNumber] == ToChannel(b.channels[channelNumber], source, k)
    ensures forall c :: 0 <= c < |b.channels| && c != channelNumber ==> r.channels[c] == b.channels[c]
  {
    b.(channels := b.channels[channelNumber := ToChannel(b.channels[channelNumber], source, k)])
  }

  /** The copyFromChannel call: the Float32Array `destination` is updated in place. */
  method CopyFromChannel(b: AudioBuffer, destination: array<int>, channelNumber: nat, bufferOffset: int)
    requires channelNumber < |b.channels|
    modifies destination
    ensures destination[..] == FromChannel(old(destination[..]), b.channels[channelNumber], ToUnsignedLong(bufferOffset))
  {
    var channel := b.channels[channelNumber];
    var k := ToUnsignedLong(bufferOffset);
    var n := FramesCopied(|channel|, destination.Length, k);
    forall i | 0 <= i < n {
      destination[i] := channel[k + i];
    }
  }
}
