/** Sample and time arithmetic of audio_a2dp_hw/src/audio_a2dp_hw.cc: the in-place stereo to
    mono mix of out_write, and the delay that emulates a failed write. */
module A2dpAudio {
  import opened Words

  type Int16 = x: int | -0x8000 <= x < 0x8000

  /** Two interleaved 16-bit channels. */
  const FRAME_SIZE: nat := 4

  /** The right shift by one of a negative number rounds down, like this quotient. */
  function Average(a: Int16, b: Int16): (m: Int16)
    ensures 2 * m <= a + b < 2 * m + 2
    ensures (if a <= b then a else b) <= m <= (if a <= b then b else a)
  {
    (a + b) / 2
  }

  /** The mono samples of a stereo buffer. */
  function Mono(samples: seq<Int16>): (r: seq<Int16>)
    ensures |r| == |samples| / 2
    ensures forall i :: 0 <= i < |r| ==> r[i] == Average(samples[2 * i], samples[2 * i + 1])
  {
    seq(|samples| / 2, i requires 0 <= i < |samples| / 2 => Average(samples[2 * i], samples[2 * i + 1]))
  }

  /** The mixing loop: source and destination start at the same place of one buffer. */
  method MixFrames(buffer: array<Int16>, frames: nat)
    requires 2 * frames <= buffer.Length
    modifies buffer
    ensures buffer[..] == Mono(old(buffer[..2 * frames])) + old(buffer[frames..])
  {
    ghost var before := buffer[..];
    var src, dst := 0, 0;
    for i := 0 to frames
      invariant dst == i && src == 2 * i
      invariant forall j :: 0 <= j < i ==> buffer[j] == Average(before[2 * j], before[2 * j + 1])
      invariant forall j :: i <= j < buffer.Length ==> buffer[j] == before[j]
    {
      buffer[dst] := Average(buffer[src], buffer[src + 1]);
      dst, src := dst + 1, src + 2;
    }
    Mixed(before, buffer[..], frames);
  }

  lemma Mixed(before: seq<Int16>, after: seq<Int16>, frames: nat)
    requires 2 * frames <= |before| == |after|
    requires forall j :: 0 <= j < frames ==> after[j] == Average(before[2 * j], before[2 * j + 1])
    requires forall j :: frames <= j < |after| ==> after[j] == before[j]
    ensures after == Mono(before[..2 * frames]) + before[frames..]
  {
  }

  /** Mixing a write of `bytes` bytes; the result is how many bytes are sent.  When the
      write is whole frames, exactly the mono samples are sent. */
  method MixWrite(buffer: array<Int16>, bytes: nat) returns (writeBytes: nat)
    requires buffer.Length == bytes / 2
    modifies buffer
    ensures writeBytes == bytes / 2
    ensures buffer[..bytes / FRAME_SIZE] == Mono(old(buffer[..2 * (bytes / FRAME_SIZE)]))
    ensures bytes % FRAME_SIZE == 0 ==> buffer[..writeBytes / 2] == Mono(old(buffer[..]))
  {
    var frames := bytes / FRAME_SIZE;
    MixFrames(buffer, frames);
    assert buffer[..frames] == buffer[..][..frames];
    writeBytes := bytes / 2;
    if bytes % FRAME_SIZE == 0 {
      assert 2 * frames == buffer.Length && writeBytes / 2 == frames;
      assert old(buffer[..2 * frames]) == old(buffer[..]);
    }
  }

  // ----- calc_audiotime_usec -----

  const USEC_PER_SEC: nat := 1000000

  datatype Format = Pcm8 | Pcm16 | Pcm24Packed | Pcm8_24 | Pcm32 | OtherFormat

  function BytesPerSample(format: Format): (n: nat)
    ensures 1 <= n <= 4
  {
    match format
    case Pcm8 => 1
    case Pcm16 => 2
    case Pcm24Packed => 3
    case Pcm8_24 => 4
    case Pcm32 => 4
    case OtherFormat => 2
  }

  function FrameBytes(channels: nat, format: Format): (n: nat)
    requires channels > 0
    ensures n > 0
  {
    match BytesPerSample(format)
    case 1 => channels
    case 2 => channels * 2
    case 3 => channels * 3
    case _ => channels * 4
  }

  /** The bytes of one frame in each format; other formats are taken for 16 bits. */
  lemma FrameBytesOf(channels: nat)
    requires channels > 0
    ensures FrameBytes(channels, Pcm8) == channels && FrameBytes(channels, Pcm16) == 2 * channels
    ensures FrameBytes(channels, Pcm24Packed) == 3 * channels && FrameBytes(channels, Pcm8_24) == 4 * channels
    ensures FrameBytes(channels, Pcm32) == 4 * channels && FrameBytes(channels, OtherFormat) == 2 * channels
  {
  }

  /** The delay before the conversion to int: two nested truncating divisions. */
  function TimeUsec(bytes: nat, rate: nat, frameBytes: nat): int
    requires rate > 0 && frameBytes > 0
  {
    bytes * (USEC_PER_SEC / frameBytes) / rate
  }

  function CalcAudioTime(bytes: nat, rate: nat, channels: nat, format: Format): int
    requires rate > 0 && channels > 0
  {
    ToInt32(TimeUsec(bytes, rate, FrameBytes(channels, format)))
  }

  /** The exact playing time is bytes * 10^6 / (rate * frameBytes) microseconds.  The
      computed time is never above it, and below it by less than bytes / rate + 1; both
      bounds are multiplied out here by rate * frameBytes. */
  lemma TimeBounds(bytes: nat, rate: nat, frameBytes: nat)
    requires rate > 0 && frameBytes > 0
    ensures var t := TimeUsec(bytes, rate, frameBytes);
            && t * rate * frameBytes <= bytes * USEC_PER_SEC
            && bytes * USEC_PER_SEC < (t + 1) * rate * frameBytes + bytes * frameBytes
  {
  }

  /** The time the bytes take to play, in microseconds. */
  ghost function ExactTime(bytes: nat, rate: nat, frameBytes: nat): real
    requires rate > 0 && frameBytes > 0
  {
    bytes as real * 1000000.0 / rate as real / frameBytes as real
  }

  /** The int that calc_audiotime_usec returns is the truncated time exactly when that fits,
      and then it is within the stated distance of the exact playing time. */
  lemma AudioTimeAccurate(bytes: nat, rate: nat, channels: nat, format: Format)
    requires rate > 0 && channels > 0
    ensures var frameBytes := FrameBytes(channels, format); var t := CalcAudioTime(bytes, rate, channels, format);
            && (t == TimeUsec(bytes, rate, frameBytes) <==> TimeUsec(bytes, rate, frameBytes) < 0x8000_0000)
            && (TimeUsec(bytes, rate, frameBytes) < 0x8000_0000 ==>
                  var exact := ExactTime(bytes, rate, frameBytes);
                  t as real <= exact < t as real + bytes as real / rate as real + 1.0)
  {
    var frameBytes := FrameBytes(channels, format);
    TimeBounds(bytes, rate, frameBytes);
    NotNegative(bytes, rate, frameBytes);
    RealBounds(bytes, rate, frameBytes, TimeUsec(bytes, rate, frameBytes));
  }

  lemma NotNegative(bytes: nat, rate: nat, frameBytes: nat)
    requires rate > 0 && frameBytes > 0
    ensures TimeUsec(bytes, rate, frameBytes) >= 0
  {
    var unit: nat := USEC_PER_SEC / frameBytes;
    assert bytes * unit >= 0;
  }

  lemma RealBounds(bytes: nat, rate: nat, frameBytes: nat, t: int)
    requires rate > 0 && frameBytes > 0
    requires t * rate * frameBytes <= bytes * USEC_PER_SEC < (t + 1) * rate * frameBytes + bytes * frameBytes
    ensures t as real <= ExactTime(bytes, rate, frameBytes) < t as real + bytes as real / rate as real + 1.0
  {
    var r, f, b := rate as real, frameBytes as real, bytes as real;
    var total := b * 1000000.0;
    var slack := b / r;
    assert slack * r == b;
    assert (t * rate * frameBytes) as real == t as real * r * f;
    assert ((t + 1) * rate * frameBytes + bytes * frameBytes) as real == (t as real + 1.0) * r * f + b * f;
    DivideTwice(t as real, total, r, f);
    assert (t as real + slack + 1.0) * r == (t as real + 1.0) * r + b;
    DivideTwiceStrict(t as real + slack + 1.0, total, r, f);
  }

  lemma DivideTwice(x: real, y: real, r: real, f: real)
    requires r > 0.0 && f > 0.0 && x * r * f <= y
    ensures x <= y / r / f
  {
    Below(x * r, y, f);
    Below(x, y / f, r);
    assert y / f / r == y / r / f;
  }

  lemma DivideTwiceStrict(x: real, y: real, r: real, f: real)
    requires r > 0.0 && f > 0.0 && y < x * r * f
    ensures y / r / f < x
  {
    Above(x * r, y, f);
    Above(x, y / f, r);
    assert y / f / r == y / r / f;
  }

  lemma Below(x: real, y: real, d: real)
    requires d > 0.0 && x * d <= y
    ensures x <= y / d
  {
  }

  lemma Above(x: real, y: real, d: real)
    requires d > 0.0 && y < x * d
    ensures y / d < x
  {
  }
}
