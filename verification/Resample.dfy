/**
 * The size arithmetic that feeds the ring: how many frames are read from a file of any rate
 * for the room there is, and how many come out of the resampler at 48 kHz, in exact
 * rational numbers.
 */
module Resample {
  const AUDIO_SAMPLE_RATE: nat := 48000
  const AUDIO_PLAYBACK_CHANNELS: nat := 2
  const SIZEOF_FLOAT: nat := 4

  function Ratio(rate: nat): real
    requires rate > 0
  {
    AUDIO_SAMPLE_RATE as real / rate as real
  }

  /** Stereo frames that fit into so many bytes. */
  function AvailableFrames(bytes: nat): nat {
    bytes / (AUDIO_PLAYBACK_CHANNELS * SIZEOF_FLOAT)
  }

  /** Frames to read from the file, truncated as the cast does. */
  function InputFrames(available: nat, rate: nat): int
    requires rate > 0
  {
    (available as real / Ratio(rate)).Floor
  }

  function Ceil(x: real): int {
    -((-x).Floor)
  }

  /** Output frames asked of the resampler. */
  function OutputFrames(framesRead: nat, rate: nat): int
    requires rate > 0
  {
    Ceil(framesRead as real * Ratio(rate))
  }

  lemma DivMul(a: real, b: real)
    requires b > 0.0
    ensures a / b * b == a
  {
  }

  lemma MulMonotone(a: real, b: real, c: real)
    requires a <= b && c > 0.0
    ensures a * c <= b * c
  {
  }

  lemma CeilBound(x: real, n: int)
    requires x <= n as real
    ensures Ceil(x) <= n
  {
  }

  /** However many of the frames asked for are read, the output fits the room measured. */
  lemma OutputFits(available: nat, rate: nat, framesRead: nat)
    requires rate > 0 && framesRead <= InputFrames(available, rate)
    ensures 0 <= OutputFrames(framesRead, rate) <= available
  {
    var r := Ratio(rate);
    assert r > 0.0;
    var x := available as real / r;
    assert framesRead as real <= x;
    MulMonotone(framesRead as real, x, r);
    DivMul(available as real, r);
    CeilBound(framesRead as real * r, available);
    assert framesRead as real * r >= 0.0;
  }

  lemma FloorIs(x: real, n: int)
    requires n as real <= x < (n + 1) as real
    ensures x.Floor == n
  {
  }

  lemma Cancels(a: real, b: real, c: real)
    requires b > 0.0 && c > 0.0
    ensures a / (b / c) == a * c / b && a * (b / c) == a * b / c
  {
    var x := a * c / b;
    assert x * b == a * c;
    assert x * (b / c) * c == x * b;
    assert x * (b / c) == a;
  }

  lemma QuotientBounds(a: int, b: nat)
    requires b > 0
    ensures (a / b) as real <= a as real / b as real < (a / b + 1) as real
  {
    var q := a / b;
    assert q * b <= a < (q + 1) * b;
    var x := a as real / b as real;
    assert x * b as real == a as real;
    assert (q * b) as real == q as real * b as real;
    assert ((q + 1) * b) as real == (q + 1) as real * b as real;
  }

  /** The frames read for the room there is, in whole numbers: rounded down, at every rate. */
  lemma InputFramesIs(available: nat, rate: nat)
    requires rate > 0
    ensures InputFrames(available, rate) == available * rate / 48000
  {
    Cancels(available as real, 48000.0, rate as real);
    assert (available * rate) as real == available as real * rate as real;
    QuotientBounds(available * rate, 48000);
    FloorIs((available * rate) as real / 48000.0, available * rate / 48000);
  }

  /** The frames asked of the resampler: rounded up, at every rate. */
  lemma OutputFramesIs(framesRead: nat, rate: nat)
    requires rate > 0
    ensures OutputFrames(framesRead, rate) == (framesRead * 48000 + (rate - 1)) / rate
  {
    Cancels(framesRead as real, 48000.0, rate as real);
    var n := framesRead * 48000;
    var x := n as real / rate as real;
    assert framesRead as real * Ratio(rate) == x;
    assert -x == (-n) as real / rate as real;
    QuotientBounds(-n, rate);
    FloorIs(-x, -n / rate);
    RoundsUp(n, rate);
  }

  lemma RoundsUp(n: int, d: nat)
    requires d > 0
    ensures -((-n) / d) == (n + (d - 1)) / d
  {
    var q := (n + (d - 1)) / d;
    assert q * d <= n + (d - 1) < (q + 1) * d;
    assert -q * d <= -n < (-q + 1) * d;
    QuotientIs(-n, d, -q);
  }

  lemma QuotientIs(a: int, d: nat, q: int)
    requires d > 0 && q * d <= a < (q + 1) * d
    ensures a / d == q
  {
    var r, e := a - q * d, q - a / d;
    assert e * d + r == a % d;
    assert e == 0;
  }

  /** At 48 kHz nothing is resampled: as many frames come out as were read. */
  lemma SameRateIsExact(available: nat, framesRead: nat)
    ensures InputFrames(available, AUDIO_SAMPLE_RATE) == available
    ensures OutputFrames(framesRead, AUDIO_SAMPLE_RATE) == framesRead
  {
    assert Ratio(AUDIO_SAMPLE_RATE) == 1.0;
  }

  /**
   * What the buffer thread hands to the ring: given the ring's free samples, and a resampler
   * that makes at most the frames asked for, an even number of samples that fits.
   */
  lemma ProducedSamplesFit(spaceSamples: nat, rate: nat, framesRead: nat, framesMade: nat)
    requires rate > 0 && framesRead <= InputFrames(AvailableFrames(spaceSamples * SIZEOF_FLOAT), rate)
    requires framesMade <= OutputFrames(framesRead, rate)
    ensures AvailableFrames(spaceSamples * SIZEOF_FLOAT) == spaceSamples / 2
    ensures framesMade * AUDIO_PLAYBACK_CHANNELS <= spaceSamples
    ensures framesMade * AUDIO_PLAYBACK_CHANNELS % 2 == 0
  {
    OutputFits(AvailableFrames(spaceSamples * SIZEOF_FLOAT), rate, framesRead);
  }
}
