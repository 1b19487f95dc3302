/** Interleaved 16-bit PCM: mixing, splitting and merging, pkg/audio/multi_channel.go.

    Input is given by its bytes.  Results are slices: of the caller's own input, or of the mixer's reused
    buffers, which a later call may overwrite. */
module ChannelMixing {
  import opened Common

  type Byte = x: int | 0 <= x < 256

  const BYTES_PER_SAMPLE := 2

  // -------------------------------------------------------------------------------------
  // 16-bit little-endian samples

  /** int16(lo) | int16(hi) << 8 */
  function Decode16(lo: Byte, hi: Byte): (v: int)
    ensures -32768 <= v <= 32767
  {
    var u := lo + 256 * hi;
    if u >= 32768 then u - 65536 else u
  }

  /** byte(v & 0xFF) */
  function LowByte(v: int): Byte {
    v % 256
  }

  /** byte(v >> 8), an arithmetic shift */
  function HighByte(v: int): Byte {
    v / 256 % 256
  }

  /** Encoding loses nothing, negative samples included. */
  lemma DecodeEncoded(v: int)
    requires -32768 <= v <= 32767
    ensures Decode16(LowByte(v), HighByte(v)) == v
  {
    var q, r := v / 256, v % 256;
    assert v == 256 * q + r && 0 <= r < 256;
    assert q % 256 == if q >= 0 then q else q + 256;
  }

  /** Decoding loses nothing either. */
  lemma EncodeDecoded(lo: Byte, hi: Byte)
    ensures LowByte(Decode16(lo, hi)) == lo && HighByte(Decode16(lo, hi)) == hi
  {
    var v := Decode16(lo, hi);
    var q := if hi >= 128 then hi - 256 else hi;
    assert v == 256 * q + lo;
    assert v / 256 == q && v % 256 == lo;
    assert q % 256 == hi;
  }

  /** Little-endian two's complement: the high byte counts 256 and carries the sign. */
  lemma DecodeIsSigned(lo: Byte, hi: Byte)
    ensures Decode16(lo, hi) == lo + 256 * (if hi < 128 then hi else hi - 256)
  {
  }

  // -------------------------------------------------------------------------------------
  // Frames

  /** Whole frames of `c` channels in `n` bytes. */
  function Frames(n: nat, c: nat): nat
    requires c >= 1
  {
    n / (BYTES_PER_SAMPLE * c)
  }

  lemma FramesFit(n: nat, c: nat)
    requires c >= 1
    ensures Frames(n, c) * (2 * c) <= n < (Frames(n, c) + 1) * (2 * c)
  {
    DivMod(n, 2 * c);
  }

  lemma DivMod(n: int, d: int)
    requires d > 0
    ensures n == n / d * d + n % d && 0 <= n % d < d
  {
  }

  /** Position of the sample of channel `ch` in frame `i`. */
  function At(c: nat, i: nat, ch: nat): nat {
    i * c + ch
  }

  lemma {:induction false} Above(a: int, b: int, c: nat)
    requires a < b
    ensures a * c + c <= b * c
    decreases c
  {
    if c > 0 {
      Above(a, b, c - 1);
      assert a * c == a * (c - 1) + a && b * c == b * (c - 1) + b;
    }
  }

  lemma InRange(n: nat, c: nat, i: nat, ch: nat)
    requires c >= 1 && i < Frames(n, c) && ch < c
    ensures At(c, i, ch) * 2 + 1 < n
  {
    FramesFit(n, c);
    Above(i, Frames(n, c), c);
    assert Frames(n, c) * (2 * c) == 2 * (Frames(n, c) * c);
  }

  /** Frame and channel of a position. */
  lemma Locate(c: nat, p: nat)
    requires c >= 1
    ensures At(c, p / c, p % c) == p && p % c < c
  {
    DivMod(p, c);
  }

  lemma Unlocate(c: nat, i: nat, ch: nat)
    requires ch < c
    ensures At(c, i, ch) / c == i && At(c, i, ch) % c == ch
  {
    var p := At(c, i, ch);
    DivMod(p, c);
    if p / c < i {
      Above(p / c, i, c);
    } else if p / c > i {
      Above(i, p / c, c);
    }
  }

  // -------------------------------------------------------------------------------------
  // Mixing

  function Sample(data: seq<Byte>, p: nat): int
    requires 2 * p + 1 < |data|
  {
    Decode16(data[2 * p], data[2 * p + 1])
  }

  function FrameSum(data: seq<Byte>, c: nat, i: nat, n: nat): int
    requires c >= 1 && i < Frames(|data|, c) && n <= c
  {
    if n == 0 then 0
    else
      InRange(|data|, c, i, n - 1);
      FrameSum(data, c, i, n - 1) + Sample(data, At(c, i, n - 1))
  }

  /** Go's integer division, which truncates toward zero. */
  function TruncDiv(a: int, b: nat): int
    requires b > 0
  {
    if a >= 0 then a / b else -(-a / b)
  }

  function Average(data: seq<Byte>, c: nat, i: nat): int
    requires c >= 1 && i < Frames(|data|, c)
  {
    TruncDiv(FrameSum(data, c, i, c), c)
  }

  function Mixed(data: seq<Byte>, c: nat): seq<Byte>
    requires c >= 1
  {
    seq(2 * Frames(|data|, c), k requires 0 <= k < 2 * Frames(|data|, c) =>
      if k % 2 == 0 then LowByte(Average(data, c, k / 2)) else HighByte(Average(data, c, k / 2)))
  }

  lemma {:induction false} SumBounds(data: seq<Byte>, c: nat, i: nat, n: nat, lo: int, hi: int)
    requires c >= 1 && i < Frames(|data|, c) && n <= c
    requires forall ch | 0 <= ch < n :: At(c, i, ch) * 2 + 1 < |data| && lo <= Sample(data, At(c, i, ch)) <= hi
    ensures n * lo <= FrameSum(data, c, i, n) <= n * hi
  {
    if n > 0 {
      SumBounds(data, c, i, n - 1, lo, hi);
      assert n * lo == (n - 1) * lo + lo && n * hi == (n - 1) * hi + hi;
    }
  }

  lemma TruncDivBounds(a: int, b: nat, lo: int, hi: int)
    requires b > 0 && b * lo <= a <= b * hi
    ensures lo <= TruncDiv(a, b) <= hi
  {
    var q := TruncDiv(a, b);
    if a >= 0 {
      DivMod(a, b);
    } else {
      DivMod(-a, b);
    }
    if q < lo {
      Above(q, lo, b);
    } else if q > hi {
      Above(hi, q, b);
    }
  }

  /** The frames `i` of the two inputs agree in the first `n` channels, except perhaps in channel `odd`. */
  ghost predicate AgreeBut(data: seq<Byte>, data': seq<Byte>, c: nat, i: nat, n: nat, odd: nat) {
    forall ch | 0 <= ch < n ::
      && 2 * At(c, i, ch) + 1 < |data| && 2 * At(c, i, ch) + 1 < |data'|
      && (ch != odd ==> Sample(data', At(c, i, ch)) == Sample(data, At(c, i, ch)))
  }

  /** Whatever one channel's sample rises or falls by, the sum of the frame does, whichever channel it is. */
  lemma {:induction false} SumChanges(data: seq<Byte>, data': seq<Byte>, c: nat, i: nat, n: nat, odd: nat)
    requires n <= c && c >= 1 && i < Frames(|data|, c) && i < Frames(|data'|, c)
    requires AgreeBut(data, data', c, i, n, odd)
    ensures FrameSum(data', c, i, n) - FrameSum(data, c, i, n)
         == if odd < n then Sample(data', At(c, i, odd)) - Sample(data, At(c, i, odd)) else 0
  {
    hide Sample, Frames, At;
    if n > 0 {
      SumChanges(data, data', c, i, n - 1, odd);
    }
  }

  /** A frame of zeros sums to zero. */
  lemma SilentFrame(data: seq<Byte>, c: nat, i: nat, n: nat)
    requires n <= c && c >= 1 && i < Frames(|data|, c)
    requires forall ch | 0 <= ch < n :: 2 * At(c, i, ch) + 1 < |data| && Sample(data, At(c, i, ch)) == 0
    ensures FrameSum(data, c, i, n) == 0
  {
    hide Sample, Frames, At;
    SumBounds(data, c, i, n, 0, 0);
  }

  lemma TruncDivRounds(a: int, b: nat)
    requires b > 0
    ensures var m := TruncDiv(a, b);
      if a >= 0 then m >= 0 && b * m <= a < b * (m + 1) else m <= 0 && b * (m - 1) < a <= b * m
  {
    DivMod(if a >= 0 then a else -a, b);
    var m := TruncDiv(a, b);
    assert b * (m + 1) == b * m + b && b * (m - 1) == b * m - b;
    assert a < 0 ==> b * m == -(-a / b * b);
  }

  /** The mono sample is the quotient of the frame's sum, rounded toward zero: its multiple by the number of
      channels is the last one on the way from zero to the sum. */
  lemma MonoRoundsToZero(data: seq<Byte>, c: nat, i: nat)
    requires c >= 1 && i < Frames(|data|, c)
    ensures |Mixed(data, c)| == 2 * Frames(|data|, c)
    ensures var m, sum := Sample(Mixed(data, c), i), FrameSum(data, c, i, c);
      if sum >= 0 then m >= 0 && c * m <= sum < c * (m + 1)
      else m <= 0 && c * (m - 1) < sum <= c * m
  {
    hide FrameSum, Frames, Sample, TruncDiv;
    MonoIsAverage(data, c, i);
    TruncDivRounds(FrameSum(data, c, i, c), c);
  }

  lemma Cancel(b: nat, x: int, y: int)
    requires b * x < b * y
    ensures x < y
  {
    if x > y {
      Above(y, x, b);
    }
  }

  lemma RoundedRise(b: nat, sum: int, d: nat, m: int, m': int)
    requires b > 0 && m == TruncDiv(sum, b) && m' == TruncDiv(sum + b * d, b)
    ensures m + d - 1 <= m' <= m + d && (sum >= 0 || sum + b * d < 0 ==> m' == m + d)
  {
    hide TruncDiv;
    TruncDivRounds(sum, b);
    TruncDivRounds(sum + b * d, b);
    Spread(b, m, d);
    Spread(b, m', 0);
    if sum >= 0 {
      Cancel(b, m', m + d + 1);
      Cancel(b, m + d, m' + 1);
    } else if sum + b * d < 0 {
      Cancel(b, m + d - 1, m');
      Cancel(b, m' - 1, m + d);
    } else {
      Cancel(b, m + d - 1, m' + 1);
      Cancel(b, m', m + d + 1);
    }
  }

  lemma Spread(b: nat, m: int, d: nat)
    ensures b * (m + d) == b * m + b * d
    ensures b * (m + d + 1) == b * m + b * d + b && b * (m + d - 1) == b * m + b * d - b
  {
  }

  /** Every channel counts the same: raising any one of the c samples of a frame by c * d raises its mono
      sample by d, or by d - 1 where rounding toward zero changes sides. */
  lemma MonoRises(data: seq<Byte>, data': seq<Byte>, c: nat, i: nat, odd: nat, d: nat)
    requires odd < c && i < Frames(|data|, c) && i < Frames(|data'|, c) && AgreeBut(data, data', c, i, c, odd)
    requires Sample(data', At(c, i, odd)) == Sample(data, At(c, i, odd)) + c * d
    ensures 2 * i + 1 < |Mixed(data, c)| && 2 * i + 1 < |Mixed(data', c)|
    ensures var m, m' := Sample(Mixed(data, c), i), Sample(Mixed(data', c), i);
      m + d - 1 <= m' <= m + d && (m > 0 || m' < 0 ==> m' == m + d)
  {
    hide Mixed, FrameSum, Frames, AgreeBut, Sample, At, TruncDiv;
    SumChanges(data, data', c, i, c, odd);
    MonoIsAverage(data, c, i);
    MonoIsAverage(data', c, i);
    var sum := FrameSum(data, c, i, c);
    RoundedRise(c, sum, d, TruncDiv(sum, c), TruncDiv(sum + c * d, c));
    TruncDivRounds(sum, c);
    TruncDivRounds(sum + c * d, c);
  }

  lemma MonoIsAverage(data: seq<Byte>, c: nat, i: nat)
    requires c >= 1 && i < Frames(|data|, c)
    ensures 2 * i + 1 < |Mixed(data, c)| && Sample(Mixed(data, c), i) == TruncDiv(FrameSum(data, c, i, c), c)
  {
    hide Mixed, FrameSum, Frames, LowByte, HighByte, Decode16, TruncDiv;
    AverageFits(data, c, i);
    MixedAt(data, c, i);
    DecodeEncoded(Average(data, c, i));
  }

  /** Two channels with samples a and b: the mono sample is half of a + b, rounded toward zero. */
  lemma MonoOfStereo(data: seq<Byte>, i: nat)
    requires 4 * i + 3 < |data|
    ensures 2 * i + 1 < |Mixed(data, 2)|
    ensures var m := Sample(Mixed(data, 2), i);
      var sum := Decode16(data[4 * i], data[4 * i + 1]) + Decode16(data[4 * i + 2], data[4 * i + 3]);
      if sum >= 0 then 2 * m == sum || 2 * m == sum - 1 else 2 * m == sum || 2 * m == sum + 1
  {
    StereoFrame(data, i);
    MonoRoundsToZero(data, 2, i);
    hide Mixed, FrameSum, Frames;
  }

  lemma StereoFrame(data: seq<Byte>, i: nat)
    requires 4 * i + 3 < |data|
    ensures i < Frames(|data|, 2)
    ensures FrameSum(data, 2, i, 2)
         == Decode16(data[4 * i], data[4 * i + 1]) + Decode16(data[4 * i + 2], data[4 * i + 3])
  {
    assert At(2, i, 0) == 2 * i && At(2, i, 1) == 2 * i + 1;
    assert FrameSum(data, 2, i, 1) == FrameSum(data, 2, i, 0) + Sample(data, 2 * i);
  }

  /** Every output sample decodes to the truncated average of its frame and lies between any bounds on
      the frame's samples, so in particular within 16 bits: the clamp never fires. */
  lemma MixedDecodes(data: seq<Byte>, c: nat, i: nat, lo: int, hi: int)
    requires c >= 1 && i < Frames(|data|, c)
    requires forall ch | 0 <= ch < c :: At(c, i, ch) * 2 + 1 < |data| && lo <= Sample(data, At(c, i, ch)) <= hi
    ensures Sample(Mixed(data, c), i) == Average(data, c, i)
    ensures lo <= Average(data, c, i) <= hi
    ensures -32768 <= Average(data, c, i) <= 32767
  {
    AverageFits(data, c, i);
    SumBounds(data, c, i, c, lo, hi);
    TruncDivBounds(FrameSum(data, c, i, c), c, lo, hi);
    DecodeEncoded(Average(data, c, i));
    MixedAt(data, c, i);
  }

  lemma MixedAt(data: seq<Byte>, c: nat, i: nat)
    requires c >= 1 && i < Frames(|data|, c)
    ensures |Mixed(data, c)| == 2 * Frames(|data|, c)
    ensures Mixed(data, c)[2 * i] == LowByte(Average(data, c, i))
    ensures Mixed(data, c)[2 * i + 1] == HighByte(Average(data, c, i))
  {
    hide Average, LowByte, HighByte, Frames;
    assert (2 * i) / 2 == i && (2 * i + 1) / 2 == i && (2 * i) % 2 == 0 && (2 * i + 1) % 2 == 1;
  }

  lemma AverageFits(data: seq<Byte>, c: nat, i: nat)
    requires c >= 1 && i < Frames(|data|, c)
    ensures -32768 <= Average(data, c, i) <= 32767
  {
    forall ch | 0 <= ch < c ensures At(c, i, ch) * 2 + 1 < |data| {
      InRange(|data|, c, i, ch);
    }
    SumBounds(data, c, i, c, -32768, 32767);
    TruncDivBounds(FrameSum(data, c, i, c), c, -32768, 32767);
  }

  // -------------------------------------------------------------------------------------
  // Splitting and merging

  function SplitChannel(data: seq<Byte>, c: nat, ch: nat): seq<Byte>
    requires ch < c
  {
    seq(2 * Frames(|data|, c), k requires 0 <= k < 2 * Frames(|data|, c) =>
      InRange(|data|, c, k / 2, ch);
      data[2 * At(c, k / 2, ch) + k % 2])
  }

  function Split(data: seq<Byte>, c: nat): seq<seq<Byte>>
    requires c >= 1
  {
    if c == 1 then [data]
    else seq(c, ch requires 0 <= ch < c => SplitChannel(data, c, ch))
  }

  /** Samples in the shortest channel. */
  function MinSamples(chs: seq<seq<Byte>>): nat
    requires chs != []
  {
    var last := |chs[|chs| - 1]| / 2;
    if |chs| == 1 then last
    else
      var rest := MinSamples(chs[..|chs| - 1]);
      if last < rest then last else rest
  }

  lemma {:induction false} MinSamplesIsMin(chs: seq<seq<Byte>>)
    requires chs != []
    ensures forall ch | 0 <= ch < |chs| :: MinSamples(chs) <= |chs[ch]| / 2
    ensures exists ch | 0 <= ch < |chs| :: MinSamples(chs) == |chs[ch]| / 2
  {
    var n := |chs| - 1;
    if n > 0 {
      MinSamplesIsMin(chs[..n]);
      var ch :| 0 <= ch < n && MinSamples(chs[..n]) == |chs[..n][ch]| / 2;
      assert forall o | 0 <= o < n :: chs[..n][o] == chs[o];
      var least := if |chs[n]| / 2 < MinSamples(chs[..n]) then n else ch;
      assert MinSamples(chs) == |chs[least]| / 2;
    }
  }

  function MergedByte(chs: seq<seq<Byte>>, k: nat): Byte
    requires chs != [] && k < 2 * (MinSamples(chs) * |chs|)
  {
    var c := |chs|;
    MergedInRange(chs, k);
    chs[k / 2 % c][2 * (k / 2 / c) + k % 2]
  }

  lemma MergedInRange(chs: seq<seq<Byte>>, k: nat)
    requires chs != [] && k < 2 * (MinSamples(chs) * |chs|)
    ensures var c := |chs|;
      k / 2 % c < c && 0 <= k / 2 / c < MinSamples(chs) && 2 * (k / 2 / c) + k % 2 < |chs[k / 2 % c]|
  {
    MinSamplesIsMin(chs);
    hide MinSamples;
    var c := |chs|;
    DivMod(k / 2, c);
    QuotientBound(k / 2, MinSamples(chs), c);
    assert MinSamples(chs) <= |chs[k / 2 % c]| / 2;
  }

  lemma QuotientBound(p: nat, m: nat, c: nat)
    requires c > 0 && p < m * c
    ensures 0 <= p / c < m
  {
    DivMod(p, c);
    if p / c >= m {
      MulMonotone(c, m, p / c);
    }
  }

  function Merge(chs: seq<seq<Byte>>): seq<Byte>
    requires chs != []
  {
    seq(2 * (MinSamples(chs) * |chs|), k requires 0 <= k < 2 * (MinSamples(chs) * |chs|) => MergedByte(chs, k))
  }

  // -------------------------------------------------------------------------------------
  // Round trips

  lemma SplitShape(data: seq<Byte>, c: nat)
    requires c >= 1
    ensures |Split(data, c)| == c
    ensures forall ch | 0 <= ch < c :: |Split(data, c)[ch]| / 2 == Frames(|data|, c)
  {
  }

  lemma {:induction false} SameLengthMin(chs: seq<seq<Byte>>, n: nat)
    requires chs != [] && forall ch | 0 <= ch < |chs| :: |chs[ch]| / 2 == n
    ensures MinSamples(chs) == n
  {
    MinSamplesIsMin(chs);
    hide MinSamples;
  }

  lemma SplitByte(data: seq<Byte>, c: nat, k: nat)
    requires c >= 1 && k < 2 * (Frames(|data|, c) * c)
    requires MinSamples(Split(data, c)) == Frames(|data|, c)
    ensures k < |data|
    ensures MergedByte(Split(data, c), k) == data[k]
  {
    hide MinSamples;
    SplitShape(data, c);
    var i, ch, p := k / 2 / c, k / 2 % c, k / 2;
    Locate(c, p);
    QuotientBound(p, Frames(|data|, c), c);
    InRange(|data|, c, i, ch);
    MergedInRange(Split(data, c), k);
    var o := 2 * i + k % 2;
    assert o / 2 == i && o % 2 == k % 2;
  }

  /** Merging the split of interleaved data gives back its whole frames. */
  lemma MergeOfSplit(data: seq<Byte>, c: nat)
    requires c >= 1
    ensures 2 * (Frames(|data|, c) * c) <= |data|
    ensures Merge(Split(data, c)) == data[..2 * (Frames(|data|, c) * c)]
  {
    SplitShape(data, c);
    SameLengthMin(Split(data, c), Frames(|data|, c));
    FramesFit(|data|, c);
    var n := 2 * (Frames(|data|, c) * c);
    assert Frames(|data|, c) * (2 * c) == n;
    hide MinSamples, Split, MergedByte, Frames;
    forall k | 0 <= k < n ensures Merge(Split(data, c))[k] == data[..n][k] {
      SplitByte(data, c, k);
    }
  }

  lemma MergedFrames(chs: seq<seq<Byte>>)
    requires chs != []
    ensures Frames(|Merge(chs)|, |chs|) == MinSamples(chs)
  {
    var m, c := MinSamples(chs), |chs|;
    hide MinSamples;
    assert 2 * (m * c) == At(2 * c, m, 0);
    Unlocate(2 * c, m, 0);
  }

  lemma MergeIndex(chs: seq<seq<Byte>>, ch: nat, k: nat)
    requires ch < |chs| && k < 2 * MinSamples(chs)
    ensures k < |chs[ch]|
    ensures 2 * At(|chs|, k / 2, ch) + 1 < 2 * (MinSamples(chs) * |chs|)
  {
    MinSamplesIsMin(chs);
    MergedFrames(chs);
    hide MinSamples, Frames, At;
    assert MinSamples(chs) <= |chs[ch]| / 2;
    InRange(|Merge(chs)|, |chs|, k / 2, ch);
  }

  lemma HalfOf(p: nat, k: nat)
    ensures (2 * p + k % 2) / 2 == p && (2 * p + k % 2) % 2 == k % 2
    ensures 2 * (k / 2) + k % 2 == k
  {
  }

  lemma MergeByte(chs: seq<seq<Byte>>, ch: nat, k: nat)
    requires ch < |chs| && k < 2 * MinSamples(chs)
    ensures k < |chs[ch]|
    ensures 2 * At(|chs|, k / 2, ch) + k % 2 < 2 * (MinSamples(chs) * |chs|)
    ensures MergedByte(chs, 2 * At(|chs|, k / 2, ch) + k % 2) == chs[ch][k]
  {
    hide MinSamples, At;
    MergeIndex(chs, ch, k);
    Unlocate(|chs|, k / 2, ch);
    HalfOf(At(|chs|, k / 2, ch), k);
  }

  lemma SplitAt(data: seq<Byte>, c: nat, ch: nat, k: nat)
    requires ch < c && k < 2 * Frames(|data|, c)
    ensures k < |Split(data, c)[ch]| && 2 * At(c, k / 2, ch) + k % 2 < |data|
    ensures Split(data, c)[ch][k] == data[2 * At(c, k / 2, ch) + k % 2]
  {
    InRange(|data|, c, k / 2, ch);
    hide Frames;
    if c == 1 {
      HalfOf(k / 2, k);
      assert At(1, k / 2, 0) == k / 2;
    }
  }

  /** Splitting the merge gives, of each channel, as much as the shortest one has samples. */
  lemma SplitOfMergeChannel(chs: seq<seq<Byte>>, ch: nat)
    requires ch < |chs|
    ensures 2 * MinSamples(chs) <= |chs[ch]|
    ensures Split(Merge(chs), |chs|)[ch] == chs[ch][..2 * MinSamples(chs)]
  {
    hide MinSamples, Split, Frames, Merge;
    MinSamplesIsMin(chs);
    SplitOfMergeLength(chs, ch);
    var n := 2 * MinSamples(chs);
    assert MinSamples(chs) <= |chs[ch]| / 2;
    forall k | 0 <= k < n ensures Split(Merge(chs), |chs|)[ch][k] == chs[ch][k] {
      SplitMergeByte(chs, ch, k);
    }
  }

  lemma SplitMergeByte(chs: seq<seq<Byte>>, ch: nat, k: nat)
    requires ch < |chs| && k < 2 * MinSamples(chs)
    ensures k < |chs[ch]| && |Split(Merge(chs), |chs|)| == |chs| && k < |Split(Merge(chs), |chs|)[ch]|
    ensures Split(Merge(chs), |chs|)[ch][k] == chs[ch][k]
  {
    MergedFrames(chs);
    MergeLength(chs);
    SplitShape(Merge(chs), |chs|);
    hide MinSamples, Split, Frames, At, MergedByte, Merge;
    SplitAt(Merge(chs), |chs|, ch, k);
    MergeByte(chs, ch, k);
    MergeAt(chs, 2 * At(|chs|, k / 2, ch) + k % 2);
  }

  lemma SplitOfMergeLength(chs: seq<seq<Byte>>, ch: nat)
    requires ch < |chs|
    ensures |Split(Merge(chs), |chs|)| == |chs|
    ensures |Split(Merge(chs), |chs|)[ch]| == 2 * MinSamples(chs)
  {
    MergedFrames(chs);
    MergeLength(chs);
    hide MinSamples, Merge, Frames;
  }

  lemma MergeLength(chs: seq<seq<Byte>>)
    requires chs != []
    ensures |Merge(chs)| == 2 * (MinSamples(chs) * |chs|)
  {
  }

  /** Splitting the merge of some channels gives them back exactly when they all have the same, even,
      number of bytes. */
  lemma SplitOfMergeIff(chs: seq<seq<Byte>>)
    requires chs != []
    ensures Split(Merge(chs), |chs|) == chs
       <==> forall ch | 0 <= ch < |chs| :: |chs[ch]| == |chs[0]| && |chs[ch]| % 2 == 0
  {
    var split := Split(Merge(chs), |chs|);
    SplitShape(Merge(chs), |chs|);
    MinSamplesIsMin(chs);
    forall ch | 0 <= ch < |chs|
      ensures 2 * MinSamples(chs) <= |chs[ch]| && split[ch] == chs[ch][..2 * MinSamples(chs)]
    {
      SplitOfMergeChannel(chs, ch);
    }
    hide Split, Merge, MinSamples;
    if split == chs {
      forall ch | 0 <= ch < |chs| ensures |chs[ch]| == 2 * MinSamples(chs) {
        assert split[ch] == chs[ch];
      }
    }
    if forall ch | 0 <= ch < |chs| :: |chs[ch]| == |chs[0]| && |chs[ch]| % 2 == 0 {
      var least :| 0 <= least < |chs| && MinSamples(chs) == |chs[least]| / 2;
      forall ch | 0 <= ch < |chs| ensures split[ch] == chs[ch] {
        assert |chs[ch]| == |chs[least]|;
        assert chs[ch][..|chs[ch]|] == chs[ch];
      }
      assert split == chs;
    }
  }

  lemma SplitFrame(data: seq<Byte>, c: nat, ch: nat, i: nat)
    requires ch < c && i < Frames(|data|, c)
    ensures 2 * At(c, i, ch) + 1 < |data| && |SplitChannel(data, c, ch)| == 2 * Frames(|data|, c)
    ensures SplitChannel(data, c, ch)[..2 * i + 2]
         == SplitChannel(data, c, ch)[..2 * i] + [data[2 * At(c, i, ch)], data[2 * At(c, i, ch) + 1]]
  {
    InRange(|data|, c, i, ch);
    hide Frames, At;
    HalfOf(i, 0);
    HalfOf(i, 1);
    var s := SplitChannel(data, c, ch);
    assert s[2 * i] == data[2 * At(c, i, ch)] && s[2 * i + 1] == data[2 * At(c, i, ch) + 1];
  }

  lemma MergePair(chs: seq<seq<Byte>>, ch: nat, i: nat)
    requires ch < |chs| && i < MinSamples(chs)
    ensures 2 * i + 1 < |chs[ch]| && 2 * At(|chs|, i, ch) + 1 < |Merge(chs)|
    ensures Merge(chs)[2 * At(|chs|, i, ch)] == chs[ch][2 * i]
    ensures Merge(chs)[2 * At(|chs|, i, ch) + 1] == chs[ch][2 * i + 1]
  {
    MergeLength(chs);
    hide MinSamples, At, MergedByte, Merge;
    assert (2 * i) / 2 == i && (2 * i + 1) / 2 == i && (2 * i) % 2 == 0 && (2 * i + 1) % 2 == 1;
    MergeByte(chs, ch, 2 * i);
    MergeByte(chs, ch, 2 * i + 1);
    MergeAt(chs, 2 * At(|chs|, i, ch));
    MergeAt(chs, 2 * At(|chs|, i, ch) + 1);
  }

  lemma MergeAt(chs: seq<seq<Byte>>, k: nat)
    requires chs != [] && k < 2 * (MinSamples(chs) * |chs|)
    ensures k < |Merge(chs)| && Merge(chs)[k] == MergedByte(chs, k)
  {
    hide MinSamples;
  }

  /** Byte by byte: sample `i` of channel `ch` is the (i * c + ch)-th sample of the interleaved data. */
  lemma SplitBytes(data: seq<Byte>, c: nat, ch: nat, i: nat, b: nat)
    requires ch < c && i < Frames(|data|, c) && b < 2
    ensures 2 * i + b < |Split(data, c)[ch]| && 2 * (i * c + ch) + b < |data|
    ensures Split(data, c)[ch][2 * i + b] == data[2 * (i * c + ch) + b]
  {
    HalfOf(i, b);
    SplitAt(data, c, ch, 2 * i + b);
    assert At(c, i, ch) == i * c + ch;
    hide Split, Frames, At;
  }

  lemma MergeBytes(chs: seq<seq<Byte>>, ch: nat, i: nat, b: nat)
    requires ch < |chs| && i < MinSamples(chs) && b < 2
    ensures 2 * i + b < |chs[ch]| && 2 * (i * |chs| + ch) + b < |Merge(chs)|
    ensures Merge(chs)[2 * (i * |chs| + ch) + b] == chs[ch][2 * i + b]
  {
    MergePair(chs, ch, i);
    assert At(|chs|, i, ch) == i * |chs| + ch;
    hide Merge, MinSamples, At;
  }

  // -------------------------------------------------------------------------------------
  // The object

  /** What a call returns: the caller's input as it is, or the first `len` bytes of a buffer of the mixer. */
  datatype Slice = Input | Buffer(buffer: array<Byte>, len: nat)

  ghost function Bytes(s: Slice, data: seq<Byte>): seq<Byte>
    requires s.Buffer? ==> s.len <= s.buffer.Length
    reads if s.Buffer? then {s.buffer} else {}
  {
    if s.Input? then data else s.buffer[..s.len]
  }

  class ChannelMixer {
    const channelCount: nat
    var mixChannels: bool
    var channels: seq<array<Byte>>
    var mixBuffer: array<Byte>

    /** One buffer per channel, none shared. */
    ghost predicate Valid()
      reads this
    {
      && channelCount >= 1 && |channels| == channelCount
      && (forall a, b | 0 <= a < b < |channels| :: channels[a] != channels[b])
      && mixBuffer !in channels
    }

    constructor (count: int, mix: bool, bufferSize: nat)
      ensures Valid() && channelCount == (if count < 1 then 1 else count) && mixChannels == mix
    {
      var n := if count < 1 then 1 else count;
      var buffers: seq<array<Byte>> := [];
      while |buffers| < n
        invariant |buffers| <= n
        invariant forall a | 0 <= a < |buffers| :: fresh(buffers[a])
        invariant forall a, b | 0 <= a < b < |buffers| :: buffers[a] != buffers[b]
      {
        var buffer := new Byte[bufferSize](_ => 0);
        buffers := buffers + [buffer];
      }
      channelCount, mixChannels, channels := n, mix, buffers;
      mixBuffer := new Byte[bufferSize](_ => 0);
    }

    /** Mono output in the mix buffer, or the input as it is. */
    method Process(data: seq<Byte>) returns (out: Slice)
      requires Valid()
      modifies this`mixBuffer, mixBuffer
      ensures Valid() && channels == old(channels)
      ensures out == if channelCount > 1 && mixChannels && data != []
                     then Buffer(mixBuffer, 2 * Frames(|data|, channelCount)) else Input
      ensures out.Buffer? ==> out.len <= mixBuffer.Length
      ensures Bytes(out, data) == if channelCount > 1 && mixChannels then Mixed(data, channelCount) else data
      ensures mixBuffer == old(mixBuffer) || fresh(mixBuffer)
      ensures mixBuffer == old(mixBuffer) <==> out.Input? || old(mixBuffer.Length) >= out.len
    {
      if channelCount == 1 {
        return Input;
      }
      if mixChannels {
        out := MixToMono(data);
      } else {
        return Input;
      }
    }

    method MixFrame(data: seq<Byte>, i: nat) returns (mixed: int)
      requires channelCount >= 1 && i < Frames(|data|, channelCount)
      ensures mixed == Average(data, channelCount, i)
    {
      mixed := 0;
      for ch := 0 to channelCount
        invariant mixed == FrameSum(data, channelCount, i, ch)
      {
        InRange(|data|, channelCount, i, ch);
        var sampleIndex := (i * channelCount + ch) * BYTES_PER_SAMPLE;
        if sampleIndex + 1 < |data| {
          var sample := Decode16(data[sampleIndex], data[sampleIndex + 1]);
          mixed := mixed + sample;
        }
      }
      mixed := TruncDiv(mixed, channelCount);
      AverageFits(data, channelCount, i);
      if mixed > 32767 {
        mixed := 32767;
      } else if mixed < -32768 {
        mixed := -32768;
      }
    }

    /** Writes the two bytes of sample `i` of a buffer. */
    static method PutSample(buffer: array<Byte>, i: nat, lo: Byte, hi: Byte)
      requires 2 * i + 1 < buffer.Length
      modifies buffer
      ensures buffer[..2 * i + 2] == old(buffer[..2 * i]) + [lo, hi]
    {
      var outputIndex := i * BYTES_PER_SAMPLE;
      buffer[outputIndex] := lo;
      buffer[outputIndex + 1] := hi;
    }

    method MixInto(buffer: array<Byte>, data: seq<Byte>)
      requires channelCount >= 1 && 2 * Frames(|data|, channelCount) <= buffer.Length
      modifies buffer
      ensures buffer[..2 * Frames(|data|, channelCount)] == Mixed(data, channelCount)
    {
      ghost var expected := Mixed(data, channelCount);
      var samplesPerChannel := Frames(|data|, channelCount);
      assert |expected| == 2 * samplesPerChannel;
      hide Mixed, Average, LowByte, HighByte, Frames;
      for i := 0 to samplesPerChannel
        invariant buffer[..2 * i] == expected[..2 * i]
      {
        var mixedSample := MixFrame(data, i);
        PutSample(buffer, i, LowByte(mixedSample), HighByte(mixedSample));
        MixedAt(data, channelCount, i);
        assert expected[..2 * i + 2] == expected[..2 * i] + [expected[2 * i], expected[2 * i + 1]];
      }
    }

    /** The mix buffer is replaced exactly when it is too small; otherwise the result overwrites whatever an
        earlier call returned. */
    method MixToMono(data: seq<Byte>) returns (out: Slice)
      requires Valid()
      modifies this`mixBuffer, mixBuffer
      ensures Valid() && channels == old(channels)
      ensures out == if data == [] then Input else Buffer(mixBuffer, 2 * Frames(|data|, channelCount))
      ensures out.Buffer? ==> out.len <= mixBuffer.Length
      ensures Bytes(out, data) == Mixed(data, channelCount)
      ensures mixBuffer == old(mixBuffer) || fresh(mixBuffer)
      ensures mixBuffer == old(mixBuffer) <==> out.Input? || old(mixBuffer.Length) >= out.len
    {
      if |data| == 0 {
        return Input;
      }
      var samplesPerChannel := |data| / (BYTES_PER_SAMPLE * channelCount);
      var outputSize := samplesPerChannel * BYTES_PER_SAMPLE;
      if mixBuffer.Length < outputSize {
        mixBuffer := new Byte[outputSize](_ => 0);
      }
      MixInto(mixBuffer, data);
      return Buffer(mixBuffer, outputSize);
    }

    /** Replaces the channel buffers that are too small. */
    method GrowBuffers(size: nat)
      requires Valid()
      modifies this`channels
      ensures Valid()
      ensures forall ch | 0 <= ch < channelCount :: channels[ch].Length >= size
      ensures forall ch | 0 <= ch < channelCount ::
                if old(channels[ch].Length) >= size then channels[ch] == old(channels[ch]) else fresh(channels[ch])
    {
      for ch := 0 to channelCount
        invariant Valid()
        invariant forall o | 0 <= o < ch :: channels[o].Length >= size
        invariant forall o | 0 <= o < ch ::
          if old(channels[o].Length) >= size then channels[o] == old(channels[o]) else fresh(channels[o])
        invariant forall o | ch <= o < channelCount :: channels[o] == old(channels[o])
      {
        if channels[ch].Length < size {
          var buffer := new Byte[size](_ => 0);
          channels := channels[ch := buffer];
        }
      }
    }

    /** Copies the samples of frame `i` to their channels. */
    method CopyFrame(data: seq<Byte>, i: nat)
      requires Valid() && i < Frames(|data|, channelCount)
      requires forall ch | 0 <= ch < channelCount :: 2 * i + 1 < channels[ch].Length
      modifies channels
      ensures forall ch | 0 <= ch < channelCount ::
                && 2 * At(channelCount, i, ch) + 1 < |data|
                && channels[ch][..2 * i + 2]
                   == old(channels[ch][..2 * i])
                      + [data[2 * At(channelCount, i, ch)], data[2 * At(channelCount, i, ch) + 1]]
    {
      hide Frames, At;
      for ch := 0 to channelCount
        invariant forall o | 0 <= o < ch ::
                    && 2 * At(channelCount, i, o) + 1 < |data|
                    && channels[o][..2 * i + 2]
                       == old(channels[o][..2 * i])
                          + [data[2 * At(channelCount, i, o)], data[2 * At(channelCount, i, o) + 1]]
        invariant forall o | ch <= o < channelCount :: channels[o][..] == old(channels[o][..])
      {
        InRange(|data|, channelCount, i, ch);
        var inputIndex := At(channelCount, i, ch) * BYTES_PER_SAMPLE;
        if inputIndex + 1 < |data| && i * BYTES_PER_SAMPLE + 1 < channels[ch].Length {
          assert channels[ch][..][..2 * i] == channels[ch][..2 * i];
          PutSample(channels[ch], i, data[inputIndex], data[inputIndex + 1]);
        }
      }
    }

    /** Whatever earlier calls left in the buffers, the result is the split of the data.  It is made of the
        channel buffers themselves, each replaced exactly when it was too small: a later call that needs
        no larger buffer overwrites it. */
    method SplitChannels(data: seq<Byte>) returns (result: seq<Slice>)
      requires Valid()
      modifies this`channels, channels
      ensures Valid() && |result| == channelCount
      ensures forall ch | 0 <= ch < channelCount ::
        && result[ch] == (if channelCount == 1 then Input else Buffer(channels[ch], 2 * Frames(|data|, channelCount)))
        && (result[ch].Buffer? ==> result[ch].len <= channels[ch].Length)
        && Bytes(result[ch], data) == Split(data, channelCount)[ch]
      ensures forall ch | 0 <= ch < channelCount ::
        if channelCount == 1 || old(channels[ch].Length) >= 2 * Frames(|data|, channelCount)
        then channels[ch] == old(channels[ch]) else fresh(channels[ch])
    {
      if channelCount <= 1 {
        return [Input];
      }
      var samplesPerChannel := Frames(|data|, channelCount);
      GrowBuffers(samplesPerChannel * BYTES_PER_SAMPLE);
      FillBuffers(data);
      result := [];
      for ch := 0 to channelCount
        invariant |result| == ch
        invariant forall o | 0 <= o < ch :: result[o] == Buffer(channels[o], 2 * samplesPerChannel)
      {
        result := result + [Buffer(channels[ch], samplesPerChannel * BYTES_PER_SAMPLE)];
      }
    }

    method FillBuffers(data: seq<Byte>)
      requires Valid()
      requires forall ch | 0 <= ch < channelCount :: channels[ch].Length >= 2 * Frames(|data|, channelCount)
      modifies channels
      ensures forall ch | 0 <= ch < channelCount ::
                channels[ch][..2 * Frames(|data|, channelCount)] == SplitChannel(data, channelCount, ch)
    {
      var n := Frames(|data|, channelCount);
      for i := 0 to n
        invariant forall ch | 0 <= ch < channelCount ::
                    channels[ch][..2 * i] == SplitChannel(data, channelCount, ch)[..2 * i]
      {
        CopyFrame(data, i);
        forall ch | 0 <= ch < channelCount
          ensures channels[ch][..2 * i + 2] == SplitChannel(data, channelCount, ch)[..2 * i + 2]
        {
          SplitFrame(data, channelCount, ch, i);
        }
      }
    }

    /** Fails on a wrong number of channels; otherwise merges as many samples as the shortest has. */
    method MergeChannels(chs: seq<seq<Byte>>) returns (r: Option<seq<Byte>>)
      requires channelCount >= 1
      ensures r == if |chs| == channelCount then Some(Merge(chs)) else None
    {
      if |chs| != channelCount {
        return None;
      }
      var minSamples := -1;
      for i := 0 to |chs|
        invariant i == 0 ==> minSamples == -1
        invariant i > 0 ==> minSamples == MinSamples(chs[..i])
      {
        assert chs[..i + 1][..i] == chs[..i];
        var samples := |chs[i]| / BYTES_PER_SAMPLE;
        if minSamples == -1 || samples < minSamples {
          minSamples := samples;
        }
      }
      assert chs[..|chs|] == chs;
      if minSamples <= 0 {
        assert Merge(chs) == [];
        return Some([]);
      }
      var output := Interleave(chs, minSamples);
      return Some(output);
    }

    method Interleave(chs: seq<seq<Byte>>, minSamples: nat) returns (r: seq<Byte>)
      requires |chs| == channelCount >= 1 && minSamples == MinSamples(chs)
      ensures r == Merge(chs)
    {
      ghost var expected := Merge(chs);
      var outputSize := 2 * (minSamples * channelCount);
      MergeLength(chs);
      var output := new Byte[outputSize](_ => 0);
      hide Merge, MinSamples;
      for i := 0 to minSamples
        invariant 2 * At(channelCount, i, 0) <= outputSize
        invariant output[..2 * At(channelCount, i, 0)] == expected[..2 * At(channelCount, i, 0)]
      {
        for ch := 0 to channelCount
          invariant 2 * At(channelCount, i, ch) <= outputSize
          invariant output[..2 * At(channelCount, i, ch)] == expected[..2 * At(channelCount, i, ch)]
        {
          MergePair(chs, ch, i);
          var inputIndex := i * BYTES_PER_SAMPLE;
          var p := At(channelCount, i, ch);
          if inputIndex + 1 < |chs[ch]| && p * BYTES_PER_SAMPLE + 1 < outputSize {
            PutSample(output, p, chs[ch][inputIndex], chs[ch][inputIndex + 1]);
          }
          assert expected[..2 * p + 2] == expected[..2 * p] + [expected[2 * p], expected[2 * p + 1]];
        }
        assert At(channelCount, i, channelCount) == At(channelCount, i + 1, 0);
      }
      r := output[..];
    }
  }
}
