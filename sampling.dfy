/**
 * The centre sample of `analyzeSkinTone`: a 50 x 50 window read back from the
 * canvas, and the per-channel averages of its red, green and blue bytes.
 */
module Sampling {

  import opened Canvas

  /** The side of the square sample window, in pixels. */
  const SAMPLE_SIZE: nat := 50

  /**
   * The top-left corner of the window: `Math.floor(size / 2) - 25` on each
   * axis, so that the window's 26th column and row are the floored centre.
   * Canvas sizes are never negative, so Dafny's `/` is `Math.floor`.
   */
  function SampleOrigin(width: nat, height: nat): (o: (int, int))
    ensures 2 * (o.0 + SAMPLE_SIZE / 2) <= width <= 2 * (o.0 + SAMPLE_SIZE / 2) + 1
    ensures 2 * (o.1 + SAMPLE_SIZE / 2) <= height <= 2 * (o.1 + SAMPLE_SIZE / 2) + 1
  {
    (width / 2 - SAMPLE_SIZE / 2, height / 2 - SAMPLE_SIZE / 2)
  }

  /**
   * The window lies inside an axis exactly when that axis is at least 50
   * pixels long.
   */
  lemma WindowInsideIff(width: nat, height: nat)
    ensures var (x, y) := SampleOrigin(width, height);
            (0 <= x && x + SAMPLE_SIZE <= width) <==> width >= SAMPLE_SIZE
    ensures var (x, y) := SampleOrigin(width, height);
            (0 <= y && y + SAMPLE_SIZE <= height) <==> height >= SAMPLE_SIZE
  {
  }

  /** The RGBA buffer of the centre window of `img`. */
  function CenterSample(img: Image): (data: seq<byte>)
    ensures |data| == 4 * (SAMPLE_SIZE * SAMPLE_SIZE)
  {
    var (x, y) := SampleOrigin(img.width, img.height);
    GetImageData(img, x, y, SAMPLE_SIZE, SAMPLE_SIZE)
  }

  /** The window holds `10000 / 4 = 2500` pixels. */
  lemma SamplePixelCount(img: Image)
    ensures |CenterSample(img)| / 4 == 2500
    ensures |CenterSample(img)| % 4 == 0
  {
  }

  /** The sum of channel `c` over the first `n` pixels of `data`. */
  function ChannelSum(data: seq<byte>, c: Channel, n: nat): (s: int)
    requires 4 * n <= |data|
    ensures 0 <= s <= 255 * n
  {
    if n == 0 then 0 else ChannelSum(data, c, n - 1) + ChannelByte(data, n - 1, c)
  }

  /** A buffer of whole RGBA pixels holding at least one pixel. */
  predicate IsPixelBuffer(data: seq<byte>) {
    |data| > 0 && |data| % 4 == 0
  }

  /**
   * `Math.floor(sum / pixels)` for channel `c`, where `pixels` is the buffer
   * length divided by four. The sum is never negative, so the floor of the
   * quotient is Dafny's `/`.
   */
  function ChannelAverage(data: seq<byte>, c: Channel): (avg: byte)
    requires IsPixelBuffer(data)
    ensures var n := |data| / 4;
            avg * n <= ChannelSum(data, c, n) < (avg + 1) * n
  {
    var n := |data| / 4;
    SumBounds(data, c, n, 0, 255);
    DivBounds(ChannelSum(data, c, n), n, 0, 255);
    ChannelSum(data, c, n) / n
  }

  /** If every pixel's channel `c` lies in `lo..hi`, the sum lies in `lo*n..hi*n`. */
  lemma {:induction false} SumBounds(data: seq<byte>, c: Channel, n: nat, lo: int, hi: int)
    requires 4 * n <= |data|
    requires forall k :: 0 <= k < n ==> lo <= ChannelByte(data, k, c) <= hi
    ensures lo * n <= ChannelSum(data, c, n) <= hi * n
  {
    if n > 0 {
      SumBounds(data, c, n - 1, lo, hi);
      assert lo * n == lo * (n - 1) + lo;
      assert hi * n == hi * (n - 1) + hi;
    }
  }

  /** Floor division by a positive count keeps a value between the bounds. */
  lemma DivBounds(s: int, n: int, lo: int, hi: int)
    requires n > 0 && lo * n <= s <= hi * n
    ensures lo <= s / n <= hi
  {
    var q := s / n;
    assert n * q <= s < n * (q + 1);
    MulCancel(n, lo, q + 1);
    MulCancel(n, q, hi);
  }

  /** Multiplying by a positive count preserves and reflects the order. */
  lemma MulCancel(n: int, a: int, b: int)
    requires n > 0
    ensures n * a < n * b ==> a < b
    ensures n * a <= n * b ==> a <= b
  {
    if b <= a {
      MulMonotone(n, b, a);
    }
    if b < a {
      MulMonotone(n, b + 1, a);
    }
  }

  lemma MulMonotone(n: int, a: int, b: int)
    requires n >= 0 && a <= b
    ensures n * a <= n * b
  {
    assert n * b == n * a + n * (b - a);
  }

  /**
   * The average of a channel lies between any bounds of that channel over the
   * sample, in particular between its minimum and its maximum.
   */
  lemma AverageBounds(data: seq<byte>, c: Channel, lo: int, hi: int)
    requires IsPixelBuffer(data)
    requires forall k :: 0 <= k < |data| / 4 ==> lo <= ChannelByte(data, k, c) <= hi
    ensures lo <= ChannelAverage(data, c) <= hi
  {
    var n := |data| / 4;
    SumBounds(data, c, n, lo, hi);
    DivBounds(ChannelSum(data, c, n), n, lo, hi);
  }

  /** A sample whose channel `c` is `v` in every pixel averages to exactly `v`. */
  lemma UniformAverage(data: seq<byte>, c: Channel, v: byte)
    requires IsPixelBuffer(data)
    requires forall k :: 0 <= k < |data| / 4 ==> ChannelByte(data, k, c) == v
    ensures ChannelAverage(data, c) == v
  {
    AverageBounds(data, c, v, v);
  }

  /** If one of the first `n` pixels has channel `c` zero and none exceeds `v`, the sum is at most `v * (n - 1)`. */
  lemma {:induction false} SumWithZero(data: seq<byte>, c: Channel, n: nat, v: int, zero: nat)
    requires 4 * n <= |data| && zero < n
    requires forall k :: 0 <= k < n ==> ChannelByte(data, k, c) <= v
    requires ChannelByte(data, zero, c) == 0
    ensures ChannelSum(data, c, n) <= v * (n - 1)
  {
    if zero == n - 1 {
      SumBounds(data, c, n - 1, 0, v);
    } else {
      SumWithZero(data, c, n - 1, v, zero);
      assert v * (n - 1) == v * (n - 2) + v;
    }
  }

  /**
   * A sample whose channel `c` never exceeds a positive `v` and is zero in at
   * least one pixel averages strictly below `v`.
   */
  lemma AverageBelowWithZero(data: seq<byte>, c: Channel, v: int, zero: nat)
    requires IsPixelBuffer(data) && zero < |data| / 4 && v > 0
    requires forall k :: 0 <= k < |data| / 4 ==> ChannelByte(data, k, c) <= v
    requires ChannelByte(data, zero, c) == 0
    ensures ChannelAverage(data, c) < v
  {
    var n := |data| / 4;
    SumWithZero(data, c, n, v, zero);
    assert v * (n - 1) < v * n;
    MulCancel(n, ChannelAverage(data, c), v);
  }

  /** Two buffers that agree on channel `c` of the first `n` pixels have equal sums. */
  lemma {:induction false} SumsAgree(data: seq<byte>, other: seq<byte>, c: Channel, n: nat)
    requires 4 * n <= |data| && 4 * n <= |other|
    requires forall k :: 0 <= k < n ==> ChannelByte(data, k, c) == ChannelByte(other, k, c)
    ensures ChannelSum(data, c, n) == ChannelSum(other, c, n)
  {
    if n > 0 {
      SumsAgree(data, other, c, n - 1);
    }
  }

  /**
   * The alpha bytes (offsets `4k + 3`) never affect the averages: buffers of
   * one length that differ only there have the same red, green and blue
   * averages.
   */
  lemma AlphaIgnored(data: seq<byte>, other: seq<byte>)
    requires IsPixelBuffer(data) && |other| == |data|
    requires forall i :: 0 <= i < |data| && i % 4 != 3 ==> data[i] == other[i]
    ensures forall c: Channel :: c != ALPHA ==> ChannelAverage(data, c) == ChannelAverage(other, c)
  {
    forall c: Channel | c != ALPHA
      ensures ChannelAverage(data, c) == ChannelAverage(other, c)
    {
      forall k | 0 <= k < |data| / 4
        ensures ChannelByte(data, k, c) == ChannelByte(other, k, c)
      {
        assert (4 * k + c) % 4 == c;
      }
      SumsAgree(data, other, c, |data| / 4);
    }
  }

  /**
   * The averaging loop of `analyzeSkinTone`: step through the buffer four
   * bytes at a time, add the red, green and blue bytes into `r`, `g`, `b`,
   * then replace each sum by its floor average over the pixel count.
   */
  method AverageChannels(data: seq<byte>) returns (r: int, g: int, b: int)
    requires IsPixelBuffer(data)
    ensures r == ChannelAverage(data, RED)
    ensures g == ChannelAverage(data, GREEN)
    ensures b == ChannelAverage(data, BLUE)
  {
    r, g, b := 0, 0, 0;
    var i := 0;
    while i < |data|
      invariant 0 <= i <= |data| && i % 4 == 0
      invariant r == ChannelSum(data, RED, i / 4)
      invariant g == ChannelSum(data, GREEN, i / 4)
      invariant b == ChannelSum(data, BLUE, i / 4)
    {
      r := r + data[i];
      g := g + data[i + 1];
      b := b + data[i + 2];
      i := i + 4;
    }
    var pixels := |data| / 4;
    r := r / pixels;
    g := g / pixels;
    b := b / pixels;
  }
}
