/**
 * The pixel-sampling part of analisarCorImagem: a square window centred
 * on the image is read on a stride of 2 in each axis, valid pixels are
 * summed per channel, and the sums are averaged and rounded to one colour.
 *
 * Decoding the image and reading the canvas are replaced by the
 * parameter `pixel`: `pixel(x, y)` is the colour read at (x, y), or None
 * where the read data is not valid (fewer than three channels).
 */
module Sampler {
  import opened Wrappers
  import opened Numeric
  import opened ColorSpace

  /** 'Erro ao processar imagem': no valid sample was collected. */
  datatype SampleError = NoValidSamples

  /** Running sums of the red, green and blue channels and the number of samples. */
  datatype Totals = Totals(r: int, g: int, b: int, count: nat)

  const NoTotals := Totals(0, 0, 0, 0)

  /** The window half-width: min(100, floor(min(width, height) / 4)). */
  function SampleSize(width: nat, height: nat): (s: nat)
    ensures s <= 100 && 4 * s <= width && 4 * s <= height
    ensures s == 100 || 4 * (s + 1) > width || 4 * (s + 1) > height
  {
    var m := if width < height then width else height;
    if 100 < m / 4 then 100 else m / 4
  }

  /** The window: its centre (floor of half of each dimension) and half-width. */
  datatype Window = Window(cx: int, cy: int, size: nat)

  function WindowOf(width: nat, height: nat): Window {
    Window(width / 2, height / 2, SampleSize(width, height))
  }

  /** One pixel read added to the running sums when it is valid. */
  function Add(t: Totals, p: Option<Rgb>): Totals {
    match p
    case Some(c) => Totals(t.r + c.r, t.g + c.g, t.b + c.b, t.count + 1)
    case None => t
  }

  /**
   * The sums after the inner loop has read column offset `x` at every row
   * offset from -size in steps of 2 up to, not including, `y`, starting
   * from `acc`.
   */
  function RowTotals(pixel: (int, int) -> Option<Rgb>, w: Window, acc: Totals, x: int, y: int): Totals
    decreases y + w.size
  {
    if y + w.size <= 0 then acc
    else Add(RowTotals(pixel, w, acc, x, y - 2), pixel(w.cx + x, w.cy + y - 2))
  }

  /**
   * The sums after the outer loop has run every full column at offsets
   * from -size in steps of 2 up to, not including, `x`.
   */
  function GridTotals(pixel: (int, int) -> Option<Rgb>, w: Window, x: int): Totals
    decreases x + w.size
  {
    if x + w.size <= 0 then NoTotals
    else RowTotals(pixel, w, GridTotals(pixel, w, x - 2), x - 2, w.size)
  }

  /** What the two sampling loops collect from an image of the given size. */
  function Collected(width: nat, height: nat, pixel: (int, int) -> Option<Rgb>): Totals {
    var w := WindowOf(width, height);
    GridTotals(pixel, w, w.size)
  }

  /** The colour returned for the given sums: each channel rounded with Math.round. */
  function Average(t: Totals): Rgb
    requires t.count > 0
  {
    Rgb(RoundedAverage(t.r, t.count), RoundedAverage(t.g, t.count), RoundedAverage(t.b, t.count))
  }

  /**
   * The sampling loop of analisarCorImagem. It fails with NoValidSamples
   * when nothing was collected; otherwise it returns the rounded
   * per-channel average of everything collected.
   */
  method AnalyzeImage(width: nat, height: nat, pixel: (int, int) -> Option<Rgb>)
    returns (res: Result<Rgb, SampleError>)
    ensures var t := Collected(width, height, pixel);
            if t.count == 0 then res == Failure(NoValidSamples) else res == Success(Average(t))
  {
    var centerX := width / 2;
    var centerY := height / 2;
    var sampleSize := if 100 < (if width < height then width else height) / 4 then 100
                      else (if width < height then width else height) / 4;
    ghost var w := Window(centerX, centerY, sampleSize);

    var totalR, totalG, totalB := 0, 0, 0;
    var sampleCount: nat := 0;
    var x := -sampleSize;
    ghost var columns: nat := 0;
    while x < sampleSize
      invariant x == 2 * columns - sampleSize && columns <= sampleSize
      invariant Totals(totalR, totalG, totalB, sampleCount) == GridTotals(pixel, w, x)
      decreases sampleSize - x
    {
      ghost var start := Totals(totalR, totalG, totalB, sampleCount);
      var y := -sampleSize;
      ghost var rows: nat := 0;
      while y < sampleSize
        invariant y == 2 * rows - sampleSize && rows <= sampleSize
        invariant Totals(totalR, totalG, totalB, sampleCount) == RowTotals(pixel, w, start, x, y)
        decreases sampleSize - y
      {
        var data := pixel(centerX + x, centerY + y);
        if data.Some? {
          totalR := totalR + data.value.r;
          totalG := totalG + data.value.g;
          totalB := totalB + data.value.b;
          sampleCount := sampleCount + 1;
        }
        y := y + 2;
        rows := rows + 1;
      }
      x := x + 2;
      columns := columns + 1;
    }
    assert w == WindowOf(width, height);
    assert Totals(totalR, totalG, totalB, sampleCount) == Collected(width, height, pixel);

    if sampleCount == 0 {
      return Failure(NoValidSamples);
    }
    res := Success(Rgb(RoundedAverage(totalR, sampleCount),
                       RoundedAverage(totalG, sampleCount),
                       RoundedAverage(totalB, sampleCount)));
  }

  /** Every read of the pixel function returns a valid colour. */
  ghost predicate AllValid(pixel: (int, int) -> Option<Rgb>) {
    forall x, y :: pixel(x, y).Some?
  }

  /** Every valid read has all three channels in [0, 255]. */
  ghost predicate ValidInRange(pixel: (int, int) -> Option<Rgb>) {
    forall x, y :: pixel(x, y).Some? ==> InRange(pixel(x, y).value)
  }

  /** The inner loop takes at most one sample per step, exactly one when every read is valid. */
  lemma {:induction false} RowCount(pixel: (int, int) -> Option<Rgb>, w: Window, acc: Totals, x: int, y: int)
    requires 0 <= y + w.size && (y + w.size) % 2 == 0
    ensures acc.count <= RowTotals(pixel, w, acc, x, y).count <= acc.count + (y + w.size) / 2
    ensures AllValid(pixel) ==> RowTotals(pixel, w, acc, x, y).count == acc.count + (y + w.size) / 2
    decreases y + w.size
  {
    if y + w.size > 0 {
      RowCount(pixel, w, acc, x, y - 2);
    }
  }

  /** After k full columns, at most k * size samples were taken; exactly that many when every read is valid. */
  lemma {:induction false} GridCount(pixel: (int, int) -> Option<Rgb>, w: Window, x: int)
    requires 0 <= x + w.size && (x + w.size) % 2 == 0
    ensures GridTotals(pixel, w, x).count <= ((x + w.size) / 2) * w.size
    ensures AllValid(pixel) ==> GridTotals(pixel, w, x).count == ((x + w.size) / 2) * w.size
    decreases x + w.size
  {
    if x + w.size > 0 {
      var k := (x + w.size) / 2;
      GridCount(pixel, w, x - 2);
      RowCount(pixel, w, GridTotals(pixel, w, x - 2), x - 2, w.size);
      assert (x - 2 + w.size) / 2 == k - 1;
      assert (k - 1) * w.size + w.size == k * w.size;
    }
  }

  /**
   * Each loop axis runs exactly sampleSize times, so at most
   * sampleSize * sampleSize <= 10000 samples are collected, and exactly
   * sampleSize * sampleSize when every read is valid.
   */
  lemma SampleCountBound(width: nat, height: nat, pixel: (int, int) -> Option<Rgb>)
    ensures var s := SampleSize(width, height);
            Collected(width, height, pixel).count <= s * s <= 10000
    ensures AllValid(pixel) ==>
            Collected(width, height, pixel).count == SampleSize(width, height) * SampleSize(width, height)
  {
    var w := WindowOf(width, height);
    GridCount(pixel, w, w.size);
    assert (w.size + w.size) / 2 == w.size;
    SquareAtMost(w.size);
  }

  lemma SquareAtMost(s: nat)
    requires s <= 100
    ensures s * s <= 10000
  {
    assert s * s <= 100 * s;
  }

  /** An image whose smaller side is under 4 pixels yields no sample, so sampling fails. */
  lemma SmallImageYieldsNoSample(width: nat, height: nat, pixel: (int, int) -> Option<Rgb>)
    requires width < 4 || height < 4
    ensures Collected(width, height, pixel).count == 0
  {
  }

  /** (x, y) is an offset the two loops visit: -size <= offset < size. */
  predicate InWindow(w: Window, x: int, y: int) {
    0 <= x + w.size && x < w.size && 0 <= y + w.size && y < w.size
  }

  /** Every pixel the loops read lies inside the image. */
  lemma WindowInsideImage(width: nat, height: nat)
    ensures var w := WindowOf(width, height);
            forall x, y :: InWindow(w, x, y) ==>
              0 <= w.cx + x < width && 0 <= w.cy + y < height
  {
  }

  /** The channel sums stay within [0, 255 * count] when every valid read is in range. */
  lemma {:induction false} RowInRange(pixel: (int, int) -> Option<Rgb>, w: Window, acc: Totals, x: int, y: int)
    requires ValidInRange(pixel)
    requires 0 <= acc.r <= 255 * acc.count && 0 <= acc.g <= 255 * acc.count && 0 <= acc.b <= 255 * acc.count
    ensures var t := RowTotals(pixel, w, acc, x, y);
            0 <= t.r <= 255 * t.count && 0 <= t.g <= 255 * t.count && 0 <= t.b <= 255 * t.count
    decreases y + w.size
  {
    if y + w.size > 0 {
      RowInRange(pixel, w, acc, x, y - 2);
    }
  }

  lemma {:induction false} GridInRange(pixel: (int, int) -> Option<Rgb>, w: Window, x: int)
    requires ValidInRange(pixel)
    ensures var t := GridTotals(pixel, w, x);
            0 <= t.r <= 255 * t.count && 0 <= t.g <= 255 * t.count && 0 <= t.b <= 255 * t.count
    decreases x + w.size
  {
    if x + w.size > 0 {
      GridInRange(pixel, w, x - 2);
      RowInRange(pixel, w, GridTotals(pixel, w, x - 2), x - 2, w.size);
    }
  }

  /** When every valid pixel read is in [0, 255], so is every channel of the sampled colour. */
  lemma SampledColorInRange(width: nat, height: nat, pixel: (int, int) -> Option<Rgb>)
    requires ValidInRange(pixel)
    requires Collected(width, height, pixel).count > 0
    ensures InRange(Average(Collected(width, height, pixel)))
  {
    var w := WindowOf(width, height);
    var t := Collected(width, height, pixel);
    GridInRange(pixel, w, w.size);
    RoundedAverageInRange(t.r, t.count);
    RoundedAverageInRange(t.g, t.count);
    RoundedAverageInRange(t.b, t.count);
  }
}
