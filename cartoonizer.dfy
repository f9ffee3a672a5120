/** The tensor pipeline of the Cartoonizer component: `normalize` pads the image
    to a square on the before side of its shorter axis, resizes it to SIZE x SIZE
    and rescales its values for the network; `predict` runs the network, maps its
    output back to [0, 1] and slices off the rows or columns that correspond to
    the padding.

    Axis names follow the tensor: `tf.browser.fromPixels` gives [rows, cols, 3],
    so the source's `w` is d0 (the row count) and its `h` is d1 (the column count). */
module Cartoonizer {
  import opened Tensors

  /** Side of the square the network takes and returns (the source's SIZE). */
  const Size: nat := 300

  function Max(a: nat, b: nat): nat { if a > b then a else b }

  function Min(a: nat, b: nat): nat { if a > b then b else a }

  /** |a - b|, the source's `Math.abs(w - h)`. */
  function AbsDiff(a: nat, b: nat): nat { if a > b then a - b else b - a }

  // ---------------------------------------------------------------------------
  // Padding to a square

  /** The axis that both the padding and the crop act on, chosen by the test
      `w > h`: the column axis when there are more rows than columns, the row
      axis otherwise. */
  function PaddedAxis(d0: nat, d1: nat): (axis: nat)
    ensures axis < 2
    ensures axis == 1 <==> d0 > d1
  {
    if d0 > d1 then 1 else 0
  }

  /** The padding list handed to `img.pad`: one (before, after) pair per axis.
      Only the before side of one of the two spatial axes is padded, the channel
      axis never, and each spatial axis ends up as long as the longer one. */
  function PaddingList(d0: nat, d1: nat): (p: seq<(nat, nat)>)
    ensures |p| == 3
    ensures p[2] == (0, 0)
    ensures forall k :: 0 <= k < 3 ==> p[k].1 == 0
    ensures p[0].0 == 0 || p[1].0 == 0
    ensures d0 + p[0].0 == Max(d0, d1) && d1 + p[1].0 == Max(d0, d1)
  {
    if d0 > d1 then [(0, 0), (d0 - d1, 0), (0, 0)] else [(d1 - d0, 0), (0, 0), (0, 0)]
  }

  /** The padding list pads exactly the axis PaddedAxis, by |d0 - d1|, on its
      before side, and leaves the other two axes alone. */
  lemma PaddingListPadsOneAxis(d0: nat, d1: nat)
    ensures forall k :: 0 <= k < 3 ==>
              PaddingList(d0, d1)[k] == if k == PaddedAxis(d0, d1) then (AbsDiff(d0, d1), 0) else (0, 0)
  {
  }

  /** After padding, the image is a square of side max(d0, d1) with its
      channels untouched. */
  lemma PaddingSquares(d0: nat, d1: nat, d2: nat)
    ensures PaddedShape([d0, d1, d2], PaddingList(d0, d1)) == [Max(d0, d1), Max(d0, d1), d2]
  {
  }

  /** The padded image: the original, shifted by |d0 - d1| along the padded
      axis, preceded on that axis by |d0 - d1| rows or columns of zeros. */
  lemma PaddingPrependsZeros(t: Tensor3<real>, s: seq<nat>)
    requires HasShape(t, s)
    ensures var q, m, n := Pad(t, s, PaddingList(s[0], s[1]), 0.0), Max(s[0], s[1]), AbsDiff(s[0], s[1]);
            && HasShape(q, [m, m, s[2]])
            && (s[0] > s[1] ==> forall i, j, c :: 0 <= i < s[0] && 0 <= j < s[1] && 0 <= c < s[2] ==>
                                  q[i][j + n][c] == t[i][j][c])
            && (s[0] <= s[1] ==> forall i, j, c :: 0 <= i < s[0] && 0 <= j < s[1] && 0 <= c < s[2] ==>
                                  q[i + n][j][c] == t[i][j][c])
            && forall i, j, c ::
                 (0 <= i < m && 0 <= j < m && 0 <= c < s[2] && (if s[0] > s[1] then j < n else i < n))
                 ==> q[i][j][c] == 0.0
  {
  }

  /** An image that is already square is not padded at all. */
  lemma SquareImageUnpadded(t: Tensor3<real>, s: seq<nat>)
    requires HasShape(t, s) && s[0] == s[1]
    ensures PaddingList(s[0], s[1]) == [(0, 0), (0, 0), (0, 0)]
    ensures Pad(t, s, PaddingList(s[0], s[1]), 0.0) == t
  {
    PadNothing(t, s, 0.0);
  }

  // ---------------------------------------------------------------------------
  // Crop amount and crop offsets

  /** r is num / den rounded to the nearest integer, halves rounded up:
      r - 1/2 <= num / den < r + 1/2. */
  predicate RoundsTo(num: int, den: int, r: int)
  {
    (2 * r - 1) * den <= 2 * num < (2 * r + 1) * den
  }

  /** `Math.round(Math.abs(w - h) / Math.max(w, h) * size)` in exact integer
      arithmetic, halves rounded up as `Math.round` does for non-negative values:
      r is the integer nearest to |d0 - d1| * size / max(d0, d1), and it never
      exceeds size. */
  function CropAmount(d0: nat, d1: nat, size: nat): (r: nat)
    requires Max(d0, d1) > 0
    ensures RoundsTo(AbsDiff(d0, d1) * size, Max(d0, d1), r)
    ensures r <= size
  {
    var m, num := Max(d0, d1), AbsDiff(d0, d1) * size;
    var r := (2 * num + m) / (2 * m);
    RoundHalfUpByDivision(num, m);
    MulMono(AbsDiff(d0, d1), m, size);
    RoundingBelow(num, m, r, size);
    r
  }

  /** Integer division computes the rounding of RoundsTo. */
  lemma RoundHalfUpByDivision(num: nat, den: nat)
    requires den > 0
    ensures RoundsTo(num, den, (2 * num + den) / (2 * den))
  {
  }

  /** Multiplying both sides by a nat keeps `<=`. */
  lemma MulMono(a: int, b: int, c: nat)
    requires a <= b
    ensures a * c <= b * c
  {
  }

  /** A value at most size rounds to at most size. */
  lemma RoundingBelow(num: nat, den: nat, r: int, size: nat)
    requires den > 0 && RoundsTo(num, den, r) && num <= den * size
    ensures r <= size
  {
    if r > size {
      MulMono(2 * size + 1, 2 * r - 1, den);
      assert false;
    }
  }

  /** The rounding is unique: at most one integer is within half of num / den. */
  lemma RoundingUnique(num: int, den: nat, r1: int, r2: int)
    requires den > 0 && RoundsTo(num, den, r1) && RoundsTo(num, den, r2)
    ensures r1 == r2
  {
  }

  /** The crop is empty exactly when the scaled difference is under half a
      pixel; in particular a square image is not cropped. */
  lemma CropAmountZeroIff(d0: nat, d1: nat, size: nat)
    requires Max(d0, d1) > 0
    ensures CropAmount(d0, d1, size) == 0 <==> 2 * AbsDiff(d0, d1) * size < Max(d0, d1)
    ensures d0 == d1 ==> CropAmount(d0, d1, size) == 0
  {
    var m, num, r := Max(d0, d1), AbsDiff(d0, d1) * size, CropAmount(d0, d1, size);
    if 2 * num < m {
      assert RoundsTo(num, m, 0);
      RoundingUnique(num, m, r, 0);
    }
  }

  /** The crop takes the whole axis, leaving it empty, exactly when the longer
      side is at least 2 * size times the shorter one (1000 x 1 at size 300). */
  lemma CropEmptiesAxisIff(d0: nat, d1: nat, size: nat)
    requires Max(d0, d1) > 0
    ensures CropAmount(d0, d1, size) == size <==> 2 * size * Min(d0, d1) <= Max(d0, d1)
  {
    var m, num := Max(d0, d1), AbsDiff(d0, d1) * size;
    assert AbsDiff(d0, d1) == m - Min(d0, d1);
    assert 2 * num == 2 * m * size - 2 * size * Min(d0, d1);
    assert (2 * size - 1) * m == 2 * m * size - m;
    assert (2 * size + 1) * m == 2 * m * size + m;
    if 2 * size * Min(d0, d1) <= m {
      assert RoundsTo(num, m, size);
      RoundingUnique(num, m, CropAmount(d0, d1, size), size);
    } else {
      assert !RoundsTo(num, m, size);
    }
  }

  /** When size equals the padded side, the crop amount is exactly the pad
      amount: the rounding only appears through the rescale to SIZE. */
  lemma CropAmountUnscaled(d0: nat, d1: nat)
    requires Max(d0, d1) > 0
    ensures CropAmount(d0, d1, Max(d0, d1)) == AbsDiff(d0, d1)
  {
    var m: int, a: int := Max(d0, d1), AbsDiff(d0, d1);
    assert (2 * a - 1) * m == 2 * (a * m) - m;
    assert (2 * a + 1) * m == 2 * (a * m) + m;
    assert RoundsTo(a * m, m, a);
    RoundingUnique(a * m, m, CropAmount(d0, d1, m), a);
  }

  /** What is kept of the cropped axis, size - CropAmount, is the integer nearest
      to size * min(d0, d1) / max(d0, d1), halves rounded down: the output
      approximates the input's aspect ratio to within half a pixel. */
  lemma KeptExtentMatchesAspect(d0: nat, d1: nat, size: nat)
    requires Max(d0, d1) > 0
    ensures var k := size - CropAmount(d0, d1, size);
            (2 * k - 1) * Max(d0, d1) < 2 * size * Min(d0, d1) <= (2 * k + 1) * Max(d0, d1)
  {
  }

  /** The slice offsets of `predict`: `amount` along the axis chosen by the same
      `w > h` test as the padding, nothing along the other two. */
  function CropBegin(d0: nat, d1: nat, amount: nat): (b: seq<nat>)
    ensures |b| == 3
    ensures forall k :: 0 <= k < 3 ==> b[k] == if k == PaddedAxis(d0, d1) then amount else 0
  {
    if d0 > d1 then [0, amount, 0] else [amount, 0, 0]
  }

  /** Crop and padding act on the same axis and the same (before) side: the
      crop offsets, taken with the pad amount, are the padding's before amounts. */
  lemma CropMatchesPadding(d0: nat, d1: nat)
    ensures var p := PaddingList(d0, d1);
            CropBegin(d0, d1, AbsDiff(d0, d1)) == [p[0].0, p[1].0, p[2].0]
  {
  }

  /** Cropping by the pad amount from the start of the padded axis gives back
      the image that was padded. */
  lemma CropUndoesPadding(t: Tensor3<real>, s: seq<nat>)
    requires HasShape(t, s)
    ensures var p := PaddingList(s[0], s[1]);
            Slice(Pad(t, s, p, 0.0), PaddedShape(s, p), CropBegin(s[0], s[1], AbsDiff(s[0], s[1]))) == t
  {
    var p := PaddingList(s[0], s[1]);
    CropMatchesPadding(s[0], s[1]);
    SliceUndoesPad(t, s, p, 0.0);
  }

  /** Without the rescale (size equal to the padded side) the crop amount of
      `predict` undoes the padding of `normalize` exactly. */
  lemma UnscaledCropUndoesPadding(t: Tensor3<real>, s: seq<nat>)
    requires HasShape(t, s) && Max(s[0], s[1]) > 0
    ensures var p := PaddingList(s[0], s[1]);
            var amount := CropAmount(s[0], s[1], Max(s[0], s[1]));
            Slice(Pad(t, s, p, 0.0), PaddedShape(s, p), CropBegin(s[0], s[1], amount)) == t
  {
    CropAmountUnscaled(s[0], s[1]);
    CropUndoesPadding(t, s);
  }

  // ---------------------------------------------------------------------------
  // Value scaling

  /** `img.sub(127.5).div(127.5)`: pixel values [0, 255] onto [-1, 1]. */
  function NormalizeSample(x: real): (y: real)
    ensures 0.0 <= x <= 255.0 ==> -1.0 <= y <= 1.0
  {
    (x - 127.5) / 127.5
  }

  /** `x.sub(-1).div(2).clipByValue(0, 1)`: network output onto [0, 1]. */
  function DenormalizeSample(y: real): (v: real)
    ensures 0.0 <= v <= 1.0
    ensures -1.0 <= y <= 1.0 ==> v == (y + 1.0) / 2.0
  {
    var v := (y - (-1.0)) / 2.0;
    if v < 0.0 then 0.0 else if v > 1.0 then 1.0 else v
  }

  /** A displayable colour value, as `tf.browser.toPixels` takes for floats. */
  predicate InUnitRange(v: real) { 0.0 <= v <= 1.0 }

  /** Denormalizing a normalized pixel value gives the value scaled to [0, 1]. */
  lemma DenormalizeAfterNormalize(x: real)
    requires 0.0 <= x <= 255.0
    ensures DenormalizeSample(NormalizeSample(x)) == x / 255.0
  {
  }

  // ---------------------------------------------------------------------------
  // The pipeline

  /** `normalize`: pad to a square, resize to SIZE x SIZE, reshape to a batch of
      one and rescale the values. Whatever the image's dimensions, the result has
      the shape [1, SIZE, SIZE, 3] the network takes, and value (i, j, c) of its
      one image is the rescaled sample, at (i, j, c), of the zero-padded image.
      `sample` stands for the bilinear interpolation of `tf.image.resizeBilinear`. */
  function Normalize(img: Tensor3<real>, s: seq<nat>, sample: (Tensor3<real>, nat, nat, nat) -> real)
    : (r: Tensor4<real>)
    requires HasShape(img, s) && s[2] == 3
    ensures HasShape4(r, [1, Size, Size, 3])
    ensures forall i, j, c :: 0 <= i < Size && 0 <= j < Size && 0 <= c < 3 ==>
              r[0][i][j][c] == NormalizeSample(sample(Pad(img, s, PaddingList(s[0], s[1]), 0.0), i, j, c))
  {
    var resized := SquareAndResize(img, s, sample);
    RescaledBatch(resized);
    Map4(Batch(resized, [Size, Size, 3]), NormalizeSample)
  }

  /** The last lines of `normalize`: reshaping a SIZE x SIZE x 3 tensor to a
      batch and rescaling it gives the [1, SIZE, SIZE, 3] batch whose value
      (i, j, c) is the rescaled value (i, j, c) of the tensor. */
  lemma RescaledBatch(t: Tensor3<real>)
    requires HasShape(t, [Size, Size, 3])
    ensures var r := Map4(Batch(t, [Size, Size, 3]), NormalizeSample);
            && HasShape4(r, [1, Size, Size, 3])
            && forall i, j, c :: 0 <= i < Size && 0 <= j < Size && 0 <= c < 3 ==>
                 r[0][i][j][c] == NormalizeSample(t[i][j][c])
  {
    var r := Map4(Batch(t, [Size, Size, 3]), NormalizeSample);
    assert [1] + [Size, Size, 3] == [1, Size, Size, 3];
    assert r[0] == Map3(t, NormalizeSample);
  }

  /** First lines of `normalize`: pad the image with zeros to a square and
      resize the square to SIZE x SIZE. Value (i, j, c) is the sample, at
      (i, j, c), of the zero-padded image. */
  function SquareAndResize(img: Tensor3<real>, s: seq<nat>, sample: (Tensor3<real>, nat, nat, nat) -> real)
    : (r: Tensor3<real>)
    requires HasShape(img, s) && s[2] == 3
    ensures HasShape(r, [Size, Size, 3])
    ensures forall i, j, c :: 0 <= i < Size && 0 <= j < Size && 0 <= c < 3 ==>
              r[i][j][c] == sample(Pad(img, s, PaddingList(s[0], s[1]), 0.0), i, j, c)
  {
    var p := PaddingList(s[0], s[1]);
    Resize(Pad(img, s, p, 0.0), PaddedShape(s, p), Size, Size, sample)
  }

  /** `model.predict` on the network's fixed signature: a [1, SIZE, SIZE, 3]
      input gives a [1, SIZE, SIZE, 3] output. `net` stands for the network,
      giving each output value from the input and the value's position. */
  function Infer(x: Tensor4<real>, net: (Tensor4<real>, nat, nat, nat) -> real): (r: Tensor4<real>)
    requires HasShape4(x, [1, Size, Size, 3])
    ensures HasShape4(r, [1, Size, Size, 3])
    ensures forall i, j, c :: 0 <= i < Size && 0 <= j < Size && 0 <= c < 3 ==> r[0][i][j][c] == net(x, i, j, c)
  {
    [seq(Size, i requires 0 <= i < Size =>
       seq(Size, j requires 0 <= j < Size =>
         seq(3, c requires 0 <= c < 3 => net(x, i, j, c))))]
  }

  /** The post-processing in `predict`: squeeze the batch axis, map
      the values back to [0, 1] and slice `CropAmount` rows or columns off the
      start of the axis that `normalize` padded. The result has SIZE rows and
      SIZE - amount columns when the image has more rows than columns, SIZE -
      amount rows and SIZE columns otherwise. Element (i, j, c) is the
      denormalized network output at (i, j, c) shifted by the crop offsets, so
      every value lies in [0, 1]. */
  function Postprocess(result: Tensor4<real>, s: seq<nat>): (r: Tensor3<real>)
    requires HasShape4(result, [1, Size, Size, 3]) && |s| == 3 && Max(s[0], s[1]) > 0
    ensures var amount := CropAmount(s[0], s[1], Size);
            HasShape(r, if s[0] > s[1] then [Size, Size - amount, 3] else [Size - amount, Size, 3])
    ensures var b := CropBegin(s[0], s[1], CropAmount(s[0], s[1], Size));
            forall i, j, c :: 0 <= i < |r| && 0 <= j < |r[i]| && 0 <= c < |r[i][j]| ==>
              r[i][j][c] == DenormalizeSample(result[0][i + b[0]][j + b[1]][c + b[2]])
    ensures AllValues(r, InUnitRange)
  {
    assert [1] + [Size, Size, 3] == [1, Size, Size, 3];
    var squeezed := Squeeze(result, [Size, Size, 3]);
    DenormalizedCrop(squeezed, s[0], s[1], CropAmount(s[0], s[1], Size));
    Slice(Map3(squeezed, DenormalizeSample), [Size, Size, 3], CropBegin(s[0], s[1], CropAmount(s[0], s[1], Size)))
  }

  /** Denormalizing a SIZE x SIZE x 3 tensor and slicing `amount` off the
      start of the padded axis leaves SIZE - amount on that axis. Element
      (i, j, c) is the denormalized element at the shifted position, and every
      value of the result lies in [0, 1]. */
  lemma DenormalizedCrop(t: Tensor3<real>, d0: nat, d1: nat, amount: nat)
    requires HasShape(t, [Size, Size, 3]) && amount <= Size
    ensures var b := CropBegin(d0, d1, amount);
            var r := Slice(Map3(t, DenormalizeSample), [Size, Size, 3], b);
            && HasShape(r, if d0 > d1 then [Size, Size - amount, 3] else [Size - amount, Size, 3])
            && (forall i, j, c :: 0 <= i < |r| && 0 <= j < |r[i]| && 0 <= c < |r[i][j]| ==>
                  r[i][j][c] == DenormalizeSample(t[i + b[0]][j + b[1]][c + b[2]]))
            && AllValues(r, InUnitRange)
  {
    var b := CropBegin(d0, d1, amount);
    var r := Slice(Map3(t, DenormalizeSample), [Size, Size, 3], b);
    assert SlicedShape([Size, Size, 3], b)
        == if d0 > d1 then [Size, Size - amount, 3] else [Size - amount, Size, 3];
    SliceOfMap(t, [Size, Size, 3], b, DenormalizeSample);
    forall i, j, c | 0 <= i < |r| && 0 <= j < |r[i]| && 0 <= c < |r[i][j]|
      ensures InUnitRange(r[i][j][c])
    {
      assert r[i][j][c] == DenormalizeSample(t[i + b[0]][j + b[1]][c + b[2]]);
    }
  }

  /** The network call and the post-processing of `predict`: run the network
      on the normalized input and postprocess its output. The result is the
      denormalized network output with the first `amount` rows or columns of
      the padded axis cut off. */
  function InferAndCrop(x: Tensor4<real>, net: (Tensor4<real>, nat, nat, nat) -> real, s: seq<nat>)
    : (r: Tensor3<real>)
    requires HasShape4(x, [1, Size, Size, 3]) && |s| == 3 && Max(s[0], s[1]) > 0
    ensures var amount := CropAmount(s[0], s[1], Size);
            HasShape(r, if s[0] > s[1] then [Size, Size - amount, 3] else [Size - amount, Size, 3])
    ensures var b := CropBegin(s[0], s[1], CropAmount(s[0], s[1], Size));
            forall i, j, c :: 0 <= i < |r| && 0 <= j < |r[i]| && 0 <= c < |r[i][j]| ==>
              r[i][j][c] == DenormalizeSample(net(x, i + b[0], j + b[1], c + b[2]))
    ensures AllValues(r, InUnitRange)
  {
    var result := Infer(x, net);
    PostprocessPicks(x, net, result, s);
    Postprocess(result, s)
  }

  /** `predict`: normalize the image, run the network on it and postprocess
      its output. Whatever the image's dimensions, the result is the square
      network output with the first `amount` rows or columns of the padded
      axis cut off: shape [SIZE, SIZE - amount, 3] or [SIZE - amount, SIZE, 3],
      element (i, j, c) the denormalized network value at (i, j, c) plus the
      crop offsets, every value in [0, 1]. */
  function Predict(img: Tensor3<real>, s: seq<nat>,
                   sample: (Tensor3<real>, nat, nat, nat) -> real,
                   net: (Tensor4<real>, nat, nat, nat) -> real): (r: Tensor3<real>)
    requires HasShape(img, s) && s[2] == 3 && Max(s[0], s[1]) > 0
    ensures var amount := CropAmount(s[0], s[1], Size);
            HasShape(r, if s[0] > s[1] then [Size, Size - amount, 3] else [Size - amount, Size, 3])
    ensures var b := CropBegin(s[0], s[1], CropAmount(s[0], s[1], Size));
            forall i, j, c :: 0 <= i < |r| && 0 <= j < |r[i]| && 0 <= c < |r[i][j]| ==>
              r[i][j][c] == DenormalizeSample(net(Normalize(img, s, sample), i + b[0], j + b[1], c + b[2]))
    ensures AllValues(r, InUnitRange)
  {
    InferAndCrop(Normalize(img, s, sample), net, s)
  }

  /** Postprocessing the network's output picks each value from the network at
      the crop-shifted position. */
  lemma PostprocessPicks(x: Tensor4<real>, net: (Tensor4<real>, nat, nat, nat) -> real,
                           result: Tensor4<real>, s: seq<nat>)
    requires HasShape4(result, [1, Size, Size, 3]) && |s| == 3 && Max(s[0], s[1]) > 0
    requires forall i, j, c :: 0 <= i < Size && 0 <= j < Size && 0 <= c < 3 ==>
               result[0][i][j][c] == net(x, i, j, c)
    ensures var r, b := Postprocess(result, s), CropBegin(s[0], s[1], CropAmount(s[0], s[1], Size));
            forall i, j, c :: 0 <= i < |r| && 0 <= j < |r[i]| && 0 <= c < |r[i][j]| ==>
              r[i][j][c] == DenormalizeSample(net(x, i + b[0], j + b[1], c + b[2]))
  {
    var r := Postprocess(result, s);
    var amount := CropAmount(s[0], s[1], Size);
    var b := CropBegin(s[0], s[1], amount);
    forall i, j, c | 0 <= i < |r| && 0 <= j < |r[i]| && 0 <= c < |r[i][j]|
      ensures r[i][j][c] == DenormalizeSample(net(x, i + b[0], j + b[1], c + b[2]))
    {
      CropStaysInside(s, amount, r, i, j, c);
      assert r[i][j][c] == DenormalizeSample(result[0][i + b[0]][j + b[1]][c + b[2]]);
    }
  }

  /** A position of the cropped output, shifted by the crop offsets, lies inside
      the SIZE x SIZE x 3 network output. */
  lemma CropStaysInside(s: seq<nat>, amount: nat, r: Tensor3<real>, i: nat, j: nat, c: nat)
    requires |s| == 3 && amount <= Size
    requires HasShape(r, if s[0] > s[1] then [Size, Size - amount, 3] else [Size - amount, Size, 3])
    requires i < |r| && j < |r[i]| && c < |r[i][j]|
    ensures var b := CropBegin(s[0], s[1], amount);
            i + b[0] < Size && j + b[1] < Size && c + b[2] < 3
  {
  }

  /** A square image, whatever its side, loses nothing to the crop: `predict`
      returns the whole SIZE x SIZE network output, denormalized. */
  lemma SquareImageUncropped(img: Tensor3<real>, k: nat, sample: (Tensor3<real>, nat, nat, nat) -> real,
                             net: (Tensor4<real>, nat, nat, nat) -> real)
    requires HasShape(img, [k, k, 3]) && k > 0
    ensures var r := Predict(img, [k, k, 3], sample, net);
            && HasShape(r, [Size, Size, 3])
            && forall i, j, c :: 0 <= i < Size && 0 <= j < Size && 0 <= c < 3 ==>
                 r[i][j][c] == DenormalizeSample(net(Normalize(img, [k, k, 3], sample), i, j, c))
  {
    CropAmountZeroIff(k, k, Size);
    assert CropBegin(k, k, 0) == [0, 0, 0];
  }

  /** Worked instances: a square 300 x 300 image is neither padded nor cropped;
      a 400 x 300 one is padded by 100 columns and cropped by 75 of them; a
      1000 x 1 one loses its whole column axis; with a side of 256 a 300 x 400
      image is cropped by 64 rows, leaving 192. */
  lemma WorkedInstances()
    ensures PaddingList(300, 300) == [(0, 0), (0, 0), (0, 0)] && CropAmount(300, 300, Size) == 0
    ensures PaddingList(400, 300) == [(0, 0), (100, 0), (0, 0)]
    ensures CropAmount(400, 300, Size) == 75 && CropBegin(400, 300, 75) == [0, 75, 0]
    ensures CropAmount(1000, 1, Size) == Size
    ensures CropAmount(300, 400, 256) == 64 && CropBegin(300, 400, 64) == [64, 0, 0]
  {
  }
}
