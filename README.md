# Cartoonizer tensor pipeline in Dafny

This project models the image pipeline of the react-cartoonize `Cartoonizer`
component (`src/components/Cartoonizer.tsx`). The pipeline has two halves:

- `normalize` pads the decoded image with zeros so that it becomes square. It
  then resizes the square to `SIZE x SIZE` (`SIZE = 300`), reshapes it to the
  `[1, SIZE, SIZE, 3]` batch that the CartoonGAN network takes, and maps
  `[0, 255]` onto `[-1, 1]`.
- `predict` runs the network and squeezes the batch axis. It maps the values
  back to `[0, 1]` and clips them. Finally it slices off the rows or columns
  of the output that correspond to the padding.

`tf.browser.fromPixels` gives shape `[rows, cols, 3]`. So the source's `w` is
the row count and its `h` is the column count. The model calls them `d0` and
`d1` and follows the code's `w > h` test as written.

The model has two modules:

- `Tensors` (`tensors.dfy`): rank-3 and rank-4 tensors as nested sequences,
  with shapes as sequences of axis lengths. It also holds the meaning of the
  tfjs operations the component chains: `pad`, `slice` with only a begin
  offset, `resizeBilinear` (output shape only), `reshape` to a batch of one,
  `squeeze`, and element-wise arithmetic.
- `Cartoonizer` (`cartoonizer.dfy`): `SIZE`, the padding list, the crop
  amount and the crop offsets, the value scalings, `normalize`, and `predict`
  split into its network call and its post-processing. It also holds the
  lemmas that relate padding to cropping.

The source is pure at this level: every tfjs call returns a new tensor. So
everything here is a function or a lemma.

Facts about the code that the model follows:

- The warm-up call after loading the network (`Cartoonizer.tsx:23`) is
  commented out. There is no error handling and no guard against two runs;
  the only state is React `useState` fields.
- The padding goes on the *before* side of the padded axis (`[d, 0]` at :70).
- The slice at :60-61 starts at the beginning of that same axis. It removes
  `CropAmount` rows or columns: the pad amount `d` rescaled to SIZE and
  rounded, `round(d / max(d0, d1) * SIZE)`. It equals `d` when
  `max(d0, d1) == SIZE` (`CropAmountUnscaled`). In general it differs from
  `d`.
- One test, `w > h`, chooses the axis at both :60 and :70. The helper
  `PaddedAxis` names that choice, and `PaddingList` and `CropBegin` are both
  stated through it.

## Model

| member | source | states |
|---|---|---|
| `Cartoonizer.PaddingList` | src/components/Cartoonizer.tsx:69-70 | The pad list has three (before, after) pairs. The channel axis is never padded and no after side is padded. At most one of the two spatial axes is padded. Each spatial axis then has length max(d0, d1). |
| `Cartoonizer.PaddingListPadsOneAxis` | src/components/Cartoonizer.tsx:70 | Only entry `PaddedAxis(d0, d1)` is non-zero, and it is `(abs(d0 - d1), 0)`. That axis is 1 exactly when d0 > d1. |
| `Cartoonizer.PaddingSquares` | src/components/Cartoonizer.tsx:70-71 | The padded shape is `[max, max, d2]`: the image becomes square and keeps its channels. |
| `Cartoonizer.PaddingPrependsZeros` | src/components/Cartoonizer.tsx:70-71 | In the padded image, the original appears shifted by abs(d0 - d1) along the padded axis. Every element before that offset is 0. |
| `Cartoonizer.SquareImageUnpadded` | src/components/Cartoonizer.tsx:70-71 | When d0 == d1, every pad amount is 0 and padding returns the image unchanged. |
| `Cartoonizer.CropAmount` | src/components/Cartoonizer.tsx:59 | The result is the integer nearest to abs(d0 - d1) * size / max(d0, d1), with halves rounded up, as `Math.round` rounds. It never exceeds size. |
| `Cartoonizer.RoundingUnique` | src/components/Cartoonizer.tsx:59 | At most one integer satisfies the rounding condition, so that condition determines `CropAmount`. |
| `Cartoonizer.CropAmountZeroIff` | src/components/Cartoonizer.tsx:59 | The crop amount is 0 exactly when 2 * abs(d0 - d1) * size < max(d0, d1). It is always 0 for a square image. |
| `Cartoonizer.CropEmptiesAxisIff` | src/components/Cartoonizer.tsx:59-61 | For every size, the crop removes the whole axis exactly when max >= 2 * size * min. For example, 1000 x 1 at size 300 leaves an empty axis. |
| `Cartoonizer.CropAmountUnscaled` | src/components/Cartoonizer.tsx:59 | When size equals the padded side max(d0, d1), the crop amount equals the pad amount abs(d0 - d1). |
| `Cartoonizer.KeptExtentMatchesAspect` | src/components/Cartoonizer.tsx:59-61 | The part of the axis that is kept, size - amount, is within half a pixel of size * min / max. So the output keeps the input's aspect ratio up to rounding. |
| `Cartoonizer.CropBegin` | src/components/Cartoonizer.tsx:60 | The slice offset is `amount` on axis `PaddedAxis(d0, d1)` and 0 on the other two axes. This is the same axis the padding uses. |
| `Cartoonizer.CropMatchesPadding` | src/components/Cartoonizer.tsx:60-70 | When the crop offsets are built from the pad amount, they equal the padding's before amounts. Crop and pad act on the same axis and on the same side. |
| `Cartoonizer.CropUndoesPadding` | src/components/Cartoonizer.tsx:60-71 | Slicing the pad amount off the start of the padded axis gives back the original image. |
| `Cartoonizer.UnscaledCropUndoesPadding` | src/components/Cartoonizer.tsx:59-71 | Without the rescale (size = max(d0, d1)), `predict`'s crop amount and offsets exactly undo `normalize`'s padding. |
| `Cartoonizer.NormalizeSample` | src/components/Cartoonizer.tsx:73-75 | `(x - 127.5) / 127.5` maps a pixel value in [0, 255] into [-1, 1]. |
| `Cartoonizer.DenormalizeSample` | src/components/Cartoonizer.tsx:58 | `(y - (-1)) / 2` clipped to [0, 1] always lies in [0, 1]. On inputs in [-1, 1] the clip is inactive. |
| `Cartoonizer.DenormalizeAfterNormalize` | src/components/Cartoonizer.tsx:58-75 | Denormalizing a normalized pixel value x in [0, 255] gives x / 255. |
| `Cartoonizer.Normalize` | src/components/Cartoonizer.tsx:68-76 | For every input shape `[d0, d1, 3]`, the tensor handed to the network has shape `[1, SIZE, SIZE, 3]`. Its value (i, j, c) is `NormalizeSample` of the resize sample, at (i, j, c), of the image zero-padded with `PaddingList`. |
| `Cartoonizer.SquareAndResize` | src/components/Cartoonizer.tsx:69-72 | Padding to a square and resizing gives a `SIZE x SIZE x 3` tensor. Its value (i, j, c) is the resize sample, at (i, j, c), of the image zero-padded with `PaddingList`. |
| `Cartoonizer.RescaledBatch` | src/components/Cartoonizer.tsx:72-75 | Reshaping a `SIZE x SIZE x 3` tensor to a batch and rescaling it gives shape `[1, SIZE, SIZE, 3]`, with value (i, j, c) equal to `NormalizeSample` of the tensor's value (i, j, c). |
| `Cartoonizer.Infer` | src/components/Cartoonizer.tsx:56 | The network maps its `[1, SIZE, SIZE, 3]` input to a `[1, SIZE, SIZE, 3]` output. Output value (i, j, c) is the network's value at that position. |
| `Cartoonizer.Postprocess` | src/components/Cartoonizer.tsx:58-61 | After squeeze, denormalize and slice, the shape is `[SIZE, SIZE - amount, 3]` when d0 > d1 and `[SIZE - amount, SIZE, 3]` otherwise. Element (i, j, c) is the denormalized network output at (i, j, c) plus the `CropBegin` offsets. Every value lies in [0, 1]. |
| `Cartoonizer.DenormalizedCrop` | src/components/Cartoonizer.tsx:58-61 | Denormalizing a `SIZE x SIZE x 3` tensor and slicing `amount` off the start of the padded axis leaves SIZE - amount on that axis. Element (i, j, c) is the denormalized element at (i, j, c) plus the `CropBegin` offsets. Every value lies in [0, 1]. |
| `Cartoonizer.CropStaysInside` | src/components/Cartoonizer.tsx:60-61 | Every position of the cropped output, shifted by the crop offsets, lies inside the `SIZE x SIZE x 3` network output. |
| `Cartoonizer.PostprocessPicks` | src/components/Cartoonizer.tsx:56-61 | Each element of the postprocessed output is the denormalized network value at the crop-shifted position. |
| `Cartoonizer.InferAndCrop` | src/components/Cartoonizer.tsx:56-61 | On a `[1, SIZE, SIZE, 3]` input x, running the network and postprocessing returns shape `[SIZE, SIZE - amount, 3]` or `[SIZE - amount, SIZE, 3]`. Element (i, j, c) is the denormalized network value on x at (i, j, c) plus the crop offsets. Every value lies in [0, 1]. |
| `Cartoonizer.Predict` | src/components/Cartoonizer.tsx:49-61 | The full pipeline returns shape `[SIZE, SIZE - amount, 3]` or `[SIZE - amount, SIZE, 3]`, where amount is `CropAmount(d0, d1, SIZE)`. Element (i, j, c) is the denormalized network value, on the normalized image, at (i, j, c) plus the crop offsets. So the result is the network output with the first `amount` rows or columns of the padded axis removed. Every value lies in [0, 1]. |
| `Cartoonizer.SquareImageUncropped` | src/components/Cartoonizer.tsx:59-61 | For a square image of any side k > 0, `predict` crops nothing: the result has shape `[SIZE, SIZE, 3]`, and value (i, j, c) is the denormalized network value at (i, j, c) itself. |
| `Cartoonizer.WorkedInstances` | src/components/Cartoonizer.tsx:59-70 | 300x300: no padding and crop 0. 400x300: pad axis 1 by 100 and crop 75 columns. 1000x1: crop 300. At size 256, 300x400: crop 64 rows. |
| `Tensors.Pad` | src/components/Cartoonizer.tsx:71 | Each axis grows by its before and after amounts. The original sits at the before offsets and every other element is the fill value. |
| `Tensors.PadNothing` | src/components/Cartoonizer.tsx:71 | A pad list of zeros leaves the tensor unchanged. |
| `Tensors.Slice` | src/components/Cartoonizer.tsx:61 | Each axis keeps what lies after its begin offset. Element (i, j, c) is the input element at (i, j, c) plus the offsets. |
| `Tensors.SliceOfMap` | src/components/Cartoonizer.tsx:58-61 | Slicing an element-wise map gives, at (i, j, c), the mapped input element at (i, j, c) plus the offsets. |
| `Tensors.SliceUndoesPad` | src/components/Cartoonizer.tsx:61-71 | When nothing is padded after any axis, slicing from the before amounts gives back the padded tensor. |
| `Tensors.Resize` | src/components/Cartoonizer.tsx:72 | The resized tensor has shape `[rows, cols, channels]`, and value (i, j, c) is what the interpolation `sample` gives there. |
| `Tensors.Batch` | src/components/Cartoonizer.tsx:72 | Reshaping a `[a, b, c]` tensor to `[1, a, b, c]` gives a batch whose single element is that tensor. |
| `Tensors.SqueezedShapeKeeps` | src/components/Cartoonizer.tsx:58 | Squeezing a shape with no axis of length 1 leaves it unchanged. |
| `Tensors.Squeeze` | src/components/Cartoonizer.tsx:58 | Squeezing `[1, a, b, c]` with a, b, c != 1 drops only the batch axis. |
| `Tensors.Map3` | src/components/Cartoonizer.tsx:58 | Element-wise arithmetic keeps the shape and applies the function to every element. |
| `Tensors.Map4` | src/components/Cartoonizer.tsx:75 | Element-wise arithmetic on a batch keeps the shape and maps each tensor of the batch. |

## Left out

- Floating point: values are `real` and arithmetic is exact. The crop amount
  uses exact integer round-half-up. At an exact `.5` the source's float
  division can land one ulp either side, and that rounding is not captured.
- `Tensors.Resize`: bilinear interpolation is not modelled. Each output value
  is what the caller-supplied `sample` function gives at its position, and
  nothing is stated about the interpolation beyond that.
- `Cartoonizer.Infer`: the CartoonGAN network is the caller-supplied `net`.
  Its fixed `[1, SIZE, SIZE, 3]` output shape is an assumption about the
  network, not something the source checks.
- `Tensors.Squeeze`: only a leading batch axis of length 1 with no other
  unit axis is modelled. In the pipeline the other axes are SIZE = 300 and 3.
- `Cartoonizer.Predict`: requires max(d0, d1) > 0. For a 0 x 0 image the
  source divides 0 by 0 and slices by `NaN`.
- `Cartoonizer.Normalize`: requires 3 channels. `fromPixels` always yields
  3, and the reshape to `[1, SIZE, SIZE, 3]` needs it.
- `tf.browser.fromPixels` is not modelled: the image arrives as a tensor of
  given shape.
- Timing and logging (`performance.now`, `console.log`) are not modelled.
  They have no effect on the result.
- Model loading (`tf.setBackend`, `tf.loadGraphModel`) is asynchronous I/O
  and is not modelled. The warm-up is commented out in the source, so no
  warm-up behaviour exists.
- `onChange` and `onCartoonize` are not modelled: they are file reading
  through `FileReader`, a MIME check, and `Image.onload` callbacks, all DOM
  and async I/O.
- `draw` and `scaleCanvasToImage` are not modelled. They render to and
  resize a canvas through the DOM. `scaleby` is computed and never used.
- React state, the JSX and `src/App.tsx` are not modelled: they are UI
  rendering with no pipeline logic.
