# Augmentation transforms for instance segmentation, in Dafny

This project models the annotation logic of the augmentation module
`src/transforms.py`, a set of transforms for training examples that bundle an
image `[C, H, W]` with per-instance masks `[I, H, W]`, boxes `[I, 4]`
(`[x1, y1, x2, y2]`) and labels `[I]`. The model covers these parts:

- **Box extraction** (`get_box_from_mask`). `BoxExtraction.BoxFromMask` follows the
  source: it lists the non-zero coordinates (`torch.nonzero`), then takes the
  minimum and maximum column and row. `BoxExtraction.ScanBox` is an O(pixels) scan
  proved to return the same box. Both are tied to `IsTightBox`: the sentinel
  `[0,0,0,0]` for a mask with no non-zero cell; otherwise a box that holds every
  non-zero cell and whose four bounds are each reached by one. The tight box is
  unique.
- **Reconciliation** (`correct_boxes` / `_correct_box`). `Reconciliation.CorrectBox`
  recomputes a box for every mask. It keeps instance i exactly when
  `max(masks[i]) > 0`. It filters masks, boxes and labels with that one keep-mask,
  preserving their order. The image passes through unchanged and the incoming
  boxes are never read.
- **Transforms** (module `Transforms`). Each transform class holds its
  configuration. Its `Apply` method updates a `Sample` object in place, as the
  Python `__call__` updates `data_dict`. `CorrectBoxes.Apply` is the exception:
  like the source, it returns a fresh sample and leaves its argument alone.
- **Flips.** `random_v_flip` reverses the height axis and `random_h_flip` the
  width axis, on the image and on every mask together. The model proves that each
  flip is an involution and keeps the shape. It also proves that reconciling after
  a flip keeps the same instances and labels, with the boxes mirrored.
- **Random draws.** These are arguments. The gate is `draw < rate`, where `draw`
  stands for the standard-normal `torch.randn(1)` of the source.
  `torch.randint(low, high)` is `RandInt`, an integer in `[low, high)`; every
  value in that range is reachable.

Where the code behaves differently from what its names suggest, the model follows the code:

- **The gate.** `rate` reads as a probability, but the code compares a
  standard-normal draw with it. So rate 0 still applies a transform on every
  negative draw, and rate 1 skips it on draws of 1 or more. No rate fixes the
  gate either way (`Draws.NoRateFixesGate`). A vertical flip built with rate 0
  still flips an image (`Transforms.ZeroRateStillFlips`).
- **Box extraction versus the keep test.** Box extraction counts cells `!= 0`,
  but the keep test is `max > 0`. A mask whose non-zero cells are all negative
  therefore has a box and is still dropped.
- **Empty input.** `_correct_box` raises when given no instances at all
  (`torch.cat` of an empty list), and when a mask has no cell (`max()` of an
  empty tensor). These are preconditions of `CorrectBox`. A result with no
  instances left is fine.
- **Configuration is not validated.** Nothing checks kernel sizes or ranges when
  a transform is built. An empty kernel list or an empty resize range raises only
  when the gate applies, which is a precondition of `Apply`.
- **Argument errors of torchvision.** The blur refuses an even or non-positive
  kernel. Brightness and contrast accept only 1- or 3-channel images, so they
  raise after `stack_image` has tripled a 3-channel image. Each torchvision call
  is therefore a partial function argument, and `Apply` requires it to be
  defined on its arguments whenever the gate applies.
- **Keys.** `correct_boxes` returns a dict with exactly the keys image, masks,
  boxes and labels. Any other key of the input is dropped. `Sample` has exactly
  these four fields.
- **Channels.** `stack_image` triples any number of channels, not only one.
- **Draw order.** `adjust_brightness` draws its factor on every call, before the
  gate. `adjust_contrast` draws it only when the gate applies.

## Model

| member | source | states |
|---|---|---|
| Grids.Min | src/transforms.py:229 | `torch.min` of a non-empty sequence: an element of it, at most every element |
| Grids.Max | src/transforms.py:229 | `torch.max` of a non-empty sequence: an element of it, at least every element |
| Grids.Reverse | src/transforms.py:25-27 | the reversal a flip applies to one axis: same length, element i is element n-1-i |
| Grids.VFlip | src/transforms.py:26-27 | torchvision `vflip` on one slice: same number of rows, row r is row h-1-r of the input |
| Grids.HFlip | src/transforms.py:52-53 | torchvision `hflip` on one slice: same rows and row lengths, cell (r, c) is cell (r, w-1-c) of the input |
| Grids.VFlipStack | src/transforms.py:26-27 | `vflip` of a 3-D tensor: `VFlip` applied to every slice; it has no contract of its own, its shape, cell mapping and involution are in `Grids.VFlipStackShape` and `Grids.VFlipStackInvolution` |
| Grids.HFlipStack | src/transforms.py:52-53 | `hflip` of a 3-D tensor: `HFlip` applied to every slice; it has no contract of its own, its properties are in `Grids.HFlipStackShape` and `Grids.HFlipStackInvolution` |
| Grids.VFlipStackShape | src/transforms.py:25-27 | vflip keeps the shape [n, h, w] and moves element [k][r][c] to [k][h-1-r][c], the same for image and masks, so they stay co-registered |
| Grids.HFlipStackShape | src/transforms.py:51-53 | hflip keeps the shape [n, h, w] and moves element [k][r][c] to [k][r][w-1-c] |
| Grids.VFlipStackInvolution | src/transforms.py:25-27 | the vertical flip applied twice gives back the tensor |
| Grids.HFlipStackInvolution | src/transforms.py:51-53 | the horizontal flip applied twice gives back the tensor |
| BoxExtraction.NonZero | src/transforms.py:220 | `torch.nonzero`: lists exactly the coordinates of the non-zero cells, each once, strictly increasing in row-major order; it is empty exactly when the mask has no non-zero cell |
| BoxExtraction.BoxFromMask | src/transforms.py:214-231 | `get_box_from_mask`: `NonZero`, then min and max of the columns and rows, or [0,0,0,0] when there is none; it has no contract of its own, its meaning is in `BoxExtraction.BoxFromMaskIsTight` and `BoxExtraction.TightBoxUnique` |
| BoxExtraction.Cols | src/transforms.py:227 | `ind[:, 1]`: the column of every listed coordinate, in order; no contract of its own, used through `BoxExtraction.BoxFromMaskIsTight` |
| BoxExtraction.Rows | src/transforms.py:228 | `ind[:, 0]`: the row of every listed coordinate, in order; no contract of its own, used through `BoxExtraction.BoxFromMaskIsTight` |
| BoxExtraction.BoxFromMaskIsTight | src/transforms.py:214-231 | the box is the sentinel [0,0,0,0] for a mask with no non-zero cell; otherwise every non-zero cell (r, c) has x1 <= c <= x2 and y1 <= r <= y2, and each bound is reached by a non-zero cell |
| BoxExtraction.TightBoxUnique | src/transforms.py:226-229 | a mask has only one tight box, so the min/max box is determined by the set of non-zero cells |
| BoxExtraction.ScanBox | src/transforms.py:214-231 | a single row-major pass over the pixels returns exactly the box of `get_box_from_mask` |
| BoxExtraction.EmptyMaskBox | src/transforms.py:220-223 | an all-zero mask gives [0,0,0,0] |
| BoxExtraction.BoxInFrame | src/transforms.py:226-229 | for a non-empty h x w mask, 0 <= x1 <= x2 < w and 0 <= y1 <= y2 < h (maxima inclusive) |
| BoxExtraction.BoxContains | src/transforms.py:226-229 | each non-zero cell lies inside the box |
| BoxExtraction.SentinelIsOriginPixelBox | src/transforms.py:222-229 | the sentinel is also the box of a mask whose only non-zero cell is (0, 0), so the box alone does not reveal an empty instance |
| BoxExtraction.DiagonalBox | tests/transforms_test.py:5-10 | an n x n identity mask with both corner cells cleared (n >= 3) has box [1, 1, n-2, n-2] |
| BoxExtraction.Eye100Box | tests/transforms_test.py:5-10 | the repository's test mask, eye(100) with its corners cleared, has box [1, 1, 98, 98] |
| BoxExtraction.HFlipTight | src/transforms.py:51-53 | mirroring a tight box across the width axis gives a tight box of the horizontally flipped mask |
| BoxExtraction.VFlipTight | src/transforms.py:25-27 | mirroring a tight box across the height axis gives a tight box of the vertically flipped mask |
| BoxExtraction.HFlipBox | src/transforms.py:214-231 | the box of a horizontally flipped non-empty h x w mask is [w-1-x2, y1, w-1-x1, y2] |
| BoxExtraction.VFlipBox | src/transforms.py:214-231 | the box of a vertically flipped non-empty h x w mask is [x1, h-1-y2, x2, h-1-y1] |
| Reconciliation.GridMax | src/transforms.py:238 | `m.max()`: at least every cell of the mask and equal to one of them |
| Reconciliation.KeepIff | src/transforms.py:238 | `max > 0` holds exactly when the mask has a positive cell; such a mask has a non-zero cell |
| Reconciliation.KeepMask | src/transforms.py:238 | the keep-mask `[m.max().item() > 0 for m in masks]`; its contract gives only the length, one flag per instance; what the flags mean is in `Reconciliation.KeepMaskPositive` |
| Reconciliation.KeepMaskPositive | src/transforms.py:238 | instance i is flagged for keeping exactly when its mask has a positive cell |
| Reconciliation.MaskBoxes | src/transforms.py:237 | `[get_box_from_mask(m) for m in masks]`; its contract gives only the length, one box per instance; what the boxes are is in `Reconciliation.MaskBoxesTight` |
| Reconciliation.MaskBoxesTight | src/transforms.py:237 | each recomputed box is the tight box of its instance's mask |
| Reconciliation.Select | src/transforms.py:240 | boolean indexing `xs[ind]` from the start: no longer than xs, element j is xs at the j-th true position of the keep-mask |
| Reconciliation.KeptFrom | src/transforms.py:240 | the positions where the keep-mask is true, strictly increasing, all of them and no others |
| Reconciliation.SelectFrom | src/transforms.py:240 | boolean indexing `xs[ind]`: one element per kept position, in order, element j being xs at the j-th kept position |
| Reconciliation.CorrectBox | src/transforms.py:235-240 | returns the dict as a `SampleRecord` with exactly the four keys; image unchanged; masks, boxes and labels have equal length, at most the input instance count; every output mask has a positive maximum and its box is the box of that mask |
| Reconciliation.CorrectBoxSelects | src/transforms.py:237-240 | the outputs are one order-preserving subsequence of the instances: position j holds the mask, the recomputed box and the label of the same input instance, and instance i is kept exactly when max(masks[i]) > 0 |
| Reconciliation.HFlipGridMax | src/transforms.py:238 | a horizontal flip does not change a mask's maximum, so it does not change the keep decision |
| Reconciliation.VFlipGridMax | src/transforms.py:238 | a vertical flip does not change a mask's maximum |
| Reconciliation.HFlipKeepMask | src/transforms.py:238 | flipping every mask horizontally leaves the keep-mask unchanged |
| Reconciliation.VFlipKeepMask | src/transforms.py:238 | flipping every mask vertically leaves the keep-mask unchanged |
| Reconciliation.SelectMapped | src/transforms.py:240 | boolean indexing commutes with an element-wise mapping of the kept elements |
| Reconciliation.SelectHFlip | src/transforms.py:240 | filtering the horizontally flipped masks equals flipping the filtered masks |
| Reconciliation.SelectVFlip | src/transforms.py:240 | filtering the vertically flipped masks equals flipping the filtered masks |
| Reconciliation.CorrectBoxAfterHFlip | src/transforms.py:235-240 | reconciling after a horizontal flip keeps the same instances and labels, with flipped masks and mirrored boxes [w-1-x2, y1, w-1-x1, y2] |
| Reconciliation.CorrectBoxAfterVFlip | src/transforms.py:235-240 | reconciling after a vertical flip keeps the same instances and labels, with flipped masks and mirrored boxes [x1, h-1-y2, x2, h-1-y1] |
| Reconciliation.HFlipKeptBox | src/transforms.py:237 | the recomputed box of a kept instance after a horizontal flip is its old box mirrored |
| Reconciliation.VFlipKeptBox | src/transforms.py:237 | the recomputed box of a kept instance after a vertical flip is its old box mirrored |
| Draws.Applies | src/transforms.py:25 | the gate `torch.randn(1) < self.rate` of every probabilistic transform (also lines 51, 76, 100, 117 and 132); it is a predicate without a contract, and its properties are in `Draws.NoRateFixesGate` and `Draws.GateMonotone` |
| Draws.NoRateFixesGate | src/transforms.py:25 | for every rate, some draws apply the transform and others skip it: rate 0 applies it on every negative draw, rate 1 skips it on every draw of 1 or more |
| Draws.GateMonotone | src/transforms.py:25 | raising the rate never turns an applied transform off |
| Transforms.ZeroRateStillFlips | src/transforms.py:6-29 | `random_v_flip(rate=0)` on a negative draw flips the image [[1], [2]] to [[2], [1]]: rate 0 does not disable the transform |
| Draws.RandInt | src/transforms.py:101 | `torch.randint(low, high)` lies in [low, high), upper end excluded |
| Draws.RandIntReaches | src/transforms.py:101 | every integer of [low, high) can be drawn |
| Draws.BlurKernel | src/transforms.py:77 | the chosen blur kernel is an element of `kernel_targets` |
| Draws.BlurKernelReaches | src/transforms.py:77 | every configured kernel can be chosen |
| Transforms.Sample.constructor | src/transforms.py:15-20 | `data_dict`: a sample holding exactly the image, masks, boxes and labels it is given |
| Transforms.RandomVFlip.constructor | src/transforms.py:7-9 | stores rate (0.5 by default); the torchvision `vflip` it scripts is `Grids.VFlipStack` |
| Transforms.RandomHFlip.constructor | src/transforms.py:33-35 | stores rate (0.5 by default); the torchvision `hflip` it scripts is `Grids.HFlipStack` |
| Transforms.GaussianBlur.constructor | src/transforms.py:59-61 | stores kernel_targets ([3, 5, 7] by default) and rate (0.5 by default), unchecked |
| Transforms.RandomResize.constructor | src/transforms.py:83-85 | stores rate (0.5 by default) and the scale range as scaleLow and scaleHigh ((300, 1440) by default), unchecked |
| Transforms.AdjustBrightness.constructor | src/transforms.py:109-112 | stores rate (0.5 by default) and the factor range ((0.3, 1.7) by default), unchecked |
| Transforms.AdjustContrast.constructor | src/transforms.py:125-128 | stores rate (0.5 by default) and the factor range ((0.3, 1.7) by default), unchecked; the unused scripted brightness function is not kept |
| Transforms.StackImage.constructor | src/transforms.py:206-207 | stores nothing; it has no contract |
| Transforms.CorrectBoxes.constructor | src/transforms.py:184-185 | stores nothing; it has no contract |
| Transforms.RandomVFlip.Apply | src/transforms.py:25-29 | when the gate applies, image and masks are both flipped along the height axis, otherwise both unchanged; boxes and labels never change |
| Transforms.RandomHFlip.Apply | src/transforms.py:51-55 | when the gate applies, image and masks are both flipped along the width axis, otherwise both unchanged; boxes and labels never change |
| Transforms.VFlipTwice | src/transforms.py:25-29 | two applied vertical flips restore the whole sample, which ends co-registered as it started |
| Transforms.HFlipTwice | src/transforms.py:51-55 | two applied horizontal flips restore the whole sample, which ends co-registered as it started |
| Transforms.GaussianBlur.Apply | src/transforms.py:76-79 | when the gate applies, the image is blurred with a kernel taken from `kernel_targets`; masks, boxes and labels never change; when the gate applies, the list must be non-empty and the blur defined on that kernel |
| Transforms.RandomResize.Apply | src/transforms.py:100-105 | when the gate applies, image and masks are resized to one size drawn from [scale[0], scale[1]); boxes and labels never change |
| Transforms.AdjustBrightness.Apply | src/transforms.py:114-120 | only the image changes, and only when the gate applies; the factor lies in the configured range, and the adjustment must be defined on the image whenever the gate applies |
| Transforms.AdjustContrast.Apply | src/transforms.py:130-136 | only the image changes, and only when the gate applies; the factor lies in the configured range, and the adjustment must be defined on the image whenever the gate applies |
| Transforms.StackImage.Apply | src/transforms.py:209-211 | the image becomes three copies of itself along the channel axis; masks, boxes and labels never change |
| Transforms.StackedThirds | src/transforms.py:210 | the stacked image has three times the channels, each third equals the original, and the spatial size is unchanged |
| Transforms.CorrectBoxes.Apply | src/transforms.py:187-202 | returns a fresh sample equal to `_correct_box` of the image, masks and labels; the sample passed in is not modified |

## Left out

- Pixel arithmetic is not modelled. This covers Gaussian blur, resize interpolation, brightness and contrast. The result of each is an argument function of `Apply`, taken as given, because it is floating-point image processing done by torchvision.
- Transforms.RandomResize.Apply: does not state the size or aspect ratio of the resized tensors, because torchvision computes them. It states only that image and masks get the same target size.
- Transforms.AdjustBrightness.Apply: the factor is an argument required to lie in the configured range. The uniform distribution of the draw is not modelled.
- Transforms.AdjustContrast.Apply: the factor is an argument required to lie in the configured range when the gate applies. The uniform distribution of the draw is not modelled.
- `random_affine` is not modelled. Its call reads `self.device`, which is never set, so it raises whenever its gate applies. Its rotation and shear are floating-point pixel work.
- `to_tensor` is not modelled. torchvision's `to_tensor` converts a PIL image or array into a C x H x W float tensor, scaling uint8 values to [0, 1]; the model starts from that tensor.
- `to_cuda` is not modelled. It moves every tensor to the GPU without changing values.
- `torch.jit.script` compilation and the random number generator are left out. Each draw is an argument: a real for the standard-normal gate, a natural number for each `randint`, a real for each uniform factor.
- Box coordinates are stored as exact integers. In the source, a non-empty box is a float32 tensor, which holds these coordinates exactly for any realistic image size.
- Pixel values are exact reals. Mask values are integers.
- All tensors are taken to be on one device. In the source the empty-mask sentinel is created on the CPU, while a non-empty box is moved to the mask's device. So with masks on a GPU, an all-zero mask next to a non-zero one makes the `torch.cat` of boxes in `_correct_box` mix devices and raise. `Reconciliation.CorrectBox` returns a result in that case.
- Composing transforms into a pipeline is not modelled. That composition is done outside `src/transforms.py`.
- The keypoint field and `src/gui.py` (the viewer) are not part of this model.
