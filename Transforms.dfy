/** The transforms of the augmentation pipeline. A sample is the mutable record
    (`data_dict`) that every transform receives; each transform object holds its
    configuration, fixed at construction, and its `Apply` updates the sample in
    place, except `CorrectBoxes`, which builds a fresh one. Random draws are
    arguments; the pixel arithmetic of torchvision (blur, resize, brightness,
    contrast) is an argument function whose result is taken as given. */
module Transforms {
  import opened Grids
  import opened BoxExtraction
  import opened Reconciliation
  import opened Draws

  /** One training example: image [C, H, W], masks [I, H, W], boxes [I] and labels [I]. */
  class Sample {
    var image: Stack<real>
    var masks: Stack<int>
    var boxes: seq<Box>
    var labels: seq<int>

    constructor (image: Stack<real>, masks: Stack<int>, boxes: seq<Box>, labels: seq<int>)
      ensures this.image == image && this.masks == masks
      ensures this.boxes == boxes && this.labels == labels
    {
      this.image := image;
      this.masks := masks;
      this.boxes := boxes;
      this.labels := labels;
    }

    /** The current contents as a value. */
    function Record(): SampleRecord
      reads this
    {
      SampleRecord(image, masks, boxes, labels)
    }

    /** Image and masks share the spatial size h x w. */
    predicate CoRegistered(h: nat, w: nat)
      reads this
    {
      HasShape(image, h, w) && HasShape(masks, h, w)
    }
  }

  /** `random_v_flip`. */
  class RandomVFlip {
    const rate: real

    constructor (rate: real := DefaultRate)
      ensures this.rate == rate
    {
      this.rate := rate;
    }

    /** Flips image and masks together along the height axis when the gate
        applies; boxes and labels are never touched. */
    method Apply(s: Sample, draw: real)
      modifies s
      ensures Applies(draw, rate) ==> s.image == VFlipStack(old(s.image)) && s.masks == VFlipStack(old(s.masks))
      ensures !Applies(draw, rate) ==> s.image == old(s.image) && s.masks == old(s.masks)
      ensures s.boxes == old(s.boxes) && s.labels == old(s.labels)
    {
      if Applies(draw, rate) {
        s.image := VFlipStack(s.image);
        s.masks := VFlipStack(s.masks);
      }
    }
  }

  /** `random_h_flip`. */
  class RandomHFlip {
    const rate: real

    constructor (rate: real := DefaultRate)
      ensures this.rate == rate
    {
      this.rate := rate;
    }

    /** Flips image and masks together along the width axis when the gate
        applies; boxes and labels are never touched. */
    method Apply(s: Sample, draw: real)
      modifies s
      ensures Applies(draw, rate) ==> s.image == HFlipStack(old(s.image)) && s.masks == HFlipStack(old(s.masks))
      ensures !Applies(draw, rate) ==> s.image == old(s.image) && s.masks == old(s.masks)
      ensures s.boxes == old(s.boxes) && s.labels == old(s.labels)
    {
      if Applies(draw, rate) {
        s.image := HFlipStack(s.image);
        s.masks := HFlipStack(s.masks);
      }
    }
  }

  /** Two applications of the vertical flip whose gates both apply give back the
      image and masks, which end co-registered as they started. */
  method VFlipTwice(t: RandomVFlip, s: Sample, draw1: real, draw2: real, ghost h: nat, ghost w: nat)
    requires Applies(draw1, t.rate) && Applies(draw2, t.rate)
    requires s.CoRegistered(h, w)
    modifies s
    ensures s.CoRegistered(h, w)
    ensures s.Record() == old(s.Record())
  {
    VFlipStackShape(s.image, h, w);
    VFlipStackShape(s.masks, h, w);
    t.Apply(s, draw1);
    VFlipStackInvolution(old(s.image));
    VFlipStackInvolution(old(s.masks));
    t.Apply(s, draw2);
  }

  /** Two applications of the horizontal flip whose gates both apply give back
      the image and masks. */
  method HFlipTwice(t: RandomHFlip, s: Sample, draw1: real, draw2: real, ghost h: nat, ghost w: nat)
    requires Applies(draw1, t.rate) && Applies(draw2, t.rate)
    requires s.CoRegistered(h, w)
    modifies s
    ensures s.CoRegistered(h, w)
    ensures s.Record() == old(s.Record())
  {
    HFlipStackShape(s.image, h, w);
    HFlipStackShape(s.masks, h, w);
    t.Apply(s, draw1);
    HFlipStackInvolution(old(s.image));
    HFlipStackInvolution(old(s.masks));
    t.Apply(s, draw2);
  }

  /** A vertical flip configured with rate 0 is not switched off: on a negative
      draw it flips a two-row image. */
  method ZeroRateStillFlips() returns (image: Stack<real>)
    ensures image == [[[2.0], [1.0]]]
  {
    var t := new RandomVFlip(0.0);
    var s := new Sample([[[1.0], [2.0]]], [], [], []);
    t.Apply(s, -1.0);
    var flipped := VFlip([[1.0], [2.0]]);
    assert flipped == [[2.0], [1.0]];
    assert s.image == VFlipStack([[[1.0], [2.0]]]);
    assert s.image[0] == flipped;
    image := s.image;
  }

  /** `gaussian_blur`; `blur` stands for torchvision's blur of an image with a
      given kernel size, defined only where torchvision accepts its arguments
      (an odd, positive kernel). */
  class GaussianBlur {
    const kernelTargets: seq<int>
    const rate: real

    constructor (kernelTargets: seq<int> := DefaultKernelTargets, rate: real := DefaultRate)
      ensures this.kernelTargets == kernelTargets && this.rate == rate
    {
      this.kernelTargets := kernelTargets;
      this.rate := rate;
    }

    /** When the gate applies, blurs the image with a kernel size drawn from
        the configured targets (the draw raises on an empty list, the blur on a
        kernel it refuses); masks, boxes and labels are never touched. */
    method Apply(s: Sample, draw: real, kernelDraw: nat, blur: (Stack<real>, int) --> Stack<real>)
      requires Applies(draw, rate) ==>
                 |kernelTargets| > 0 && blur.requires(s.image, BlurKernel(kernelTargets, kernelDraw))
      modifies s
      ensures Applies(draw, rate) ==>
                BlurKernel(kernelTargets, kernelDraw) in kernelTargets &&
                s.image == blur(old(s.image), BlurKernel(kernelTargets, kernelDraw))
      ensures !Applies(draw, rate) ==> s.image == old(s.image)
      ensures s.masks == old(s.masks) && s.boxes == old(s.boxes) && s.labels == old(s.labels)
    {
      if Applies(draw, rate) {
        var kern := BlurKernel(kernelTargets, kernelDraw);
        s.image := blur(s.image, kern);
      }
    }
  }

  /** `random_resize`; `resizeImage` and `resizeMasks` stand for torchvision's
      resize of a tensor so that its smaller edge becomes the given size, defined
      only where torchvision accepts their arguments. */
  class RandomResize {
    const rate: real
    const scaleLow: int
    const scaleHigh: int

    constructor (rate: real := DefaultRate, scaleLow: int := DefaultScaleLow, scaleHigh: int := DefaultScaleHigh)
      ensures this.rate == rate && this.scaleLow == scaleLow && this.scaleHigh == scaleHigh
    {
      this.rate := rate;
      this.scaleLow := scaleLow;
      this.scaleHigh := scaleHigh;
    }

    /** When the gate applies, resizes image and masks to one and the same size
        drawn from [scaleLow, scaleHigh) (the draw raises on an empty range);
        boxes and labels are never touched, so they are stale afterwards. */
    method Apply(s: Sample, draw: real, sizeDraw: nat,
                 resizeImage: (Stack<real>, int) --> Stack<real>, resizeMasks: (Stack<int>, int) --> Stack<int>)
      requires Applies(draw, rate) ==>
                 scaleLow < scaleHigh &&
                 resizeImage.requires(s.image, RandInt(scaleLow, scaleHigh, sizeDraw)) &&
                 resizeMasks.requires(s.masks, RandInt(scaleLow, scaleHigh, sizeDraw))
      modifies s
      ensures Applies(draw, rate) ==>
                var size := RandInt(scaleLow, scaleHigh, sizeDraw);
                scaleLow <= size < scaleHigh &&
                s.image == resizeImage(old(s.image), size) && s.masks == resizeMasks(old(s.masks), size)
      ensures !Applies(draw, rate) ==> s.image == old(s.image) && s.masks == old(s.masks)
      ensures s.boxes == old(s.boxes) && s.labels == old(s.labels)
    {
      if Applies(draw, rate) {
        var size := RandInt(scaleLow, scaleHigh, sizeDraw);
        s.image := resizeImage(s.image, size);
        s.masks := resizeMasks(s.masks, size);
      }
    }
  }

  /** `adjust_brightness`; `adjust` stands for torchvision's brightness change by
      a factor, defined only where torchvision accepts its arguments (1 or 3
      channels). The factor is drawn before the gate, on every call. */
  class AdjustBrightness {
    const rate: real
    const rangeLow: real
    const rangeHigh: real

    constructor (rate: real := DefaultRate, rangeLow: real := DefaultFactorLow, rangeHigh: real := DefaultFactorHigh)
      ensures this.rate == rate && this.rangeLow == rangeLow && this.rangeHigh == rangeHigh
    {
      this.rate := rate;
      this.rangeLow := rangeLow;
      this.rangeHigh := rangeHigh;
    }

    /** Changes only the image, and only when the gate applies; the factor is
        a draw from the configured range. */
    method Apply(s: Sample, factor: real, draw: real, adjust: (Stack<real>, real) --> Stack<real>)
      requires rangeLow <= factor <= rangeHigh
      requires Applies(draw, rate) ==> adjust.requires(s.image, factor)
      modifies s
      ensures s.image == if Applies(draw, rate) then adjust(old(s.image), factor) else old(s.image)
      ensures s.masks == old(s.masks) && s.boxes == old(s.boxes) && s.labels == old(s.labels)
    {
      if Applies(draw, rate) {
        s.image := adjust(s.image, factor);
      }
    }
  }

  /** `adjust_contrast`; `adjust` stands for torchvision's contrast change by a
      factor, defined only where torchvision accepts its arguments (1 or 3
      channels). The factor is drawn after the gate, only when it applies. */
  class AdjustContrast {
    const rate: real
    const rangeLow: real
    const rangeHigh: real

    constructor (rate: real := DefaultRate, rangeLow: real := DefaultFactorLow, rangeHigh: real := DefaultFactorHigh)
      ensures this.rate == rate && this.rangeLow == rangeLow && this.rangeHigh == rangeHigh
    {
      this.rate := rate;
      this.rangeLow := rangeLow;
      this.rangeHigh := rangeHigh;
    }

    /** Changes only the image, and only when the gate applies; the factor is
        a draw from the configured range. */
    method Apply(s: Sample, draw: real, factor: real, adjust: (Stack<real>, real) --> Stack<real>)
      requires Applies(draw, rate) ==> rangeLow <= factor <= rangeHigh && adjust.requires(s.image, factor)
      modifies s
      ensures s.image == if Applies(draw, rate) then adjust(old(s.image), factor) else old(s.image)
      ensures s.masks == old(s.masks) && s.boxes == old(s.boxes) && s.labels == old(s.labels)
    {
      if Applies(draw, rate) {
        s.image := adjust(s.image, factor);
      }
    }
  }

  /** `stack_image`. */
  class StackImage {
    constructor ()
    {
    }

    /** Concatenates the image with itself three times along the channel axis;
        masks, boxes and labels are never touched. */
    method Apply(s: Sample)
      modifies s
      ensures s.image == old(s.image) + old(s.image) + old(s.image)
      ensures s.masks == old(s.masks) && s.boxes == old(s.boxes) && s.labels == old(s.labels)
    {
      s.image := s.image + s.image + s.image;
    }
  }

  /** The stacked image has three times the channels, each third equal to the
      original image, and the same spatial size, so it stays co-registered with
      the masks. */
  lemma StackedThirds(image: Stack<real>, h: nat, w: nat)
    requires HasShape(image, h, w)
    ensures var stacked := image + image + image;
            |stacked| == 3 * |image| && HasShape(stacked, h, w) &&
            stacked[..|image|] == image && stacked[|image|..2 * |image|] == image &&
            stacked[2 * |image|..] == image
  {
    var n := |image|;
    var stacked := image + image + image;
    assert stacked[..n] == image;
    assert stacked[n..2 * n] == image;
    assert stacked[2 * n..] == image;
  }

  /** `correct_boxes`. */
  class CorrectBoxes {
    constructor ()
    {
    }

    /** Returns a fresh sample: the image as it is, and masks, recomputed boxes
        and labels of the instances whose mask has a positive maximum. The
        sample passed in is left as it was. */
    method Apply(s: Sample) returns (out: Sample)
      requires |s.masks| > 0
      requires forall i :: 0 <= i < |s.masks| ==> HasCells(s.masks[i])
      requires |s.labels| == |s.masks|
      ensures fresh(out)
      ensures out.Record() == CorrectBox(s.image, s.masks, s.labels)
    {
      var r := CorrectBox(s.image, s.masks, s.labels);
      out := new Sample(r.image, r.masks, r.boxes, r.labels);
    }
  }
}
