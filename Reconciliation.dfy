/** Geometric reconciliation (`_correct_box`, reached through `correct_boxes`):
    recompute one box per instance mask, keep the instances whose mask has a
    positive maximum, and filter masks, boxes and labels with that one keep-mask. */
module Reconciliation {
  import opened Grids
  import opened BoxExtraction

  /** The four fields of a sample: image [C, H, W], masks [I, H, W], boxes [I]
      and labels [I]. */
  datatype SampleRecord = SampleRecord(image: Stack<real>, masks: Stack<int>, boxes: seq<Box>, labels: seq<int>)

  /** `m.max()` of one mask. */
  function GridMax(g: Grid<int>): (mx: int)
    requires HasCells(g)
    ensures forall r, c :: IsCell(g, r, c) ==> g[r][c] <= mx
    ensures exists r, c :: IsCell(g, r, c) && g[r][c] == mx
  {
    var rowMax := seq(|g|, r requires 0 <= r < |g| => Max(g[r]));
    var mx := Max(rowMax);
    assert forall r :: 0 <= r < |g| ==> rowMax[r] == Max(g[r]);
    RowMaxAttained(g, rowMax, mx);
    mx
  }

  lemma RowMaxAttained(g: Grid<int>, rowMax: seq<int>, mx: int)
    requires HasCells(g) && |rowMax| == |g|
    requires forall r :: 0 <= r < |g| ==> rowMax[r] == Max(g[r])
    requires mx in rowMax
    ensures exists r, c :: IsCell(g, r, c) && g[r][c] == mx
  {
    var r :| 0 <= r < |g| && rowMax[r] == mx;
    var c :| 0 <= c < |g[r]| && g[r][c] == mx;
    assert IsCell(g, r, c);
  }

  /** The keep test of one instance, `m.max() > 0`, holds exactly when the mask
      has a positive cell; such a mask has a non-zero cell, so its box is a real one. */
  lemma KeepIff(g: Grid<int>)
    requires HasCells(g)
    ensures GridMax(g) > 0 <==> exists r, c :: IsCell(g, r, c) && g[r][c] > 0
    ensures GridMax(g) > 0 ==> HasNonZero(g)
  {
    if GridMax(g) > 0 {
      var r: int, c: int :| IsCell(g, r, c) && g[r][c] == GridMax(g);
      assert NonZeroAt(g, r, c);
    }
  }

  /** The boolean keep-mask `[m.max().item() > 0 for m in masks]`. */
  function KeepMask(masks: Stack<int>): (keep: seq<bool>)
    requires forall i :: 0 <= i < |masks| ==> HasCells(masks[i])
    ensures |keep| == |masks|
  {
    seq(|masks|, i requires 0 <= i < |masks| => GridMax(masks[i]) > 0)
  }

  /** Instance i is flagged for keeping exactly when its mask has a positive cell. */
  lemma KeepMaskPositive(masks: Stack<int>)
    requires forall i :: 0 <= i < |masks| ==> HasCells(masks[i])
    ensures forall i :: 0 <= i < |masks| ==>
              (KeepMask(masks)[i] <==> exists r, c :: IsCell(masks[i], r, c) && masks[i][r][c] > 0)
  {
    forall i | 0 <= i < |masks| {
      KeepIff(masks[i]);
    }
  }

  /** The positions i, i+1, ... at which `keep` is true, in increasing order. */
  function KeptFrom(keep: seq<bool>, i: nat): (kept: seq<nat>)
    decreases |keep| - i
    ensures forall j :: 0 <= j < |kept| ==> i <= kept[j] < |keep| && keep[kept[j]]
    ensures forall j, j' :: 0 <= j < j' < |kept| ==> kept[j] < kept[j']
    ensures forall t :: i <= t < |keep| && keep[t] ==> t in kept
    ensures |kept| <= |keep| - i || i > |keep|
  {
    if i >= |keep| then []
    else (if keep[i] then [i] else []) + KeptFrom(keep, i + 1)
  }

  /** Boolean indexing `xs[keep]` from position i on. */
  function SelectFrom<T>(xs: seq<T>, keep: seq<bool>, i: nat): (ys: seq<T>)
    requires |xs| == |keep|
    decreases |xs| - i
    ensures |ys| == |KeptFrom(keep, i)|
    ensures forall j :: 0 <= j < |ys| ==> ys[j] == xs[KeptFrom(keep, i)[j]]
  {
    if i >= |xs| then []
    else (if keep[i] then [xs[i]] else []) + SelectFrom(xs, keep, i + 1)
  }

  /** Boolean indexing `xs[keep]`: the elements at the positions where `keep` is
      true, in their original order. */
  function Select<T>(xs: seq<T>, keep: seq<bool>): (ys: seq<T>)
    requires |xs| == |keep|
    ensures |ys| == |KeptFrom(keep, 0)| <= |xs|
    ensures forall j :: 0 <= j < |ys| ==> ys[j] == xs[KeptFrom(keep, 0)[j]]
  {
    SelectFrom(xs, keep, 0)
  }

  /** `[get_box_from_mask(m) for m in masks]`, one box per instance. */
  function MaskBoxes(masks: Stack<int>): (boxes: seq<Box>)
    ensures |boxes| == |masks|
  {
    seq(|masks|, i requires 0 <= i < |masks| => BoxFromMask(masks[i]))
  }

  /** Every recomputed box is the tight box of its instance's mask. */
  lemma MaskBoxesTight(masks: Stack<int>)
    ensures forall i :: 0 <= i < |masks| ==> IsTightBox(masks[i], MaskBoxes(masks)[i])
  {
    forall i | 0 <= i < |masks| {
      BoxFromMaskIsTight(masks[i]);
    }
  }

  /** `_correct_box(image, masks, labels)`: a fresh sample whose boxes are
      recomputed from the masks and from which every instance whose mask has no
      positive cell is removed. The incoming boxes are not read. */
  function CorrectBox(image: Stack<real>, masks: Stack<int>, labels: seq<int>): (out: SampleRecord)
    requires |masks| > 0
    requires forall i :: 0 <= i < |masks| ==> HasCells(masks[i])
    requires |labels| == |masks|
    ensures out.image == image
    ensures |out.masks| == |out.boxes| == |out.labels| <= |masks|
    ensures forall j :: 0 <= j < |out.masks| ==>
              HasCells(out.masks[j]) && GridMax(out.masks[j]) > 0 && out.boxes[j] == BoxFromMask(out.masks[j])
  {
    var keep := KeepMask(masks);
    SampleRecord(image, Select(masks, keep), Select(MaskBoxes(masks), keep), Select(labels, keep))
  }

  /** `kept` lists, in increasing order, exactly the instances whose mask has a
      positive maximum. */
  ghost predicate ListsKept(masks: Stack<int>, kept: seq<nat>)
    requires forall i :: 0 <= i < |masks| ==> HasCells(masks[i])
  {
    (forall j :: 0 <= j < |kept| ==> kept[j] < |masks|) &&
    (forall j, j' :: 0 <= j < j' < |kept| ==> kept[j] < kept[j']) &&
    (forall i :: 0 <= i < |masks| ==> (i in kept <==> GridMax(masks[i]) > 0))
  }

  /** The three filtered fields are the same order-preserving subsequence of the
      instances: output position j holds, for one and the same input instance
      kept[j], its mask, the box recomputed from that mask, and its label; and
      instance i is kept exactly when its mask's maximum is positive. */
  lemma CorrectBoxSelects(image: Stack<real>, masks: Stack<int>, labels: seq<int>)
    requires |masks| > 0
    requires forall i :: 0 <= i < |masks| ==> HasCells(masks[i])
    requires |labels| == |masks|
    ensures var out := CorrectBox(image, masks, labels);
            exists kept: seq<nat> ::
              ListsKept(masks, kept) && |kept| == |out.masks| &&
              (forall j :: 0 <= j < |kept| ==>
                 out.masks[j] == masks[kept[j]] && out.labels[j] == labels[kept[j]] &&
                 out.boxes[j] == BoxFromMask(masks[kept[j]]))
  {
    var out := CorrectBox(image, masks, labels);
    var keep := KeepMask(masks);
    var kept := KeptFrom(keep, 0);
    assert out.masks == Select(masks, keep) && out.labels == Select(labels, keep);
    assert out.boxes == Select(MaskBoxes(masks), keep);
    forall i | 0 <= i < |masks| ensures i in kept <==> GridMax(masks[i]) > 0 {
      assert keep[i] == (GridMax(masks[i]) > 0);
    }
    assert ListsKept(masks, kept);
    forall j | 0 <= j < |kept|
      ensures out.masks[j] == masks[kept[j]] && out.labels[j] == labels[kept[j]]
      ensures out.boxes[j] == BoxFromMask(masks[kept[j]])
    {
      assert out.boxes[j] == MaskBoxes(masks)[kept[j]];
    }
  }

  // ---------------------------------------------------------------------------
  // Flips followed by reconciliation

  /** A horizontal flip moves the cells of a mask but not their values, so the
      maximum, and with it the keep decision, is unchanged. */
  lemma HFlipGridMax(g: Grid<int>, h: nat, w: nat)
    requires IsGrid(g, h, w) && h > 0 && w > 0
    ensures HasCells(HFlip(g)) && GridMax(HFlip(g)) == GridMax(g)
  {
    var f := HFlip(g);
    HFlipAt(g, h, w);
    var r: int, c: int :| IsCell(g, r, c) && g[r][c] == GridMax(g);
    assert IsCell(g, r, c);
    assert f[r][w - 1 - c] == g[r][c];
    assert IsGrid(f, h, w) && HasCells(f);
    var r': int, c': int :| IsCell(f, r', c') && f[r'][c'] == GridMax(f);
    assert IsCell(f, r', c');
    assert 0 <= r' < h && 0 <= c' < w;
    assert g[r'][w - 1 - c'] == f[r'][c'];
  }

  /** A vertical flip keeps the maximum of a mask. */
  lemma VFlipGridMax(g: Grid<int>, h: nat, w: nat)
    requires IsGrid(g, h, w) && h > 0 && w > 0
    ensures HasCells(VFlip(g)) && GridMax(VFlip(g)) == GridMax(g)
  {
    var f := VFlip(g);
    VFlipAt(g, h, w);
    var r: int, c: int :| IsCell(g, r, c) && g[r][c] == GridMax(g);
    assert IsCell(g, r, c);
    assert f[h - 1 - r][c] == g[r][c];
    assert IsGrid(f, h, w) && HasCells(f);
    var r': int, c': int :| IsCell(f, r', c') && f[r'][c'] == GridMax(f);
    assert IsCell(f, r', c');
    assert 0 <= r' < h && 0 <= c' < w;
    assert g[h - 1 - r'][c'] == f[r'][c'];
  }

  /** Flipping every mask along the width axis keeps the keep-mask. */
  lemma HFlipKeepMask(masks: Stack<int>, h: nat, w: nat)
    requires HasShape(masks, h, w) && h > 0 && w > 0
    ensures |HFlipStack(masks)| == |masks|
    ensures forall i :: 0 <= i < |masks| ==> HasCells(masks[i]) && HasCells(HFlipStack(masks)[i])
    ensures KeepMask(HFlipStack(masks)) == KeepMask(masks)
  {
    var flipped := HFlipStack(masks);
    forall i | 0 <= i < |masks| ensures HasCells(masks[i]) && HasCells(flipped[i]) {
      HFlipGridMax(masks[i], h, w);
    }
    forall i | 0 <= i < |masks| ensures KeepMask(flipped)[i] == KeepMask(masks)[i] {
      HFlipGridMax(masks[i], h, w);
    }
  }

  /** Flipping every mask along the height axis keeps the keep-mask. */
  lemma VFlipKeepMask(masks: Stack<int>, h: nat, w: nat)
    requires HasShape(masks, h, w) && h > 0 && w > 0
    ensures |VFlipStack(masks)| == |masks|
    ensures forall i :: 0 <= i < |masks| ==> HasCells(masks[i]) && HasCells(VFlipStack(masks)[i])
    ensures KeepMask(VFlipStack(masks)) == KeepMask(masks)
  {
    var flipped := VFlipStack(masks);
    forall i | 0 <= i < |masks| ensures HasCells(masks[i]) && HasCells(flipped[i]) {
      VFlipGridMax(masks[i], h, w);
    }
    forall i | 0 <= i < |masks| ensures KeepMask(flipped)[i] == KeepMask(masks)[i] {
      VFlipGridMax(masks[i], h, w);
    }
  }

  /** Boolean indexing commutes with mapping: if every kept element of ys is
      the image under f of the element of xs at the same position, the selections
      correspond element by element. */
  lemma SelectMapped<A, B>(xs: seq<A>, ys: seq<B>, keep: seq<bool>, f: A -> B)
    requires |xs| == |ys| == |keep|
    requires forall i :: 0 <= i < |keep| && keep[i] ==> ys[i] == f(xs[i])
    ensures |Select(ys, keep)| == |Select(xs, keep)|
    ensures forall j :: 0 <= j < |Select(ys, keep)| ==> Select(ys, keep)[j] == f(Select(xs, keep)[j])
  {
  }

  /** Boolean indexing commutes with the horizontal flip of every slice. */
  lemma SelectHFlip(masks: Stack<int>, keep: seq<bool>)
    requires |keep| == |masks|
    ensures Select(HFlipStack(masks), keep) == HFlipStack(Select(masks, keep))
  {
    SelectMapped(masks, HFlipStack(masks), keep, g => HFlip(g));
  }

  /** Reconciling after a horizontal flip keeps the same instances with the same
      labels, their flipped masks, and boxes mirrored across the width axis
      (x1' = w-1-x2, x2' = w-1-x1): a flip never invalidates an instance. */
  lemma CorrectBoxAfterHFlip(image: Stack<real>, masks: Stack<int>, labels: seq<int>, h: nat, w: nat)
    requires |masks| > 0 && HasShape(masks, h, w) && h > 0 && w > 0
    requires |labels| == |masks|
    ensures |HFlipStack(masks)| == |masks|
    ensures forall i :: 0 <= i < |masks| ==> HasCells(masks[i]) && HasCells(HFlipStack(masks)[i])
    ensures var before := CorrectBox(image, masks, labels);
            var after := CorrectBox(HFlipStack(image), HFlipStack(masks), labels);
            after.labels == before.labels &&
            after.masks == HFlipStack(before.masks) &&
            |after.boxes| == |before.boxes| &&
            forall j :: 0 <= j < |after.boxes| ==> after.boxes[j] == MirrorX(before.boxes[j], w)
  {
    HFlipKeepMask(masks, h, w);
    var keep := KeepMask(masks);
    SelectHFlip(masks, keep);
    forall i | 0 <= i < |masks| && keep[i]
      ensures MaskBoxes(HFlipStack(masks))[i] == MirrorX(MaskBoxes(masks)[i], w)
    {
      HFlipKeptBox(masks, h, w, i);
    }
    SelectMapped(MaskBoxes(masks), MaskBoxes(HFlipStack(masks)), keep, b => MirrorX(b, w));
    var before := CorrectBox(image, masks, labels);
    var after := CorrectBox(HFlipStack(image), HFlipStack(masks), labels);
    assert before.masks == Select(masks, keep) && before.labels == Select(labels, keep);
    assert before.boxes == Select(MaskBoxes(masks), keep);
    assert after.masks == Select(HFlipStack(masks), keep) && after.labels == Select(labels, keep);
    assert after.boxes == Select(MaskBoxes(HFlipStack(masks)), keep);
  }

  /** Boolean indexing commutes with the vertical flip of every slice. */
  lemma SelectVFlip(masks: Stack<int>, keep: seq<bool>)
    requires |keep| == |masks|
    ensures Select(VFlipStack(masks), keep) == VFlipStack(Select(masks, keep))
  {
    SelectMapped(masks, VFlipStack(masks), keep, g => VFlip(g));
  }

  /** Reconciling after a vertical flip keeps the same instances with the same
      labels, their flipped masks, and boxes mirrored across the height axis
      (y1' = h-1-y2, y2' = h-1-y1). */
  lemma CorrectBoxAfterVFlip(image: Stack<real>, masks: Stack<int>, labels: seq<int>, h: nat, w: nat)
    requires |masks| > 0 && HasShape(masks, h, w) && h > 0 && w > 0
    requires |labels| == |masks|
    ensures |VFlipStack(masks)| == |masks|
    ensures forall i :: 0 <= i < |masks| ==> HasCells(masks[i]) && HasCells(VFlipStack(masks)[i])
    ensures var before := CorrectBox(image, masks, labels);
            var after := CorrectBox(VFlipStack(image), VFlipStack(masks), labels);
            after.labels == before.labels &&
            after.masks == VFlipStack(before.masks) &&
            |after.boxes| == |before.boxes| &&
            forall j :: 0 <= j < |after.boxes| ==> after.boxes[j] == MirrorY(before.boxes[j], h)
  {
    VFlipKeepMask(masks, h, w);
    var keep := KeepMask(masks);
    SelectVFlip(masks, keep);
    forall i | 0 <= i < |masks| && keep[i]
      ensures MaskBoxes(VFlipStack(masks))[i] == MirrorY(MaskBoxes(masks)[i], h)
    {
      VFlipKeptBox(masks, h, w, i);
    }
    SelectMapped(MaskBoxes(masks), MaskBoxes(VFlipStack(masks)), keep, b => MirrorY(b, h));
    var before := CorrectBox(image, masks, labels);
    var after := CorrectBox(VFlipStack(image), VFlipStack(masks), labels);
    assert before.masks == Select(masks, keep) && before.labels == Select(labels, keep);
    assert before.boxes == Select(MaskBoxes(masks), keep);
    assert after.masks == Select(VFlipStack(masks), keep) && after.labels == Select(labels, keep);
    assert after.boxes == Select(MaskBoxes(VFlipStack(masks)), keep);
  }

  /** The box of a kept instance, recomputed after a horizontal flip, is its old box mirrored. */
  lemma HFlipKeptBox(masks: Stack<int>, h: nat, w: nat, i: nat)
    requires HasShape(masks, h, w) && h > 0 && w > 0 && i < |masks|
    requires HasCells(masks[i]) && GridMax(masks[i]) > 0
    ensures MaskBoxes(HFlipStack(masks))[i] == MirrorX(MaskBoxes(masks)[i], w)
  {
    KeepIff(masks[i]);
    HFlipBox(masks[i], h, w);
  }

  /** The box of a kept instance, recomputed after a vertical flip, is its old box mirrored. */
  lemma VFlipKeptBox(masks: Stack<int>, h: nat, w: nat, i: nat)
    requires HasShape(masks, h, w) && h > 0 && w > 0 && i < |masks|
    requires HasCells(masks[i]) && GridMax(masks[i]) > 0
    ensures MaskBoxes(VFlipStack(masks))[i] == MirrorY(MaskBoxes(masks)[i], h)
  {
    KeepIff(masks[i]);
    VFlipBox(masks[i], h, w);
  }
}
