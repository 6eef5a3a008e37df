/** Box extraction (`get_box_from_mask`): the tight axis-aligned box
    [x1, y1, x2, y2] around the non-zero cells of one instance mask, where x is
    the column index and y the row index, and [0, 0, 0, 0] when the mask has no
    non-zero cell. */
module BoxExtraction {
  import opened Grids

  /** A box row [x1, y1, x2, y2]: columns x1..x2 and rows y1..y2, both inclusive. */
  datatype Box = Box(x1: int, y1: int, x2: int, y2: int)

  /** What an all-zero mask yields. */
  const EmptyBox: Box := Box(0, 0, 0, 0)

  /** One row of `torch.nonzero`: the [row, column] index of a non-zero element. */
  datatype Coord = Coord(row: int, col: int)

  predicate NonZeroAt(m: Grid<int>, r: int, c: int) {
    IsCell(m, r, c) && m[r][c] != 0
  }

  /** Coordinate a comes strictly before b in row-major order. */
  predicate RowMajorBefore(a: Coord, b: Coord) {
    a.row < b.row || (a.row == b.row && a.col < b.col)
  }

  ghost predicate HasNonZero(m: Grid<int>) {
    exists r, c :: NonZeroAt(m, r, c)
  }

  // ---------------------------------------------------------------------------
  // The specification: a tight box

  /** Every non-zero cell (r, c) lies in the box: x1 <= c <= x2 and y1 <= r <= y2. */
  ghost predicate Encloses(m: Grid<int>, b: Box) {
    forall r, c :: NonZeroAt(m, r, c) ==> b.x1 <= c <= b.x2 && b.y1 <= r <= b.y2
  }

  /** Each of the four bounds is reached by some non-zero cell. */
  ghost predicate Attained(m: Grid<int>, b: Box) {
    (exists r :: NonZeroAt(m, r, b.x1)) && (exists c :: NonZeroAt(m, b.y1, c)) &&
    (exists r :: NonZeroAt(m, r, b.x2)) && (exists c :: NonZeroAt(m, b.y2, c))
  }

  /** The promise of `get_box_from_mask`: the sentinel for an all-zero mask,
      otherwise the smallest box holding every non-zero cell. */
  ghost predicate IsTightBox(m: Grid<int>, b: Box) {
    if HasNonZero(m) then Encloses(m, b) && Attained(m, b) else b == EmptyBox
  }

  /** A mask has exactly one tight box, so any two computations of it agree. */
  lemma TightBoxUnique(m: Grid<int>, b1: Box, b2: Box)
    requires IsTightBox(m, b1) && IsTightBox(m, b2)
    ensures b1 == b2
  {
    if HasNonZero(m) {
      var r1 :| NonZeroAt(m, r1, b1.x1);
      var r2 :| NonZeroAt(m, r2, b2.x1);
      var r3 :| NonZeroAt(m, r3, b1.x2);
      var r4 :| NonZeroAt(m, r4, b2.x2);
      var c1 :| NonZeroAt(m, b1.y1, c1);
      var c2 :| NonZeroAt(m, b2.y1, c2);
      var c3 :| NonZeroAt(m, b1.y2, c3);
      var c4 :| NonZeroAt(m, b2.y2, c4);
    }
  }

  // ---------------------------------------------------------------------------
  // The computation, as the source writes it: nonzero, then min / max per axis

  function NonZeroInRow(row: seq<int>, r: int, c: nat): (ind: seq<Coord>)
    decreases |row| - c
    ensures forall k :: 0 <= k < |ind| ==>
              ind[k].row == r && c <= ind[k].col < |row| && row[ind[k].col] != 0
    ensures forall c' :: c <= c' < |row| && row[c'] != 0 ==> Coord(r, c') in ind
    ensures forall k, k' :: 0 <= k < k' < |ind| ==> ind[k].col < ind[k'].col
  {
    if c >= |row| then []
    else (if row[c] != 0 then [Coord(r, c)] else []) + NonZeroInRow(row, r, c + 1)
  }

  function NonZeroFrom(m: Grid<int>, r: nat): (ind: seq<Coord>)
    decreases |m| - r
    ensures forall k :: 0 <= k < |ind| ==> r <= ind[k].row && NonZeroAt(m, ind[k].row, ind[k].col)
    ensures forall r', c' :: r <= r' && NonZeroAt(m, r', c') ==> Coord(r', c') in ind
    ensures forall k, k' :: 0 <= k < k' < |ind| ==> RowMajorBefore(ind[k], ind[k'])
  {
    if r >= |m| then []
    else NonZeroInRow(m[r], r, 0) + NonZeroFrom(m, r + 1)
  }

  /** `torch.nonzero(mask)`: the coordinates of the non-zero cells, in row-major order. */
  function NonZero(m: Grid<int>): (ind: seq<Coord>)
    ensures forall k :: 0 <= k < |ind| ==> NonZeroAt(m, ind[k].row, ind[k].col)
    ensures forall r, c :: NonZeroAt(m, r, c) ==> Coord(r, c) in ind
    ensures |ind| == 0 <==> !HasNonZero(m)
    ensures forall k, k' :: 0 <= k < k' < |ind| ==> RowMajorBefore(ind[k], ind[k'])
  {
    var ind := NonZeroFrom(m, 0);
    assert |ind| > 0 ==> NonZeroAt(m, ind[0].row, ind[0].col);
    ind
  }

  /** `ind[:, 1]`, the x coordinates. */
  function Cols(ind: seq<Coord>): seq<int> {
    seq(|ind|, k requires 0 <= k < |ind| => ind[k].col)
  }

  /** `ind[:, 0]`, the y coordinates. */
  function Rows(ind: seq<Coord>): seq<int> {
    seq(|ind|, k requires 0 <= k < |ind| => ind[k].row)
  }

  /** `get_box_from_mask`. */
  function BoxFromMask(m: Grid<int>): Box {
    var ind := NonZero(m);
    if |ind| == 0 then EmptyBox
    else Box(Min(Cols(ind)), Min(Rows(ind)), Max(Cols(ind)), Max(Rows(ind)))
  }

  /** `get_box_from_mask` keeps its promise: the sentinel for a mask without a
      non-zero cell, otherwise a box that holds every non-zero cell and whose
      four bounds are each reached by one. */
  lemma BoxFromMaskIsTight(m: Grid<int>)
    ensures IsTightBox(m, BoxFromMask(m))
  {
    var ind := NonZero(m);
    if |ind| > 0 {
      BoxFromNonZeroIsTight(m, ind, BoxFromMask(m));
    }
  }

  lemma BoxFromNonZeroIsTight(m: Grid<int>, ind: seq<Coord>, b: Box)
    requires |ind| > 0
    requires forall k :: 0 <= k < |ind| ==> NonZeroAt(m, ind[k].row, ind[k].col)
    requires forall r, c :: NonZeroAt(m, r, c) ==> Coord(r, c) in ind
    requires b == Box(Min(Cols(ind)), Min(Rows(ind)), Max(Cols(ind)), Max(Rows(ind)))
    ensures HasNonZero(m) && Encloses(m, b) && Attained(m, b)
  {
    assert NonZeroAt(m, ind[0].row, ind[0].col);
    forall r, c | NonZeroAt(m, r, c) ensures b.x1 <= c <= b.x2 && b.y1 <= r <= b.y2 {
      var k :| 0 <= k < |ind| && ind[k] == Coord(r, c);
      assert Cols(ind)[k] == c && Rows(ind)[k] == r;
    }
    var i1 :| 0 <= i1 < |ind| && Cols(ind)[i1] == b.x1;
    assert NonZeroAt(m, ind[i1].row, b.x1);
    var i2 :| 0 <= i2 < |ind| && Rows(ind)[i2] == b.y1;
    assert NonZeroAt(m, b.y1, ind[i2].col);
    var i3 :| 0 <= i3 < |ind| && Cols(ind)[i3] == b.x2;
    assert NonZeroAt(m, ind[i3].row, b.x2);
    var i4 :| 0 <= i4 < |ind| && Rows(ind)[i4] == b.y2;
    assert NonZeroAt(m, b.y2, ind[i4].col);
  }

  // ---------------------------------------------------------------------------
  // An O(pixels) scan computing the same box

  /** Every non-zero cell in rows 0..r-1, and in row r before column c, lies in b. */
  ghost predicate EnclosesBefore(m: Grid<int>, r: int, c: int, b: Box)
    requires 0 <= r < |m| && 0 <= c <= |m[r]|
  {
    (forall r', c' :: 0 <= r' < r && 0 <= c' < |m[r']| && m[r'][c'] != 0 ==>
       b.x1 <= c' <= b.x2 && b.y1 <= r' <= b.y2) &&
    (forall c' :: 0 <= c' < c && m[r][c'] != 0 ==> b.x1 <= c' <= b.x2 && b.y1 <= r <= b.y2)
  }

  /** One pass over the pixels, widening the box at every non-zero cell; the
      result is the box `get_box_from_mask` returns. */
  method ScanBox(m: Grid<int>) returns (b: Box)
    ensures b == BoxFromMask(m)
  {
    var found := false;
    b := EmptyBox;
    // rows / columns of non-zero cells on the four edges of the box
    ghost var rx1, cy1, rx2, cy2 := 0, 0, 0, 0;
    var r := 0;
    while r < |m|
      invariant 0 <= r <= |m|
      invariant !found ==> b == EmptyBox
      invariant !found ==> forall r', c' :: 0 <= r' < r && 0 <= c' < |m[r']| ==> m[r'][c'] == 0
      invariant found ==> forall r', c' :: 0 <= r' < r && 0 <= c' < |m[r']| && m[r'][c'] != 0 ==>
                            b.x1 <= c' <= b.x2 && b.y1 <= r' <= b.y2
      invariant found ==> NonZeroAt(m, rx1, b.x1) && NonZeroAt(m, b.y1, cy1) &&
                          NonZeroAt(m, rx2, b.x2) && NonZeroAt(m, b.y2, cy2)
    {
      var c := 0;
      while c < |m[r]|
        invariant 0 <= c <= |m[r]|
        invariant !found ==> b == EmptyBox
        invariant !found ==> forall r', c' :: 0 <= r' < r && 0 <= c' < |m[r']| ==> m[r'][c'] == 0
        invariant !found ==> forall c' :: 0 <= c' < c ==> m[r][c'] == 0
        invariant found ==> EnclosesBefore(m, r, c, b)
        invariant found ==> NonZeroAt(m, rx1, b.x1) && NonZeroAt(m, b.y1, cy1) &&
                            NonZeroAt(m, rx2, b.x2) && NonZeroAt(m, b.y2, cy2)
      {
        if m[r][c] != 0 {
          if !found {
            b := Box(c, r, c, r);
            rx1, cy1, rx2, cy2 := r, c, r, c;
            found := true;
          } else {
            if c < b.x1 { b := b.(x1 := c); rx1 := r; }
            if c > b.x2 { b := b.(x2 := c); rx2 := r; }
            if r < b.y1 { b := b.(y1 := r); cy1 := c; }
            if r > b.y2 { b := b.(y2 := r); cy2 := c; }
          }
        }
        c := c + 1;
      }
      r := r + 1;
    }
    if found {
      assert Encloses(m, b);
    }
    BoxFromMaskIsTight(m);
    TightBoxUnique(m, b, BoxFromMask(m));
  }

  // ---------------------------------------------------------------------------
  // Properties

  /** The box of an all-zero mask is the sentinel [0, 0, 0, 0]. */
  lemma EmptyMaskBox(m: Grid<int>)
    requires forall r, c :: IsCell(m, r, c) ==> m[r][c] == 0
    ensures BoxFromMask(m) == EmptyBox
  {
    BoxFromMaskIsTight(m);
  }

  /** For a non-empty h x w mask the box is tight and lies in the frame:
      0 <= x1 <= x2 < w and 0 <= y1 <= y2 < h, both maxima inclusive. */
  lemma BoxInFrame(m: Grid<int>, h: nat, w: nat)
    requires IsGrid(m, h, w) && HasNonZero(m)
    ensures var b := BoxFromMask(m);
            0 <= b.x1 <= b.x2 < w && 0 <= b.y1 <= b.y2 < h
  {
    var b := BoxFromMask(m);
    BoxFromMaskIsTight(m);
    var r1 :| NonZeroAt(m, r1, b.x1);
    var r2 :| NonZeroAt(m, r2, b.x2);
    var c1 :| NonZeroAt(m, b.y1, c1);
    var c2 :| NonZeroAt(m, b.y2, c2);
  }

  /** Cell (r, c) is non-zero: the box extends at least to column c and row r. */
  lemma BoxContains(m: Grid<int>, r: int, c: int)
    requires NonZeroAt(m, r, c)
    ensures var b := BoxFromMask(m);
            b.x1 <= c <= b.x2 && b.y1 <= r <= b.y2
  {
    BoxFromMaskIsTight(m);
  }

  /** The sentinel is also the box of a mask whose only non-zero cell is the
      origin, so the box alone does not tell an empty instance apart. */
  lemma SentinelIsOriginPixelBox()
    ensures BoxFromMask([[1]]) == EmptyBox
    ensures BoxFromMask([[0]]) == EmptyBox
  {
    assert NonZeroAt([[1]], 0, 0);
    assert IsTightBox([[1]], EmptyBox);
    BoxFromMaskIsTight([[1]]);
    BoxFromMaskIsTight([[0]]);
    TightBoxUnique([[1]], BoxFromMask([[1]]), EmptyBox);
  }

  /** An n x n identity mask with its two corner cells cleared. */
  function DiagonalMask(n: nat): Grid<int> {
    seq(n, r requires 0 <= r < n => seq(n, c requires 0 <= c < n => if r == c && 0 < r < n - 1 then 1 else 0))
  }

  /** The 100 x 100 instance of this mask is the input of the repository's own
      box-extraction test, `eye(100)` with cells (0, 0) and (99, 99) cleared. */
  lemma DiagonalBox(n: nat)
    requires n >= 3
    ensures BoxFromMask(DiagonalMask(n)) == Box(1, 1, n - 2, n - 2)
  {
    var m := DiagonalMask(n);
    var b := Box(1, 1, n - 2, n - 2);
    assert NonZeroAt(m, 1, 1);
    assert NonZeroAt(m, n - 2, n - 2);
    assert Encloses(m, b);
    assert IsTightBox(m, b);
    BoxFromMaskIsTight(m);
    TightBoxUnique(m, BoxFromMask(m), b);
  }

  /** The box of that test input is [1, 1, 98, 98]. */
  lemma Eye100Box()
    ensures BoxFromMask(DiagonalMask(100)) == Box(1, 1, 98, 98)
  {
    DiagonalBox(100);
  }

  /** A box mirrored across the width axis of a frame w columns wide. */
  function MirrorX(b: Box, w: int): Box {
    Box(w - 1 - b.x2, b.y1, w - 1 - b.x1, b.y2)
  }

  /** A box mirrored across the height axis of a frame h rows high. */
  function MirrorY(b: Box, h: int): Box {
    Box(b.x1, h - 1 - b.y2, b.x2, h - 1 - b.y1)
  }

  /** Cell (r, c) of a horizontally flipped h x w mask is non-zero exactly when
      cell (r, w-1-c) of the mask is. */
  lemma HFlipNonZero(m: Grid<int>, h: nat, w: nat, r: int, c: int)
    requires IsGrid(m, h, w)
    ensures NonZeroAt(HFlip(m), r, c) <==> NonZeroAt(m, r, w - 1 - c)
  {
    HFlipAt(m, h, w);
  }

  /** Cell (r, c) of a vertically flipped h x w mask is non-zero exactly when
      cell (h-1-r, c) of the mask is. */
  lemma VFlipNonZero(m: Grid<int>, h: nat, w: nat, r: int, c: int)
    requires IsGrid(m, h, w)
    ensures NonZeroAt(VFlip(m), r, c) <==> NonZeroAt(m, h - 1 - r, c)
  {
    VFlipAt(m, h, w);
  }

  /** Mirroring a tight box across the width axis gives a tight box of the
      horizontally flipped mask. */
  lemma HFlipTight(m: Grid<int>, h: nat, w: nat, b: Box)
    requires IsGrid(m, h, w) && HasNonZero(m) && Encloses(m, b) && Attained(m, b)
    ensures IsTightBox(HFlip(m), MirrorX(b, w))
  {
    var f := HFlip(m);
    var b' := MirrorX(b, w);
    forall r, c | NonZeroAt(f, r, c) ensures b'.x1 <= c <= b'.x2 && b'.y1 <= r <= b'.y2 {
      HFlipNonZero(m, h, w, r, c);
    }
    var r1 :| NonZeroAt(m, r1, b.x2);
    HFlipNonZero(m, h, w, r1, b'.x1);
    var r2 :| NonZeroAt(m, r2, b.x1);
    HFlipNonZero(m, h, w, r2, b'.x2);
    var c1 :| NonZeroAt(m, b.y1, c1);
    HFlipNonZero(m, h, w, b.y1, w - 1 - c1);
    var c2 :| NonZeroAt(m, b.y2, c2);
    HFlipNonZero(m, h, w, b.y2, w - 1 - c2);
  }

  /** Mirroring a tight box across the height axis gives a tight box of the
      vertically flipped mask. */
  lemma VFlipTight(m: Grid<int>, h: nat, w: nat, b: Box)
    requires IsGrid(m, h, w) && HasNonZero(m) && Encloses(m, b) && Attained(m, b)
    ensures IsTightBox(VFlip(m), MirrorY(b, h))
  {
    var f := VFlip(m);
    var b' := MirrorY(b, h);
    forall r, c | NonZeroAt(f, r, c) ensures b'.x1 <= c <= b'.x2 && b'.y1 <= r <= b'.y2 {
      VFlipNonZero(m, h, w, r, c);
    }
    var r1 :| NonZeroAt(m, r1, b.x1);
    VFlipNonZero(m, h, w, h - 1 - r1, b.x1);
    var r2 :| NonZeroAt(m, r2, b.x2);
    VFlipNonZero(m, h, w, h - 1 - r2, b.x2);
    var c1 :| NonZeroAt(m, b.y2, c1);
    VFlipNonZero(m, h, w, b'.y1, c1);
    var c2 :| NonZeroAt(m, b.y1, c2);
    VFlipNonZero(m, h, w, b'.y2, c2);
  }

  /** A horizontal flip mirrors the box of a non-empty h x w mask across the
      width axis: [w-1-x2, y1, w-1-x1, y2]. */
  lemma HFlipBox(m: Grid<int>, h: nat, w: nat)
    requires IsGrid(m, h, w) && HasNonZero(m)
    ensures BoxFromMask(HFlip(m)) == MirrorX(BoxFromMask(m), w)
  {
    var b := BoxFromMask(m);
    BoxFromMaskIsTight(m);
    BoxFromMaskIsTight(HFlip(m));
    HFlipTight(m, h, w, b);
    TightBoxUnique(HFlip(m), BoxFromMask(HFlip(m)), MirrorX(b, w));
  }

  /** A vertical flip mirrors the box of a non-empty h x w mask across the
      height axis: [x1, h-1-y2, x2, h-1-y1]. */
  lemma VFlipBox(m: Grid<int>, h: nat, w: nat)
    requires IsGrid(m, h, w) && HasNonZero(m)
    ensures BoxFromMask(VFlip(m)) == MirrorY(BoxFromMask(m), h)
  {
    var b := BoxFromMask(m);
    BoxFromMaskIsTight(m);
    BoxFromMaskIsTight(VFlip(m));
    VFlipTight(m, h, w, b);
    TightBoxUnique(VFlip(m), BoxFromMask(VFlip(m)), MirrorY(b, h));
  }
}
