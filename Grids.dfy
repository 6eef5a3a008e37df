/** Tensors of the augmentation pipeline as nested sequences, and the index-only
    operations on them: the vertical and horizontal flips that torchvision applies
    to a [C, H, W] (or [I, H, W]) tensor, and minimum / maximum of a sequence. */
module Grids {

  /** One 2-D slice, indexed [row][column] (row = y = height, column = x = width). */
  type Grid<T> = seq<seq<T>>

  /** A 3-D tensor: a sequence of equally sized grids ([channel] for an image,
      [instance] for the masks). */
  type Stack<T> = seq<Grid<T>>

  /** `g` is a rectangular h x w grid. */
  predicate IsGrid<T>(g: Grid<T>, h: nat, w: nat) {
    |g| == h && forall r :: 0 <= r < h ==> |g[r]| == w
  }

  /** Every slice of `s` is h x w: the shape [_, h, w] of a tensor. */
  predicate HasShape<T>(s: Stack<T>, h: nat, w: nat) {
    forall k :: 0 <= k < |s| ==> IsGrid(s[k], h, w)
  }

  /** (r, c) addresses a cell of `g`. */
  predicate IsCell<T>(g: Grid<T>, r: int, c: int) {
    0 <= r < |g| && 0 <= c < |g[r]|
  }

  /** A grid holding at least one cell in each of at least one row: a tensor on
      which `max()` is defined. */
  predicate HasCells<T>(g: Grid<T>) {
    |g| > 0 && forall r :: 0 <= r < |g| ==> |g[r]| > 0
  }

  // ---------------------------------------------------------------------------
  // Reversal and flips

  function Reverse<T>(s: seq<T>): (r: seq<T>)
    ensures |r| == |s|
    ensures forall i :: 0 <= i < |s| ==> r[i] == s[|s| - 1 - i]
  {
    if s == [] then [] else Reverse(s[1..]) + [s[0]]
  }

  /** torchvision `vflip` on one slice: the rows in reverse order. */
  function VFlip<T>(g: Grid<T>): (f: Grid<T>)
    ensures |f| == |g|
    ensures forall r :: 0 <= r < |g| ==> f[r] == g[|g| - 1 - r]
  {
    Reverse(g)
  }

  /** torchvision `hflip` on one slice: every row reversed. */
  function HFlip<T>(g: Grid<T>): (f: Grid<T>)
    ensures |f| == |g|
    ensures forall r :: 0 <= r < |g| ==>
              |f[r]| == |g[r]| && forall c :: 0 <= c < |g[r]| ==> f[r][c] == g[r][|g[r]| - 1 - c]
  {
    seq(|g|, r requires 0 <= r < |g| => Reverse(g[r]))
  }

  /** `vflip` on a 3-D tensor flips the height axis of every slice. */
  function VFlipStack<T>(s: Stack<T>): Stack<T> {
    seq(|s|, k requires 0 <= k < |s| => VFlip(s[k]))
  }

  /** `hflip` on a 3-D tensor flips the width axis of every slice. */
  function HFlipStack<T>(s: Stack<T>): Stack<T> {
    seq(|s|, k requires 0 <= k < |s| => HFlip(s[k]))
  }

  lemma {:induction false} ReverseInvolution<T>(s: seq<T>)
    ensures Reverse(Reverse(s)) == s
  {
    var rr := Reverse(Reverse(s));
    assert |rr| == |s|;
    forall i | 0 <= i < |s| ensures rr[i] == s[i] {
      assert rr[i] == Reverse(s)[|s| - 1 - i];
    }
  }

  /** The vertical flip moves cell (r, c) of an h x w slice to (h-1-r, c) and keeps the shape. */
  lemma VFlipAt<T>(g: Grid<T>, h: nat, w: nat)
    requires IsGrid(g, h, w)
    ensures IsGrid(VFlip(g), h, w)
    ensures forall r, c :: 0 <= r < h && 0 <= c < w ==> VFlip(g)[r][c] == g[h - 1 - r][c]
  {
  }

  /** The horizontal flip moves cell (r, c) of an h x w slice to (r, w-1-c) and keeps the shape. */
  lemma HFlipAt<T>(g: Grid<T>, h: nat, w: nat)
    requires IsGrid(g, h, w)
    ensures IsGrid(HFlip(g), h, w)
    ensures forall r, c :: 0 <= r < h && 0 <= c < w ==> HFlip(g)[r][c] == g[r][w - 1 - c]
  {
  }

  /** Flipping the height axis keeps the shape [n, h, w] of a tensor and sends
      element [k][r][c] to [k][h-1-r][c]: image and masks flipped together stay
      co-registered, because each pixel and its mask cells move to the same place. */
  lemma VFlipStackShape<T>(s: Stack<T>, h: nat, w: nat)
    requires HasShape(s, h, w)
    ensures |VFlipStack(s)| == |s| && HasShape(VFlipStack(s), h, w)
    ensures forall k, r, c :: 0 <= k < |s| && 0 <= r < h && 0 <= c < w ==>
              VFlipStack(s)[k][r][c] == s[k][h - 1 - r][c]
  {
  }

  /** Flipping the width axis keeps the shape [n, h, w] of a tensor and sends
      element [k][r][c] to [k][r][w-1-c]. */
  lemma HFlipStackShape<T>(s: Stack<T>, h: nat, w: nat)
    requires HasShape(s, h, w)
    ensures |HFlipStack(s)| == |s| && HasShape(HFlipStack(s), h, w)
    ensures forall k, r, c :: 0 <= k < |s| && 0 <= r < h && 0 <= c < w ==>
              HFlipStack(s)[k][r][c] == s[k][r][w - 1 - c]
  {
    forall k | 0 <= k < |s| ensures IsGrid(HFlipStack(s)[k], h, w) {
      HFlipAt(s[k], h, w);
    }
  }

  /** A vertical flip applied twice restores the tensor. */
  lemma {:induction false} VFlipStackInvolution<T>(s: Stack<T>)
    ensures VFlipStack(VFlipStack(s)) == s
  {
    forall k | 0 <= k < |s| ensures VFlipStack(VFlipStack(s))[k] == s[k] {
      ReverseInvolution(s[k]);
    }
  }

  /** A horizontal flip applied twice restores the tensor (ragged rows included). */
  lemma {:induction false} HFlipStackInvolution<T>(s: Stack<T>)
    ensures HFlipStack(HFlipStack(s)) == s
  {
    forall k | 0 <= k < |s| ensures HFlipStack(HFlipStack(s))[k] == s[k] {
      var g := s[k];
      forall r | 0 <= r < |g| ensures HFlip(HFlip(g))[r] == g[r] {
        ReverseInvolution(g[r]);
      }
    }
  }

  // ---------------------------------------------------------------------------
  // Minimum and maximum of a non-empty sequence (torch.min / torch.max)

  function Min(s: seq<int>): (m: int)
    requires |s| > 0
    ensures m in s
    ensures forall i :: 0 <= i < |s| ==> m <= s[i]
  {
    if |s| == 1 then s[0]
    else
      var rest := Min(s[1..]);
      if s[0] <= rest then s[0] else rest
  }

  function Max(s: seq<int>): (m: int)
    requires |s| > 0
    ensures m in s
    ensures forall i :: 0 <= i < |s| ==> s[i] <= m
  {
    if |s| == 1 then s[0]
    else
      var rest := Max(s[1..]);
      if s[0] >= rest then s[0] else rest
  }
}
