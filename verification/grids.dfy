/** Rectangular pixel grids, indexed `g[row][col]`, as the detector passes them
    between stages (a list of rows, each a list of pixel values). */
module Grids {

  type Grid<T> = seq<seq<T>>

  /** `g` has exactly `h` rows of exactly `w` values each. */
  predicate IsRect<T>(g: Grid<T>, h: nat, w: nat) {
    |g| == h && forall i :: 0 <= i < h ==> |g[i]| == w
  }

  /** Every index `g[i][j]` with `i < h` and `j < w` exists: what a stage that
      visits the `h`-by-`w` box of its input needs (the rows may be longer). */
  predicate Covers<T>(g: Grid<T>, h: nat, w: nat) {
    w == 0 || (h <= |g| && forall i :: 0 <= i < h ==> w <= |g[i]|)
  }

  lemma RectCovers<T>(g: Grid<T>, h: nat, w: nat)
    requires IsRect(g, h, w)
    ensures Covers(g, h, w)
  {
  }

  /** Every cell of the `h`-by-`w` box of `g` holds `v`. */
  predicate IsConstant<T(==)>(g: Grid<T>, h: nat, w: nat, v: T) {
    Covers(g, h, w) && forall i, j :: 0 <= i < h && 0 <= j < w ==> g[i][j] == v
  }

  /** Every cell of the `h`-by-`w` box of `g` lies in `[lo, hi]`. */
  predicate AllWithin(g: Grid<int>, h: nat, w: nat, lo: int, hi: int) {
    Covers(g, h, w) && forall i, j :: 0 <= i < h && 0 <= j < w ==> lo <= g[i][j] <= hi
  }

  /** A fresh `h`-by-`w` grid holding `v` everywhere
      (createInitializedGreyscalePixelArray). */
  function Filled<T>(h: nat, w: nat, v: T): (g: Grid<T>)
    ensures IsRect(g, h, w)
    ensures forall i, j :: 0 <= i < h && 0 <= j < w ==> g[i][j] == v
  {
    seq(h, _ => seq(w, _ => v))
  }

  /** An `h`-by-`w` grid that holds `v` everywhere is the fresh grid of `v`s. */
  lemma ConstantIsFilled<T>(g: Grid<T>, h: nat, w: nat, v: T)
    requires IsRect(g, h, w) && IsConstant(g, h, w, v)
    ensures g == Filled(h, w, v)
  {
    var f := Filled(h, w, v);
    forall i | 0 <= i < h
      ensures g[i] == f[i]
    {
    }
  }
}
