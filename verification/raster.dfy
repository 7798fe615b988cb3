/**
 * Raster surfaces of the drawing editor (app/code/dr-01/page.tsx): each layer owns a
 * canvas whose pixels are RGBA bytes. A surface is modelled as a grid of rows.
 */
module Raster {

  newtype byte = x: int | 0 <= x < 256

  datatype Pixel = Pixel(r: byte, g: byte, b: byte, a: byte)

  /** What a freshly created or cleared canvas holds. */
  const Transparent := Pixel(0, 0, 0, 0)

  /** Rows of pixels, top row first. */
  type Grid = seq<seq<Pixel>>

  /** `g` is a `w` by `h` surface. */
  predicate IsGrid(g: Grid, w: nat, h: nat)
  {
    |g| == h && forall y :: 0 <= y < h ==> |g[y]| == w
  }

  /** A fresh `w` by `h` canvas: every pixel is transparent. */
  function Blank(w: nat, h: nat): (g: Grid)
    ensures IsGrid(g, w, h)
    ensures forall y, x :: 0 <= y < h && 0 <= x < w ==> g[y][x] == Transparent
  {
    seq(h, y => seq(w, x => Transparent))
  }

  /** The pixel of `g` at (x, y), or transparent outside the surface. */
  function At(g: Grid, x: nat, y: nat): Pixel
  {
    if y < |g| && x < |g[y]| then g[y][x] else Transparent
  }

  /** A fresh `w` by `h` canvas onto which `src` is drawn at the origin (`drawImage(src, 0, 0)`):
      content outside the new bounds is clipped and the new area is transparent. */
  function Blit(src: Grid, w: nat, h: nat): (g: Grid)
    ensures IsGrid(g, w, h)
    ensures forall y, x :: 0 <= y < h && 0 <= x < w ==>
              g[y][x] == (if y < |src| && x < |src[y]| then src[y][x] else Transparent)
  {
    seq(h, y requires 0 <= y < h => seq(w, x requires 0 <= x < w => At(src, x, y)))
  }

  /** Resizing to the same dimensions keeps the surface. */
  lemma BlitSameSize(src: Grid, w: nat, h: nat)
    requires IsGrid(src, w, h)
    ensures Blit(src, w, h) == src
  {
    var g := Blit(src, w, h);
    forall y | 0 <= y < h
      ensures g[y] == src[y]
    {
    }
  }

  /** Growing a surface and shrinking it back loses nothing. */
  lemma BlitGrowThenShrink(src: Grid, w: nat, h: nat, w2: nat, h2: nat)
    requires IsGrid(src, w, h) && w <= w2 && h <= h2
    ensures Blit(Blit(src, w2, h2), w, h) == src
  {
    var big := Blit(src, w2, h2);
    var g := Blit(big, w, h);
    forall y | 0 <= y < h
      ensures g[y] == src[y]
    {
    }
  }

  /** Shrinking keeps exactly the top-left part: every kept pixel is the pixel that was there. */
  lemma BlitShrinkClips(src: Grid, w: nat, h: nat, w2: nat, h2: nat)
    requires IsGrid(src, w, h) && w2 <= w && h2 <= h
    ensures forall y, x :: 0 <= y < h2 && 0 <= x < w2 ==> Blit(src, w2, h2)[y][x] == src[y][x]
  {
  }

  /** `clearRect(0, 0, w, h)`: pixels inside the rectangle become transparent, the rest stay. */
  function ClearRegion(g: Grid, w: nat, h: nat): (r: Grid)
    ensures |r| == |g|
    ensures forall y :: 0 <= y < |g| ==> |r[y]| == |g[y]|
    ensures forall y, x :: 0 <= y < |g| && 0 <= x < |g[y]| ==>
              r[y][x] == (if y < h && x < w then Transparent else g[y][x])
  {
    seq(|g|, y requires 0 <= y < |g| =>
      seq(|g[y]|, x requires 0 <= x < |g[y]| => if y < h && x < w then Transparent else g[y][x]))
  }

  /** Clearing a surface whose size is the cleared rectangle gives a blank surface. */
  lemma ClearWholeIsBlank(g: Grid, w: nat, h: nat)
    requires IsGrid(g, w, h)
    ensures ClearRegion(g, w, h) == Blank(w, h)
  {
    var r := ClearRegion(g, w, h);
    forall y | 0 <= y < h
      ensures r[y] == Blank(w, h)[y]
    {
    }
  }
}
