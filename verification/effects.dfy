/**
 * The whole-canvas effects of the drawing editor (`applyEffect`, app/code/dr-01/page.tsx),
 * applied to the composited RGBA image. Every channel value the source computes is stored
 * into a `Uint8ClampedArray`, which clamps to 0..255 and rounds half to even
 * (ToUint8Clamp of ECMA-262). Grayscale, invert, brightness and contrast produce values that
 * doubles hold exactly or that are never near a tie, so integer arithmetic gives the same byte.
 * Sepia sums products with decimal weights in doubles; the model sums them as exact rationals,
 * which can round the other way when the exact value is a tie (see `SepiaChannel`).
 */
module Effects {
  import opened Raster

  datatype Effect = Blur | Grayscale | Sepia | Invert | Brightness | Contrast | Pixelate

  /** The byte stored for the non-negative rational `num / den`: rounded to the nearest
      integer, ties to the even neighbour. */
  function RoundHalfEven(num: nat, den: nat): (v: nat)
    requires den > 0
    ensures 2 * (v * den - num) <= den && 2 * (num - v * den) <= den
    ensures 2 * (v * den - num) == den || 2 * (num - v * den) == den ==> v % 2 == 0
  {
    var q := num / den;
    var rem := num - q * den;
    QuotientNeighbours(num, den);
    if 2 * rem > den then q + 1
    else if 2 * rem < den then q
    else if q % 2 == 0 then q
    else q + 1
  }

  /** The two integers around `num / den`, as multiples of `den`. */
  lemma QuotientNeighbours(num: nat, den: nat)
    requires den > 0
    ensures var q := num / den;
            && 0 <= num - q * den < den
            && (q + 1) * den == q * den + den
  {
  }

  /** The grey level stored for a pixel: the mean of R, G and B. A third is never a tie, so
      this is the integer quotient of the sum plus one. */
  function GrayLevel(p: Pixel): (v: byte)
    ensures v as int == (p.r as int + p.g as int + p.b as int + 1) / 3
  {
    var s := p.r as int + p.g as int + p.b as int;
    var v := RoundHalfEven(s, 3);
    assert 3 * v <= s + 1 && s <= 3 * v + 1;
    v as byte
  }

  function GrayscalePixel(p: Pixel): Pixel
  {
    var v := GrayLevel(p);
    Pixel(v, v, v, p.a)
  }

  function InvertPixel(p: Pixel): Pixel
  {
    Pixel(255 - p.r, 255 - p.g, 255 - p.b, p.a)
  }

  /** `Math.min(255, c + 50)`. */
  function Brighten(c: byte): (v: byte)
    ensures v as int == if c as int + 50 > 255 then 255 else c as int + 50
  {
    if c > 205 then 255 else c + 50
  }

  function BrightnessPixel(p: Pixel): Pixel
  {
    Pixel(Brighten(p.r), Brighten(p.g), Brighten(p.b), p.a)
  }

  /** `Math.min(255, Math.max(0, 1.5 * (c - 128) + 128))`, stored as a byte. The unclamped
      value is (3c - 128) / 2, which doubles represent exactly. */
  function ContrastChannel(c: byte): (v: byte)
    ensures 3 * c as int - 128 <= 0 ==> v == 0
    ensures 3 * c as int - 128 >= 510 ==> v == 255
    ensures 0 < 3 * c as int - 128 < 510 ==>
              2 * (2 * v as int - (3 * c as int - 128)) <= 2 && 2 * ((3 * c as int - 128) - 2 * v as int) <= 2
    ensures 0 < 3 * c as int - 128 < 510 && (3 * c as int - 128) % 2 == 1 ==> v as int % 2 == 0
  {
    var t := 3 * c as int - 128;
    if t <= 0 then 0
    else if t >= 510 then 255
    else RoundHalfEven(t, 2) as byte
  }

  function ContrastPixel(p: Pixel): Pixel
  {
    Pixel(ContrastChannel(p.r), ContrastChannel(p.g), ContrastChannel(p.b), p.a)
  }

  /** `Math.min(255, kr/1000 * r + kg/1000 * g + kb/1000 * b)` stored as a byte, with the sum
      taken as an exact rational. At an exact .5 the double sum can land just above the tie
      and round up where this rounds to even: for the pixel (1, 31, 12) the red weights give
      26.5 here, 26.500000000000004 in doubles, so the source stores 27 and the model 26. */
  function SepiaChannel(p: Pixel, kr: nat, kg: nat, kb: nat): (v: byte)
    ensures Weighted(p, kr, kg, kb) >= 255000 ==> v == 255
    ensures var s := Weighted(p, kr, kg, kb);
            s < 255000 ==> 2 * (v as int * 1000 - s) <= 1000 && 2 * (s - v as int * 1000) <= 1000
    ensures var s := Weighted(p, kr, kg, kb);
            s < 255000 && (2 * (v as int * 1000 - s) == 1000 || 2 * (s - v as int * 1000) == 1000) ==>
              v as int % 2 == 0
  {
    var s := Weighted(p, kr, kg, kb);
    if s >= 255000 then 255
    else
      var v := RoundHalfEven(s, 1000);
      assert v * 1000 <= s + 500 < 256000;
      v as byte
  }

  /** The weighted sum of a pixel's colour channels, in thousandths. */
  function Weighted(p: Pixel, kr: nat, kg: nat, kb: nat): nat
  {
    kr * p.r as int + kg * p.g as int + kb * p.b as int
  }

  /** The red channel of the pixel (1, 31, 12) is the tie 26.5, stored as the even 26. */
  lemma SepiaTieRoundsToEven(a: byte)
    ensures SepiaPixel(Pixel(1, 31, 12, a)).r == 26
  {
  }

  function SepiaPixel(p: Pixel): Pixel
  {
    Pixel(SepiaChannel(p, 393, 769, 189), SepiaChannel(p, 349, 686, 168), SepiaChannel(p, 272, 534, 131), p.a)
  }

  /** The per-pixel transform of each effect; "blur" has no case in the source and leaves the
      pixel as it is. Pixelate is not per-pixel and is handled separately. */
  function PixelEffect(e: Effect, p: Pixel): Pixel
  {
    match e
    case Grayscale => GrayscalePixel(p)
    case Invert => InvertPixel(p)
    case Sepia => SepiaPixel(p)
    case Brightness => BrightnessPixel(p)
    case Contrast => ContrastPixel(p)
    case Blur => p
    case Pixelate => p
  }

  /** Applies `f` to every pixel of `g`. */
  function MapPixels(g: Grid, f: Pixel -> Pixel): (r: Grid)
    ensures |r| == |g|
    ensures forall y :: 0 <= y < |g| ==> |r[y]| == |g[y]|
    ensures forall y, x :: 0 <= y < |g| && 0 <= x < |g[y]| ==> r[y][x] == f(g[y][x])
  {
    seq(|g|, y requires 0 <= y < |g| => seq(|g[y]|, x requires 0 <= x < |g[y]| => f(g[y][x])))
  }

  /** Side of a pixelate tile. */
  const TileSize: nat := 8

  /** The first row (or column) of the tile holding row (or column) `v`. */
  function TileStart(v: nat): (t: nat)
    ensures t <= v < t + TileSize && t % TileSize == 0
  {
    (v / TileSize) * TileSize
  }

  lemma TileStartOf(t: nat, v: nat)
    requires t % TileSize == 0 && t <= v < t + TileSize
    ensures TileStart(v) == t
  {
  }

  lemma NextTile(t: nat)
    requires t % TileSize == 0
    ensures (t + TileSize) % TileSize == 0
  {
  }

  /** The top-left pixel of the tile holding (x, y). */
  function TileCorner(g: Grid, w: nat, h: nat, x: nat, y: nat): Pixel
    requires IsGrid(g, w, h) && x < w && y < h
  {
    g[TileStart(y)][TileStart(x)]
  }

  /** Every pixel takes the value (alpha included) of the top-left pixel of its 8x8 tile;
      tiles are clipped at the canvas edge. */
  function PixelateGrid(g: Grid, w: nat, h: nat): (r: Grid)
    requires IsGrid(g, w, h)
    ensures IsGrid(r, w, h)
    ensures forall y, x :: 0 <= y < h && 0 <= x < w ==> r[y][x] == TileCorner(g, w, h, x, y)
  {
    seq(h, y requires 0 <= y < h => seq(w, x requires 0 <= x < w => g[TileStart(y)][TileStart(x)]))
  }

  /** The surface with the clipped tile whose top-left corner is (tx, ty) filled with `c`. */
  function FillTile(g: Grid, w: nat, h: nat, tx: nat, ty: nat, c: Pixel): (r: Grid)
    requires IsGrid(g, w, h)
    ensures IsGrid(r, w, h)
    ensures forall y, x :: 0 <= y < h && 0 <= x < w ==>
              r[y][x] == (if ty <= y < ty + TileSize && tx <= x < tx + TileSize then c else g[y][x])
  {
    seq(h, y requires 0 <= y < h => seq(w, x requires 0 <= x < w =>
      if ty <= y < ty + TileSize && tx <= x < tx + TileSize then c else g[y][x]))
  }

  /** The pixelated row-major prefix: rows above `ty`, plus the tiles left of `tx` in the
      band of tiles starting at row `ty`. */
  predicate Done(y: nat, x: nat, tx: nat, ty: nat)
  {
    y < ty || (y < ty + TileSize && x < tx)
  }

  /** `out` is `g` with the tiles before (tx, ty), in visiting order, already pixelated. */
  predicate PartlyPixelated(out: Grid, g: Grid, w: nat, h: nat, tx: nat, ty: nat)
  {
    && IsGrid(g, w, h) && IsGrid(out, w, h)
    && forall y, x :: 0 <= y < h && 0 <= x < w ==>
         out[y][x] == (if Done(y, x, tx, ty) then TileCorner(g, w, h, x, y) else g[y][x])
  }

  /** Filling the next tile with its (still original) top-left pixel extends the prefix. */
  lemma FillStep(out: Grid, g: Grid, w: nat, h: nat, tx: nat, ty: nat)
    requires PartlyPixelated(out, g, w, h, tx, ty)
    requires tx % TileSize == 0 && ty % TileSize == 0 && tx < w && ty < h
    ensures out[ty][tx] == g[ty][tx]
    ensures PartlyPixelated(FillTile(out, w, h, tx, ty, out[ty][tx]), g, w, h, tx + TileSize, ty)
  {
    assert !Done(ty, tx, tx, ty);
    var next := FillTile(out, w, h, tx, ty, out[ty][tx]);
    forall y, x | 0 <= y < h && 0 <= x < w
      ensures next[y][x] == (if Done(y, x, tx + TileSize, ty) then TileCorner(g, w, h, x, y) else g[y][x])
    {
      if ty <= y < ty + TileSize && tx <= x < tx + TileSize {
        TileStartOf(ty, y);
        TileStartOf(tx, x);
      } else {
        assert Done(y, x, tx + TileSize, ty) <==> Done(y, x, tx, ty);
      }
    }
  }

  /** One pass of the inner loop: read the tile's top-left pixel and fill the clipped tile
      with it. */
  method FillNextTile(out: Grid, g: Grid, w: nat, h: nat, tx: nat, ty: nat) returns (next: Grid)
    requires PartlyPixelated(out, g, w, h, tx, ty)
    requires tx % TileSize == 0 && ty % TileSize == 0 && tx < w && ty < h
    ensures PartlyPixelated(next, g, w, h, tx + TileSize, ty)
  {
    FillStep(out, g, w, h, tx, ty);
    next := FillTile(out, w, h, tx, ty, out[ty][tx]);
  }

  /** Once a band is finished, the next band starts. */
  lemma NextBand(out: Grid, g: Grid, w: nat, h: nat, tx: nat, ty: nat)
    requires PartlyPixelated(out, g, w, h, tx, ty) && tx >= w
    ensures PartlyPixelated(out, g, w, h, 0, ty + TileSize)
  {
    forall y, x | 0 <= y < h && 0 <= x < w
      ensures Done(y, x, tx, ty) == Done(y, x, 0, ty + TileSize)
    {
    }
  }

  /** The source's tile loop: tiles are visited band by band, left to right; each tile reads
      its top-left pixel and writes it over the clipped tile. */
  method PixelateTiles(g: Grid, w: nat, h: nat) returns (out: Grid)
    requires IsGrid(g, w, h)
    ensures out == PixelateGrid(g, w, h)
  {
    out := g;
    var ty: nat := 0;
    while ty < h
      invariant ty % TileSize == 0
      invariant PartlyPixelated(out, g, w, h, 0, ty)
    {
      var tx: nat := 0;
      while tx < w
        invariant tx % TileSize == 0
        invariant PartlyPixelated(out, g, w, h, tx, ty)
      {
        out := FillNextTile(out, g, w, h, tx, ty);
        NextTile(tx);
        tx := tx + TileSize;
      }
      NextBand(out, g, w, h, tx, ty);
      NextTile(ty);
      ty := ty + TileSize;
    }
    AllBandsDone(out, g, w, h, ty);
  }

  /** When the bands cover every row, the whole surface is pixelated. */
  lemma AllBandsDone(out: Grid, g: Grid, w: nat, h: nat, ty: nat)
    requires PartlyPixelated(out, g, w, h, 0, ty) && ty >= h
    ensures out == PixelateGrid(g, w, h)
  {
    var p := PixelateGrid(g, w, h);
    forall y | 0 <= y < h
      ensures out[y] == p[y]
    {
      assert forall x :: 0 <= x < w ==> Done(y, x, 0, ty);
    }
  }

  /** `applyEffect` on a `w` by `h` composited image. */
  function ApplyEffect(g: Grid, w: nat, h: nat, e: Effect): (r: Grid)
    requires IsGrid(g, w, h)
    ensures IsGrid(r, w, h)
  {
    if e == Pixelate then PixelateGrid(g, w, h) else MapPixels(g, p => PixelEffect(e, p))
  }

  /** Every effect but pixelate leaves the alpha channel untouched; blur changes nothing. */
  lemma EffectKeepsAlpha(g: Grid, w: nat, h: nat, e: Effect)
    requires IsGrid(g, w, h) && e != Pixelate
    ensures forall y, x :: 0 <= y < h && 0 <= x < w ==> ApplyEffect(g, w, h, e)[y][x].a == g[y][x].a
    ensures e == Blur ==> ApplyEffect(g, w, h, e) == g
  {
    var r := ApplyEffect(g, w, h, e);
    if e == Blur {
      forall y | 0 <= y < h
        ensures r[y] == g[y]
      {
      }
    }
  }

  /** Inverting maps each colour channel c to 255 - c, so inverting twice is the identity. */
  lemma InvertTwice(g: Grid, w: nat, h: nat)
    requires IsGrid(g, w, h)
    ensures forall y, x :: 0 <= y < h && 0 <= x < w ==>
              && ApplyEffect(g, w, h, Invert)[y][x].r as int == 255 - g[y][x].r as int
              && ApplyEffect(g, w, h, Invert)[y][x].g as int == 255 - g[y][x].g as int
              && ApplyEffect(g, w, h, Invert)[y][x].b as int == 255 - g[y][x].b as int
              && ApplyEffect(g, w, h, Invert)[y][x].a == g[y][x].a
    ensures var once := ApplyEffect(g, w, h, Invert); ApplyEffect(once, w, h, Invert) == g
  {
    var once := ApplyEffect(g, w, h, Invert);
    var twice := ApplyEffect(once, w, h, Invert);
    forall y | 0 <= y < h
      ensures twice[y] == g[y]
    {
    }
  }

  /** Grayscale makes R, G and B equal, keeps alpha, and a grey image stays as it is. */
  lemma GrayscaleIsGrey(p: Pixel)
    ensures var q := GrayscalePixel(p); q.r == q.g == q.b && q.a == p.a
    ensures p.r == p.g == p.b ==> GrayscalePixel(p) == p
  {
  }

  /** A pure red pixel becomes (85, 85, 85). */
  lemma GrayscaleOfRed(a: byte)
    ensures GrayscalePixel(Pixel(255, 0, 0, a)) == Pixel(85, 85, 85, a)
  {
  }

  /** Brightness never darkens a channel and saturates at 255. */
  lemma BrightnessBounds(p: Pixel)
    ensures var q := BrightnessPixel(p); q.r >= p.r && q.g >= p.g && q.b >= p.b && q.a == p.a
    ensures p.r >= 205 ==> BrightnessPixel(p).r == 255
  {
  }

  /** Contrast fixes the mid grey 128 and sends the extremes to 0 and 255. */
  lemma ContrastFixpoints()
    ensures ContrastChannel(128) == 128 && ContrastChannel(0) == 0 && ContrastChannel(255) == 255
    ensures ContrastChannel(129) == 130 && ContrastChannel(131) == 132
  {
  }

  /** Pixelating twice is pixelating once. */
  lemma {:induction false} PixelateIdempotent(g: Grid, w: nat, h: nat)
    requires IsGrid(g, w, h)
    ensures PixelateGrid(PixelateGrid(g, w, h), w, h) == PixelateGrid(g, w, h)
  {
    var once := PixelateGrid(g, w, h);
    var twice := PixelateGrid(once, w, h);
    forall y, x | 0 <= y < h && 0 <= x < w
      ensures twice[y][x] == once[y][x]
    {
      TileStartOf(TileStart(y), TileStart(y));
      TileStartOf(TileStart(x), TileStart(x));
    }
    forall y | 0 <= y < h
      ensures twice[y] == once[y]
    {
    }
  }
}
