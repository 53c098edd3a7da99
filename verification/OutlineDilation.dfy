/** Drawing one caption glyph: a black outline that is the glyph's coverage dilated by a disc, then the white fill. */
module OutlineDilation {

  // ----- Pixels -----

  /** Channels are bytes. */
  type Byte = n: int | 0 <= n < 256

  datatype Rgba = Rgba(r: Byte, g: Byte, b: Byte, a: Byte)

  /** One channel over an opaque background. The 16-bit intermediate never overflows. */
  function BlendChannel(bg: Byte, fg: Byte, a: Byte): (c: Byte)
    ensures 0 <= bg * (255 - a) + fg * a <= 0xffff
    ensures bg <= fg ==> bg <= c <= fg
    ensures fg <= bg ==> fg <= c <= bg
    ensures a == 0 ==> c == bg
    ensures a == 255 ==> c == fg
    ensures 255 * c <= bg * (255 - a) + fg * a < 255 * c + 255
  {
    BlendBounds(bg, fg, a);
    (bg * (255 - a) + fg * a) / 255
  }

  lemma {:induction false} MulMonotone(x: int, y: int, k: int)
    requires x <= y && k >= 0
    ensures x * k <= y * k
  {
  }

  lemma {:induction false} BlendBounds(bg: Byte, fg: Byte, a: Byte)
    ensures 0 <= bg * (255 - a) + fg * a <= 0xffff
    ensures bg <= fg ==> 255 * bg <= bg * (255 - a) + fg * a <= 255 * fg
    ensures fg <= bg ==> 255 * fg <= bg * (255 - a) + fg * a <= 255 * bg
  {
    assert bg * (255 - a) + bg * a == 255 * bg;
    assert fg * (255 - a) + fg * a == 255 * fg;
    if bg <= fg {
      MulMonotone(bg, fg, a);
      MulMonotone(bg, fg, 255 - a);
    } else {
      MulMonotone(fg, bg, a);
      MulMonotone(fg, bg, 255 - a);
    }
  }

  function Blend(bg: Rgba, fg: Rgba): Rgba {
    Rgba(BlendChannel(bg.r, fg.r, fg.a), BlendChannel(bg.g, fg.g, fg.a), BlendChannel(bg.b, fg.b, fg.a), 255)
  }

  /** `(v * 255.0) as u8`. */
  function Alpha(v: real): (a: Byte)
    requires 0.0 <= v <= 1.0
    ensures a as real <= v * 255.0 < a as real + 1.0
  {
    (v * 255.0).Floor
  }

  // ----- Coverage maps and their dilation -----

  /** A row-major map of `bw` by `bh` values in [0, 1]. */
  predicate Coverage(cov: seq<real>, bw: nat, bh: nat) {
    |cov| == bw * bh && forall i :: 0 <= i < |cov| ==> 0.0 <= cov[i] <= 1.0
  }

  predicate InMap(bw: nat, bh: nat, x: int, y: int) {
    0 <= x < bw && 0 <= y < bh
  }

  lemma {:induction false} IndexInBounds(bw: nat, bh: nat, x: int, y: int)
    requires InMap(bw, bh, x, y)
    ensures 0 <= y * bw + x < bw * bh
  {
    assert (y + 1) * bw <= bh * bw;
  }

  function Cell(cov: seq<real>, bw: nat, bh: nat, x: int, y: int): (v: real)
    requires Coverage(cov, bw, bh) && InMap(bw, bh, x, y)
    ensures 0.0 <= v <= 1.0
  {
    IndexInBounds(bw, bh, x, y);
    cov[y * bw + x]
  }

  predicate InDisc(r: int, dx: int, dy: int) {
    dx * dx + dy * dy <= r * r
  }

  /** `m` is the largest coverage within distance `r` of `(ox, oy)`, or zero if there is none. */
  ghost predicate IsDilation(cov: seq<real>, bw: nat, bh: nat, r: int, ox: int, oy: int, m: real)
    requires Coverage(cov, bw, bh)
  {
    && (forall x, y :: InMap(bw, bh, x, y) && InDisc(r, x - ox, y - oy) ==> Cell(cov, bw, bh, x, y) <= m)
    && (m == 0.0 || exists x, y :: InMap(bw, bh, x, y) && InDisc(r, x - ox, y - oy) && Cell(cov, bw, bh, x, y) == m)
    && 0.0 <= m <= 1.0
  }

  lemma {:induction false} DilationUnique(cov: seq<real>, bw: nat, bh: nat, r: int, ox: int, oy: int, m: real,
                                           m': real)
    requires Coverage(cov, bw, bh)
    requires IsDilation(cov, bw, bh, r, ox, oy, m) && IsDilation(cov, bw, bh, r, ox, oy, m')
    ensures m == m'
  {
  }

  /** Maximum over the disc's part of row `y`, columns below `n`. */
  function RowMax(cov: seq<real>, bw: nat, bh: nat, r: int, ox: int, oy: int, y: nat, n: nat): real
    requires Coverage(cov, bw, bh) && y < bh && n <= bw
  {
    if n == 0 then 0.0
    else
      var rest := RowMax(cov, bw, bh, r, ox, oy, y, n - 1);
      var v := Cell(cov, bw, bh, n - 1, y);
      if InDisc(r, n - 1 - ox, y - oy) && v > rest then v else rest
  }

  function RowsMax(cov: seq<real>, bw: nat, bh: nat, r: int, ox: int, oy: int, n: nat): real
    requires Coverage(cov, bw, bh) && n <= bh
  {
    if n == 0 then 0.0
    else
      var rest := RowsMax(cov, bw, bh, r, ox, oy, n - 1);
      var row := RowMax(cov, bw, bh, r, ox, oy, n - 1, bw);
      if row > rest then row else rest
  }

  /** The dilated map at any offset, inside the coverage map or not. */
  function Dilation(cov: seq<real>, bw: nat, bh: nat, r: int, ox: int, oy: int): real
    requires Coverage(cov, bw, bh)
  {
    RowsMax(cov, bw, bh, r, ox, oy, bh)
  }

  lemma {:induction false} RowMaxIs(cov: seq<real>, bw: nat, bh: nat, r: int, ox: int, oy: int, y: nat, n: nat)
    requires Coverage(cov, bw, bh) && y < bh && n <= bw
    ensures var m := RowMax(cov, bw, bh, r, ox, oy, y, n);
      && 0.0 <= m <= 1.0
      && (forall x :: 0 <= x < n && InDisc(r, x - ox, y - oy) ==> Cell(cov, bw, bh, x, y) <= m)
      && (m == 0.0 || exists x :: 0 <= x < n && InDisc(r, x - ox, y - oy) && Cell(cov, bw, bh, x, y) == m)
  {
    hide InDisc;
    if n > 0 { RowMaxIs(cov, bw, bh, r, ox, oy, y, n - 1); }
  }

  lemma {:induction false} RowsMaxIs(cov: seq<real>, bw: nat, bh: nat, r: int, ox: int, oy: int, n: nat)
    requires Coverage(cov, bw, bh) && n <= bh
    ensures var m := RowsMax(cov, bw, bh, r, ox, oy, n);
      && 0.0 <= m <= 1.0
      && (forall x, y :: InMap(bw, n, x, y) && InDisc(r, x - ox, y - oy) ==> Cell(cov, bw, bh, x, y) <= m)
      && (m == 0.0 || exists x, y :: InMap(bw, n, x, y) && InDisc(r, x - ox, y - oy) && Cell(cov, bw, bh, x, y) == m)
  {
    hide InDisc, RowMax, Cell;
    if n > 0 {
      RowsMaxIs(cov, bw, bh, r, ox, oy, n - 1);
      RowMaxIs(cov, bw, bh, r, ox, oy, n - 1, bw);
      var m := RowsMax(cov, bw, bh, r, ox, oy, n);
      forall x, y | InMap(bw, n, x, y) && InDisc(r, x - ox, y - oy) ensures Cell(cov, bw, bh, x, y) <= m {
        if y < n - 1 { assert InMap(bw, n - 1, x, y); }
      }
      if m == RowMax(cov, bw, bh, r, ox, oy, n - 1, bw) && m != 0.0 {
        var x :| 0 <= x < bw && InDisc(r, x - ox, n - 1 - oy) && Cell(cov, bw, bh, x, n - 1) == m;
        assert InMap(bw, n, x, n - 1);
      } else if m != 0.0 {
        var x, y :| InMap(bw, n - 1, x, y) && InDisc(r, x - ox, y - oy) && Cell(cov, bw, bh, x, y) == m;
        assert InMap(bw, n, x, y);
      }
    }
  }

  /** The dilation is the exact maximum over the disc. */
  lemma {:induction false} DilationIsDiscMax(cov: seq<real>, bw: nat, bh: nat, r: int, ox: int, oy: int)
    requires Coverage(cov, bw, bh)
    ensures IsDilation(cov, bw, bh, r, ox, oy, Dilation(cov, bw, bh, r, ox, oy))
  {
    hide RowsMax, InDisc, Cell;
    RowsMaxIs(cov, bw, bh, r, ox, oy, bh);
  }

  lemma {:induction false} LongerSquare(r: int, d: int)
    requires r >= 0 && !(-r <= d <= r)
    ensures r * r < d * d
  {
    var e := if d < 0 then -d else d;
    assert e * e == d * d;
    MulMonotone(r + 1, e, e);
    MulMonotone(r + 1, e, r + 1);
    assert (r + 1) * (r + 1) == r * r + 2 * r + 1;
  }

  lemma {:induction false} SquareNonNegative(d: int)
    ensures 0 <= d * d
  {
  }

  lemma {:induction false} DiscInSquare(r: int, dx: int, dy: int)
    requires r >= 0 && InDisc(r, dx, dy)
    ensures -r <= dx <= r && -r <= dy <= r
  {
    SquareNonNegative(dx);
    SquareNonNegative(dy);
    if !(-r <= dx <= r) { LongerSquare(r, dx); }
    if !(-r <= dy <= r) { LongerSquare(r, dy); }
  }

  /** Outside the rectangle that the outline pass scans. */
  predicate Beyond(bw: nat, bh: nat, r: int, ox: int, oy: int) {
    !(-r <= ox < bw + r && -r <= oy < bh + r)
  }

  /** Outside the scanned rectangle the dilation vanishes. */
  lemma {:induction false} NothingOutsideScan(cov: seq<real>, bw: nat, bh: nat, r: int, ox: int, oy: int)
    requires Coverage(cov, bw, bh) && r >= 0
    requires Beyond(bw, bh, r, ox, oy)
    ensures Dilation(cov, bw, bh, r, ox, oy) == 0.0
  {
    hide Dilation, InDisc, Cell;
    DilationIsDiscMax(cov, bw, bh, r, ox, oy);
    if Dilation(cov, bw, bh, r, ox, oy) != 0.0 {
      var x, y :| InMap(bw, bh, x, y) && InDisc(r, x - ox, y - oy)
                  && Cell(cov, bw, bh, x, y) == Dilation(cov, bw, bh, r, ox, oy);
      DiscInSquare(r, x - ox, y - oy);
      assert false;
    }
  }

  // ----- The loops -----

  /** Every in-disc cell in the rows before `oy + dy`, and in that row before column `ox + dx`, is at most `m`. */
  ghost predicate ScannedBelow(cov: seq<real>, bw: nat, bh: nat, r: int, ox: int, oy: int, dx: int, dy: int, m: real)
    requires Coverage(cov, bw, bh)
  {
    forall x, y :: InMap(bw, bh, x, y) && InDisc(r, x - ox, y - oy) && (y < oy + dy || (y == oy + dy && x < ox + dx))
                   ==> Cell(cov, bw, bh, x, y) <= m
  }

  /** Zero, or the coverage of some cell in the disc. */
  ghost predicate Attained(cov: seq<real>, bw: nat, bh: nat, r: int, ox: int, oy: int, m: real)
    requires Coverage(cov, bw, bh)
  {
    0.0 <= m <= 1.0
    && (m == 0.0 || exists x, y :: InMap(bw, bh, x, y) && InDisc(r, x - ox, y - oy) && Cell(cov, bw, bh, x, y) == m)
  }

  lemma {:induction false} NothingBelow(cov: seq<real>, bw: nat, bh: nat, r: int, ox: int, oy: int)
    requires Coverage(cov, bw, bh) && r >= 0
    ensures ScannedBelow(cov, bw, bh, r, ox, oy, -r, -r, 0.0)
  {
    hide InDisc, Cell;
    forall x, y | InMap(bw, bh, x, y) && InDisc(r, x - ox, y - oy) ensures -r <= y - oy && -r <= x - ox {
      DiscInSquare(r, x - ox, y - oy);
    }
  }

  lemma {:induction false} ColumnDone(cov: seq<real>, bw: nat, bh: nat, r: int, ox: int, oy: int, dx: int, dy: int,
                                      m: real, m': real)
    requires Coverage(cov, bw, bh) && ScannedBelow(cov, bw, bh, r, ox, oy, dx, dy, m) && m <= m'
    requires InMap(bw, bh, ox + dx, oy + dy) && InDisc(r, dx, dy) ==> Cell(cov, bw, bh, ox + dx, oy + dy) <= m'
    ensures ScannedBelow(cov, bw, bh, r, ox, oy, dx + 1, dy, m')
  {
    hide InDisc, Cell;
    assert ox + dx - ox == dx && oy + dy - oy == dy;
  }

  lemma {:induction false} RowDone(cov: seq<real>, bw: nat, bh: nat, r: int, ox: int, oy: int, dx: int, dy: int,
                                   m: real)
    requires Coverage(cov, bw, bh) && r >= 0 && ScannedBelow(cov, bw, bh, r, ox, oy, dx, dy, m)
    requires dx == r + 1 || !(0 <= oy + dy < bh)
    ensures ScannedBelow(cov, bw, bh, r, ox, oy, -r, dy + 1, m)
  {
    hide InDisc, Cell;
    forall x, y | InMap(bw, bh, x, y) && InDisc(r, x - ox, y - oy) ensures -r <= x - ox <= r {
      DiscInSquare(r, x - ox, y - oy);
    }
  }

  /** A scan that ran to the end, or stopped at full coverage, found the dilation. */
  lemma {:induction false} ScanComplete(cov: seq<real>, bw: nat, bh: nat, r: int, ox: int, oy: int, m: real)
    requires Coverage(cov, bw, bh) && r >= 0
    ensures Attained(cov, bw, bh, r, ox, oy, m) && (m >= 1.0 || ScannedBelow(cov, bw, bh, r, ox, oy, -r, r + 1, m))
            ==> m == Dilation(cov, bw, bh, r, ox, oy)
  {
    hide InDisc, Dilation, Cell;
    if Attained(cov, bw, bh, r, ox, oy, m) && (m >= 1.0 || ScannedBelow(cov, bw, bh, r, ox, oy, -r, r + 1, m)) {
      forall x, y | InMap(bw, bh, x, y) && InDisc(r, x - ox, y - oy) ensures Cell(cov, bw, bh, x, y) <= m {
        DiscInSquare(r, x - ox, y - oy);
      }
      DilationIsDiscMax(cov, bw, bh, r, ox, oy);
      DilationUnique(cov, bw, bh, r, ox, oy, m, Dilation(cov, bw, bh, r, ox, oy));
    }
  }

  /** The inner loops, with their early exit once the coverage is saturated. */
  method DiscMax(cov: array<real>, bw: nat, bh: nat, r: int, ox: int, oy: int) returns (max: real)
    requires Coverage(cov[..], bw, bh) && r >= 0
    ensures max == Dilation(cov[..], bw, bh, r, ox, oy)
  {
    hide Dilation, ScannedBelow;
    ghost var all := cov[..];
    max := 0.0;
    var dy := -r;
    NothingBelow(all, bw, bh, r, ox, oy);
    label disc:
    while dy <= r
      invariant -r <= dy <= r + 1
      invariant ScannedBelow(all, bw, bh, r, ox, oy, -r, dy, max)
      invariant Attained(all, bw, bh, r, ox, oy, max)
    {
      var sy := oy + dy;
      if sy < 0 || sy >= bh {
        RowDone(all, bw, bh, r, ox, oy, -r, dy, max);
        dy := dy + 1;
        continue;
      }
      var dx := -r;
      while dx <= r
        invariant -r <= dx <= r + 1
        invariant ScannedBelow(all, bw, bh, r, ox, oy, dx, dy, max)
        invariant Attained(all, bw, bh, r, ox, oy, max)
      {
        var sx := ox + dx;
        ghost var before := max;
        if dx * dx + dy * dy <= r * r && 0 <= sx < bw {
          IndexInBounds(bw, bh, sx, sy);
          var v := cov[sy * bw + sx];
          assert v == Cell(all, bw, bh, sx, sy) && InDisc(r, sx - ox, sy - oy);
          if v > max {
            max := v;
            if max >= 1.0 { break disc; }
          }
        }
        ColumnDone(all, bw, bh, r, ox, oy, dx, dy, before, max);
        dx := dx + 1;
      }
      RowDone(all, bw, bh, r, ox, oy, dx, dy, max);
      dy := dy + 1;
    }
    ScanComplete(all, bw, bh, r, ox, oy, max);
  }

  // ----- Painting -----

  function Outlined(bg: Rgba, dilated: real): Rgba
    requires 0.0 <= dilated <= 1.0
  {
    if dilated > 0.05 then Blend(bg, Rgba(0, 0, 0, Alpha(dilated))) else bg
  }

  function Filled(bg: Rgba, v: real): Rgba
    requires 0.0 <= v <= 1.0
  {
    if v > 0.0 then Blend(bg, Rgba(255, 255, 255, Alpha(v))) else bg
  }

  /** The glyph's own coverage at an offset, zero outside its box. */
  function CoverageAt(cov: seq<real>, bw: nat, bh: nat, ox: int, oy: int): (v: real)
    requires Coverage(cov, bw, bh)
    ensures 0.0 <= v <= 1.0
  {
    if InMap(bw, bh, ox, oy) then Cell(cov, bw, bh, ox, oy) else 0.0
  }

  /** Dilation as a value that can be painted. */
  function Halo(cov: seq<real>, bw: nat, bh: nat, r: int, ox: int, oy: int): (v: real)
    requires Coverage(cov, bw, bh)
    ensures 0.0 <= v <= 1.0 && v == Dilation(cov, bw, bh, r, ox, oy)
  {
    DilationIsDiscMax(cov, bw, bh, r, ox, oy);
    Dilation(cov, bw, bh, r, ox, oy)
  }

  /**
   * The outline pass. Every pixel of the image ends up composited exactly once with the dilation at its offset:
   * none is missed by the scanned rectangle and none is blended twice.
   */
  method OutlinePass(img: array2<Rgba>, cov: array<real>, bw: nat, bh: nat, left: int, top: int, r: int)
    requires Coverage(cov[..], bw, bh) && r >= 0
    modifies img
    ensures forall x, y :: 0 <= x < img.Length0 && 0 <= y < img.Length1 ==>
              img[x, y] == Outlined(old(img[x, y]), Halo(cov[..], bw, bh, r, x - left, y - top))
  {
    hide Halo, Outlined;
    ghost var all := cov[..];
    forall ox, oy | Beyond(bw, bh, r, ox, oy) ensures forall bg :: Outlined(bg, Halo(all, bw, bh, r, ox, oy)) == bg {
      Untouched(all, bw, bh, r, ox, oy);
    }
    var oy := -r;
    while oy < bh + r
      invariant -r <= oy <= bh + r && cov[..] == all
      invariant forall x, y :: 0 <= x < img.Length0 && 0 <= y < img.Length1 ==>
                  img[x, y] == if y - top < oy then Outlined(old(img[x, y]), Halo(all, bw, bh, r, x - left, y - top))
                               else old(img[x, y])
    {
      var ox := -r;
      while ox < bw + r
        invariant -r <= ox <= bw + r && cov[..] == all
        invariant forall x, y :: 0 <= x < img.Length0 && 0 <= y < img.Length1 ==>
                    img[x, y] == if y - top < oy || (y - top == oy && x - left < ox)
                                 then Outlined(old(img[x, y]), Halo(all, bw, bh, r, x - left, y - top))
                                 else old(img[x, y])
      {
        var px, py := left + ox, top + oy;
        if 0 <= px < img.Length0 && 0 <= py < img.Length1 {
          var max := DiscMax(cov, bw, bh, r, ox, oy);
          OutlinedValue(all, bw, bh, r, ox, oy, max, img[px, py]);
          if max > 0.05 {
            img[px, py] := Blend(img[px, py], Rgba(0, 0, 0, Alpha(max)));
          }
        }
        ox := ox + 1;
      }
      oy := oy + 1;
    }
  }

  lemma {:induction false} Untouched(cov: seq<real>, bw: nat, bh: nat, r: int, ox: int, oy: int)
    requires Coverage(cov, bw, bh) && r >= 0
    requires Beyond(bw, bh, r, ox, oy)
    ensures forall bg :: Outlined(bg, Halo(cov, bw, bh, r, ox, oy)) == bg
  {
    hide Dilation;
    NothingOutsideScan(cov, bw, bh, r, ox, oy);
  }

  lemma {:induction false} OutlinedValue(cov: seq<real>, bw: nat, bh: nat, r: int, ox: int, oy: int, m: real, bg: Rgba)
    requires Coverage(cov, bw, bh) && m == Dilation(cov, bw, bh, r, ox, oy)
    ensures 0.0 <= m <= 1.0 && m == Halo(cov, bw, bh, r, ox, oy)
    ensures Outlined(bg, Halo(cov, bw, bh, r, ox, oy)) == if m > 0.05 then Blend(bg, Rgba(0, 0, 0, Alpha(m))) else bg
  {
    hide Dilation;
    assert 0.0 <= Halo(cov, bw, bh, r, ox, oy) <= 1.0;
  }

  /** The fill pass: white over the outline, weighted with the undilated coverage. */
  method FillPass(img: array2<Rgba>, cov: array<real>, bw: nat, bh: nat, left: int, top: int)
    requires Coverage(cov[..], bw, bh)
    modifies img
    ensures forall x, y :: 0 <= x < img.Length0 && 0 <= y < img.Length1 ==>
              img[x, y] == Filled(old(img[x, y]), CoverageAt(cov[..], bw, bh, x - left, y - top))
  {
    hide Blend;
    ghost var all := cov[..];
    for gy := 0 to bh
      invariant cov[..] == all
      invariant forall x, y :: 0 <= x < img.Length0 && 0 <= y < img.Length1 ==>
                  img[x, y] == if y - top < gy then Filled(old(img[x, y]), CoverageAt(all, bw, bh, x - left, y - top))
                               else old(img[x, y])
    {
      for gx := 0 to bw
        invariant cov[..] == all
        invariant forall x, y :: 0 <= x < img.Length0 && 0 <= y < img.Length1 ==>
                    img[x, y] == if y - top < gy || (y - top == gy && x - left < gx)
                                 then Filled(old(img[x, y]), CoverageAt(all, bw, bh, x - left, y - top))
                                 else old(img[x, y])
      {
        IndexInBounds(bw, bh, gx, gy);
        var v := cov[gy * bw + gx];
        assert v == CoverageAt(all, bw, bh, gx, gy);
        var px, py := left + gx, top + gy;
        if v > 0.0 && 0 <= px < img.Length0 && 0 <= py < img.Length1 {
          img[px, py] := Blend(img[px, py], Rgba(255, 255, 255, Alpha(v)));
        }
      }
    }
  }

  /** One glyph: outline, then fill. */
  method DrawGlyph(img: array2<Rgba>, cov: array<real>, bw: nat, bh: nat, left: int, top: int, r: int)
    requires Coverage(cov[..], bw, bh) && r >= 0
    modifies img
    ensures forall x, y :: 0 <= x < img.Length0 && 0 <= y < img.Length1 ==>
              img[x, y] == Painted(old(img[x, y]), cov[..], bw, bh, r, x - left, y - top)
  {
    hide Halo, Outlined, Filled, CoverageAt;
    OutlinePass(img, cov, bw, bh, left, top, r);
    FillPass(img, cov, bw, bh, left, top);
  }

  function Painted(bg: Rgba, cov: seq<real>, bw: nat, bh: nat, r: int, ox: int, oy: int): Rgba
    requires Coverage(cov, bw, bh)
  {
    Filled(Outlined(bg, Halo(cov, bw, bh, r, ox, oy)), CoverageAt(cov, bw, bh, ox, oy))
  }

  // ----- What the viewer sees -----

  /** No pixel's own coverage exceeds its halo: the disc includes its centre. */
  lemma {:induction false} CoverageWithinHalo(cov: seq<real>, bw: nat, bh: nat, r: int, ox: int, oy: int)
    requires Coverage(cov, bw, bh)
    ensures CoverageAt(cov, bw, bh, ox, oy) <= Halo(cov, bw, bh, r, ox, oy)
  {
    hide Dilation, Cell;
    DilationIsDiscMax(cov, bw, bh, r, ox, oy);
    SquareNonNegative(r);
    assert InDisc(r, ox - ox, oy - oy);
  }

  lemma {:induction false} WhiteBrightens(bg: Byte, a: Byte)
    ensures bg <= BlendChannel(bg, 255, a) <= bg + a
  {
    assert bg * (255 - a) + 255 * a == 255 * bg + (255 - bg) * a;
    MulMonotone(255 - bg, 255, a);
  }

  /**
   * What each pixel becomes. In reach of full coverage it is the grey of its own coverage, from black to white,
   * whatever lay beneath. Where nothing above the threshold is in reach there is no outline, and the fill, its own
   * coverage being no larger, brightens it by at most 12 of 255 steps, and not at all when nothing is in reach. An
   * uncovered pixel is only ever darkened, and the fill only ever brightens.
   */
  lemma {:induction false} GlyphContrast(bg: Rgba, cov: seq<real>, bw: nat, bh: nat, r: int, ox: int, oy: int)
    requires Coverage(cov, bw, bh)
    ensures var v, halo := CoverageAt(cov, bw, bh, ox, oy), Halo(cov, bw, bh, r, ox, oy);
      var pixel := Painted(bg, cov, bw, bh, r, ox, oy);
      && v <= halo
      && (halo == 1.0 ==> pixel == Rgba(Alpha(v), Alpha(v), Alpha(v), 255))
      && (halo == 0.0 || (halo <= 0.05 && v == 0.0) ==> pixel == bg)
      && (halo <= 0.05 ==>
            bg.r <= pixel.r <= bg.r + 12 && bg.g <= pixel.g <= bg.g + 12 && bg.b <= pixel.b <= bg.b + 12)
      && (v == 0.0 ==> pixel.r <= bg.r && pixel.g <= bg.g && pixel.b <= bg.b)
      && var outlined := Outlined(bg, halo);
         pixel.r >= outlined.r && pixel.g >= outlined.g && pixel.b >= outlined.b
  {
    hide Halo, CoverageAt;
    CoverageWithinHalo(cov, bw, bh, r, ox, oy);
    var v := CoverageAt(cov, bw, bh, ox, oy);
    assert Alpha(1.0) == 255 && Alpha(0.0) == 0;
    assert v <= 0.05 ==> Alpha(v) <= 12;
    WhiteBrightens(bg.r, Alpha(v));
    WhiteBrightens(bg.g, Alpha(v));
    WhiteBrightens(bg.b, Alpha(v));
  }

  lemma {:induction false} BlackDarkens(bg: Byte, a: Byte)
    requires a >= 1
    ensures bg > 0 ==> BlendChannel(bg, 0, a) < bg
  {
    MulMonotone(255 - a, 254, bg);
  }

  /** An uncovered pixel that is not black keeps its colour exactly when no coverage above the threshold is in reach. */
  lemma {:induction false} UntouchedIff(bg: Rgba, cov: seq<real>, bw: nat, bh: nat, r: int, ox: int, oy: int)
    requires Coverage(cov, bw, bh) && CoverageAt(cov, bw, bh, ox, oy) == 0.0
    requires bg.a == 255 && bg != Rgba(0, 0, 0, 255)
    ensures Painted(bg, cov, bw, bh, r, ox, oy) == bg <==> Halo(cov, bw, bh, r, ox, oy) <= 0.05
  {
    hide Halo, CoverageAt, BlendChannel;
    var halo := Halo(cov, bw, bh, r, ox, oy);
    if halo > 0.05 {
      assert Alpha(halo) >= 1;
      BlackDarkens(bg.r, Alpha(halo));
      BlackDarkens(bg.g, Alpha(halo));
      BlackDarkens(bg.b, Alpha(halo));
    }
  }
}
