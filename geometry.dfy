/**
 * The arithmetic of `resizeImage` in src/UploadBox.tsx: bound the longer side of the
 * natural image to 800 pixels without upscaling, take the square side as the shorter
 * scaled side, and centre the square in the scaled image.
 */
module Geometry {

  /** The bound on the longer side (`maxSize`). */
  const MaxSize: nat := 800

  /** Width and height of an image, in pixels. */
  datatype Dims = Dims(width: nat, height: nat)

  /** What `resizeImage` computes before it touches the canvas. Offsets may be halves. */
  datatype Plan = Plan(scaled: Dims, size: nat, offsetX: real, offsetY: real)

  /** A source rectangle handed to `drawImage`: its corner (possibly fractional) and its sides. */
  datatype Rect = Rect(x: real, y: real, w: nat, h: nat)

  function Min(a: nat, b: nat): nat { if a <= b then a else b }

  /**
   * `Math.round(a / b)` for a non-negative numerator and a positive denominator:
   * the nearest integer to a/b, halves rounded up.
   */
  function RoundDiv(a: nat, b: nat): (r: nat)
    requires b > 0
    ensures 2 * r * b <= 2 * a + b < 2 * r * b + 2 * b
  {
    var q := (2 * a + b) / (2 * b);
    DivBounds(2 * a + b, 2 * b);
    q
  }

  /** Euclidean division brackets its numerator. */
  lemma DivBounds(x: nat, d: nat)
    requires d > 0
    ensures d * (x / d) <= x < d * (x / d) + d
  {
  }

  /** The rounding bracket determines the result: `RoundDiv` is the only such integer. */
  lemma RoundDivUnique(a: nat, b: nat, r: nat)
    requires b > 0
    requires 2 * r * b <= 2 * a + b < 2 * r * b + 2 * b
    ensures RoundDiv(a, b) == r
  {
    var q := RoundDiv(a, b);
    if q < r {
      MulMono(q + 1, r, 2 * b);
    } else if r < q {
      MulMono(r + 1, q, 2 * b);
    }
  }

  lemma MulMono(x: nat, y: nat, k: nat)
    requires x <= y
    ensures x * k <= y * k
  {
  }

  /** A rounded quotient never exceeds a bound the exact quotient does not exceed. */
  lemma RoundDivAtMost(a: nat, b: nat, c: nat)
    requires b > 0
    requires a <= c * b
    ensures RoundDiv(a, b) <= c
  {
    var r := RoundDiv(a, b);
    if r > c {
      MulMono(c + 1, r, 2 * b);
    }
  }

  /** The landscape branch of lines 137-140: only the width is compared with the bound. */
  function WidthBranch(d: Dims): Dims
  {
    if d.width > MaxSize then Dims(MaxSize, RoundDiv(d.height * MaxSize, d.width)) else d
  }

  /** The other branch of lines 142-145: only the height is compared with the bound. */
  function HeightBranch(d: Dims): Dims
  {
    if d.height > MaxSize then Dims(RoundDiv(d.width * MaxSize, d.height), MaxSize) else d
  }

  /**
   * The scaled dimensions: the branch is chosen by `width > height`, strictly,
   * so a square image goes through the height branch.
   */
  function Scaled(natural: Dims): (s: Dims)
    ensures s.width <= MaxSize && s.height <= MaxSize
    ensures s.width <= natural.width && s.height <= natural.height
  {
    if natural.width > natural.height then
      BranchBounds(natural.height, natural.width);
      WidthBranch(natural)
    else
      BranchBounds(natural.width, natural.height);
      HeightBranch(natural)
  }

  /** The shorter side rescaled against a longer side over the bound stays within both bounds. */
  lemma BranchBounds(short: nat, long: nat)
    requires short <= long
    ensures long > MaxSize ==> RoundDiv(short * MaxSize, long) <= short
    ensures long > MaxSize ==> RoundDiv(short * MaxSize, long) <= MaxSize
  {
    if long > MaxSize {
      MulMono(MaxSize, long, short);
      RoundDivAtMost(short * MaxSize, long, short);
      MulMono(short, long, MaxSize);
      RoundDivAtMost(short * MaxSize, long, MaxSize);
    }
  }

  /** Lines 134-161: scale, take the square side, centre the square. */
  function ComputePlan(natural: Dims): (p: Plan)
    ensures p.scaled == Scaled(natural)
    ensures p.size <= p.scaled.width && p.size <= p.scaled.height
    ensures p.size == p.scaled.width || p.size == p.scaled.height
    ensures p.size <= MaxSize
    ensures 0.0 <= p.offsetX && 0.0 <= p.offsetY
    ensures p.offsetX == 0.0 || p.offsetY == 0.0
    ensures 2.0 * p.offsetX + p.size as real == p.scaled.width as real
    ensures 2.0 * p.offsetY + p.size as real == p.scaled.height as real
  {
    var s := Scaled(natural);
    var size := Min(s.width, s.height);
    Plan(s, size, (s.width - size) as real / 2.0, (s.height - size) as real / 2.0)
  }

  /** No upscaling: an image whose longer side is within the bound keeps its dimensions. */
  lemma NoUpscale(natural: Dims)
    requires natural.width <= MaxSize && natural.height <= MaxSize
    ensures Scaled(natural) == natural
    ensures ComputePlan(natural).size == Min(natural.width, natural.height)
  {
  }

  /**
   * A landscape image over the bound is scaled to width 800 and to the height
   * nearest to H * 800 / W (halves up).
   */
  lemma LandscapeOverBound(natural: Dims)
    requires natural.width > natural.height && natural.width > MaxSize
    ensures Scaled(natural).width == MaxSize
    ensures var W, H, h := natural.width, natural.height, Scaled(natural).height;
      2 * h * W <= 2 * H * MaxSize + W < 2 * h * W + 2 * W
  {
  }

  /**
   * A portrait or square image over the bound is scaled to height 800 and to the width
   * nearest to W * 800 / H (halves up).
   */
  lemma PortraitOverBound(natural: Dims)
    requires natural.height >= natural.width && natural.height > MaxSize
    ensures Scaled(natural).height == MaxSize
    ensures var W, H, w := natural.width, natural.height, Scaled(natural).width;
      2 * w * H <= 2 * W * MaxSize + H < 2 * w * H + 2 * H
  {
  }

  /** Rescaling a side against itself gives the bound exactly. */
  lemma RoundDivSelf(n: nat)
    requires n > 0
    ensures RoundDiv(n * MaxSize, n) == MaxSize
  {
    RoundDivUnique(n * MaxSize, n, MaxSize);
  }

  /** A square image gets the same result from either branch, so the strict `>` is harmless. */
  lemma SquareBranchesAgree(natural: Dims)
    requires natural.width == natural.height
    ensures WidthBranch(natural) == HeightBranch(natural) == Scaled(natural)
  {
    if natural.width > MaxSize {
      RoundDivSelf(natural.width);
    }
  }

  /** Running the computation again on the size-by-size canvas it produces changes nothing. */
  lemma PlanIdempotent(natural: Dims)
    ensures var p := ComputePlan(natural);
      var q := ComputePlan(Dims(p.size, p.size));
      q.size == p.size && q.scaled == Dims(p.size, p.size) && q.offsetX == 0.0 && q.offsetY == 0.0
  {
  }

  /** Rounding can make the short side 0: a 1 x 2000 image yields an empty square. */
  lemma ZeroSizeExample()
    ensures ComputePlan(Dims(1, 2000)).size == 0
  {
    RoundDivUnique(1 * MaxSize, 2000, 0);
  }

  /**
   * The source rectangle passed to `drawImage` at line 163: the offsets and side are
   * computed in scaled coordinates but `drawImage` reads them in the image's natural
   * pixel coordinates. The rectangle always lies inside the natural image.
   */
  function DrawSourceRect(natural: Dims): (r: Rect)
    ensures r.w == r.h == ComputePlan(natural).size
    ensures 0.0 <= r.x && r.x + r.w as real <= natural.width as real
    ensures 0.0 <= r.y && r.y + r.h as real <= natural.height as real
  {
    var p := ComputePlan(natural);
    Rect(p.offsetX, p.offsetY, p.size, p.size)
  }

  /**
   * As written, a downscaled 1600 x 800 image is drawn from the natural rectangle
   * (200, 0, 400, 400): a quarter of the height, off the horizontal centre, and
   * not downscaled at all.
   */
  lemma DrawSourceRectOffCentre()
    ensures var n := Dims(1600, 800);
      var r := DrawSourceRect(n);
      r == Rect(200.0, 0.0, 400, 400)
      && 2.0 * r.x + r.w as real != n.width as real
      && r.w < Min(n.width, n.height)
  {
    RoundDivUnique(800 * MaxSize, 1600, 400);
  }

  /**
   * The evidently intended source rectangle: the largest square of the natural image,
   * centred in it, which `drawImage` then scales onto the size-by-size canvas.
   */
  function CentredSourceRect(natural: Dims): (r: Rect)
    ensures r.w == r.h == Min(natural.width, natural.height)
    ensures 2.0 * r.x + r.w as real == natural.width as real
    ensures 2.0 * r.y + r.h as real == natural.height as real
    ensures r.x == 0.0 || r.y == 0.0
    ensures ComputePlan(natural).size <= r.w
  {
    var side := Min(natural.width, natural.height);
    Rect((natural.width - side) as real / 2.0, (natural.height - side) as real / 2.0, side, side)
  }

  /** When nothing was downscaled the two rectangles coincide. */
  lemma DrawSourceRectCentredWhenUnscaled(natural: Dims)
    requires natural.width <= MaxSize && natural.height <= MaxSize
    ensures DrawSourceRect(natural) == CentredSourceRect(natural)
  {
  }

  /** When a side was downscaled the two rectangles differ: the bug shows on every such image. */
  lemma DrawSourceRectOffWhenScaled(natural: Dims)
    requires natural.width > MaxSize || natural.height > MaxSize
    ensures DrawSourceRect(natural) != CentredSourceRect(natural)
  {
    if natural.width > natural.height {
      LandscapeOverBound(natural);
    } else {
      PortraitOverBound(natural);
    }
  }
}
