/**
  The box arithmetic of resize (internal/imageproc/transform.go) over exact rationals (`real`), and the
  parameter range that Parse guarantees (internal/imageproc/params.go).
*/
module Resize {
  import opened Sums

  const MAX_DIM := 4096
  const DEFAULT_MAX_DIM := 2048

  datatype Fit = ScaleDown | Contain | Cover | Fill

  datatype Params = Params(width: int, height: int, dpr: real, fit: Fit)

  /** What Parse lets through: sides 0 (absent) or 1..4096, dpr 0.5..3. */
  predicate Parsed(p: Params) {
    0 <= p.width <= MAX_DIM && 0 <= p.height <= MAX_DIM && 0.5 <= p.dpr <= 3.0
  }

  /** The source returned as it is, or a crop of it scaled to w x h. */
  datatype Output =
    | Untouched
    | Scaled(x0: int, y0: int, cropW: int, cropH: int, w: int, h: int)

  /** int(x + 0.5) for non-negative x. */
  function Round(x: real): int {
    (x + 0.5).Floor
  }

  function ScaleDim(dim: int, dpr: real): int {
    if dim == 0 then 0 else Min(Round(dim as real * dpr), MAX_DIM)
  }

  /** The sides asked for, after dpr and the default cap (0 = not asked for); (0, 0) leaves the image alone. */
  function Asked(sw: int, sh: int, p: Params): (int, int) {
    var w, h := ScaleDim(p.width, p.dpr), ScaleDim(p.height, p.dpr);
    if w == 0 && h == 0 then
      if sw <= DEFAULT_MAX_DIM && sh <= DEFAULT_MAX_DIM then (0, 0)
      else if sw >= sh then (DEFAULT_MAX_DIM, 0)
      else (0, DEFAULT_MAX_DIM)
    else (w, h)
  }

  /** The box with a missing side derived from the aspect ratio. */
  function Box(sw: int, sh: int, askedW: int, askedH: int): (r: (int, int))
    requires 0 < sw && 0 < sh
  {
    var w := if askedW == 0 then Max(1, sw * askedH / sh) else askedW;
    var h := if askedH == 0 then Max(1, sh * w / sw) else askedH;
    (w, h)
  }

  function CropSize(sw: int, sh: int, w: int, h: int): (int, int)
    requires 0 < w && 0 < h
  {
    if sw * h > sh * w then (Max(1, sh * w / h), sh) else (sw, Max(1, sw * h / w))
  }

  function Ratio(sw: int, sh: int, askedW: int, askedH: int): real
    requires 0 < sw && 0 < sh
  {
    var rw, rh := askedW as real / sw as real, askedH as real / sh as real;
    if askedW > 0 && askedH > 0 then (if rw <= rh then rw else rh)
    else if askedW > 0 then rw
    else rh
  }

  function Times(side: int, ratio: real): real {
    side as real * ratio
  }

  /** A source side scaled and rounded, at least 1. */
  function Side(side: int, ratio: real): int {
    Max(1, Round(Times(side, ratio)))
  }

  function Resize(sw: int, sh: int, p: Params): Output
    requires 0 < sw && 0 < sh && Parsed(p)
  {
    AskedRange(sw, sh, p);
    var (askedW, askedH) := Asked(sw, sh, p);
    if askedW == 0 && askedH == 0 then Untouched
    else
      var (w, h) := Box(sw, sh, askedW, askedH);
      BoxPositive(sw, sh, askedW, askedH);
      match p.fit
      case Fill => Scaled(0, 0, sw, sh, w, h)
      case Cover =>
        var (cw, ch) := CropSize(sw, sh, w, h);
        Scaled((sw - cw) / 2, (sh - ch) / 2, cw, ch, w, h)
      case _ =>
        var ratio := Ratio(sw, sh, askedW, askedH);
        if p.fit.ScaleDown? && ratio >= 1.0 then Untouched
        else Scaled(0, 0, sw, sh, Side(sw, ratio), Side(sh, ratio))
  }

  // ----- ScaleDim -----

  /** A requested side never becomes zero: from dpr 1/2 on it stays between 1 and MAX_DIM. */
  lemma ScaleDimRange(dim: int, dpr: real)
    requires 1 <= dim && 0.5 <= dpr
    ensures 1 <= ScaleDim(dim, dpr) <= MAX_DIM
  {
    RealMulMono(1.0, dim as real, dpr);
  }

  lemma AskedRange(sw: int, sh: int, p: Params)
    requires Parsed(p)
    ensures var (w, h) := Asked(sw, sh, p);
            0 <= w <= MAX_DIM && 0 <= h <= MAX_DIM
  {
    if p.width >= 1 { ScaleDimRange(p.width, p.dpr); }
    if p.height >= 1 { ScaleDimRange(p.height, p.dpr); }
  }

  lemma BoxPositive(sw: int, sh: int, askedW: int, askedH: int)
    requires 0 < sw && 0 < sh && 0 <= askedW && 0 <= askedH && (askedW > 0 || askedH > 0)
    ensures var (w, h) := Box(sw, sh, askedW, askedH); 0 < w && 0 < h
  {
  }

  // ----- rounding -----

  lemma RealMulMono(a: real, b: real, c: real)
    requires a <= b && 0.0 <= c
    ensures a * c <= b * c
  {
  }

  lemma DivMul(a: real, s: real)
    requires s > 0.0
    ensures s * (a / s) == a
  {
  }

  lemma RoundClose(x: real)
    ensures -0.5 <= Round(x) as real - x <= 0.5
  {
  }

  lemma RatioFits(sw: int, sh: int, aw: int, ah: int)
    requires 0 < sw && 0 < sh && 0 <= aw && 0 <= ah && (aw > 0 || ah > 0)
    ensures var r := Ratio(sw, sh, aw, ah);
            && (aw > 0 ==> Times(sw, r) <= aw as real)
            && (ah > 0 ==> Times(sh, r) <= ah as real)
            && ((aw > 0 && Times(sw, r) == aw as real) || (ah > 0 && Times(sh, r) == ah as real))
  {
    var rw, rh := aw as real / sw as real, ah as real / sh as real;
    DivMul(aw as real, sw as real);
    DivMul(ah as real, sh as real);
    if aw > 0 && ah > 0 {
      if rw <= rh {
        RealMulMono(rw, rh, sh as real);
      } else {
        RealMulMono(rh, rw, sw as real);
      }
    }
  }

  lemma SideBound(side: int, r: real, n: int)
    requires 1 <= n
    ensures Times(side, r) <= n as real ==> 1 <= Side(side, r) <= n
    ensures Times(side, r) == n as real ==> Side(side, r) == n
  {
    hide Times;
  }

  lemma SideShrinks(side: int, r: real)
    requires 1 <= side && r < 1.0
    ensures 1 <= Side(side, r) <= side
  {
    RealMulMono(r, 1.0, side as real);
    SideBound(side, r, side);
  }

  /** What the two fitting modes return, in terms of the ratio. */
  lemma FittingForm(sw: int, sh: int, p: Params)
    requires 0 < sw && 0 < sh && Parsed(p) && (p.fit.ScaleDown? || p.fit.Contain?)
    ensures var (aw, ah) := Asked(sw, sh, p);
            && 0 <= aw <= MAX_DIM && 0 <= ah <= MAX_DIM
            && var r := Ratio(sw, sh, aw, ah);
               Resize(sw, sh, p) ==
               if (aw == 0 && ah == 0) || (p.fit.ScaleDown? && r >= 1.0) then Untouched
               else Scaled(0, 0, sw, sh, Side(sw, r), Side(sh, r))
  {
    hide Ratio, Asked, Side, ScaleDim;
    AskedRange(sw, sh, p);
  }

  /**
    Scale-down and contain, when they scale: the result fits the asked box and meets one asked side exactly.
  */
  lemma FitsBox(sw: int, sh: int, p: Params)
    requires 0 < sw && 0 < sh && Parsed(p) && (p.fit.ScaleDown? || p.fit.Contain?)
    ensures var (aw, ah) := Asked(sw, sh, p);
            match Resize(sw, sh, p)
            case Untouched => true
            case Scaled(_, _, _, _, w, h) =>
              && 1 <= w && 1 <= h
              && (aw > 0 ==> w <= aw) && (ah > 0 ==> h <= ah)
              && ((aw > 0 && w == aw) || (ah > 0 && h == ah))
  {
    hide Ratio, Asked, Times, Resize, Round, Parsed;
    FittingForm(sw, sh, p);
    var (aw, ah) := Asked(sw, sh, p);
    if aw > 0 || ah > 0 {
      var r := Ratio(sw, sh, aw, ah);
      RatioFits(sw, sh, aw, ah);
      if aw > 0 { SideBound(sw, r, aw); }
      if ah > 0 { SideBound(sh, r, ah); }
    }
  }

  /** Scale-down never produces a side larger than the source's; untouched means the asked box was no smaller. */
  lemma ScaleDownNeverGrows(sw: int, sh: int, p: Params)
    requires 0 < sw && 0 < sh && Parsed(p) && p.fit.ScaleDown?
    ensures match Resize(sw, sh, p)
            case Untouched => true
            case Scaled(_, _, _, _, w, h) => w <= sw && h <= sh
    ensures Resize(sw, sh, p) == Untouched <==>
            var (aw, ah) := Asked(sw, sh, p);
            (aw == 0 || sw <= aw) && (ah == 0 || sh <= ah)
  {
    hide Ratio, Asked, Times, Resize, Side, Parsed;
    FittingForm(sw, sh, p);
    var (aw, ah) := Asked(sw, sh, p);
    if aw > 0 || ah > 0 {
      var r := Ratio(sw, sh, aw, ah);
      RatioAtLeastOne(sw, sh, aw, ah);
      if r < 1.0 {
        SideShrinks(sw, r);
        SideShrinks(sh, r);
      }
    }
  }

  lemma QuotientAtLeastOne(a: int, s: int)
    requires 0 < s
    ensures a as real / s as real >= 1.0 <==> s <= a
  {
    DivMul(a as real, s as real);
    FactorAtLeastOne(a as real, s as real, a as real / s as real);
  }

  lemma FactorAtLeastOne(x: real, y: real, q: real)
    requires 0.0 < y && y * q == x
    ensures q >= 1.0 <==> y <= x
  {
    assert q * y == x && 1.0 * y == y;
    if q >= 1.0 {
      RealMulMono(1.0, q, y);
    } else {
      RealMulStrict(q, 1.0, y);
    }
  }

  lemma RealMulStrict(a: real, b: real, c: real)
    requires a < b && 0.0 < c
    ensures a * c < b * c
  {
    var d := b - a;
    assert 0.0 < d * c;
    assert b * c == a * c + d * c;
  }

  lemma RatioAtLeastOne(sw: int, sh: int, aw: int, ah: int)
    requires 0 < sw && 0 < sh && 0 <= aw && 0 <= ah && (aw > 0 || ah > 0)
    ensures Ratio(sw, sh, aw, ah) >= 1.0 <==> (aw == 0 || sw <= aw) && (ah == 0 || sh <= ah)
  {
    QuotientAtLeastOne(aw, sw);
    QuotientAtLeastOne(ah, sh);
  }

  /**
    The aspect ratio is kept up to rounding: unless a side was raised to 1,
    |w * sh - h * sw| <= (sw + sh) / 2.
  */
  lemma KeepsAspect(sw: int, sh: int, p: Params)
    requires 0 < sw && 0 < sh && Parsed(p) && (p.fit.ScaleDown? || p.fit.Contain?)
    ensures var (aw, ah) := Asked(sw, sh, p);
            match Resize(sw, sh, p)
            case Untouched => true
            case Scaled(_, _, _, _, w, h) =>
              var r := Ratio(sw, sh, aw, ah);
              Round(Times(sw, r)) >= 1 && Round(Times(sh, r)) >= 1 ==>
                -(sw + sh) <= 2 * (w * sh - h * sw) <= sw + sh
  {
    hide Ratio, Asked, Times, Resize, Round, Parsed;
    FittingForm(sw, sh, p);
    var (aw, ah) := Asked(sw, sh, p);
    AspectError(sw, sh, Ratio(sw, sh, aw, ah));
  }

  lemma AspectError(sw: int, sh: int, r: real)
    requires 0 < sw && 0 < sh
    ensures var w, h := Round(Times(sw, r)), Round(Times(sh, r));
            -(sw + sh) <= 2 * (w * sh - h * sw) <= sw + sh
  {
    hide Times, Round, CrossError;
    var w, h := Round(Times(sw, r)), Round(Times(sh, r));
    CrossErrorBound(sw, r, sh);
    CrossErrorBound(sh, r, sw);
    CrossTerms(w, h, sw, sh, r);
    Combine(w * sh - h * sw, sw, sh, CrossError(w, sw, r, sh), CrossError(h, sh, r, sw));
  }

  lemma Combine(d: int, sw: int, sh: int, x: real, y: real)
    requires d as real == x - y
    requires -0.5 * sh as real <= x <= 0.5 * sh as real && -0.5 * sw as real <= y <= 0.5 * sw as real
    ensures -(sw + sh) <= 2 * d <= sw + sh
  {
    var twice: real := (2 * d) as real;
    assert twice == 2.0 * (d as real);
    assert twice <= (sw + sh) as real;
    assert twice >= (-(sw + sh)) as real;
  }

  /** The rounding error of a side, times the other side. */
  function CrossError(rounded: int, side: int, r: real, other: int): real {
    (rounded as real - Times(side, r)) * other as real
  }

  lemma CrossErrorBound(side: int, r: real, other: int)
    requires 0 < other
    ensures -0.5 * other as real <= CrossError(Round(Times(side, r)), side, r, other) <= 0.5 * other as real
  {
    hide Times, Round;
    RoundClose(Times(side, r));
    var d := Round(Times(side, r)) as real - Times(side, r);
    RealMulMono(d, 0.5, other as real);
    RealMulMono(-0.5, d, other as real);
  }

  lemma IntTimes(a: int, b: int)
    ensures (a * b) as real == a as real * b as real
  {
  }

  lemma CrossTerms(w: int, h: int, sw: int, sh: int, r: real)
    ensures (w * sh - h * sw) as real ==
            CrossError(w, sw, r, sh) - CrossError(h, sh, r, sw)
  {
    var W, H, S, T := w as real, h as real, sw as real, sh as real;
    IntTimes(w, sh);
    IntTimes(h, sw);
    Distribute(W, S * r, T);
    Distribute(H, T * r, S);
    Commute(S, T, r);
  }

  lemma Distribute(a: real, b: real, c: real)
    ensures (a - b) * c == a * c - b * c
  {
  }

  lemma Commute(a: real, b: real, r: real)
    ensures (a * r) * b == (b * r) * a
  {
  }

  lemma DefaultCapFitting(sw: int, sh: int, p: Params)
    requires 0 < sw && 0 < sh && Parsed(p) && p.width == 0 && p.height == 0 && (p.fit.ScaleDown? || p.fit.Contain?)
    requires sw > DEFAULT_MAX_DIM || sh > DEFAULT_MAX_DIM
    ensures match Resize(sw, sh, p)
            case Untouched => false
            case Scaled(_, _, _, _, w, h) => Max(w, h) == DEFAULT_MAX_DIM
  {
    hide Ratio, Times, Resize, Round, Parsed;
    FittingForm(sw, sh, p);
    var (aw, ah) := Asked(sw, sh, p);
    var r := Ratio(sw, sh, aw, ah);
    RatioFits(sw, sh, aw, ah);
    RatioAtLeastOne(sw, sh, aw, ah);
    RatioNonNegative(sw, sh, aw, ah);
    TimesMono(Min(sw, sh), Max(sw, sh), r);
    SideBound(sw, r, DEFAULT_MAX_DIM);
    SideBound(sh, r, DEFAULT_MAX_DIM);
  }

  lemma DefaultCapBox(sw: int, sh: int, p: Params)
    requires 0 < sw && 0 < sh && Parsed(p) && p.width == 0 && p.height == 0
    requires sw > DEFAULT_MAX_DIM || sh > DEFAULT_MAX_DIM
    ensures var (aw, ah) := Asked(sw, sh, p); var (w, h) := Box(sw, sh, aw, ah);
            Max(w, h) == DEFAULT_MAX_DIM
  {
    CutSize(sh, DEFAULT_MAX_DIM, sw);
    CutSize(sw, DEFAULT_MAX_DIM, sh);
    CutFits(Min(sw, sh), DEFAULT_MAX_DIM, Max(sw, sh), DEFAULT_MAX_DIM);
  }

  /**
    With nothing asked for, in every mode: a source within the default cap is left alone, and a larger one
    comes out with its longest side exactly at the cap.
  */
  lemma DefaultCap(sw: int, sh: int, p: Params)
    requires 0 < sw && 0 < sh && Parsed(p) && p.width == 0 && p.height == 0
    ensures Resize(sw, sh, p) == Untouched <==> sw <= DEFAULT_MAX_DIM && sh <= DEFAULT_MAX_DIM
    ensures match Resize(sw, sh, p)
            case Untouched => true
            case Scaled(_, _, _, _, w, h) => Max(w, h) == DEFAULT_MAX_DIM
  {
    hide Box, Ratio, Side, CropSize;
    if sw > DEFAULT_MAX_DIM || sh > DEFAULT_MAX_DIM {
      DefaultCapBox(sw, sh, p);
      if p.fit.ScaleDown? || p.fit.Contain? {
        DefaultCapFitting(sw, sh, p);
      }
    }
  }

  lemma TimesMono(a: int, b: int, r: real)
    requires a <= b && 0.0 <= r
    ensures Times(a, r) <= Times(b, r)
  {
  }

  lemma RatioNonNegative(sw: int, sh: int, aw: int, ah: int)
    requires 0 < sw && 0 < sh && 0 <= aw && 0 <= ah
    ensures 0.0 <= Ratio(sw, sh, aw, ah)
  {
  }

  // ----- cover -----

  /** q = a / b is the largest integer with q * b <= a. */
  lemma QuotientLargest(a: int, b: int)
    requires 0 <= a && 0 < b
    ensures var q := a / b; 0 <= q && q * b <= a < (q + 1) * b
  {
    assert a == (a / b) * b + a % b;
  }

  /** The cut side is the largest that does not exceed the target ratio, or 1; the other side is whole. */
  ghost predicate LargestCut(cut: int, full: int, target: int, other: int) {
    if full * target < other then cut == 1 else cut * other <= full * target < (cut + 1) * other
  }

  lemma CutSize(full: int, target: int, other: int)
    requires 0 < full && 0 < target && 0 < other
    ensures 1 <= Max(1, full * target / other) && LargestCut(Max(1, full * target / other), full, target, other)
  {
    QuotientLargest(full * target, other);
    var q := full * target / other;
    if q >= 1 {
      MulMono(1, q, other);
    }
  }

  lemma CutFits(full: int, target: int, other: int, side: int)
    requires 0 < full && 0 < target && 0 < other && 0 < side && full * target <= side * other
    ensures full * target / other <= side
  {
    QuotientLargest(full * target, other);
    if full * target / other > side {
      MulMono(side + 1, full * target / other, other);
    }
  }

  /**
    Cover: the crop lies inside the source, spans one whole side, is centred to within a pixel, and the cut
    side is the largest integer not exceeding the target ratio (cross-multiplied error below the other
    requested side), or 1 when even that exceeds it. The output is exactly the box.
  */
  lemma CoverCrop(sw: int, sh: int, p: Params)
    requires 0 < sw && 0 < sh && Parsed(p) && p.fit.Cover?
    ensures var (aw, ah) := Asked(sw, sh, p);
            match Resize(sw, sh, p)
            case Untouched => aw == 0 && ah == 0
            case Scaled(x0, y0, cw, ch, w, h) =>
              && (w, h) == Box(sw, sh, aw, ah) && 0 < w && 0 < h
              && 0 <= x0 && 1 <= cw && x0 + cw <= sw && 0 <= y0 && 1 <= ch && y0 + ch <= sh
              && 0 <= sw - cw - 2 * x0 <= 1 && 0 <= sh - ch - 2 * y0 <= 1
              && (if sw * h > sh * w then ch == sh && LargestCut(cw, sh, w, h)
                  else cw == sw && LargestCut(ch, sw, h, w))
  {
    var (aw, ah) := Asked(sw, sh, p);
    AskedRange(sw, sh, p);
    if aw > 0 || ah > 0 {
      BoxPositive(sw, sh, aw, ah);
      var (w, h) := Box(sw, sh, aw, ah);
      hide Asked, Box, LargestCut, Parsed;
      if sw * h > sh * w {
        CutSize(sh, w, h);
        CutFits(sh, w, h, sw);
      } else {
        CutSize(sw, h, w);
        CutFits(sw, h, w, sh);
      }
    }
  }

  /** Fill: the whole source, distorted to the box; a missing side is the largest keeping the ratio (at least 1). */
  lemma FillBox(sw: int, sh: int, p: Params)
    requires 0 < sw && 0 < sh && Parsed(p) && p.fit.Fill?
    ensures var (aw, ah) := Asked(sw, sh, p);
            match Resize(sw, sh, p)
            case Untouched => aw == 0 && ah == 0
            case Scaled(x0, y0, cw, ch, w, h) =>
              && x0 == 0 && y0 == 0 && cw == sw && ch == sh
              && (if aw > 0 then w == aw else LargestCut(w, sw, ah, sh))
              && (if ah > 0 then h == ah else LargestCut(h, sh, aw, sw))
  {
    var (aw, ah) := Asked(sw, sh, p);
    AskedRange(sw, sh, p);
    hide Asked, LargestCut, Parsed;
    if aw > 0 || ah > 0 {
      if aw == 0 { CutSize(sw, ah, sh); }
      if ah == 0 { CutSize(sh, aw, sw); }
    }
  }

  // ----- what is asked for -----

  /** n is x rounded to the nearest integer, halves up. */
  predicate Nearest(n: int, x: real) {
    n as real - 0.5 <= x < n as real + 0.5
  }

  /** A side asked for, scaled by the device pixel ratio: the nearest integer, 4096 when that is larger. */
  predicate AskedSide(asked: int, dim: int, dpr: real) {
    if asked < 4096 then Nearest(asked, dim as real * dpr) else asked == 4096 && 4095.5 <= dim as real * dpr
  }

  /**
    Width and height keep their places: each side given is the scaled one, a side not given stays absent, and
    with none given only sources beyond 2048 are capped, on their longer side.
  */
  lemma AskedMeans(sw: int, sh: int, p: Params)
    requires Parsed(p)
    ensures var (w, h) := Asked(sw, sh, p);
            && (p.width > 0 ==> AskedSide(w, p.width, p.dpr))
            && (p.height > 0 ==> AskedSide(h, p.height, p.dpr))
            && (p.width == 0 < p.height ==> w == 0)
            && (p.height == 0 < p.width ==> h == 0)
            && (p.width == p.height == 0 ==>
                  (w, h) == (if sw <= 2048 && sh <= 2048 then (0, 0) else if sw >= sh then (2048, 0) else (0, 2048)))
  {
    ScaledSide(p.width, p.dpr);
    ScaledSide(p.height, p.dpr);
    if p.width > 0 { ScaleDimRange(p.width, p.dpr); }
    if p.height > 0 { ScaleDimRange(p.height, p.dpr); }
    hide ScaleDim, AskedSide;
    assert ScaleDim(0, p.dpr) == 0 by { NoSide(p.dpr); }
  }

  lemma NoSide(dpr: real)
    ensures ScaleDim(0, dpr) == 0
  {
  }

  lemma ScaledSide(dim: int, dpr: real)
    ensures dim > 0 ==> AskedSide(ScaleDim(dim, dpr), dim, dpr)
  {
    RoundNearest(dim as real * dpr);
  }

  lemma RoundNearest(x: real)
    ensures Nearest(Round(x), x)
  {
  }
}
