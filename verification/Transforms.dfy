/**
  flip, grayscale and hasAlpha (internal/imageproc/transform.go), and the algebra of the pixel pipeline:
  mirroring commutes with the blur, and no stage changes whether the image counts as transparent.
*/
module Transforms {
  import opened Sums
  import opened Windows
  import opened Layout
  import opened Pixels

  function Mirror(n: nat, on: bool, i: nat): nat
    requires i < n
  {
    if on then n - 1 - i else i
  }

  /** The byte of the source image that byte k of the flipped image shows. */
  function Source(w: nat, h: nat, fh: bool, fv: bool, k: nat): nat
    requires 0 < w && k < w * h * 4
  {
    DecodeInRange(w, h, k);
    Idx(w, true, Mirror(h, fv, Row(w, k)), Mirror(w, fh, Column(w, k))) + k % 4
  }

  lemma SourceDecodes(w: nat, h: nat, fh: bool, fv: bool, rows: bool, k: nat)
    requires 0 < w && k < w * h * 4
    ensures var k' := Source(w, h, fh, fv, k);
            && k' < w * h * 4 && k' % 4 == k % 4
            && LineIn(w, rows, k) < Outer(w, h, rows) && PlaceIn(w, rows, k) < Inner(w, h, rows)
            && LineIn(w, rows, k') == Mirror(Outer(w, h, rows), if rows then fv else fh, LineIn(w, rows, k))
            && PlaceIn(w, rows, k') == Mirror(Inner(w, h, rows), if rows then fh else fv, PlaceIn(w, rows, k))
  {
    hide Row, Column;
    DecodeInRange(w, h, k);
    IdxDecodes(w, h, true, Mirror(h, fv, Row(w, k)), Mirror(w, fh, Column(w, k)), k % 4);
  }

  function Flipped(s: Buffer, w: nat, h: nat, fh: bool, fv: bool): (t: Buffer)
    requires IsImage(s, w, h)
    ensures IsImage(t, w, h)
  {
    seq(|s|, k requires 0 <= k < |s| => (SourceDecodes(w, h, fh, fv, true, k); s[Source(w, h, fh, fv, k)]))
  }

  /** Mirroring twice is the identity. */
  lemma FlipTwice(s: Buffer, w: nat, h: nat, fh: bool, fv: bool)
    requires IsImage(s, w, h)
    ensures Flipped(Flipped(s, w, h, fh, fv), w, h, fh, fv) == s
  {
    forall k | 0 <= k < |s| ensures Flipped(Flipped(s, w, h, fh, fv), w, h, fh, fv)[k] == s[k] {
      SourceTwice(w, h, fh, fv, k);
    }
  }

  lemma SourceTwice(w: nat, h: nat, fh: bool, fv: bool, k: nat)
    requires 0 < w && k < w * h * 4
    ensures Source(w, h, fh, fv, k) < w * h * 4
    ensures Source(w, h, fh, fv, Source(w, h, fh, fv, k)) == k
  {
    hide Row, Column;
    SourceDecodes(w, h, fh, fv, true, k);
    DecodeInRange(w, h, k);
  }

  /** flip: copy every pixel from its mirrored place into a fresh image. */
  method Flip(img: array<Byte>, w: nat, h: nat, horizontal: bool, vertical: bool) returns (dst: array<Byte>)
    requires IsImage(img[..], w, h)
    ensures fresh(dst) && dst[..] == Flipped(img[..], w, h, horizontal, vertical)
  {
    hide Progress, Flipped, Row, Column;
    dst := new Byte[w * h * 4];
    ghost var was := img[..];
    ghost var blank, after := dst[..], Flipped(was, w, h, horizontal, vertical);
    ProgressStart(blank, after, w, true);
    for y := 0 to h
      invariant img[..] == was && Progress(dst[..], blank, after, w, true, y, 0, 0)
    {
      var sy := if vertical then h - 1 - y else y;
      for x := 0 to w
        invariant img[..] == was && Progress(dst[..], blank, after, w, true, y, x, 0)
      {
        var sx := if horizontal then w - 1 - x else x;
        CopyPixel(img, dst, w, h, horizontal, vertical, y, x, sy, sx, blank, after);
      }
      ProgressLine(dst[..], blank, after, w, h, true, y);
    }
    ProgressDone(dst[..], blank, after, w, h, true);
  }

  lemma FlippedAt(s: Buffer, w: nat, h: nat, fh: bool, fv: bool, y: nat, x: nat, c: nat)
    requires IsImage(s, w, h) && y < h && x < w && c < 4
    ensures var k, k' := Idx(w, true, y, x) + c, Idx(w, true, Mirror(h, fv, y), Mirror(w, fh, x)) + c;
            k < |s| && k' < |s| && Flipped(s, w, h, fh, fv)[k] == s[k']
  {
    IdxDecodes(w, h, true, y, x, c);
    IdxDecodes(w, h, true, Mirror(h, fv, y), Mirror(w, fh, x), c);
  }

  method CopyPixel(img: array<Byte>, dst: array<Byte>, w: nat, h: nat, fh: bool, fv: bool,
                   y: nat, x: nat, sy: nat, sx: nat, ghost blank: Buffer, ghost after: Buffer)
    requires img != dst && IsImage(img[..], w, h) && IsImage(blank, w, h) && y < h && x < w
    requires sy == Mirror(h, fv, y) && sx == Mirror(w, fh, x)
    requires after == Flipped(img[..], w, h, fh, fv)
    requires Progress(dst[..], blank, after, w, true, y, x, 0)
    modifies dst
    ensures Progress(dst[..], blank, after, w, true, y, x + 1, 0)
  {
    hide Progress, Flipped, Row, Column;
    var si, di := Idx(w, true, sy, sx), Idx(w, true, y, x);
    ghost var was := img[..];
    for c := 0 to 4
      invariant img[..] == was && Progress(dst[..], blank, after, w, true, y, x, c)
    {
      FlippedAt(was, w, h, fh, fv, y, x, c);
      ProgressByte(dst[..], blank, after, w, h, true, y, x, c);
      ghost var now := dst[..];
      assert img[si + c] == was[si + c];
      dst[di + c] := img[si + c];
      assert dst[..] == now[di + c := after[di + c]];
    }
    ProgressPlace(dst[..], blank, after, w, true, y, x);
  }

  // ----- mirror equivariance of the blur -----

  lemma FlippedChannel(s: Buffer, w: nat, h: nat, fh: bool, fv: bool, rows: bool, o: nat, c: nat)
    requires IsImage(s, w, h) && o < Outer(w, h, rows) && c < 4
    ensures var o' := Mirror(Outer(w, h, rows), if rows then fv else fh, o);
            var v := Channel(s, w, h, rows, o', c);
            Channel(Flipped(s, w, h, fh, fv), w, h, rows, o, c) ==
            if (if rows then fh else fv) then Reverse(v) else v
  {
    hide Channel, Flipped;
    var o' := Mirror(Outer(w, h, rows), if rows then fv else fh, o);
    var v := Channel(s, w, h, rows, o', c);
    var f := Channel(Flipped(s, w, h, fh, fv), w, h, rows, o, c);
    forall i | 0 <= i < Inner(w, h, rows)
      ensures f[i] == v[Mirror(Inner(w, h, rows), if rows then fh else fv, i)]
    {
      var i' := Mirror(Inner(w, h, rows), if rows then fh else fv, i);
      ChannelAt(Flipped(s, w, h, fh, fv), w, h, rows, o, c, i);
      ChannelAt(s, w, h, rows, o', c, i');
      if rows {
        FlippedAt(s, w, h, fh, fv, o, i, c);
      } else {
        FlippedAt(s, w, h, fh, fv, i, o, c);
      }
    }
  }

  /** One blurAxis pass commutes with any mirroring. */
  lemma BlurFlip(s: Buffer, w: nat, h: nat, r: nat, rows: bool, fh: bool, fv: bool)
    requires IsImage(s, w, h)
    ensures Blurred(Flipped(s, w, h, fh, fv), w, h, r, rows) == Flipped(Blurred(s, w, h, r, rows), w, h, fh, fv)
  {
    var left := Blurred(Flipped(s, w, h, fh, fv), w, h, r, rows);
    var right := Flipped(Blurred(s, w, h, r, rows), w, h, fh, fv);
    forall k | 0 <= k < |s| ensures left[k] == right[k] {
      BlurFlipByte(s, w, h, r, rows, fh, fv, k);
    }
  }

  lemma BlurFlipByte(s: Buffer, w: nat, h: nat, r: nat, rows: bool, fh: bool, fv: bool, k: nat)
    requires IsImage(s, w, h) && k < |s|
    ensures Source(w, h, fh, fv, k) < |s|
    ensures BlurredByte(Flipped(s, w, h, fh, fv), w, h, r, rows, k) ==
            BlurredByte(s, w, h, r, rows, Source(w, h, fh, fv, k))
  {
    hide Row, Column, Flipped, Channel, Source, Average;
    SourceDecodes(w, h, fh, fv, rows, k);
    var o, i, c := LineIn(w, rows, k), PlaceIn(w, rows, k), k % 4;
    var v := Channel(s, w, h, rows, Mirror(Outer(w, h, rows), if rows then fv else fh, o), c);
    FlippedChannel(s, w, h, fh, fv, rows, o, c);
    AverageReverse(v, i, r);
  }

  /** boxBlur after flip gives the same pixels as flip after boxBlur. */
  lemma BoxBlurFlip(s: Buffer, w: nat, h: nat, radius: int, fh: bool, fv: bool)
    requires IsImage(s, w, h)
    ensures BoxBlurred(Flipped(s, w, h, fh, fv), w, h, radius) == Flipped(BoxBlurred(s, w, h, radius), w, h, fh, fv)
  {
    if radius >= 1 {
      PassesFlip(s, w, h, radius, 2, fh, fv);
    }
  }

  lemma {:induction false} PassesFlip(s: Buffer, w: nat, h: nat, r: nat, n: nat, fh: bool, fv: bool)
    requires IsImage(s, w, h)
    ensures Passes(Flipped(s, w, h, fh, fv), w, h, r, n) == Flipped(Passes(s, w, h, r, n), w, h, fh, fv)
  {
    hide Flipped, Blurred;
    if n > 0 {
      PassesFlip(s, w, h, r, n - 1, fh, fv);
      var p := Passes(s, w, h, r, n - 1);
      BlurFlip(p, w, h, r, true, fh, fv);
      BlurFlip(Blurred(p, w, h, r, true), w, h, r, false, fh, fv);
    }
  }

  // ----- grayscale -----

  function Luma(r: Byte, g: Byte, b: Byte): Byte {
    (299 * r + 587 * g + 114 * b) / 1000
  }

  /** The Rec. 601 weights, rounded down: between the darkest and the brightest channel, and grey stays grey. */
  lemma LumaMeans(r: Byte, g: Byte, b: Byte)
    ensures 1000 * Luma(r, g, b) <= 299 * r + 587 * g + 114 * b < 1000 * Luma(r, g, b) + 1000
    ensures Min(r, Min(g, b)) <= Luma(r, g, b) <= Max(r, Max(g, b))
    ensures Luma(r, r, r) == r
  {
  }

  function GrayByte(s: Buffer, k: nat): Byte
    requires k < |s|
  {
    var p := k - k % 4;
    if k % 4 == 3 || p + 3 >= |s| then s[k] else Luma(s[p], s[p + 1], s[p + 2])
  }

  function Grayed(s: Buffer): (t: Buffer)
    ensures |t| == |s| && forall k :: 0 <= k < |s| ==> t[k] == GrayByte(s, k)
  {
    seq(|s|, k requires 0 <= k < |s| => GrayByte(s, k))
  }

  lemma GrayPixel(s: Buffer, i: nat)
    requires i % 4 == 0 && i + 3 < |s|
    ensures var l := Luma(s[i], s[i + 1], s[i + 2]);
            && GrayByte(s, i) == GrayByte(s, i + 1) == GrayByte(s, i + 2) == l
            && GrayByte(s, i + 3) == s[i + 3]
  {
    hide Luma;
    assert (i + 1) % 4 == 1 && (i + 2) % 4 == 2 && (i + 3) % 4 == 3;
  }

  lemma GrayTail(s: Buffer, i: nat, k: nat)
    requires i % 4 == 0 && i + 3 >= |s| && i <= k < |s|
    ensures GrayByte(s, k) == s[k]
  {
    hide Luma;
  }

  /** The weighted sum of three bytes, converted to uint8 without truncation. */
  method Luma8(r: int, g: int, b: int) returns (l: Byte)
    requires 0 <= r < 256 && 0 <= g < 256 && 0 <= b < 256
    ensures l == Luma(r, g, b)
  {
    l := ((299 * r + 587 * g + 114 * b) / 1000) % 256;
  }

  /** grayscale, in place: the three colour bytes become the Rec. 601 luma, alpha is kept. */
  method Grayscale(pix: array<Byte>)
    modifies pix
    ensures pix[..] == Grayed(old(pix[..]))
  {
    hide GrayByte, Luma;
    var i := 0;
    ghost var before := pix[..];
    while i + 3 < pix.Length
      invariant i % 4 == 0 && i <= pix.Length
      invariant forall k :: 0 <= k < i ==> pix[k] == GrayByte(before, k)
      invariant forall k :: i <= k < pix.Length ==> pix[k] == before[k]
      decreases pix.Length - i
    {
      GrayPixel(before, i);
      var l := Luma8(pix[i], pix[i + 1], pix[i + 2]);
      pix[i], pix[i + 1], pix[i + 2] := l, l, l;
      i := i + 4;
    }
    forall k | i <= k < pix.Length ensures pix[k] == GrayByte(before, k) {
      GrayTail(before, i, k);
    }
  }

  // ----- transparency -----

  predicate Transparent(s: Buffer) {
    exists k :: 0 <= k < |s| && k % 4 == 3 && s[k] != 255
  }

  /** hasAlpha: does any pixel have alpha below 255? */
  method HasAlpha(pix: array<Byte>) returns (found: bool)
    ensures found <==> Transparent(pix[..])
  {
    var i := 3;
    while i < pix.Length
      invariant i % 4 == 3
      invariant forall k :: 0 <= k < i && k < pix.Length && k % 4 == 3 ==> pix[k] == 255
    {
      if pix[i] != 255 {
        assert pix[..][i] != 255;
        return true;
      }
      i := i + 4;
    }
    return false;
  }

  lemma FlipKeepsAlpha(s: Buffer, w: nat, h: nat, fh: bool, fv: bool)
    requires IsImage(s, w, h)
    ensures Transparent(Flipped(s, w, h, fh, fv)) <==> Transparent(s)
  {
    hide Source;
    var f := Flipped(s, w, h, fh, fv);
    if Transparent(s) {
      var k :| 0 <= k < |s| && k % 4 == 3 && s[k] != 255;
      SourceDecodes(w, h, fh, fv, true, k);
      SourceTwice(w, h, fh, fv, k);
      assert f[Source(w, h, fh, fv, k)] == s[k];
    }
    if Transparent(f) {
      var k :| 0 <= k < |f| && k % 4 == 3 && f[k] != 255;
      SourceDecodes(w, h, fh, fv, true, k);
      assert s[Source(w, h, fh, fv, k)] == f[k];
    }
  }

  lemma GrayKeepsAlpha(s: Buffer)
    ensures Transparent(Grayed(s)) <==> Transparent(s)
  {
    assert forall k :: 0 <= k < |s| && k % 4 == 3 ==> Grayed(s)[k] == GrayByte(s, k) == s[k];
  }

  lemma ChannelAt(s: Buffer, w: nat, h: nat, rows: bool, o: nat, c: nat, i: nat)
    requires IsImage(s, w, h) && o < Outer(w, h, rows) && c < 4 && i < Inner(w, h, rows)
    ensures var k := Idx(w, rows, o, i) + c;
            k < |s| && k % 4 == c && Channel(s, w, h, rows, o, c)[i] == s[k]
  {
    IdxDecodes(w, h, rows, o, i, c);
  }

  /** Any byte below 255 stays below 255, its window contains itself; in particular any translucent pixel. */
  lemma BlurStaysBelowFull(s: Buffer, w: nat, h: nat, r: nat, rows: bool, k: nat)
    requires IsImage(s, w, h) && k < |s| && s[k] < 255
    ensures Blurred(s, w, h, r, rows)[k] < 255
  {
    hide LineIn, PlaceIn, Channel, Average;
    DecodeLine(w, h, rows, k);
    ChannelAt(s, w, h, rows, LineIn(w, rows, k), k % 4, PlaceIn(w, rows, k));
    AverageBelowFull(Channel(s, w, h, rows, LineIn(w, rows, k), k % 4), PlaceIn(w, rows, k), r);
  }

  /** An opaque image stays exactly opaque. */
  lemma BlurStaysOpaque(s: Buffer, w: nat, h: nat, r: nat, rows: bool, k: nat)
    requires IsImage(s, w, h) && !Transparent(s) && k < |s| && k % 4 == 3
    ensures Blurred(s, w, h, r, rows)[k] == 255
  {
    hide LineIn, PlaceIn, Channel, Average;
    DecodeLine(w, h, rows, k);
    var v := Channel(s, w, h, rows, LineIn(w, rows, k), 3);
    forall i | 0 <= i < |v| ensures v[i] == 255 {
      ChannelAt(s, w, h, rows, LineIn(w, rows, k), 3, i);
    }
    AverageFull(v, PlaceIn(w, rows, k), r);
  }

  /**
    One blur pass: an opaque image stays exactly opaque, every translucent pixel stays translucent, and so
    the verdict on the image stays the same.
  */
  lemma BlurKeepsAlpha(s: Buffer, w: nat, h: nat, r: nat, rows: bool)
    requires IsImage(s, w, h)
    ensures forall k :: 0 <= k < |s| && k % 4 == 3 && s[k] < 255 ==> Blurred(s, w, h, r, rows)[k] < 255
    ensures !Transparent(s) ==> forall k :: 0 <= k < |s| && k % 4 == 3 ==> Blurred(s, w, h, r, rows)[k] == 255
    ensures Transparent(Blurred(s, w, h, r, rows)) <==> Transparent(s)
  {
    hide Blurred, BlurredByte;
    var t := Blurred(s, w, h, r, rows);
    forall k | 0 <= k < |s| && k % 4 == 3 && s[k] < 255 ensures t[k] < 255 {
      BlurStaysBelowFull(s, w, h, r, rows, k);
    }
    if !Transparent(s) {
      forall k | 0 <= k < |s| && k % 4 == 3 ensures t[k] == 255 {
        BlurStaysOpaque(s, w, h, r, rows, k);
      }
    }
  }

  lemma {:induction false} PassesKeepAlpha(s: Buffer, w: nat, h: nat, r: nat, n: nat)
    requires IsImage(s, w, h)
    ensures Transparent(Passes(s, w, h, r, n)) <==> Transparent(s)
  {
    hide Transparent, Blurred;
    if n > 0 {
      PassesKeepAlpha(s, w, h, r, n - 1);
      var p := Passes(s, w, h, r, n - 1);
      BlurKeepsAlpha(p, w, h, r, true);
      BlurKeepsAlpha(Blurred(p, w, h, r, true), w, h, r, false);
    }
  }

  /** The stages of Transform after resize; blur is the rounded radius when one was asked for. */
  function Pipeline(s: Buffer, w: nat, h: nat, fh: bool, fv: bool, gray: bool, blur: Option<int>): (t: Buffer)
    requires IsImage(s, w, h)
    ensures IsImage(t, w, h)
  {
    var a := if fh || fv then Flipped(s, w, h, fh, fv) else s;
    var b := if gray then Grayed(a) else a;
    match blur
    case None => b
    case Some(radius) => BoxBlurred(b, w, h, radius)
  }

  /** The decision encode takes for automatic format is the one the resized image already determined. */
  lemma PipelineKeepsAlpha(s: Buffer, w: nat, h: nat, fh: bool, fv: bool, gray: bool, blur: Option<int>)
    requires IsImage(s, w, h)
    ensures Transparent(Pipeline(s, w, h, fh, fv, gray, blur)) <==> Transparent(s)
  {
    hide Transparent, Flipped, Grayed, Passes;
    var a := if fh || fv then Flipped(s, w, h, fh, fv) else s;
    FlipKeepsAlpha(s, w, h, fh, fv);
    GrayKeepsAlpha(a);
    var b := if gray then Grayed(a) else a;
    if blur.Some? && blur.value >= 1 {
      PassesKeepAlpha(b, w, h, blur.value, 2);
    }
  }

  method Transform(img: array<Byte>, w: nat, h: nat, fh: bool, fv: bool, gray: bool, blur: Option<int>)
    returns (res: array<Byte>, usePng: bool)
    requires IsImage(img[..], w, h)
    modifies img
    ensures res[..] == Pipeline(old(img[..]), w, h, fh, fv, gray, blur)
    ensures usePng <==> Transparent(old(img[..]))
  {
    hide Transparent, Flipped, Grayed, BoxBlurred;
    PipelineKeepsAlpha(img[..], w, h, fh, fv, gray, blur);
    res := img;
    if fh || fv {
      res := Flip(img, w, h, fh, fv);
    }
    if gray {
      Grayscale(res);
    }
    if blur.Some? {
      BoxBlur(res, w, h, blur.value);
    }
    usePng := HasAlpha(res);
  }
}
