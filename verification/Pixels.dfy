/**
  The pixel kernels of internal/imageproc/transform.go on a flat NRGBA buffer (origin 0,0, stride 4*w):
  blurAxis, boxBlur, flip, grayscale and hasAlpha, each proved against a function on the buffer's contents.
*/
module Pixels {
  import opened Sums
  import opened Windows
  import opened Layout

  type Buffer = seq<Byte>

  predicate IsImage(s: Buffer, w: nat, h: nat) {
    0 < w && 0 < h && |s| == w * h * 4
  }

  /** Channel c of line o. */
  function Channel(s: Buffer, w: nat, h: nat, rows: bool, o: nat, c: nat): (v: Line)
    requires IsImage(s, w, h) && o < Outer(w, h, rows) && c < 4
    ensures |v| == Inner(w, h, rows)
  {
    seq(Inner(w, h, rows), i requires 0 <= i < Inner(w, h, rows) =>
      (IdxDecodes(w, h, rows, o, i, c); s[Idx(w, rows, o, i) + c]))
  }

  function BlurredByte(s: Buffer, w: nat, h: nat, r: nat, rows: bool, k: nat): Byte
    requires IsImage(s, w, h) && k < |s|
  {
    DecodeLine(w, h, rows, k);
    var v := Channel(s, w, h, rows, LineIn(w, rows, k), k % 4);
    AverageIsByte(v, PlaceIn(w, rows, k), r);
    Average(v, PlaceIn(w, rows, k), r)
  }

  /** The naive filter: every byte becomes the average of its clamped window along its line. */
  function Blurred(s: Buffer, w: nat, h: nat, r: nat, rows: bool): (t: Buffer)
    requires IsImage(s, w, h)
    ensures IsImage(t, w, h) && |t| == |s|
    ensures forall k :: 0 <= k < |s| ==> t[k] == BlurredByte(s, w, h, r, rows, k)
  {
    seq(|s|, k requires 0 <= k < |s| => BlurredByte(s, w, h, r, rows, k))
  }

  /** n passes of a blur along the rows, then along the columns. */
  function Passes(s: Buffer, w: nat, h: nat, r: nat, n: nat): (t: Buffer)
    requires IsImage(s, w, h)
    ensures IsImage(t, w, h)
  {
    if n == 0 then s else Blurred(Blurred(Passes(s, w, h, r, n - 1), w, h, r, true), w, h, r, false)
  }

  function BoxBlurred(s: Buffer, w: nat, h: nat, radius: int): (t: Buffer)
    requires IsImage(s, w, h)
    ensures IsImage(t, w, h)
  {
    if radius < 1 then s else Passes(s, w, h, radius, 2)
  }

  // ----- blurAxis -----

  /** Byte k has been written when the loops stand at line o, place i, channel c. */
  predicate Written(w: nat, rows: bool, o: nat, i: nat, c: nat, k: nat)
    requires 0 < w
  {
    LineIn(w, rows, k) < o ||
    (LineIn(w, rows, k) == o && (PlaceIn(w, rows, k) < i || (PlaceIn(w, rows, k) == i && k % 4 < c)))
  }

  ghost predicate Progress(now: Buffer, before: Buffer, after: Buffer, w: nat, rows: bool, o: nat, i: nat, c: nat) {
    && 0 < w && |now| == |before| == |after|
    && forall k :: 0 <= k < |now| ==> now[k] == if Written(w, rows, o, i, c, k) then after[k] else before[k]
  }

  lemma ProgressStart(before: Buffer, after: Buffer, w: nat, rows: bool)
    requires 0 < w && |before| == |after|
    ensures Progress(before, before, after, w, rows, 0, 0, 0)
  {
  }

  lemma ProgressByte(now: Buffer, before: Buffer, after: Buffer, w: nat, h: nat, rows: bool, o: nat, i: nat, c: nat)
    requires IsImage(before, w, h) && o < Outer(w, h, rows) && i < Inner(w, h, rows) && c < 4
    requires Progress(now, before, after, w, rows, o, i, c)
    ensures var k := Idx(w, rows, o, i) + c;
            k < |now| && Progress(now[k := after[k]], before, after, w, rows, o, i, c + 1)
  {
    IdxDecodes(w, h, rows, o, i, c);
    var k0 := Idx(w, rows, o, i) + c;
    forall k | 0 <= k < |now| && k != k0
      ensures Written(w, rows, o, i, c + 1, k) == Written(w, rows, o, i, c, k)
    {
      DecodeLine(w, h, rows, k);
    }
  }

  lemma ProgressPlace(now: Buffer, before: Buffer, after: Buffer, w: nat, rows: bool, o: nat, i: nat)
    requires Progress(now, before, after, w, rows, o, i, 4)
    ensures Progress(now, before, after, w, rows, o, i + 1, 0)
  {
  }

  lemma ProgressLine(now: Buffer, before: Buffer, after: Buffer, w: nat, h: nat, rows: bool, o: nat)
    requires IsImage(before, w, h) && Progress(now, before, after, w, rows, o, Inner(w, h, rows), 0)
    ensures Progress(now, before, after, w, rows, o + 1, 0, 0)
  {
    forall k | 0 <= k < |now|
      ensures Written(w, rows, o + 1, 0, 0, k) == Written(w, rows, o, Inner(w, h, rows), 0, k)
    {
      DecodeLine(w, h, rows, k);
    }
  }

  lemma ProgressDone(now: Buffer, before: Buffer, after: Buffer, w: nat, h: nat, rows: bool)
    requires IsImage(before, w, h) && Progress(now, before, after, w, rows, Outer(w, h, rows), 0, 0)
    ensures now == after
  {
    forall k | 0 <= k < |now| ensures now[k] == after[k] {
      DecodeLine(w, h, rows, k);
    }
  }

  /** The line buffer holds the four channels of line o, interleaved. */
  ghost predicate HoldsLine(line: Buffer, before: Buffer, w: nat, h: nat, rows: bool, o: nat)
    requires IsImage(before, w, h) && o < Outer(w, h, rows)
  {
    && |line| == Inner(w, h, rows) * 4
    && forall i, c :: 0 <= i < Inner(w, h, rows) && 0 <= c < 4 ==>
         line[i * 4 + c] == Channel(before, w, h, rows, o, c)[i]
  }

  /** Lines not yet reached still hold the original bytes. */
  lemma ChannelUntouched(now: Buffer, before: Buffer, after: Buffer, w: nat, h: nat, rows: bool, o: nat, i: nat, c: nat)
    requires IsImage(before, w, h) && o < Outer(w, h, rows) && i < Inner(w, h, rows) && c < 4
    requires Progress(now, before, after, w, rows, o, 0, 0)
    ensures var k := Idx(w, rows, o, i) + c;
            k < |now| && now[k] == Channel(before, w, h, rows, o, c)[i]
  {
    IdxDecodes(w, h, rows, o, i, c);
  }

  method CopyLine(pix: array<Byte>, line: array<Byte>, w: nat, h: nat, rows: bool, o: nat,
                  ghost before: Buffer, ghost after: Buffer)
    requires pix != line
    requires IsImage(before, w, h) && o < Outer(w, h, rows) && line.Length == Inner(w, h, rows) * 4
    requires Progress(pix[..], before, after, w, rows, o, 0, 0)
    modifies line
    ensures HoldsLine(line[..], before, w, h, rows, o)
  {
    hide Progress, Channel;
    var inner := Inner(w, h, rows);
    ghost var now := pix[..];
    for i := 0 to inner
      invariant pix[..] == now
      invariant forall j, c :: 0 <= j < i && 0 <= c < 4 ==> line[j * 4 + c] == Channel(before, w, h, rows, o, c)[j]
    {
      var at := Idx(w, rows, o, i);
      for c := 0 to 4
        invariant pix[..] == now
        invariant forall j, d :: 0 <= j < i && 0 <= d < 4 ==> line[j * 4 + d] == Channel(before, w, h, rows, o, d)[j]
        invariant forall d :: 0 <= d < c ==> line[i * 4 + d] == Channel(before, w, h, rows, o, d)[i]
      {
        ChannelUntouched(now, before, after, w, h, rows, o, i, c);
        assert pix[at + c] == now[at + c];
        line[i * 4 + c] := pix[at + c];
      }
    }
  }

  lemma LineSample(line: Buffer, before: Buffer, w: nat, h: nat, rows: bool, o: nat, c: nat, i: int)
    requires IsImage(before, w, h) && o < Outer(w, h, rows) && c < 4 && HoldsLine(line, before, w, h, rows, o)
    ensures var ci := ClampInt(i, 0, Inner(w, h, rows) - 1);
            && 0 <= ci < Inner(w, h, rows) && ci * 4 + c < |line|
            && line[ci * 4 + c] == Sample(Channel(before, w, h, rows, o, c), i)
  {
    hide Channel;
  }

  /** sum[c] is the window of channel c around place i. */
  ghost predicate Summed(sum: seq<int>, before: Buffer, w: nat, h: nat, rows: bool, o: nat, lo: int, hi: int)
    requires IsImage(before, w, h) && o < Outer(w, h, rows)
  {
    |sum| == 4 && forall c :: 0 <= c < 4 ==> sum[c] == WindowSum(Channel(before, w, h, rows, o, c), lo, hi)
  }

  method FirstWindow(line: array<Byte>, w: nat, h: nat, radius: nat, rows: bool, ghost o: nat, ghost before: Buffer)
    returns (sum: seq<int>)
    requires IsImage(before, w, h) && o < Outer(w, h, rows) && HoldsLine(line[..], before, w, h, rows, o)
    ensures Summed(sum, before, w, h, rows, o, -(radius as int), radius)
  {
    hide Channel, HoldsLine, Sample, ClampInt;
    var inner := Inner(w, h, rows);
    sum := [0, 0, 0, 0];
    for i: int := -(radius as int) to radius + 1
      invariant Summed(sum, before, w, h, rows, o, -(radius as int), i - 1)
    {
      var ci := ClampInt(i, 0, inner - 1);
      ghost var start := sum;
      for c := 0 to 4
        invariant |sum| == 4
        invariant forall d :: 0 <= d < c ==> sum[d] == WindowSum(Channel(before, w, h, rows, o, d), -(radius as int), i)
        invariant forall d :: c <= d < 4 ==> sum[d] == start[d]
      {
        LineSample(line[..], before, w, h, rows, o, c, i);
        sum := sum[c := sum[c] + line[ci * 4 + c]];
      }
    }
  }

  method SlideWindow(line: array<Byte>, sum: seq<int>, w: nat, h: nat, radius: nat, rows: bool, i: nat,
                     ghost o: nat, ghost before: Buffer)
    returns (next: seq<int>)
    requires IsImage(before, w, h) && o < Outer(w, h, rows) && HoldsLine(line[..], before, w, h, rows, o)
    requires Summed(sum, before, w, h, rows, o, i - radius, i + radius)
    ensures Summed(next, before, w, h, rows, o, i + 1 - radius, i + 1 + radius)
  {
    hide Channel, HoldsLine, Sample, ClampInt, WindowSum;
    var inner := Inner(w, h, rows);
    var enter := ClampInt(i + radius + 1, 0, inner - 1);
    var leave := ClampInt(i - radius, 0, inner - 1);
    next := sum;
    for c := 0 to 4
      invariant |next| == 4
      invariant forall d :: 0 <= d < c ==>
                  next[d] == WindowSum(Channel(before, w, h, rows, o, d), i + 1 - radius, i + 1 + radius)
      invariant forall d :: c <= d < 4 ==> next[d] == sum[d]
    {
      LineSample(line[..], before, w, h, rows, o, c, i + radius + 1);
      LineSample(line[..], before, w, h, rows, o, c, i - radius);
      WindowSlide(Channel(before, w, h, rows, o, c), i, radius);
      next := next[c := next[c] + (line[enter * 4 + c] as int - line[leave * 4 + c] as int)];
    }
  }

  /** The byte the reference holds where the loops write, as the running sum gives it. */
  lemma WrittenValue(before: Buffer, w: nat, h: nat, r: nat, rows: bool, o: nat, i: nat, c: nat)
    requires IsImage(before, w, h) && o < Outer(w, h, rows) && i < Inner(w, h, rows) && c < 4
    ensures var k := Idx(w, rows, o, i) + c;
            && k < |before|
            && Blurred(before, w, h, r, rows)[k] == Average(Channel(before, w, h, rows, o, c), i, r)
            && 0 <= Average(Channel(before, w, h, rows, o, c), i, r) < 256
  {
    hide Channel, Average;
    IdxDecodes(w, h, rows, o, i, c);
    AverageIsByte(Channel(before, w, h, rows, o, c), i, r);
  }

  /** Store the four averages of one pixel; the conversion to uint8 never truncates. */
  method WritePlace(pix: array<Byte>, sum: seq<int>, w: nat, h: nat, radius: nat, rows: bool, o: nat, i: nat,
                    ghost before: Buffer, ghost after: Buffer)
    requires IsImage(before, w, h) && o < Outer(w, h, rows) && i < Inner(w, h, rows)
    requires after == Blurred(before, w, h, radius, rows)
    requires Summed(sum, before, w, h, rows, o, i - radius, i + radius)
    requires Progress(pix[..], before, after, w, rows, o, i, 0)
    modifies pix
    ensures Progress(pix[..], before, after, w, rows, o, i + 1, 0)
  {
    hide Progress, Channel, Blurred, WindowSum, Share;
    var base := Idx(w, rows, o, i);
    for c := 0 to 4
      invariant Progress(pix[..], before, after, w, rows, o, i, c)
    {
      WrittenValue(before, w, h, radius, rows, o, i, c);
      ProgressByte(pix[..], before, after, w, h, rows, o, i, c);
      ghost var now := pix[..];
      pix[base + c] := Share(sum[c], radius) % 256;
      assert pix[..] == now[base + c := after[base + c]];
    }
    ProgressPlace(pix[..], before, after, w, rows, o, i);
  }

  method WriteLine(pix: array<Byte>, line: array<Byte>, w: nat, h: nat, radius: nat, rows: bool, o: nat,
                   ghost before: Buffer, ghost after: Buffer)
    requires pix != line
    requires IsImage(before, w, h) && o < Outer(w, h, rows) && after == Blurred(before, w, h, radius, rows)
    requires HoldsLine(line[..], before, w, h, rows, o)
    requires Progress(pix[..], before, after, w, rows, o, 0, 0)
    modifies pix
    ensures Progress(pix[..], before, after, w, rows, o + 1, 0, 0)
  {
    hide Progress, Channel, HoldsLine, Blurred, WindowSum;
    var inner := Inner(w, h, rows);
    ghost var held := line[..];
    var sum := FirstWindow(line, w, h, radius, rows, o, before);
    for i := 0 to inner
      invariant line[..] == held
      invariant Progress(pix[..], before, after, w, rows, o, i, 0)
      invariant Summed(sum, before, w, h, rows, o, i - radius, i + radius)
    {
      WritePlace(pix, sum, w, h, radius, rows, o, i, before, after);
      sum := SlideWindow(line, sum, w, h, radius, rows, i, o, before);
    }
    ProgressLine(pix[..], before, after, w, h, rows, o);
  }

  /** Channel c of row (or column) o, read off the buffer. */
  ghost function LineOf(s: Buffer, w: nat, h: nat, rows: bool, o: nat, c: nat): (v: Line)
    requires IsImage(s, w, h) && o < (if rows then h else w) && c < 4
    ensures |v| == if rows then w else h
  {
    if rows then seq(w, x requires 0 <= x < w => (InsideBuffer(w, h, o, x, c); s[(o * w + x) * 4 + c]))
    else seq(h, y requires 0 <= y < h => (InsideBuffer(w, h, y, o, c); s[(y * w + o) * 4 + c]))
  }

  lemma InsideBuffer(w: nat, h: nat, y: nat, x: nat, c: nat)
    requires y < h && x < w && c < 4
    ensures 0 <= (y * w + x) * 4 + c < w * h * 4
  {
    PositionDecodes(w, h, y, x, c);
  }

  lemma LineIsChannel(s: Buffer, w: nat, h: nat, rows: bool, o: nat, c: nat)
    requires IsImage(s, w, h) && o < (if rows then h else w) && c < 4
    ensures LineOf(s, w, h, rows, o, c) == Channel(s, w, h, rows, o, c)
  {
  }

  /** Every byte of t is the mean of the 2r+1 samples around its place in the same channel of the line in s. */
  ghost predicate AllMeans(s: Buffer, t: Buffer, w: nat, h: nat, r: nat, rows: bool) {
    && IsImage(s, w, h) && IsImage(t, w, h)
    && forall o, c, i :: 0 <= o < (if rows then h else w) && 0 <= c < 4 && 0 <= i < (if rows then w else h) ==>
         IsMean(LineOf(t, w, h, rows, o, c)[i], LineOf(s, w, h, rows, o, c), i, r)
  }

  lemma BlurredIsMean(s: Buffer, w: nat, h: nat, r: nat, rows: bool)
    requires IsImage(s, w, h)
    ensures AllMeans(s, Blurred(s, w, h, r, rows), w, h, r, rows)
  {
    hide Blurred, Average, IsMean, LineOf;
    var t := Blurred(s, w, h, r, rows);
    forall o, c, i | 0 <= o < (if rows then h else w) && 0 <= c < 4 && 0 <= i < (if rows then w else h)
      ensures IsMean(LineOf(t, w, h, rows, o, c)[i], LineOf(s, w, h, rows, o, c), i, r)
    {
      LineIsChannel(s, w, h, rows, o, c);
      LineAt(t, w, h, rows, o, c, i);
      WrittenValue(s, w, h, r, rows, o, i, c);
      AverageIsMean(LineOf(s, w, h, rows, o, c), i, r);
    }
  }

  lemma LineAt(s: Buffer, w: nat, h: nat, rows: bool, o: nat, c: nat, i: nat)
    requires IsImage(s, w, h) && o < Outer(w, h, rows) && c < 4 && i < Inner(w, h, rows)
    ensures Idx(w, rows, o, i) + c < |s| && LineOf(s, w, h, rows, o, c)[i] == s[Idx(w, rows, o, i) + c]
  {
    IdxDecodes(w, h, rows, o, i, c);
  }

  /** blurAxis, in place, line by line, with a sliding window: the naive filter, whatever the radius. */
  method BlurAxis(pix: array<Byte>, w: nat, h: nat, radius: nat, rows: bool)
    requires IsImage(pix[..], w, h)
    modifies pix
    ensures pix[..] == Blurred(old(pix[..]), w, h, radius, rows)
    ensures AllMeans(old(pix[..]), pix[..], w, h, radius, rows)
  {
    hide Progress, Channel, HoldsLine, Blurred, AllMeans;
    ghost var before, after := pix[..], Blurred(pix[..], w, h, radius, rows);
    var line := new Byte[Inner(w, h, rows) * 4];
    ProgressStart(before, after, w, rows);
    for o := 0 to Outer(w, h, rows)
      invariant Progress(pix[..], before, after, w, rows, o, 0, 0)
    {
      CopyLine(pix, line, w, h, rows, o, before, after);
      WriteLine(pix, line, w, h, radius, rows, o, before, after);
    }
    ProgressDone(pix[..], before, after, w, h, rows);
    BlurredIsMean(before, w, h, radius, rows);
  }

  method BoxBlur(pix: array<Byte>, w: nat, h: nat, radius: int)
    requires IsImage(pix[..], w, h)
    modifies pix
    ensures pix[..] == BoxBlurred(old(pix[..]), w, h, radius)
  {
    if radius < 1 {
      return;
    }
    for pass := 0 to 2
      invariant pix[..] == Passes(old(pix[..]), w, h, radius, pass)
    {
      BlurAxis(pix, w, h, radius, true);
      BlurAxis(pix, w, h, radius, false);
    }
  }
}
