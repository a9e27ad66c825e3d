/** One line of samples and its naive box filter: the reference that blurAxis is measured against. */
module Windows {
  import opened Sums

  type Line = seq<Byte>

  function ClampInt(v: int, lo: int, hi: int): int {
    if v < lo then lo else if v > hi then hi else v
  }

  /** The sample at i, with the line's ends repeated outside it. */
  function Sample(v: Line, i: int): Byte
    requires v != []
  {
    v[ClampInt(i, 0, |v| - 1)]
  }

  /** Sum of the samples lo..hi, both included. */
  function WindowSum(v: Line, lo: int, hi: int): int
    requires v != []
    decreases hi - lo
  {
    if hi < lo then 0 else WindowSum(v, lo, hi - 1) + Sample(v, hi)
  }

  /** A window's total divided by its 2r+1 samples. */
  function Share(total: int, r: nat): int {
    total / (2 * r + 1)
  }

  function Average(v: Line, i: int, r: nat): int
    requires v != []
  {
    Share(WindowSum(v, i - r, i + r), r)
  }

  lemma {:induction false} WindowLeft(v: Line, lo: int, hi: int)
    requires v != [] && lo <= hi
    ensures WindowSum(v, lo, hi) == Sample(v, lo) + WindowSum(v, lo + 1, hi)
    decreases hi - lo
  {
    if lo < hi {
      WindowLeft(v, lo, hi - 1);
    }
  }

  /** Sliding the window by one: the entering sample in, the leaving one out. */
  lemma WindowSlide(v: Line, i: int, r: nat)
    requires v != []
    ensures WindowSum(v, i + 1 - r, i + 1 + r) ==
            WindowSum(v, i - r, i + r) + Sample(v, i + r + 1) - Sample(v, i - r)
  {
    WindowLeft(v, i - r, i + r);
  }

  lemma {:induction false} WindowSumBounds(v: Line, lo: int, hi: int, top: Byte)
    requires v != [] && lo <= hi + 1
    requires forall i :: 0 <= i < |v| ==> v[i] <= top
    ensures 0 <= WindowSum(v, lo, hi) <= top * (hi - lo + 1)
    decreases hi - lo
  {
    if lo <= hi {
      WindowSumBounds(v, lo, hi - 1, top);
      assert top * (hi - lo + 1) == top * (hi - lo) + top;
    } else {
      assert top * (hi - lo + 1) == 0;
    }
  }

  /** a / n stays below t exactly when a stays below t * n. */
  lemma DivBelow(a: int, n: nat, t: int)
    requires 0 < n
    ensures a / n < t <==> a < t * n
  {
    var q := a / n;
    assert a == q * n + a % n;
    MulMono(t, q, n);
    MulMono(q + 1, t, n);
  }

  /** The average fits a byte. */
  lemma AverageIsByte(v: Line, i: int, r: nat)
    requires v != []
    ensures 0 <= Average(v, i, r) < 256
  {
    hide WindowSum;
    WindowSumBounds(v, i - r, i + r, 255);
    DivBelow(WindowSum(v, i - r, i + r), 2 * r + 1, 256);
  }

  // ----- what the window is, without clamping -----

  function Repeat(b: Byte, n: nat): (v: Line)
    ensures |v| == n && forall i :: 0 <= i < n ==> v[i] == b
  {
    seq(n, _ => b)
  }

  /** The line with its first and last sample repeated r times beyond its ends. */
  function Padded(v: Line, r: nat): Line
    requires v != []
  {
    Repeat(v[0], r) + v + Repeat(v[|v| - 1], r)
  }

  function Total(v: Line): int {
    if v == [] then 0 else Total(v[..|v| - 1]) + v[|v| - 1]
  }

  lemma {:induction false} WindowIsSlice(v: Line, r: nat, lo: int, hi: int)
    requires v != [] && -(r as int) <= lo <= hi + 1 <= |v| + r
    ensures WindowSum(v, lo, hi) == Total(Padded(v, r)[lo + r..hi + 1 + r])
    decreases hi - lo
  {
    hide Padded;
    PaddedAt(v, r, lo);
    if lo <= hi {
      WindowIsSlice(v, r, lo, hi - 1);
      PaddedAt(v, r, hi);
      var w := Padded(v, r)[lo + r..hi + 1 + r];
      assert w[..|w| - 1] == Padded(v, r)[lo + r..hi + r];
    }
  }

  lemma PaddedAt(v: Line, r: nat, i: int)
    requires v != [] && -(r as int) <= i <= |v| + r
    ensures |Padded(v, r)| == |v| + 2 * r
    ensures i < |v| + r ==> Padded(v, r)[i + r] == Sample(v, i)
  {
  }

  /** The 2r+1 samples around place i of the line whose ends are repeated as far as the window reaches. */
  function Around(v: Line, i: nat, r: nat): (u: Line)
    requires i < |v|
    ensures |u| == 2 * r + 1
  {
    Padded(v, r)[i..i + 2 * r + 1]
  }

  /** Their mean, rounded down. */
  ghost predicate IsMean(mean: int, v: Line, i: nat, r: nat)
    requires i < |v|
  {
    mean * (2 * r + 1) <= Total(Around(v, i, r)) < (mean + 1) * (2 * r + 1)
  }

  /** The average is the mean of the samples around its place. */
  lemma AverageIsMean(v: Line, i: nat, r: nat)
    requires i < |v|
    ensures IsMean(Average(v, i, r), v, i, r)
  {
    hide Padded, WindowSum;
    PaddedAt(v, r, 0);
    WindowIsSlice(v, r, i - r, i + r);
    var total, n := Total(Around(v, i, r)), 2 * r + 1;
    assert total == (total / n) * n + total % n;
  }

  /** Away from the ends it is the plain mean of a slice of the line. */
  lemma AverageInside(v: Line, i: nat, r: nat)
    requires r <= i && i + r < |v|
    ensures Average(v, i, r) == Total(v[i - r..i + r + 1]) / (2 * r + 1)
  {
    hide Padded, WindowSum;
    PaddedAt(v, r, 0);
    WindowIsSlice(v, r, i - r, i + r);
    SliceInside(v, r, i - r, i + r + 1);
  }

  lemma SliceInside(v: Line, r: nat, lo: nat, hi: nat)
    requires v != [] && lo <= hi <= |v|
    ensures |Padded(v, r)| == |v| + 2 * r && Padded(v, r)[lo + r..hi + r] == v[lo..hi]
  {
  }

  /** Locality: lines that agree on the places of the window that lie inside them have the same average there. */
  lemma AverageIsLocal(v: Line, u: Line, i: nat, r: nat)
    requires i < |v| == |u|
    requires forall j :: i - r <= j <= i + r && 0 <= j < |v| ==> v[j] == u[j]
    ensures Average(v, i, r) == Average(u, i, r)
  {
    WindowIsLocal(v, u, i, r, i - r, i + r);
  }

  lemma {:induction false} WindowIsLocal(v: Line, u: Line, i: nat, r: nat, lo: int, hi: int)
    requires i < |v| == |u| && i - r <= lo && hi <= i + r
    requires forall j :: i - r <= j <= i + r && 0 <= j < |v| ==> v[j] == u[j]
    ensures WindowSum(v, lo, hi) == WindowSum(u, lo, hi)
    decreases hi - lo
  {
    if lo <= hi {
      WindowIsLocal(v, u, i, r, lo, hi - 1);
    }
  }

  /** Repeating an end sample once more changes no average. */
  lemma EdgesRepeat(v: Line, i: nat, r: nat)
    requires i < |v|
    ensures Average([v[0]] + v, i + 1, r) == Average(v, i, r)
    ensures Average(v + [v[|v| - 1]], i, r) == Average(v, i, r)
  {
    WindowShift(v, i - r, i + r);
    WindowExtend(v, i - r, i + r);
  }

  lemma {:induction false} WindowShift(v: Line, lo: int, hi: int)
    requires v != []
    ensures WindowSum([v[0]] + v, lo + 1, hi + 1) == WindowSum(v, lo, hi)
    decreases hi - lo
  {
    if lo <= hi {
      WindowShift(v, lo, hi - 1);
    }
  }

  lemma {:induction false} WindowExtend(v: Line, lo: int, hi: int)
    requires v != []
    ensures WindowSum(v + [v[|v| - 1]], lo, hi) == WindowSum(v, lo, hi)
    decreases hi - lo
  {
    if lo <= hi {
      WindowExtend(v, lo, hi - 1);
    }
  }

  // ----- mirrored lines -----

  function Reverse(v: Line): (r: Line)
    ensures |r| == |v| && forall i :: 0 <= i < |v| ==> r[i] == v[|v| - 1 - i]
  {
    seq(|v|, i requires 0 <= i < |v| => v[|v| - 1 - i])
  }

  lemma {:induction false} WindowReverse(v: Line, lo: int, hi: int)
    requires v != [] && lo <= hi + 1
    ensures WindowSum(Reverse(v), lo, hi) == WindowSum(v, |v| - 1 - hi, |v| - 1 - lo)
    decreases hi - lo
  {
    if lo <= hi {
      WindowReverse(v, lo, hi - 1);
      WindowLeft(v, |v| - 1 - hi, |v| - 1 - lo);
    }
  }

  lemma AverageReverse(v: Line, i: int, r: nat)
    requires v != []
    ensures Average(Reverse(v), i, r) == Average(v, |v| - 1 - i, r)
  {
    WindowReverse(v, i - r, i + r);
  }

  // ----- full-scale samples -----

  lemma {:induction false} WindowFull(v: Line, lo: int, hi: int)
    requires v != [] && lo <= hi + 1
    requires forall i :: 0 <= i < |v| ==> v[i] == 255
    ensures WindowSum(v, lo, hi) == 255 * (hi - lo + 1)
    decreases hi - lo
  {
    if lo <= hi {
      WindowFull(v, lo, hi - 1);
    }
  }

  lemma {:induction false} WindowBelowFull(v: Line, lo: int, hi: int, j: int)
    requires v != [] && lo <= j <= hi && Sample(v, j) < 255
    ensures 0 <= WindowSum(v, lo, hi) < 255 * (hi - lo + 1)
    decreases hi - lo
  {
    WindowSumBounds(v, lo, hi - 1, 255);
    if j < hi {
      WindowBelowFull(v, lo, hi - 1, j);
    }
  }

  /** A line that is 255 throughout keeps that value. */
  lemma AverageFull(v: Line, i: nat, r: nat)
    requires i < |v| && forall j :: 0 <= j < |v| ==> v[j] == 255
    ensures Average(v, i, r) == 255
  {
    var n: nat, a := 2 * r + 1, WindowSum(v, i - r, i + r);
    WindowFull(v, i - r, i + r);
    DivBelow(a, n, 255);
    DivBelow(a, n, 256);
  }

  /** A sample below 255 stays below: its window contains the sample itself. */
  lemma AverageBelowFull(v: Line, i: nat, r: nat)
    requires i < |v| && v[i] < 255
    ensures Average(v, i, r) < 255
  {
    var n: nat, a := 2 * r + 1, WindowSum(v, i - r, i + r);
    WindowBelowFull(v, i - r, i + r, i);
    DivBelow(a, n, 255);
  }
}
