/** Where a pixel's channel byte lives in a flat NRGBA buffer of w*h pixels, walked by rows or by columns. */
module Layout {
  import opened Sums

  /** Byte position of channel 0 of the i-th pixel of line o (a row when `rows`, else a column). */
  function Idx(w: nat, rows: bool, o: nat, i: nat): nat {
    if rows then (o * w + i) * 4 else (i * w + o) * 4
  }

  function Outer(w: nat, h: nat, rows: bool): nat { if rows then h else w }

  function Inner(w: nat, h: nat, rows: bool): nat { if rows then w else h }

  function Column(w: nat, k: nat): nat
    requires 0 < w
  {
    (k / 4) % w
  }

  function Row(w: nat, k: nat): nat
    requires 0 < w
  {
    (k / 4) / w
  }

  /** The line and the place in it that byte k belongs to. */
  function LineIn(w: nat, rows: bool, k: nat): nat
    requires 0 < w
  {
    if rows then Row(w, k) else Column(w, k)
  }

  function PlaceIn(w: nat, rows: bool, k: nat): nat
    requires 0 < w
  {
    if rows then Column(w, k) else Row(w, k)
  }

  lemma DivModUnique(w: nat, y: nat, x: nat)
    requires x < w
    ensures (y * w + x) / w == y && (y * w + x) % w == x
  {
    var n := y * w + x;
    var q, r := n / w, n % w;
    assert n == q * w + r;
    if q < y {
      MulMono(q + 1, y, w);
    } else if q > y {
      MulMono(y + 1, q, w);
    }
  }

  lemma FourBytes(n: nat, c: nat)
    requires c < 4
    ensures (n * 4 + c) / 4 == n && (n * 4 + c) % 4 == c
  {
  }

  /** Every position is inside the buffer and decodes to what it encodes. */
  lemma IdxDecodes(w: nat, h: nat, rows: bool, o: nat, i: nat, c: nat)
    requires o < Outer(w, h, rows) && i < Inner(w, h, rows) && c < 4
    ensures Idx(w, rows, o, i) + 4 <= w * h * 4
    ensures var k := Idx(w, rows, o, i) + c;
            LineIn(w, rows, k) == o && PlaceIn(w, rows, k) == i && k % 4 == c
  {
    if rows {
      PositionDecodes(w, h, o, i, c);
    } else {
      PositionDecodes(w, h, i, o, c);
    }
  }

  lemma PositionDecodes(w: nat, h: nat, y: nat, x: nat, c: nat)
    requires y < h && x < w && c < 4
    ensures (y * w + x) * 4 + 4 <= w * h * 4
    ensures var k := (y * w + x) * 4 + c; Row(w, k) == y && Column(w, k) == x && k % 4 == c
  {
    MulMono(y + 1, h, w);
    assert w * h == h * w;
    FourBytes(y * w + x, c);
    DivModUnique(w, y, x);
  }

  lemma DecodeInRange(w: nat, h: nat, k: nat)
    requires 0 < w && k < w * h * 4
    ensures Column(w, k) < w && Row(w, k) < h
    ensures (Row(w, k) * w + Column(w, k)) * 4 + k % 4 == k
  {
    var p := k / 4;
    var q, r := p / w, p % w;
    assert p == q * w + r && w * h == h * w;
    if q >= h {
      MulMono(h, q, w);
    }
  }

  lemma DecodeLine(w: nat, h: nat, rows: bool, k: nat)
    requires 0 < w && k < w * h * 4
    ensures LineIn(w, rows, k) < Outer(w, h, rows) && PlaceIn(w, rows, k) < Inner(w, h, rows)
    ensures Idx(w, rows, LineIn(w, rows, k), PlaceIn(w, rows, k)) + k % 4 == k
  {
    DecodeInRange(w, h, k);
  }
}
