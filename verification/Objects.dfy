/** Cached HTTP responses, their age classes and their accounted size (internal/cache/cache.go). */
module Objects {
  import opened Sums

  /** Canonical header name to the list of its values. */
  type Header = map<string, seq<string>>

  /** What http.Header.Get returns: the first value, or "" when there is none. */
  function HeaderGet(h: Header, name: string): string {
    if name in h && h[name] != [] then h[name][0] else ""
  }

  const ENTRY_OVERHEAD := 256

  function Lengths(values: seq<string>): nat {
    if values == [] then 0 else Lengths(values[..|values| - 1]) + |values[|values| - 1]|
  }

  /** Bytes charged for each header name. */
  ghost function HeaderCost(h: Header): map<string, int> {
    map name | name in h :: |name| + Lengths(h[name])
  }

  datatype Object = Object(
    status: int,
    header: Header,
    body: seq<Byte>,
    storedAt: int,
    ttl: int,
    staleFor: int)
  {
    predicate Expired(now: int) {
      now > storedAt + ttl
    }

    predicate Evictable(now: int) {
      now > storedAt + (ttl + staleFor)
    }

    ghost function Size(): int {
      |body| + ENTRY_OVERHEAD + SumMap(HeaderCost(header))
    }
  }

  lemma SizeAtLeastOverhead(o: Object)
    ensures o.Size() >= ENTRY_OVERHEAD + |o.body|
  {
    SumMapNonNegative(HeaderCost(o.header));
  }

  method MeasureValues(values: seq<string>) returns (n: nat)
    ensures n == Lengths(values)
  {
    n := 0;
    for i := 0 to |values|
      invariant n == Lengths(values[..i])
    {
      assert values[..i + 1][..i] == values[..i];
      n := n + |values[i]|;
    }
    assert values[..|values|] == values;
  }

  /** The accumulating loops of Object.size; Go's map order is an arbitrary choice. */
  method MeasureSize(o: Object) returns (n: int)
    ensures n == o.Size()
  {
    hide SumMap, Lengths;
    n := |o.body| + ENTRY_OVERHEAD;
    var todo := o.header.Keys;
    ghost var left := HeaderCost(o.header);
    while todo != {}
      invariant todo <= o.header.Keys
      invariant left.Keys == todo
      invariant forall k :: k in todo ==> left[k] == |k| + Lengths(o.header[k])
      invariant n + SumMap(left) == o.Size()
      decreases todo
    {
      var k :| k in todo;
      var v := MeasureValues(o.header[k]);
      SumMapSplit(left, k);
      n := n + |k| + v;
      todo := todo - {k};
      left := left - {k};
    }
    assert left == map[];
    SumMapEmpty(left);
  }

  lemma SumMapEmpty(m: map<string, int>)
    requires m == map[]
    ensures SumMap(m) == 0
  {
  }

  /** http.Header.Get: the first value given for the name, nothing for a name without values. */
  lemma HeaderGetIsFirst(h: Header, name: string, first: string, more: seq<string>)
    ensures HeaderGet(h[name := [first] + more], name) == first
    ensures HeaderGet(h[name := []], name) == HeaderGet(h - {name}, name) == ""
  {
  }

  /** What an object is charged: 256 bytes and its body, and for each header its name and all its values. */
  lemma SizeAddsUp(o: Object, name: string, values: seq<string>, value: string)
    ensures o.header == map[] ==> o.Size() == 256 + |o.body|
    ensures name !in o.header ==> o.(header := o.header[name := []]).Size() == o.Size() + |name|
    ensures o.(header := o.header[name := values + [value]]).Size() ==
            o.(header := o.header[name := values]).Size() + |value|
  {
    hide SumMap, HeaderCost;
    Lengthen(values, value);
    CostOf(o.header, name, []);
    CostOf(o.header, name, values);
    CostOf(o.header, name, values + [value]);
    NoHeaders(o.header);
    CostWithout(o.header, name);
  }

  lemma Lengthen(values: seq<string>, value: string)
    ensures Lengths(values + [value]) == Lengths(values) + |value| && Lengths([]) == 0
  {
    assert (values + [value])[..|values|] == values;
  }

  lemma NoHeaders(h: Header)
    ensures h == map[] ==> SumMap(HeaderCost(h)) == 0
  {
    if h == map[] {
      assert HeaderCost(h) == map[];
      SumMapEmpty(HeaderCost(h));
    }
  }

  lemma CostWithout(h: Header, name: string)
    ensures name !in h ==> HeaderCost(h) - {name} == HeaderCost(h)
  {
  }

  lemma CostOf(h: Header, name: string, values: seq<string>)
    ensures SumMap(HeaderCost(h[name := values])) ==
            SumMap(HeaderCost(h) - {name}) + |name| + Lengths(values)
  {
    hide SumMap, Lengths;
    var m := HeaderCost(h[name := values]);
    assert m.Keys == h.Keys + {name};
    SumMapSplit(m, name);
    assert m - {name} == HeaderCost(h) - {name};
  }
}
