/** Which requests and responses the cache may touch, and for how long (internal/cache/policy.go). */
module Policy {
  import opened Sums
  import opened Objects
  import opened Text

  const SECOND := 1000000000
  const MAX_TTL := 24 * 3600 * SECOND * 7

  datatype Mode = Off | Standard | Aggressive

  datatype Policy = Policy(mode: Mode, defaultTtl: int, staleFor: int, maxObjectBytes: int)

  datatype CacheControl = CacheControl(noStore: bool, noCache: bool, isPrivate: bool, maxAge: int, sMaxAge: int)

  const NOTHING_SAID := CacheControl(false, false, false, -1, -1)

  predicate StaticExt(e: string) {
    e in {".css", ".js", ".mjs", ".map", ".png", ".jpg", ".jpeg", ".gif", ".webp", ".avif", ".svg", ".ico",
          ".woff", ".woff2", ".ttf", ".otf", ".eot", ".mp4", ".webm", ".mp3", ".ogg", ".wav",
          ".pdf", ".txt", ".xml", ".json", ".zip", ".gz", ".br", ".tar", ".wasm"}
  }

  predicate CacheableStatus(status: int) {
    status in {200, 203, 204, 300, 301, 404, 405, 410, 414, 501}
  }

  // ----- Cache-Control -----

  const MAX_AGE := "max-age="
  const S_MAXAGE := "s-maxage="

  function NumberAfter(part: string, prefix: string): Option<int> {
    if HasPrefix(part, prefix) then Atoi(part[|prefix|..]) else None
  }

  /** The effect of one directive, already trimmed and lower-cased. */
  function Directive(cc: CacheControl, part: string): CacheControl {
    if part == "no-store" then cc.(noStore := true)
    else if part == "no-cache" then cc.(noCache := true)
    else if part == "private" then cc.(isPrivate := true)
    else if HasPrefix(part, MAX_AGE) then
      (match NumberAfter(part, MAX_AGE) case None => cc case Some(n) => cc.(maxAge := n))
    else if HasPrefix(part, S_MAXAGE) then
      (match NumberAfter(part, S_MAXAGE) case None => cc case Some(n) => cc.(sMaxAge := n))
    else cc
  }

  function Directives(parts: seq<string>): CacheControl {
    if parts == [] then NOTHING_SAID else Directive(Directives(parts[..|parts| - 1]), parts[|parts| - 1])
  }

  function Clean(raw: seq<string>): (r: seq<string>)
    ensures |r| == |raw| && forall i :: 0 <= i < |raw| ==> r[i] == Trim(ToLower(raw[i]))
  {
    seq(|raw|, i requires 0 <= i < |raw| => Trim(ToLower(raw[i])))
  }

  function CacheControlOf(value: string): CacheControl {
    Directives(Clean(Split(value, ',')))
  }

  /** The loop of parseCacheControl. */
  method ParseCacheControl(value: string) returns (cc: CacheControl)
    ensures cc == CacheControlOf(value)
  {
    var raw := Split(value, ',');
    cc := NOTHING_SAID;
    ghost var parts := Clean(raw);
    for i := 0 to |raw|
      invariant cc == Directives(parts[..i])
    {
      assert parts[..i + 1][..i] == parts[..i];
      var part := Trim(ToLower(raw[i]));
      if part == "no-store" {
        cc := cc.(noStore := true);
      } else if part == "no-cache" {
        cc := cc.(noCache := true);
      } else if part == "private" {
        cc := cc.(isPrivate := true);
      } else if HasPrefix(part, MAX_AGE) {
        var n := Atoi(part[|MAX_AGE|..]);
        if n.Some? {
          cc := cc.(maxAge := n.value);
        }
      } else if HasPrefix(part, S_MAXAGE) {
        var n := Atoi(part[|S_MAXAGE|..]);
        if n.Some? {
          cc := cc.(sMaxAge := n.value);
        }
      }
    }
    assert parts[..|raw|] == parts;
  }

  /** Flags are set exactly when their directive appears somewhere. */
  lemma {:induction false} FlagsMeanPresence(parts: seq<string>)
    ensures Directives(parts).noStore <==> "no-store" in parts
    ensures Directives(parts).noCache <==> "no-cache" in parts
    ensures Directives(parts).isPrivate <==> "private" in parts
  {
    if parts != [] {
      var n := |parts| - 1;
      FlagsMeanPresence(parts[..n]);
      assert parts == parts[..n] + [parts[n]];
    }
  }

  /** The last directive of the two kinds that carries a number decides the ages. */
  ghost predicate LastNumber(parts: seq<string>, prefix: string, n: int) {
    if forall i :: 0 <= i < |parts| ==> NumberAfter(parts[i], prefix) == None then n == -1
    else exists i :: 0 <= i < |parts| && NumberAfter(parts[i], prefix) == Some(n)
                     && forall j :: i < j < |parts| ==> NumberAfter(parts[j], prefix) == None
  }

  lemma PrefixesDiffer(part: string)
    ensures HasPrefix(part, MAX_AGE) ==> !HasPrefix(part, S_MAXAGE)
    ensures HasPrefix(part, MAX_AGE) || HasPrefix(part, S_MAXAGE) ==>
              part != "no-store" && part != "no-cache" && part != "private"
  {
    if HasPrefix(part, MAX_AGE) {
      assert part[0] == MAX_AGE[0];
    }
    if HasPrefix(part, S_MAXAGE) {
      assert part[0] == S_MAXAGE[0];
    }
  }

  lemma LastNumberSnoc(parts: seq<string>, part: string, prefix: string, n: int)
    requires LastNumber(parts, prefix, n)
    ensures LastNumber(parts + [part], prefix,
                       if NumberAfter(part, prefix).Some? then NumberAfter(part, prefix).value else n)
  {
    hide NumberAfter;
    var all := parts + [part];
    assert all[|parts|] == part;
    if NumberAfter(part, prefix).None? {
      if i :| 0 <= i < |parts| && NumberAfter(parts[i], prefix) == Some(n)
              && forall j :: i < j < |parts| ==> NumberAfter(parts[j], prefix) == None {
        assert NumberAfter(all[i], prefix) == Some(n);
        assert forall j :: i < j < |all| ==> NumberAfter(all[j], prefix) == None;
      } else {
        assert forall i :: 0 <= i < |parts| ==> NumberAfter(parts[i], prefix) == None;
      }
    }
  }

  lemma {:induction false} AgesAreLast(parts: seq<string>)
    ensures LastNumber(parts, "max-age=", Directives(parts).maxAge)
    ensures LastNumber(parts, "s-maxage=", Directives(parts).sMaxAge)
  {
    hide LastNumber;
    if parts == [] {
      EmptyHasNoNumber();
    } else {
      var n := |parts| - 1;
      var before := Directives(parts[..n]);
      AgesAreLast(parts[..n]);
      PrefixesDiffer(parts[n]);
      LastNumberSnoc(parts[..n], parts[n], MAX_AGE, before.maxAge);
      LastNumberSnoc(parts[..n], parts[n], S_MAXAGE, before.sMaxAge);
      assert parts == parts[..n] + [parts[n]];
    }
  }

  lemma EmptyHasNoNumber()
    ensures LastNumber([], MAX_AGE, -1) && LastNumber([], S_MAXAGE, -1)
  {
  }

  ghost predicate AtMostOnce(parts: seq<string>, prefix: string) {
    forall i, j :: 0 <= i < j < |parts| ==> !(HasPrefix(parts[i], prefix) && HasPrefix(parts[j], prefix))
  }

  lemma UniqueNumber(p: seq<string>, q: seq<string>, prefix: string, a: int, b: int)
    requires forall s :: s in p <==> s in q
    requires AtMostOnce(p, prefix) && AtMostOnce(q, prefix)
    requires LastNumber(p, prefix, a) && LastNumber(q, prefix, b)
    ensures a == b
  {
    hide HasPrefix, Atoi;
    if i :| 0 <= i < |p| && NumberAfter(p[i], prefix).Some? {
      assert p[i] in q;
      var j :| 0 <= j < |q| && q[j] == p[i];
      assert NumberAfter(q[j], prefix).Some?;
      NumberIsThe(p, prefix, a, i);
      NumberIsThe(q, prefix, b, j);
    } else {
      forall j | 0 <= j < |q| ensures NumberAfter(q[j], prefix) == None {
        assert q[j] in p;
      }
    }
  }

  lemma NumberIsThe(p: seq<string>, prefix: string, a: int, i: nat)
    requires i < |p| && NumberAfter(p[i], prefix).Some? && AtMostOnce(p, prefix) && LastNumber(p, prefix, a)
    ensures NumberAfter(p[i], prefix) == Some(a)
  {
    hide Atoi;
    var k :| 0 <= k < |p| && NumberAfter(p[k], prefix) == Some(a);
    assert HasPrefix(p[k], prefix) && HasPrefix(p[i], prefix);
  }

  /** Reordering directives (or repeating flags) changes nothing when each age directive occurs at most once. */
  lemma OrderIrrelevant(p: seq<string>, q: seq<string>)
    requires forall s :: s in p <==> s in q
    requires AtMostOnce(p, MAX_AGE) && AtMostOnce(q, MAX_AGE) && AtMostOnce(p, S_MAXAGE) && AtMostOnce(q, S_MAXAGE)
    ensures Directives(p) == Directives(q)
  {
    FlagsMeanPresence(p);
    FlagsMeanPresence(q);
    AgesAreLast(p);
    AgesAreLast(q);
    UniqueNumber(p, q, MAX_AGE, Directives(p).maxAge, Directives(q).maxAge);
    UniqueNumber(p, q, S_MAXAGE, Directives(p).sMaxAge, Directives(q).sMaxAge);
  }

  // ----- requests -----

  /** Text that cannot contain NUL: what an HTTP server accepts in hosts, methods and request targets. */
  type Token = s: string | 0 as char !in s

  datatype Request = Request(host: Token, verb: Token, uri: Token, path: string, header: Header)

  predicate CacheableRequest(p: Policy, r: Request) {
    && p.mode != Off
    && (r.verb == "GET" || r.verb == "HEAD")
    && HeaderGet(r.header, "Authorization") == ""
    && HeaderGet(r.header, "Range") == ""
    && !CacheControlOf(HeaderGet(r.header, "Cache-Control")).noStore
    && !(HeaderGet(r.header, "Cookie") != "" && p.mode != Aggressive)
  }

  /**
    What docs/caching.md promises of the requests that may use the cache: GET and HEAD only, no Authorization, no
    Range, no no-store among the cache directives, and cookies only in aggressive mode.
  */
  ghost predicate MayUseCache(p: Policy, r: Request) {
    && (p.mode == Standard || p.mode == Aggressive)
    && r.verb in {"GET", "HEAD"}
    && HeaderGet(r.header, "Authorization") == "" && HeaderGet(r.header, "Range") == ""
    && "no-store" !in Clean(Split(HeaderGet(r.header, "Cache-Control"), ','))
    && (HeaderGet(r.header, "Cookie") != "" ==> p.mode == Aggressive)
  }

  /** The code admits exactly those requests. */
  lemma CacheableMeans(p: Policy, r: Request)
    ensures CacheableRequest(p, r) <==> MayUseCache(p, r)
  {
    FlagsMeanPresence(Clean(Split(HeaderGet(r.header, "Cache-Control"), ',')));
    hide HeaderGet, Clean, Split;
  }

  /** The statuses that section 15.1 of RFC 9110 calls heuristically cacheable, except 206 and 308. */
  lemma CacheableStatuses(status: int)
    ensures CacheableStatus(status) <==>
            status in {200, 203, 204, 206, 300, 301, 308, 404, 405, 410, 414, 501} && status != 206 && status != 308
  {
  }

  const STYLES_AND_SCRIPTS := {".css", ".js", ".mjs", ".map", ".wasm"}
  const IMAGES := {".png", ".jpg", ".jpeg", ".gif", ".webp", ".avif", ".svg", ".ico"}
  const FONTS := {".woff", ".woff2", ".ttf", ".otf", ".eot"}
  const MEDIA := {".mp4", ".webm", ".mp3", ".ogg", ".wav"}
  const DOCUMENTS := {".pdf", ".txt", ".xml", ".json", ".zip", ".gz", ".br", ".tar"}

  /** The static assets, by kind; the extension includes its dot. */
  lemma StaticKinds(e: string)
    ensures StaticExt(e) <==> e in STYLES_AND_SCRIPTS + IMAGES + FONTS + MEDIA + DOCUMENTS
  {
    hide StaticExt;
    if StaticExt(e) {
      StaticHasKind(e);
    }
    if e in STYLES_AND_SCRIPTS + IMAGES + FONTS + MEDIA + DOCUMENTS {
      KindsAreStatic(e);
    }
  }

  lemma StaticHasKind(e: string)
    requires StaticExt(e)
    ensures e in STYLES_AND_SCRIPTS + IMAGES + FONTS + MEDIA + DOCUMENTS
  {
  }

  lemma KindsAreStatic(e: string)
    requires e in STYLES_AND_SCRIPTS + IMAGES + FONTS + MEDIA + DOCUMENTS
    ensures StaticExt(e)
  {
  }

  /** A directive with a decimal number states that number. */
  lemma AgeText(prefix: string, n: int)
    requires 0 <= n < 0x8000_0000_0000_0000
    ensures NumberAfter(prefix + Decimal(n), prefix) == Some(n)
    ensures forall part :: !(prefix <= part) ==> NumberAfter(part, prefix) == None
  {
    assert (prefix + Decimal(n))[..|prefix|] == prefix && (prefix + Decimal(n))[|prefix|..] == Decimal(n);
    AtoiReadsDecimals(n);
  }

  // ----- responses -----

  function CapTtl(ttl: int): int {
    if ttl > MAX_TTL then MAX_TTL else ttl
  }

  /**
    The freshness the origin states, and whether it states any. `expires` is the time left until the date
    in the Expires header, None when that header is missing or not a date.
  */
  function Stated(cc: CacheControl, expires: Option<int>): (int, bool) {
    var explicit := cc.noCache || cc.maxAge >= 0 || cc.sMaxAge >= 0;
    if cc.noCache then (0, explicit)
    else if cc.sMaxAge >= 0 then (Wrap64(cc.sMaxAge * SECOND), explicit)
    else if cc.maxAge >= 0 then (Wrap64(cc.maxAge * SECOND), explicit)
    else match expires
         case None => (0, explicit)
         case Some(left) => (left, true)
  }

  function ResponseTtl(p: Policy, path: string, status: int, h: Header, expires: Option<int>): Option<int> {
    var cc := CacheControlOf(HeaderGet(h, "Cache-Control"));
    if p.mode == Off || !CacheableStatus(status) then None
    else if HeaderGet(h, "Set-Cookie") != "" then None
    else if '*' in HeaderGet(h, "Vary") then None
    else if cc.noStore || cc.isPrivate then None
    else
      var (ttl, explicit) := Stated(cc, if HeaderGet(h, "Expires") == "" then None else expires);
      if ttl > 0 then Some(CapTtl(ttl))
      else if p.mode == Aggressive || (!explicit && StaticExt(ToLower(Ext(path)))) then
        (if p.defaultTtl > 0 then Some(p.defaultTtl) else None)
      else None
  }

  /** What admission of a response means. */
  ghost predicate Admissible(p: Policy, status: int, h: Header, ttl: int) {
    && p.mode != Off
    && CacheableStatus(status)
    && HeaderGet(h, "Set-Cookie") == ""
    && '*' !in HeaderGet(h, "Vary")
    && "no-store" !in Clean(Split(HeaderGet(h, "Cache-Control"), ','))
    && "private" !in Clean(Split(HeaderGet(h, "Cache-Control"), ','))
    && 0 < ttl <= Max(7 * 24 * 3600 * 1_000_000_000, p.defaultTtl)
  }

  lemma AdmittedIsAdmissible(p: Policy, path: string, status: int, h: Header, expires: Option<int>)
    ensures match ResponseTtl(p, path, status, h, expires)
            case None => true
            case Some(ttl) => Admissible(p, status, h, ttl)
  {
    FlagsMeanPresence(Clean(Split(HeaderGet(h, "Cache-Control"), ',')));
  }

  /** no-store or private anywhere in the first Cache-Control line always prevents storage. */
  lemma NoStoreAlwaysWins(p: Policy, path: string, status: int, h: Header, expires: Option<int>, i: nat)
    requires var parts := Clean(Split(HeaderGet(h, "Cache-Control"), ','));
             i < |parts| && (parts[i] == "no-store" || parts[i] == "private")
    ensures ResponseTtl(p, path, status, h, expires) == None
  {
    FlagsMeanPresence(Clean(Split(HeaderGet(h, "Cache-Control"), ',')));
  }

  /** Whatever standard mode serves or stores, aggressive mode does too, with the same TTL; off does nothing. */
  lemma ModesAreOrdered(p: Policy, r: Request, path: string, status: int, h: Header, expires: Option<int>)
    ensures var std, agg, off := p.(mode := Standard), p.(mode := Aggressive), p.(mode := Off);
            && (CacheableRequest(std, r) ==> CacheableRequest(agg, r))
            && (ResponseTtl(std, path, status, h, expires).Some? ==>
                  ResponseTtl(agg, path, status, h, expires) == ResponseTtl(std, path, status, h, expires))
            && !CacheableRequest(off, r) && ResponseTtl(off, path, status, h, expires) == None
  {
    hide CacheControlOf, Stated, StaticExt, CacheableStatus, HeaderGet, Ext, ToLower;
  }

  /**
    A response eligible on every other ground whose effective age is n seconds: s-maxage when it is given,
    otherwise max-age (section 4.2.1 of RFC 9111), whatever Expires says.
  */
  ghost predicate StatesAge(status: int, h: Header, n: int) {
    var cc := CacheControlOf(HeaderGet(h, "Cache-Control"));
    && CacheableStatus(status) && HeaderGet(h, "Set-Cookie") == "" && '*' !in HeaderGet(h, "Vary")
    && !cc.noStore && !cc.isPrivate && !cc.noCache
    && n == if cc.sMaxAge >= 0 then cc.sMaxAge else cc.maxAge
  }

  /**
    "Positive freshness from the origin always wins, capped at 7 days", in either caching mode, holds exactly
    when the product seconds * 10^9 fits 64 bits or happens to wrap to at least 7 days - or, in aggressive
    mode, when it wraps to nothing and the default TTL happens to be 7 days.
  */
  lemma StatedAgeHonouredIff(p: Policy, path: string, status: int, h: Header, expires: Option<int>, n: int)
    requires p.mode != Off && 0 < n <= INT64_MAX && StatesAge(status, h, n)
    ensures ResponseTtl(p, path, status, h, expires) == Some(Min(n * SECOND, MAX_TTL)) <==>
            || n * SECOND <= INT64_MAX
            || Wrap64(n * SECOND) >= MAX_TTL
            || (p.mode == Aggressive && Wrap64(n * SECOND) <= 0 && p.defaultTtl == MAX_TTL)
  {
    hide CacheControlOf, CacheableStatus, HeaderGet, StaticExt, Ext, ToLower;
  }

  /** What happens instead: a product that wraps short of 7 days is the TTL, one that wraps to nothing the fallback. */
  lemma WrappedAge(p: Policy, path: string, status: int, h: Header, expires: Option<int>, n: int)
    requires p.mode != Off && 0 < n <= INT64_MAX && StatesAge(status, h, n)
    ensures var wrapped := Wrap64(n * SECOND);
            ResponseTtl(p, path, status, h, expires) ==
            if 0 < wrapped then Some(Min(wrapped, MAX_TTL))
            else if p.mode == Aggressive && p.defaultTtl > 0 then Some(p.defaultTtl)
            else None
  {
    hide CacheControlOf, CacheableStatus, HeaderGet, StaticExt, Ext, ToLower;
  }

  /**
    In standard mode the smallest age whose product wraps is refused; twice as far it gives 0.29 seconds, and a
    little further the product happens to wrap to more than 7 days and the age is honoured.
  */
  lemma HugeAges(p: Policy, path: string, status: int, h: Header, expires: Option<int>)
    requires p.mode == Standard
    ensures StatesAge(status, h, 9223372037) ==> ResponseTtl(p, path, status, h, expires) == None
    ensures StatesAge(status, h, 18446744074) ==> ResponseTtl(p, path, status, h, expires) == Some(290448384)
    ensures StatesAge(status, h, 18447348874) ==> ResponseTtl(p, path, status, h, expires) == Some(604_800_000_000_000)
  {
    hide ResponseTtl, StatesAge;
    assert Wrap64(9223372037 * SECOND) < 0 && Wrap64(18446744074 * SECOND) == 290448384;
    if StatesAge(status, h, 9223372037) { WrappedAge(p, path, status, h, expires, 9223372037); }
    assert Wrap64(18447348874 * SECOND) > MAX_TTL;
    if StatesAge(status, h, 18447348874) { WrappedAge(p, path, status, h, expires, 18447348874); }
    if StatesAge(status, h, 18446744074) { WrappedAge(p, path, status, h, expires, 18446744074); }
  }

  /**
    Responses without usable freshness, per the documented table: aggressive mode stores them all for the
    default TTL, standard mode only silent static assets. A past Expires speaks, and so does a zero age, which
    beats any Expires.
  */
  lemma NoUsableFreshness(p: Policy, path: string, status: int, h: Header, expires: Option<int>, n: int)
    requires n <= 0 && StatesAge(status, h, n)
    requires n < 0 && HeaderGet(h, "Expires") != "" && expires.Some? ==> expires.value <= 0
    ensures var silent := n < 0 && (HeaderGet(h, "Expires") == "" || expires == None);
            ResponseTtl(p, path, status, h, expires) ==
            if p.defaultTtl > 0 &&
               (p.mode == Aggressive || (p.mode == Standard && silent && StaticExt(ToLower(Ext(path)))))
            then Some(p.defaultTtl) else None
  {
    hide CacheControlOf, CacheableStatus, HeaderGet, StaticExt, Ext, ToLower;
  }

  /** An explicit no-cache beats every age and date: standard mode refuses, aggressive mode gives the default TTL. */
  lemma NoCacheIsRespected(p: Policy, path: string, status: int, h: Header, expires: Option<int>)
    requires var cc := CacheControlOf(HeaderGet(h, "Cache-Control"));
             && CacheableStatus(status) && HeaderGet(h, "Set-Cookie") == "" && '*' !in HeaderGet(h, "Vary")
             && !cc.noStore && !cc.isPrivate && cc.noCache
    ensures ResponseTtl(p, path, status, h, expires) ==
            if p.mode == Aggressive && p.defaultTtl > 0 then Some(p.defaultTtl) else None
  {
    hide CacheControlOf, CacheableStatus, HeaderGet, StaticExt, Ext, ToLower;
  }

  /** Without ages and no-cache, a date in the future is honoured up to 7 days, and only when Expires is present. */
  lemma ExpiresHonoured(p: Policy, path: string, status: int, h: Header, left: int)
    requires p.mode != Off && 0 < left && StatesAge(status, h, -1) && HeaderGet(h, "Expires") != ""
    ensures ResponseTtl(p, path, status, h, Some(left)) == Some(Min(left, 7 * 24 * 3600 * 1_000_000_000))
  {
    hide CacheControlOf, CacheableStatus, HeaderGet, StaticExt, Ext, ToLower;
  }

  const HUGE := "max-age=9223372037"

  lemma HugeIsOnePart()
    ensures Clean(Split(HUGE, ',')) == [HUGE]
  {
    hide Split, ToLower;
    forall i | 0 <= i < |HUGE| ensures HUGE[i] != ',' && LowerChar(HUGE[i]) == HUGE[i] {
    }
    SplitNone(HUGE, ',');
    LowerFixed(HUGE);
    assert Trim(HUGE) == HUGE;
  }

  /** A concrete response of that kind: the header line Cache-Control: max-age=9223372037, refused in standard mode. */
  lemma HugeMaxAgeExample(p: Policy, path: string, expires: Option<int>)
    requires p.mode == Standard
    ensures var h: Header := map["Cache-Control" := [HUGE]];
            StatesAge(200, h, 9223372037) && ResponseTtl(p, path, 200, h, expires) == None
  {
    hide Clean, Split, ResponseTtl, Directive;
    var h: Header := map["Cache-Control" := [HUGE]];
    assert HeaderGet(h, "Cache-Control") == HUGE;
    HugeIsOnePart();
    HugeDirective();
    var one := [HUGE];
    assert one[..|one| - 1] == [] && one[|one| - 1] == HUGE;
    assert Directives(one) == Directive(Directives([]), HUGE);
    HugeAges(p, path, 200, h, expires);
  }

  lemma HugeDirective()
    ensures Directive(NOTHING_SAID, HUGE) == NOTHING_SAID.(maxAge := 9223372037)
  {
    hide Digits, AllDigits, Atoi;
    NumberText();
    var digits := "9223372037";
    assert HUGE[..8] == MAX_AGE && HUGE[8..] == digits;
    AtoiOfDigits(digits);
  }

  lemma NumberText()
    ensures Digits("9223372037") == 9223372037 && AllDigits("9223372037")
  {
    assert "9223372037"[..9] == "922337203" && "922337203"[..8] == "92233720" && "92233720"[..7] == "9223372";
    assert "9223372"[..6] == "922337" && "922337"[..5] == "92233" && "92233"[..4] == "9223";
    assert "9223"[..3] == "922" && "922"[..2] == "92" && "92"[..1] == "9" && "9"[..0] == "";
    assert Digits("9") == 9 && Digits("92") == 92 && Digits("922") == 922 && Digits("9223") == 9223;
    assert Digits("92233") == 92233 && Digits("922337") == 922337 && Digits("9223372") == 9223372;
    assert Digits("92233720") == 92233720 && Digits("922337203") == 922337203;
    assert AllDigits("") && AllDigits("9") && AllDigits("92") && AllDigits("922") && AllDigits("9223");
    assert AllDigits("92233") && AllDigits("922337") && AllDigits("9223372") && AllDigits("92233720");
    assert AllDigits("922337203");
  }
}
