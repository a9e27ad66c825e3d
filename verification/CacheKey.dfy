/** How cache keys bind host, method, URI and encoding (Key in internal/cache/cache.go, internal/proxy/proxy.go). */
module CacheKey {
  import opened Objects
  import opened Text
  import opened Recency
  import opened Policy

  const NUL := 0 as char

  /** What is hashed: the four parts with NUL between them. */
  function Preimage(host: string, verb: string, uri: string, enc: string): string {
    host + [NUL] + verb + [NUL] + uri + [NUL] + enc
  }

  lemma CutAtNul(a: string, b: string, c: string, d: string)
    requires NUL !in a && NUL !in c && a + [NUL] + b == c + [NUL] + d
    ensures a == c && b == d
  {
    var s, t := a + [NUL] + b, c + [NUL] + d;
    assert s[|a|] == NUL && t[|c|] == NUL;
    assert forall i :: 0 <= i < |a| ==> s[i] == a[i] && a[i] in a;
    assert forall i :: 0 <= i < |c| ==> t[i] == c[i] && c[i] in c;
    assert |a| == |c|;
    assert s[..|a|] == a && t[..|c|] == c;
    assert s[|a| + 1..] == b && t[|c| + 1..] == d;
  }

  /** Different requests have different preimages, as long as host, method and URI hold no NUL. */
  lemma PreimageInjective(h1: Token, v1: Token, u1: Token, e1: string, h2: Token, v2: Token, u2: Token, e2: string)
    requires Preimage(h1, v1, u1, e1) == Preimage(h2, v2, u2, e2)
    ensures h1 == h2 && v1 == v2 && u1 == u2 && e1 == e2
  {
    var r1, r2 := u1 + [NUL] + e1, u2 + [NUL] + e2;
    var q1, q2 := v1 + [NUL] + r1, v2 + [NUL] + r2;
    assert Preimage(h1, v1, u1, e1) == h1 + [NUL] + q1;
    assert Preimage(h2, v2, u2, e2) == h2 + [NUL] + q2;
    CutAtNul(h1, q1, h2, q2);
    CutAtNul(v1, r1, v2, r2);
    CutAtNul(u1, e1, u2, e2);
  }

  /** SHA-256 in hexadecimal, taken as some function from texts to keys. */
  type Digest = string -> Key

  /** No two different texts of this set have the same digest. Digests of other texts may collide, and must. */
  ghost predicate CollisionFree(digest: Digest, texts: set<string>) {
    forall a, b :: a in texts && b in texts && digest(a) == digest(b) ==> a == b
  }

  function NormalizeEncoding(ae: string): string {
    var low := ToLower(ae);
    if Contains(low, "br") then "br, gzip"
    else if Contains(low, "gzip") then "gzip"
    else ""
  }

  /**
    The encoding bucket: "br, gzip" for clients whose header mentions br in any spelling, "gzip" for those that
    mention gzip only, nothing for all others.
  */
  lemma EncodingBuckets(ae: string)
    ensures NormalizeEncoding(ae) == "br, gzip" <==> Occurs("br", ToLower(ae))
    ensures NormalizeEncoding(ae) == "gzip" <==> Occurs("gzip", ToLower(ae)) && !Occurs("br", ToLower(ae))
    ensures NormalizeEncoding(ae) == "" <==> !Occurs("gzip", ToLower(ae)) && !Occurs("br", ToLower(ae))
  {
    hide Contains, ToLower, Occurs;
    ContainsMeans(ToLower(ae), "br");
    ContainsMeans(ToLower(ae), "gzip");
  }

  function EncodingOf(r: Request): string {
    NormalizeEncoding(HeaderGet(r.header, "Accept-Encoding"))
  }

  /** What is hashed for a proxied request. */
  function TextOf(r: Request): string {
    Preimage(r.host, r.verb, r.uri, EncodingOf(r))
  }

  function KeyOf(digest: Digest, r: Request): Key {
    digest(TextOf(r))
  }

  const IMAGE_HOST: Token := "img.hubcdn.internal"
  const IMAGE_VERB: Token := "IMG"

  /** What the image endpoint hashes for a rendition it stores in the same cache (internal/imgcdn/imgcdn.go). */
  function ImageText(what: Token): string {
    Preimage(IMAGE_HOST, IMAGE_VERB, what, "")
  }

  function ImageKey(digest: Digest, what: Token): Key {
    digest(ImageText(what))
  }

  lemma CollisionFreeWithin(digest: Digest, few: set<string>, many: set<string>)
    requires CollisionFree(digest, many) && few <= many
    ensures CollisionFree(digest, few)
  {
  }

  /**
    Two requests share a key exactly when they ask for the same thing in the same encoding bucket, as long as
    their own two texts do not collide.
  */
  lemma KeysBind(digest: Digest, a: Request, b: Request)
    requires CollisionFree(digest, {TextOf(a), TextOf(b)})
    ensures KeyOf(digest, a) == KeyOf(digest, b) <==>
            a.host == b.host && a.verb == b.verb && a.uri == b.uri && EncodingOf(a) == EncodingOf(b)
  {
    hide EncodingOf, Preimage;
    if KeyOf(digest, a) == KeyOf(digest, b) {
      PreimageInjective(a.host, a.verb, a.uri, EncodingOf(a), b.host, b.verb, b.uri, EncodingOf(b));
    }
  }

  /** A cacheable proxied request and an image rendition never hash the same text. */
  lemma TextsApart(p: Policy, r: Request, what: Token)
    requires CacheableRequest(p, r)
    ensures TextOf(r) != ImageText(what)
  {
    hide EncodingOf, Preimage;
    if TextOf(r) == ImageText(what) {
      PreimageInjective(r.host, r.verb, r.uri, EncodingOf(r), IMAGE_HOST, IMAGE_VERB, what, "");
    }
  }

  /** No cacheable proxied request can hit an image rendition, as long as their own two texts do not collide. */
  lemma ImagesApart(digest: Digest, p: Policy, r: Request, what: Token)
    requires CollisionFree(digest, {TextOf(r), ImageText(what)}) && CacheableRequest(p, r)
    ensures KeyOf(digest, r) != ImageKey(digest, what)
  {
    hide TextOf, ImageText, CacheableRequest;
    TextsApart(p, r, what);
  }

  // ----- digests without collisions on a given set exist -----

  function HexDigit(d: nat): (c: char)
    requires d < 16
    ensures IsHex(c)
  {
    if d < 10 then ('0' as int + d) as char else ('a' as int + d - 10) as char
  }

  function Hex(n: nat, width: nat): (h: string)
    ensures |h| == width && forall i :: 0 <= i < width ==> IsHex(h[i])
  {
    if width == 0 then "" else Hex(n / 16, width - 1) + [HexDigit(n % 16)]
  }

  /** How many texts of that many hexadecimal digits there are. */
  function HexCount(width: nat): nat {
    if width == 0 then 1 else 16 * HexCount(width - 1)
  }

  lemma {:induction false} HexInjective(a: nat, b: nat, width: nat)
    requires a < HexCount(width) && b < HexCount(width) && Hex(a, width) == Hex(b, width)
    ensures a == b
  {
    if width > 0 {
      var x, y := Hex(a, width), Hex(b, width);
      assert x[..width - 1] == Hex(a / 16, width - 1) && y[..width - 1] == Hex(b / 16, width - 1);
      assert x[width - 1] == HexDigit(a % 16) && y[width - 1] == HexDigit(b % 16);
      HexInjective(a / 16, b / 16, width - 1);
    }
  }

  /** The texts of a finite set can be numbered from 0. */
  lemma {:induction false} Numbering(texts: set<string>) returns (m: map<string, nat>)
    ensures m.Keys == texts && (forall t :: t in m ==> m[t] < |texts|)
    ensures forall a, b :: a in m && b in m && m[a] == m[b] ==> a == b
  {
    m := map[];
    if texts != {} {
      var t :| t in texts;
      m := Numbering(texts - {t});
      m := m[t := |texts| - 1];
    }
  }

  /** Any set of texts that is no larger than the set of keys has a digest without collisions on it. */
  lemma DigestExists(texts: set<string>)
    requires |texts| <= HexCount(64)
    ensures exists digest: Digest :: CollisionFree(digest, texts)
  {
    hide Hex, HexCount;
    var m := Numbering(texts);
    var digest: Digest := t => if t in m then Hex(m[t], 64) else Hex(0, 64);
    forall a, b | a in texts && b in texts && digest(a) == digest(b) ensures a == b {
      HexInjective(m[a], m[b], 64);
    }
    assert CollisionFree(digest, texts);
  }
}
