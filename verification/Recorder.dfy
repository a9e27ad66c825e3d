/** The tee between origin and client (internal/proxy/recorder.go): forwards everything, buffers what may be cached. */
module Recorder {
  import opened Sums
  import opened Objects
  import opened Policy

  /** Connection-scoped headers that are not replayed from the cache. */
  const HOP_HEADERS := {
    "Connection", "Keep-Alive", "Proxy-Authenticate", "Proxy-Authorization",
    "Te", "Trailer", "Transfer-Encoding", "Upgrade", "Age", "Set-Cookie"}

  /** A call of the reverse proxy on the recorder, with the response header as it stands at that moment. */
  datatype Call =
    | Head(status: int, header: Header)
    | Body(bytes: seq<Byte>, header: Header)

  /** What the wrapped writer receives. */
  datatype Down = Status(status: int) | Bytes(bytes: seq<Byte>)

  // ----- what a finished sequence of calls means -----

  /** The status and header that count: those of the first call; a Write first means an implicit 200. */
  function First(calls: seq<Call>): (int, Header)
    requires calls != []
  {
    match calls[0]
    case Head(st, h) => (st, h)
    case Body(_, h) => (200, h)
  }

  function Written(calls: seq<Call>): seq<Byte> {
    if calls == [] then []
    else
      var last := calls[|calls| - 1];
      Written(calls[..|calls| - 1]) + if last.Body? then last.bytes else []
  }

  /** The calls as the client's writer sees them: the same, with the implicit 200 made explicit. */
  function Forwarded(calls: seq<Call>): seq<Down> {
    if calls == [] then []
    else
      var n := |calls| - 1;
      Forwarded(calls[..n]) +
      match calls[n]
      case Head(st, _) => [Status(st)]
      case Body(b, _) => if n == 0 then [Status(200), Bytes(b)] else [Bytes(b)]
  }

  function Admission(p: Policy, path: string, expires: Option<int>, calls: seq<Call>): Option<int>
  {
    if calls == [] then None else ResponseTtl(p, path, First(calls).0, First(calls).1, expires)
  }

  predicate Wrote(calls: seq<Call>) {
    exists i :: 0 <= i < |calls| && calls[i].Body?
  }

  /** The body is kept as long as everything written fits the policy's limit. */
  predicate Kept(p: Policy, path: string, expires: Option<int>, calls: seq<Call>) {
    && Admission(p, path, expires, calls).Some?
    && (Wrote(calls) ==> |Written(calls)| <= p.maxObjectBytes)
  }

  /** The object a finished sequence of calls yields, if any. */
  function Outcome(p: Policy, path: string, expires: Option<int>, calls: seq<Call>, now: int): Option<Object> {
    if !Kept(p, path, expires, calls) then None
    else Some(Object(First(calls).0, First(calls).1 - HOP_HEADERS, Written(calls), now,
                     Admission(p, path, expires, calls).value, p.staleFor))
  }

  lemma WrittenGrows(calls: seq<Call>, c: Call)
    ensures |Written(calls)| <= |Written(calls + [c])|
    ensures Written(calls + [c]) == Written(calls) + if c.Body? then c.bytes else []
    ensures Wrote(calls + [c]) <==> Wrote(calls) || c.Body?
  {
    assert (calls + [c])[..|calls|] == calls;
    if Wrote(calls) {
      var i :| 0 <= i < |calls| && calls[i].Body?;
      assert (calls + [c])[i].Body?;
    }
    if c.Body? {
      assert (calls + [c])[|calls|].Body?;
    }
  }

  lemma ForwardedGrows(calls: seq<Call>, c: Call)
    ensures Forwarded(calls + [c]) == Forwarded(calls) +
            match c
            case Head(st, _) => [Status(st)]
            case Body(b, _) => if calls == [] then [Status(200), Bytes(b)] else [Bytes(b)]
  {
    assert (calls + [c])[..|calls|] == calls;
  }

  class Recorder {
    const policy: Policy
    const path: string
    const expires: Option<int>  // time left until the first header's Expires date, None without a valid date

    var wroteHeader: bool
    var store: bool
    var status: int
    var header: Header
    var ttl: int
    var body: seq<Byte>
    var sent: seq<Down>         // what the wrapped ResponseWriter has been given
    ghost var calls: seq<Call>  // what the reverse proxy has called

    ghost predicate Valid()
      reads this
    {
      && (wroteHeader <==> calls != [])
      && sent == Forwarded(calls)
      && (store <==> Kept(policy, path, expires, calls))
      && (calls == [] ==> body == [])
      && (calls != [] ==> status == First(calls).0)
      && (store ==> ttl == Admission(policy, path, expires, calls).value && header == First(calls).1 - HOP_HEADERS)
      && (store ==> body == Written(calls))
      && (!store ==> body == [])
    }

    /** The buffer never outgrows the limit. */
    lemma Bounded()
      requires Valid()
      ensures |body| <= Max(0, policy.maxObjectBytes)
    {
      if store && !Wrote(calls) {
        NothingWritten(calls);
      }
    }

    constructor (policy: Policy, path: string, expires: Option<int>)
      ensures Valid() && calls == [] && sent == []
      ensures this.policy == policy && this.path == path && this.expires == expires
    {
      this.policy, this.path, this.expires := policy, path, expires;
      wroteHeader, store, status, ttl := false, false, 0, 0;
      header, body, sent, calls := map[], [], [], [];
    }

    /** The part of WriteHeader that only the first header triggers. */
    method NoteHeader(st: int, h: Header)
      modifies this`wroteHeader, this`status, this`store, this`ttl, this`header
      ensures wroteHeader
      ensures if old(wroteHeader) then
                status == old(status) && store == old(store) && ttl == old(ttl) && header == old(header)
              else
                && status == st
                && (match ResponseTtl(policy, path, st, h, expires)
                    case None => store == old(store) && ttl == old(ttl) && header == old(header)
                    case Some(t) => store && ttl == t && header == h - HOP_HEADERS)
    {
      if !wroteHeader {
        wroteHeader := true;
        status := st;
        var admitted := ResponseTtl(policy, path, st, h, expires);
        if admitted.Some? {
          store := true;
          ttl := admitted.value;
          header := h - HOP_HEADERS;
        }
      }
    }

    method WriteHeader(st: int, h: Header)
      requires Valid()
      modifies this
      ensures Valid() && calls == old(calls) + [Head(st, h)]
      ensures sent == old(sent) + [Status(st)]
    {
      hide Kept, Outcome, ResponseTtl, Written, Wrote;
      KeptAfterHead(policy, path, expires, calls, st, h);
      ForwardedGrows(calls, Head(st, h));
      NoteHeader(st, h);
      sent := sent + [Status(st)];
      calls := calls + [Head(st, h)];
    }

    method Write(b: seq<Byte>, h: Header)
      requires Valid()
      modifies this
      ensures Valid() && calls == old(calls) + [Body(b, h)]
      ensures sent == old(sent) + (if old(calls) == [] then [Status(200)] else []) + [Bytes(b)]
    {
      hide Kept, Outcome, ResponseTtl, Written, Wrote;
      KeptAfterBody(policy, path, expires, calls, b, h);
      ForwardedGrows(calls, Body(b, h));
      if !wroteHeader {
        NoteHeader(200, h);
        sent := sent + [Status(200)];
      }
      if store {
        if |body| + |b| > policy.maxObjectBytes {
          store := false;
          body := [];
        } else {
          body := body + b;
        }
      }
      sent := sent + [Bytes(b)];
      calls := calls + [Body(b, h)];
    }

    /** object: nil unless the first header was admissible and everything written fitted. */
    method Finished(now: int) returns (obj: Option<Object>)
      requires Valid()
      ensures obj == Outcome(policy, path, expires, calls, now)
    {
      if !store {
        return None;
      }
      return Some(Object(status, header, body, now, ttl, policy.staleFor));
    }
  }

  lemma KeptAfterHead(p: Policy, path: string, expires: Option<int>, calls: seq<Call>, st: int, h: Header)
    ensures var all := calls + [Head(st, h)];
            && Written(all) == Written(calls)
            && First(all) == (if calls == [] then (st, h) else First(calls))
            && (Kept(p, path, expires, all) <==>
                  if calls == [] then ResponseTtl(p, path, st, h, expires).Some? else Kept(p, path, expires, calls))
            && Written([]) == [] && !Kept(p, path, expires, [])
  {
    hide ResponseTtl;
    var all := calls + [Head(st, h)];
    WrittenGrows(calls, Head(st, h));
    if calls != [] {
      assert all[0] == calls[0];
    }
  }

  lemma KeptAfterBody(p: Policy, path: string, expires: Option<int>, calls: seq<Call>, b: seq<Byte>, h: Header)
    ensures var all := calls + [Body(b, h)];
            && Written(all) == Written(calls) + b && Written([]) == [] && !Kept(p, path, expires, [])
            && First(all) == (if calls == [] then (200, h) else First(calls))
            && (Kept(p, path, expires, all) <==>
                  && |Written(calls)| + |b| <= p.maxObjectBytes
                  && if calls == [] then ResponseTtl(p, path, 200, h, expires).Some? else Kept(p, path, expires, calls))
  {
    hide ResponseTtl;
    var all := calls + [Body(b, h)];
    WrittenGrows(calls, Body(b, h));
    assert all[|calls|].Body?;
    if calls != [] {
      assert all[0] == calls[0];
    }
  }

  lemma {:induction false} NothingWritten(calls: seq<Call>)
    requires !Wrote(calls)
    ensures Written(calls) == []
  {
    if calls != [] {
      NothingWritten(calls[..|calls| - 1]);
    }
  }

  lemma {:induction false} WrittenPrefix(calls: seq<Call>, n: nat)
    requires n <= |calls|
    ensures |Written(calls[..n])| <= |Written(calls)|
  {
    if n < |calls| {
      WrittenPrefix(calls[..|calls| - 1], n);
      assert calls[..|calls| - 1][..n] == calls[..n];
    } else {
      assert calls[..n] == calls;
    }
  }

  /** Once abandoned, never resumed: after a header, what is not kept now is not kept after any further calls. */
  lemma AbandonedForGood(p: Policy, path: string, expires: Option<int>, calls: seq<Call>, n: nat)
    requires 1 <= n <= |calls| && !Kept(p, path, expires, calls[..n])
    ensures !Kept(p, path, expires, calls)
  {
    hide ResponseTtl;
    WrittenPrefix(calls, n);
    if Wrote(calls[..n]) {
      var i :| 0 <= i < n && calls[..n][i].Body?;
      assert calls[i].Body?;
    }
  }

  /** Downstream gets the body bytes unchanged and in order, cached or not. */
  function BytesOf(sent: seq<Down>): seq<Byte> {
    if sent == [] then []
    else
      var last := sent[|sent| - 1];
      BytesOf(sent[..|sent| - 1]) + if last.Bytes? then last.bytes else []
  }

  lemma {:induction false} TeeIsTransparent(calls: seq<Call>)
    ensures BytesOf(Forwarded(calls)) == Written(calls)
  {
    if calls != [] {
      var n := |calls| - 1;
      TeeIsTransparent(calls[..n]);
      var f := Forwarded(calls[..n]);
      match calls[n]
      case Head(st, _) => assert (f + [Status(st)])[..|f|] == f;
      case Body(b, _) =>
        if n == 0 {
          var g := f + [Status(200)];
          assert g[..|f|] == f;
          assert f + [Status(200), Bytes(b)] == g + [Bytes(b)];
          assert (g + [Bytes(b)])[..|g|] == g;
        } else {
          assert (f + [Bytes(b)])[..|f|] == f;
        }
    }
  }

  /** An object that comes out of the recorder is admissible, within the limit, and carries no hop-by-hop header. */
  lemma OutcomeIsSound(p: Policy, path: string, expires: Option<int>, calls: seq<Call>, now: int)
    ensures match Outcome(p, path, expires, calls, now)
            case None => true
            case Some(o) =>
              && calls != []
              && Admissible(p, First(calls).0, First(calls).1, o.ttl)
              && o.status == First(calls).0 && o.body == Written(calls)
              && |o.body| <= Max(0, p.maxObjectBytes)
              && o.header == First(calls).1 - HOP_HEADERS && o.header.Keys !! HOP_HEADERS
              && o.header.Keys == First(calls).1.Keys - {
                   "Connection", "Keep-Alive", "Proxy-Authenticate", "Proxy-Authorization", "Te", "Trailer",
                   "Transfer-Encoding", "Upgrade", "Age", "Set-Cookie"}
              && o.storedAt == now && o.staleFor == p.staleFor
  {
    if Kept(p, path, expires, calls) {
      AdmittedIsAdmissible(p, path, First(calls).0, First(calls).1, expires);
      hide ResponseTtl, Admissible;
      if !Wrote(calls) {
        NothingWritten(calls);
      }
    }
  }

  /**
    When an object must result: the first header was admitted, and the bytes written before every single write
    together with that write stayed within the limit, so nothing was abandoned on the way.
  */
  lemma ObjectIff(p: Policy, path: string, expires: Option<int>, calls: seq<Call>, now: int)
    ensures Outcome(p, path, expires, calls, now).Some? <==>
            && calls != []
            && ResponseTtl(p, path, First(calls).0, First(calls).1, expires).Some?
            && forall n :: 0 <= n < |calls| && calls[n].Body? ==>
                 |Written(calls[..n])| + |calls[n].bytes| <= p.maxObjectBytes
  {
    hide ResponseTtl, First;
    forall n | 0 <= n < |calls| && calls[n].Body?
      ensures |Written(calls[..n])| + |calls[n].bytes| <= |Written(calls)| && Wrote(calls)
    {
      assert calls[..n + 1] == calls[..n] + [calls[n]];
      WrittenGrows(calls[..n], calls[n]);
      WrittenPrefix(calls, n + 1);
    }
    if Wrote(calls) {
      var n := LastWrite(calls);
      assert Written(calls) == Written(calls[..n]) + calls[n].bytes;
    }
  }

  lemma {:induction false} LastWrite(calls: seq<Call>) returns (n: nat)
    requires Wrote(calls)
    ensures n < |calls| && calls[n].Body? && Written(calls) == Written(calls[..n]) + calls[n].bytes
  {
    var last := |calls| - 1;
    if calls[last].Body? {
      n := last;
    } else {
      var i :| 0 <= i < |calls| && calls[i].Body?;
      assert calls[..last][i].Body?;
      n := LastWrite(calls[..last]);
      assert calls[..last][..n] == calls[..n];
    }
  }
}
