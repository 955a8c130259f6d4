/**
 The headers that tell caches further down what they may do with a response:
 applyDownstreamCacheHeaders of sidekick.go and the writer that defers it on a bypass.
 */
module Downstream {
  import opened Basics
  import opened Headers
  import opened Metadatas
  import opened Storages

  /** The request dimensions that varied the cache key. */
  datatype KeyDims = KeyDims(headers: seq<string>, cookies: bool)

  datatype CacheState = BypassPrivate | BypassPolicy | BypassDebug | BypassQuery | Miss | CacheHit | NotModified

  datatype Policy = Policy(ttl: int, legacyNoStore: bool)

  function Lower(s: string): string {
    seq(|s|, i requires 0 <= i < |s| => if 'A' <= s[i] <= 'Z' then (s[i] as int + 32) as char else s[i])
  }

  predicate EqualFold(a: string, b: string) {
    Lower(a) == Lower(b)
  }

  /** One letter in either case, or the same character. */
  predicate SameLetter(c: char, d: char) {
    c == d || ('A' <= c <= 'Z' && d as int == c as int + 32) || ('A' <= d <= 'Z' && c as int == d as int + 32)
  }

  lemma EqualFoldMeans(a: string, b: string)
    ensures EqualFold(a, b) <==> |a| == |b| && forall i :: 0 <= i < |a| ==> SameLetter(a[i], b[i])
  {
    if EqualFold(a, b) {
      forall i | 0 <= i < |a| ensures SameLetter(a[i], b[i]) {
        assert Lower(a)[i] == Lower(b)[i];
      }
    }
    if |a| == |b| && forall i :: 0 <= i < |a| ==> SameLetter(a[i], b[i]) {
      assert forall i :: 0 <= i < |a| ==> Lower(a)[i] == Lower(b)[i];
    }
  }

  function VaryHeaders(hs: seq<string>): seq<string> {
    if hs == [] then []
    else (if EqualFold(hs[0], "Accept-Encoding") then [] else [hs[0]]) + VaryHeaders(hs[1..])
  }

  function VaryFields(dims: KeyDims): seq<string> {
    ["Accept-Encoding"] + VaryHeaders(dims.headers) + if dims.cookies then ["Cookie"] else []
  }

  const PRIVATE := "private, no-store"
  const NO_STORE := "no-cache, no-store, must-revalidate"
  const PUBLIC := "public, max-age="

  /** What becomes of one field: left as it is, removed, or set. */
  datatype Effect = Keep | Drop | Put(value: string)

  function Applied(e: Effect, h: Header, name: string): seq<string> {
    match e
    case Keep => Values(h, name)
    case Drop => []
    case Put(v) => [v]
  }

  /** The decision for Cache-Control, Pragma and Age. */
  datatype Verdict = Verdict(control: Effect, pragma: Effect, age: Effect)

  function AgeOf(timestamp: int, now: int): nat {
    var age := now / SECOND - timestamp;
    if age < 0 then 0 else age
  }

  function Remaining(ttl: int, age: nat): nat {
    if ttl - age < 0 then 0 else ttl - age
  }

  function Fresh(ttl: nat): Verdict {
    Verdict(Put(PUBLIC + Decimal(ttl)), Keep, Put("0"))
  }

  function Decide(p: Policy, dims: KeyDims, state: CacheState, meta: Option<Metadata>, now: int, h: Header): Verdict {
    if dims.cookies then Verdict(Put(PRIVATE), Put("no-cache"), Drop)
    else if p.legacyNoStore && !state.CacheHit? && !state.NotModified?
    then Verdict(Put(NO_STORE), Put("no-cache"), Drop)
    else match state
      case CacheHit | NotModified => DecideHit(p, meta, now)
      case Miss => DecideMiss(p, h)
      case BypassQuery => DecideQuery(p, h)
      case BypassPrivate => Verdict(Put(PRIVATE), Put("no-cache"), Drop)
      case BypassDebug => Verdict(Put(NO_STORE), Keep, Drop)
      case BypassPolicy => Verdict(Keep, Keep, Drop)
  }

  function DecideHit(p: Policy, meta: Option<Metadata>, now: int): Verdict {
    if p.ttl <= 0 || meta.None? || meta.value.timestamp <= 0 then Verdict(Keep, Keep, Keep)
    else
      var age := AgeOf(meta.value.timestamp, now);
      Verdict(Put(PUBLIC + Decimal(Remaining(p.ttl, age))), Keep, Put(Decimal(age)))
  }

  function DecideMiss(p: Policy, h: Header): Verdict {
    if HasField(h, "Set-Cookie") then Verdict(Put(PRIVATE), Keep, Drop)
    else if p.ttl <= 0 then Verdict(Keep, Keep, Keep)
    else Fresh(p.ttl)
  }

  function DecideQuery(p: Policy, h: Header): Verdict {
    if HeaderValue(h, "Cache-Control") != "" || HeaderValue(h, "Expires") != "" then Verdict(Keep, Keep, Drop)
    else if HasField(h, "Set-Cookie") then Verdict(Put(PRIVATE), Keep, Drop)
    else if p.ttl <= 0 then Verdict(Keep, Keep, Drop)
    else Fresh(p.ttl)
  }

  /** The decision, and nothing else, was carried out on the fields of before. */
  ghost predicate Carried(v: Verdict, before: Header, after: Header) {
    forall n :: Values(after, n) == if n == "Cache-Control" then Applied(v.control, before, n)
                                    else if n == "Pragma" then Applied(v.pragma, before, n)
                                    else if n == "Age" then Applied(v.age, before, n)
                                    else Values(before, n)
  }

  /** It was carried out and Vary was set. */
  ghost predicate Obeys(v: Verdict, vary: string, before: Header, after: Header) {
    && Values(after, "Vary") == [vary]
    && Values(after, "Cache-Control") == Applied(v.control, before, "Cache-Control")
    && Values(after, "Pragma") == Applied(v.pragma, before, "Pragma")
    && Values(after, "Age") == Applied(v.age, before, "Age")
    && forall n :: n !in MANAGED ==> Values(after, n) == Values(before, n)
  }

  const MANAGED := {"Vary", "Cache-Control", "Pragma", "Age"}

  const CACHE_HEADER := "X-Sidekick-Cache"

  /** The response says how Sidekick handled it and what caches further down may do with it. */
  ghost predicate Labelled(v: Verdict, mark: string, dims: KeyDims, before: Header, after: Header) {
    && Values(after, CACHE_HEADER) == [mark]
    && Values(after, "Vary") == [Join(VaryFields(dims), ", ")]
    && Values(after, "Cache-Control") == Applied(v.control, before, "Cache-Control")
    && Values(after, "Pragma") == Applied(v.pragma, before, "Pragma")
    && Values(after, "Age") == Applied(v.age, before, "Age")
  }

  /** It was labelled, and nothing else about it changed. */
  ghost predicate Stamped(v: Verdict, mark: string, dims: KeyDims, before: Header, after: Header) {
    && Labelled(v, mark, dims, before, after)
    && forall n :: n !in MANAGED && n != CACHE_HEADER ==> Values(after, n) == Values(before, n)
  }

  method Stamp(p: Policy, hdr: HttpHeader, mark: string, dims: KeyDims, state: CacheState, now: int)
    modifies hdr
    ensures Stamped(Decide(p, dims, state, None, now, old(hdr.fields)), mark, dims, old(hdr.fields), hdr.fields)
  {
    ghost var before := hdr.fields;
    hdr.Set(CACHE_HEADER, mark);
    ghost var mid := hdr.fields;
    SameDecision(p, dims, state, None, now, before, mid);
    ApplyDownstreamCacheHeaders(p, hdr, dims, state, None, now);
    ObeyedAfterMark(Decide(p, dims, state, None, now, before), mark, dims, before, mid, hdr.fields);
  }

  lemma ObeyedAfterMark(v: Verdict, mark: string, dims: KeyDims, before: Header, mid: Header, after: Header)
    requires forall n :: Values(mid, n) == if n == CACHE_HEADER then [mark] else Values(before, n)
    requires Obeys(v, Join(VaryFields(dims), ", "), mid, after)
    ensures Stamped(v, mark, dims, before, after)
  {
    MarkIsNotManaged();
  }

  lemma MarkIsNotManaged()
    ensures CACHE_HEADER !in MANAGED
  {
    assert |CACHE_HEADER| == 16 && |"Cache-Control"| == 13;
  }

  method ApplyDownstreamCacheHeaders(p: Policy, hdr: HttpHeader, dims: KeyDims, state: CacheState,
                                     meta: Option<Metadata>, now: int)
    modifies hdr
    ensures Obeys(Decide(p, dims, state, meta, now, old(hdr.fields)), Join(VaryFields(dims), ", "), old(hdr.fields),
                  hdr.fields)
  {
    ghost var before := hdr.fields;
    SetVary(hdr, dims);
    ghost var mid := hdr.fields;
    SameDecision(p, dims, state, meta, now, before, mid);
    SetControl(p, hdr, dims, state, meta, now);
    CarriedAfterVary(Decide(p, dims, state, meta, now, before), Join(VaryFields(dims), ", "), before, mid, hdr.fields);
  }

  /** The decision reads neither Vary nor Sidekick's mark. */
  lemma SameDecision(p: Policy, dims: KeyDims, state: CacheState, meta: Option<Metadata>, now: int, before: Header,
                     mid: Header)
    requires forall n :: n != "Vary" && n != CACHE_HEADER ==> Values(mid, n) == Values(before, n)
    ensures Decide(p, dims, state, meta, now, mid) == Decide(p, dims, state, meta, now, before)
  {
    assert |CACHE_HEADER| == 16 && |"Set-Cookie"| == 10 && |"Cache-Control"| == 13 && |"Expires"| == 7;
  }

  lemma CarriedAfterVary(v: Verdict, vary: string, before: Header, mid: Header, after: Header)
    requires forall n :: Values(mid, n) == if n == "Vary" then [vary] else Values(before, n)
    requires Carried(v, mid, after)
    ensures Obeys(v, vary, before, after)
  {
  }

  /** Everything but Vary. */
  method SetControl(p: Policy, hdr: HttpHeader, dims: KeyDims, state: CacheState, meta: Option<Metadata>, now: int)
    modifies hdr
    ensures Carried(Decide(p, dims, state, meta, now, old(hdr.fields)), old(hdr.fields), hdr.fields)
  {
    if dims.cookies {
      ForbidStoring(hdr, PRIVATE);
      return;
    }
    if p.legacyNoStore && state != CacheHit && state != NotModified {
      ForbidStoring(hdr, NO_STORE);
      return;
    }
    match state
    case CacheHit | NotModified => ForHit(p, hdr, meta, now);
    case Miss => ForMiss(p, hdr);
    case BypassQuery => ForQuery(p, hdr);
    case BypassPrivate => ForbidStoring(hdr, PRIVATE);
    case BypassDebug => ForDebug(hdr);
    case BypassPolicy => hdr.Del("Age");
  }

  method ForbidStoring(hdr: HttpHeader, control: string)
    modifies hdr
    ensures Carried(Verdict(Put(control), Put("no-cache"), Drop), old(hdr.fields), hdr.fields)
  {
    hdr.Set("Cache-Control", control);
    hdr.Set("Pragma", "no-cache");
    hdr.Del("Age");
  }

  method ForDebug(hdr: HttpHeader)
    modifies hdr
    ensures Carried(Verdict(Put(NO_STORE), Keep, Drop), old(hdr.fields), hdr.fields)
  {
    hdr.Set("Cache-Control", NO_STORE);
    hdr.Del("Age");
  }

  method ForHit(p: Policy, hdr: HttpHeader, meta: Option<Metadata>, now: int)
    modifies hdr
    ensures Carried(DecideHit(p, meta, now), old(hdr.fields), hdr.fields)
  {
    if p.ttl <= 0 || meta.None? || meta.value.timestamp <= 0 {
      return;
    }
    var ageSeconds := now / SECOND - meta.value.timestamp;
    if ageSeconds < 0 {
      ageSeconds := 0;
    }
    var remainingTTL := p.ttl - ageSeconds;
    if remainingTTL < 0 {
      remainingTTL := 0;
    }
    hdr.Set("Cache-Control", PUBLIC + Decimal(remainingTTL));
    hdr.Set("Age", Decimal(ageSeconds));
  }

  method ForMiss(p: Policy, hdr: HttpHeader)
    modifies hdr
    ensures Carried(DecideMiss(p, old(hdr.fields)), old(hdr.fields), hdr.fields)
  {
    if HasField(hdr.fields, "Set-Cookie") {
      hdr.Set("Cache-Control", PRIVATE);
      hdr.Del("Age");
      return;
    }
    if p.ttl <= 0 {
      return;
    }
    hdr.Set("Cache-Control", PUBLIC + Decimal(p.ttl));
    hdr.Set("Age", "0");
  }

  method ForQuery(p: Policy, hdr: HttpHeader)
    modifies hdr
    ensures Carried(DecideQuery(p, old(hdr.fields)), old(hdr.fields), hdr.fields)
  {
    if HeaderValue(hdr.fields, "Cache-Control") != "" || HeaderValue(hdr.fields, "Expires") != "" {
      hdr.Del("Age");
      return;
    }
    if HasField(hdr.fields, "Set-Cookie") {
      hdr.Set("Cache-Control", PRIVATE);
      hdr.Del("Age");
      return;
    }
    if p.ttl <= 0 {
      hdr.Del("Age");
      return;
    }
    hdr.Set("Cache-Control", PUBLIC + Decimal(p.ttl));
    hdr.Set("Age", "0");
  }

  method SetVary(hdr: HttpHeader, dims: KeyDims)
    modifies hdr
    ensures forall n :: Values(hdr.fields, n) ==
                        if n == "Vary" then [Join(VaryFields(dims), ", ")] else Values(old(hdr.fields), n)
  {
    var vary := ["Accept-Encoding"];
    for i := 0 to |dims.headers|
      invariant vary + VaryHeaders(dims.headers[i..]) == ["Accept-Encoding"] + VaryHeaders(dims.headers)
    {
      if !EqualFold(dims.headers[i], "Accept-Encoding") {
        vary := vary + [dims.headers[i]];
      }
    }
    if dims.cookies {
      vary := vary + ["Cookie"];
    }
    assert vary == VaryFields(dims);
    hdr.Set("Vary", Join(vary, ", "));
  }
}
