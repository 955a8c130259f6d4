/** Which requests skip the cache, and what the responses that skip it may say: sidekick.go and bypassResponseWriter. */
module Bypass {
  import opened Basics
  import opened GoQuery
  import opened QueryKeys
  import opened Headers
  import opened Clients
  import opened Downstream
  import opened ResponseRules
  import opened FreshnessLaws
  import opened CacheKeys
  import opened Upstreams

  /** The path patterns nocache_regex and static assets are predicates on the path. */
  datatype BypassConfig = BypassConfig(debugQuery: Bytes, noCache: seq<Bytes>, noCachePath: Bytes -> bool,
                                       noCacheHome: bool)

  // Subsite paths.

  predicate SiteChar(c: byte) {
    c == '_' || c == '-' || '0' <= c <= '9' || 'a' <= c <= 'z' || 'A' <= c <= 'Z'
  }

  predicate SiteSegment(seg: Bytes) {
    seg != [] && forall i :: 0 <= i < |seg| ==> SiteChar(seg[i])
  }

  method IsWPSiteSegment(seg: Bytes) returns (r: bool)
    ensures r <==> SiteSegment(seg)
  {
    if seg == [] {
      return false;
    }
    for i := 0 to |seg|
      invariant forall j :: 0 <= j < i ==> SiteChar(seg[j])
    {
      if !SiteChar(seg[i]) {
        return false;
      }
    }
    return true;
  }

  method IndexByte(s: Bytes, c: byte) returns (k: int)
    ensures -1 <= k < |s|
    ensures k == -1 ==> c !in s
    ensures k >= 0 ==> s[k] == c && forall j :: 0 <= j < k ==> s[j] != c
  {
    for i := 0 to |s|
      invariant forall j :: 0 <= j < i ==> s[j] != c
    {
      if s[i] == c {
        return i;
      }
    }
    return -1;
  }

  /** The path continues with prefix after one site segment of k - 1 characters. */
  predicate UnderSite(path: Bytes, prefix: Bytes, k: nat) {
    && 1 < k < |path| && path[0] == '/' && prefix <= path[k..]
    && forall i :: 1 <= i < k ==> SiteChar(path[i])
  }

  /** The prefix at the root, or beneath one leading segment that WordPress accepts as a subsite. */
  ghost predicate Below(path: Bytes, prefix: Bytes) {
    prefix <= path || (prefix != [] && prefix[0] == '/' && exists k: nat :: UnderSite(path, prefix, k))
  }

  method MatchesNoCachePrefix(path: Bytes, prefix: Bytes) returns (r: bool)
    ensures r <==> Below(path, prefix)
  {
    if prefix <= path {
      return true;
    }
    if prefix == [] || prefix[0] != '/' || |path| < 2 || path[0] != '/' {
      return false;
    }
    var end := IndexByte(path[1..], '/');
    if end <= 0 {
      NoSegment(path, prefix, end);
      return false;
    }
    var ok := IsWPSiteSegment(path[1..1 + end]);
    OneSegment(path, prefix, end);
    return ok && prefix <= path[1 + end..];
  }

  lemma NoSegment(path: Bytes, prefix: Bytes, end: int)
    requires |path| >= 2 && prefix != [] && prefix[0] == '/'
    requires end == 0 ==> path[1] == '/'
    requires end < 0 ==> '/' !in path[1..]
    requires end <= 0
    ensures !exists k: nat :: UnderSite(path, prefix, k)
  {
    forall k: nat ensures !UnderSite(path, prefix, k) {
      SlashAt(path, prefix, k);
    }
  }

  /** A site segment ends at a '/', and has none inside. */
  lemma SlashAt(path: Bytes, prefix: Bytes, k: nat)
    requires prefix != [] && prefix[0] == '/'
    ensures UnderSite(path, prefix, k) ==>
              path[k] == '/' && '/' in path[1..] && forall i :: 1 <= i < k ==> path[i] != '/'
  {
    if UnderSite(path, prefix, k) {
      assert path[k..][0] == prefix[0] && path[1..][k - 1] == path[k];
    }
  }

  lemma OneSegment(path: Bytes, prefix: Bytes, end: int)
    requires 0 < end < |path| - 1 && path[0] == '/' && prefix != [] && prefix[0] == '/'
    requires path[1..][end] == '/' && forall j :: 0 <= j < end ==> path[1..][j] != '/'
    ensures (exists k: nat :: UnderSite(path, prefix, k)) <==>
            SiteSegment(path[1..1 + end]) && prefix <= path[1 + end..]
  {
    var seg := path[1..1 + end];
    if k: nat :| UnderSite(path, prefix, k) {
      SlashAt(path, prefix, k);
      assert path[k] == path[1..][k - 1] && path[end + 1] == path[1..][end];
      assert k - 1 == end;
      assert forall i :: 0 <= i < |seg| ==> seg[i] == path[i + 1];
    }
    if SiteSegment(seg) && prefix <= path[1 + end..] {
      forall i | 1 <= i < 1 + end ensures SiteChar(path[i]) {
        assert seg[i - 1] == path[i];
      }
      assert UnderSite(path, prefix, 1 + end);
    }
  }

  // The reason.

  const LOGGED_IN: Bytes := "wordpress_logged_in"
  const COMMENT_AUTHOR: Bytes := "comment_author_"

  predicate PrivateCookie(name: Bytes) {
    LOGGED_IN <= name || COMMENT_AUTHOR <= name
  }

  ghost predicate PrivatePath(cfg: BypassConfig, path: Bytes) {
    exists i :: 0 <= i < |cfg.noCache| && cfg.noCache[i] != [] && Below(path, cfg.noCache[i])
  }

  ghost predicate CarriesPrivateCookie(keys: KeyConfig, r: Request) {
    !keys.isStatic(r.path) && exists i :: 0 <= i < |r.cookies| && PrivateCookie(r.cookies[i].0)
  }

  /** url.Values.Has on a query whose malformed pairs are dropped. */
  predicate HasParam(tokens: seq<Bytes>, name: Bytes) {
    exists i :: 0 <= i < |tokens| && tokens[i] != [] &&
                ParsePair(tokens[i]).Some? && ParsePair(tokens[i]).value.0 == name
  }

  const AUTHORIZATION: Bytes := "Authorization"

  /** The reason, by decreasing precedence. */
  ghost function ReasonFor(cfg: BypassConfig, keys: KeyConfig, r: Request, qc: QueryClass): BypassReason {
    if cfg.debugQuery != [] && HasParam(Split(r.rawQuery, '&'), cfg.debugQuery) then ReasonDebug
    else if qc.reason == ReasonPrivate || Get(r.header, AUTHORIZATION) != [] || PrivatePath(cfg, r.path)
    then ReasonPrivate
    else if cfg.noCachePath(r.path) || (cfg.noCacheHome && r.path == ['/']) then ReasonPolicy
    else if CarriesPrivateCookie(keys, r) then ReasonPrivate
    else if qc.reason == ReasonQuery then ReasonQuery
    else ReasonNone
  }

  method BypassReasonFor(cfg: BypassConfig, keys: KeyConfig, r: Request, qc: QueryClass) returns (reason: BypassReason)
    ensures reason == ReasonFor(cfg, keys, r, qc)
  {
    if cfg.debugQuery != [] && HasParam(Split(r.rawQuery, '&'), cfg.debugQuery) {
      return ReasonDebug;
    }
    if qc.reason == ReasonPrivate || Get(r.header, AUTHORIZATION) != [] {
      return ReasonPrivate;
    }
    for i := 0 to |cfg.noCache|
      invariant forall j :: 0 <= j < i ==> cfg.noCache[j] == [] || !Below(r.path, cfg.noCache[j])
    {
      if cfg.noCache[i] != [] {
        var matches := MatchesNoCachePrefix(r.path, cfg.noCache[i]);
        if matches {
          return ReasonPrivate;
        }
      }
    }
    if cfg.noCachePath(r.path) || (cfg.noCacheHome && r.path == ['/']) {
      return ReasonPolicy;
    }
    if !keys.isStatic(r.path) {
      for i := 0 to |r.cookies|
        invariant forall j :: 0 <= j < i ==> !PrivateCookie(r.cookies[j].0)
      {
        if PrivateCookie(r.cookies[i].0) {
          return ReasonPrivate;
        }
      }
    }
    return if qc.reason == ReasonQuery then ReasonQuery else ReasonNone;
  }

  /** A request without a reason to bypass has a query without one. */
  lemma NoReasonNoQueryReason(cfg: BypassConfig, keys: KeyConfig, r: Request, qc: QueryClass)
    requires ReasonFor(cfg, keys, r, qc) == ReasonNone
    ensures qc.reason != ReasonPrivate && qc.reason != ReasonQuery
  {
  }

  /** A request whose response may be meant for its sender alone. */
  ghost predicate Personal(cfg: BypassConfig, keys: KeyConfig, r: Request, qc: QueryClass) {
    qc.reason == ReasonPrivate || Get(r.header, AUTHORIZATION) != [] || PrivatePath(cfg, r.path) ||
      CarriesPrivateCookie(keys, r)
  }

  /**
   The reasons by what each of them takes, whatever the order in which they are looked for: a request reaches
   the cache exactly when it is neither personal, nor for debugging, nor excluded by a path rule, nor with an
   unkeyed query; a path rule shows only where nothing private but a cookie does.
   */
  lemma ReasonsExactlyWhen(cfg: BypassConfig, keys: KeyConfig, r: Request, qc: QueryClass)
    ensures var reason := ReasonFor(cfg, keys, r, qc);
            var debug := cfg.debugQuery != [] && HasParam(Split(r.rawQuery, '&'), cfg.debugQuery);
            var rule := cfg.noCachePath(r.path) || (cfg.noCacheHome && r.path == ['/']);
            && (reason == ReasonNone <==>
                !debug && !Personal(cfg, keys, r, qc) && !rule && qc.reason != ReasonQuery)
            && (reason == ReasonDebug <==> debug)
            && (reason == ReasonPolicy <==>
                !debug && rule && qc.reason != ReasonPrivate && Get(r.header, AUTHORIZATION) == [] &&
                !PrivatePath(cfg, r.path))
            && (reason == ReasonPrivate <==>
                !debug && reason != ReasonPolicy && Personal(cfg, keys, r, qc))
            && (reason == ReasonQuery <==>
                !debug && !rule && !Personal(cfg, keys, r, qc) && qc.reason == ReasonQuery)
  {
  }

  function BypassState(reason: BypassReason): CacheState {
    match reason
    case ReasonPolicy => BypassPolicy
    case ReasonDebug => BypassDebug
    case ReasonQuery => BypassQuery
    case _ => BypassPrivate
  }

  /**
   A personal request never reaches the cache, and whichever rule turned it away, Sidekick
   does not advertise its response as public; only an unkeyed query does that.
   */
  lemma PersonalIsNeverPublic(cfg: BypassConfig, keys: KeyConfig, r: Request, qc: QueryClass, p: Policy, now: int,
                              h: Header, n: nat)
    ensures var reason := ReasonFor(cfg, keys, r, qc);
            var v := Decide(p, Dims(keys, r), BypassState(reason), None, now, h);
            && (Personal(cfg, keys, r, qc) ==> reason != ReasonNone && !Advertises(v, n))
            && (Advertises(v, n) && reason != ReasonNone ==> reason == ReasonQuery && qc.reason == ReasonQuery)
            && (reason == ReasonNone ==> qc.reason != ReasonPrivate && qc.reason != ReasonQuery)
  {
    PublicExactlyWhen(p, Dims(keys, r), BypassState(ReasonFor(cfg, keys, r, qc)), None, now, h);
  }

  /** What each reason does to a response: private and debug forbid keeping it, a path rule leaves it alone. */
  lemma BypassLabelMeans(reason: BypassReason, p: Policy, dims: KeyDims, now: int, h: Header)
    requires !dims.cookies && !p.legacyNoStore
    ensures var v := Decide(p, dims, BypassState(reason), None, now, h);
            && (reason == ReasonPrivate || reason == ReasonDebug ==> Forbids(v) && v.age == Drop)
            && (reason == ReasonPolicy ==> v == Verdict(Keep, Keep, Drop))
            && (reason == ReasonQuery ==> (v.control == Keep <==>
                 HeaderValue(h, "Cache-Control") != "" || HeaderValue(h, "Expires") != "" ||
                 (!HasField(h, "Set-Cookie") && p.ttl <= 0)))
  {
    ForbidsExactlyWhen(p, dims, BypassState(reason), None, now, h);
  }

  // The writer of a bypass.

  /** The state a bypass is labelled with once its status and header are known. */
  function LabelState(codes: seq<string>, state: CacheState, status: int, h: Header): CacheState {
    if state.BypassQuery? && (!IsCacheableStatus(codes, status) || HasUncacheableHeader(h)) then BypassPolicy else state
  }

  /**
   The response to an unkeyed query is advertised as public exactly when the fields leave it open and it
   is one that could have been stored by its status and fields.
   */
  lemma QueryPublicExactlyWhen(codes: seq<string>, p: Policy, dims: KeyDims, status: int, now: int, h: Header)
    ensures (exists n :: Advertises(Decide(p, dims, LabelState(codes, BypassQuery, status, h), None, now, h), n)) <==>
            && !dims.cookies && p.ttl > 0 && !p.legacyNoStore && !HasField(h, "Set-Cookie")
            && HeaderValue(h, "Cache-Control") == "" && HeaderValue(h, "Expires") == ""
            && IsCacheableStatus(codes, status) && !HasUncacheableHeader(h)
  {
    PublicExactlyWhen(p, dims, LabelState(codes, BypassQuery, status, h), None, now, h);
  }

  /**
   That only a response which would have been stored is advertised so holds exactly for responses whose
   declared length is within the limit: the writer of a bypass does not look at it.
   */
  lemma AdvertisedIsStorableExactlyWhen(codes: seq<string>, maxCacheableSize: int, p: Policy, dims: KeyDims,
                                        status: int, now: int, h: Header, n: nat)
    requires Advertises(Decide(p, dims, LabelState(codes, BypassQuery, status, h), None, now, h), n)
    ensures Storable(codes, maxCacheableSize, status, h) <==> !DeclaredTooLarge(maxCacheableSize, h)
  {
    QueryPublicExactlyWhen(codes, p, dims, status, now, h);
  }

  const TWO_BYTES: Header := [("Content-Length", "2")]

  /** Two bytes where one may be stored: an unkeyed query gets them advertised as public all the same. */
  lemma TooLargeIsAdvertised(codes: seq<string>, p: Policy, now: int)
    requires IsCacheableStatus(codes, 200) && p.ttl > 0 && !p.legacyNoStore
    ensures exists n ::
              Advertises(Decide(p, KeyDims([], false), LabelState(codes, BypassQuery, 200, TWO_BYTES), None, now,
                                TWO_BYTES), n)
    ensures !Storable(codes, 1, 200, TWO_BYTES)
  {
    TwoBytesAreDeclared();
    QueryPublicExactlyWhen(codes, p, KeyDims([], false), 200, now, TWO_BYTES);
  }

  lemma TwoBytesAreDeclared()
    ensures ParseInt(HeaderValue(TWO_BYTES, "Content-Length")) == Some(2) && !HasUncacheableHeader(TWO_BYTES)
    ensures !HasField(TWO_BYTES, "Set-Cookie")
    ensures HeaderValue(TWO_BYTES, "Cache-Control") == "" && HeaderValue(TWO_BYTES, "Expires") == ""
  {
    assert TWO_BYTES[1..] == [] && Number("2") == 2;
    assert |"Content-Length"| == 14 && |"Set-Cookie"| == 10 && |"Cache-Control"| == 13 && |"Expires"| == 7;
    assert !RulesOutStoring(TWO_BYTES[0].0);
  }

  class BypassWriter {
    const codes: seq<string>
    const policy: Policy
    const dims: KeyDims
    const state: CacheState
    const client: Client
    var applied: bool

    constructor (codes: seq<string>, policy: Policy, dims: KeyDims, state: CacheState, client: Client)
      ensures !applied && this.codes == codes && this.policy == policy && this.dims == dims
      ensures this.state == state && this.client == client
    {
      this.codes, this.policy, this.dims, this.state, this.client := codes, policy, dims, state, client;
      applied := false;
    }

    /** after is before, labelled for a response of that status. */
    ghost predicate LabelledFor(status: int, now: int, before: Header, after: Header) {
      Stamped(Decide(policy, dims, LabelState(codes, state, status, before), None, now, before), "BYPASS", dims, before,
              after)
    }

    method ApplyHeaders(status: int, now: int)
      modifies this, client.header
      ensures applied
      ensures if old(applied) then client.header.fields == old(client.header.fields)
              else LabelledFor(status, now, old(client.header.fields), client.header.fields)
    {
      if applied {
        return;
      }
      applied := true;
      var s := state;
      if s == BypassQuery && (!IsCacheableStatus(codes, status) || HasUncacheableHeader(client.header.fields)) {
        s := BypassPolicy;
      }
      Stamp(policy, client.header, "BYPASS", dims, s, now);
    }

    /** A 1xx status is not the final one: it passes without a label. */
    method WriteHeader(status: int, now: int)
      requires status >= 100
      modifies this, client, client.header
      ensures client.lines == old(client.lines) + [status] && client.body == old(client.body)
      ensures applied == (old(applied) || status >= 200)
      ensures status >= 200 ==> client.sent == client.header.fields
      ensures if old(applied) || status < 200 then client.header.fields == old(client.header.fields)
              else LabelledFor(status, now, old(client.header.fields), client.header.fields)
    {
      if 100 <= status < 200 {
        client.WriteHeader(status);
        return;
      }
      ApplyHeaders(status, now);
      client.WriteHeader(status);
    }

    method Write(b: Bytes, now: int)
      modifies this, client, client.header
      ensures applied && client.body == old(client.body) + b
      ensures client.lines == if Final(old(client.lines)) then old(client.lines) else old(client.lines) + [200]
      ensures client.sent == if Final(old(client.lines)) then old(client.sent) else client.header.fields
      ensures if old(applied) then client.header.fields == old(client.header.fields)
              else LabelledFor(200, now, old(client.header.fields), client.header.fields)
    {
      ApplyHeaders(200, now);
      client.Write(b);
    }
  }

  /** The writer after the interim lines, the upstream's fields and its first i writes. */
  ghost predicate Relayed(w: BypassWriter, up: Upstream, i: nat, now: int)
    requires i <= |up.writes|
    reads w, w.client, w.client.header
  {
    var wire := Wire(Upto(up, i));
    && w.client.lines == Codes(up.early) + wire && w.client.body == Concat(up.writes[..i])
    && w.applied == (wire != [])
    && if wire != [] then w.client.sent == w.client.header.fields &&
       w.LabelledFor(wire[0], now, up.header, w.client.sent)
       else w.client.header.fields == up.header
  }

  /**
   The whole bypass: the response passes unchanged but for its label, which is decided once,
   from the final status and the upstream's own fields, and is in place before the status line.
   */
  method ServeBypass(w: BypassWriter, up: Upstream, now: int) returns (err: bool)
    requires Proper(up) && !w.applied && w.client.lines == [] && w.client.body == []
    modifies w, w.client, w.client.header
    ensures err == up.failed && w.applied && w.client.lines == Lines(up) && w.client.body == Concat(up.writes)
    ensures w.LabelledFor(if Wire(up) != [] then Wire(up)[0] else 200, now, up.header, w.client.header.fields)
    ensures Wire(up) != [] ==> w.client.sent == w.client.header.fields
  {
    RelayHeader(w, up, now);
    for i := 0 to |up.writes|
      invariant Relayed(w, up, i, now)
    {
      RelayWrite(w, up, i, now);
    }
    assert up.writes[..|up.writes|] == up.writes && Upto(up, |up.writes|) == up;
    w.ApplyHeaders(200, now);
    return up.failed;
  }

  method RelayHeader(w: BypassWriter, up: Upstream, now: int)
    requires Proper(up) && !w.applied && w.client.lines == [] && w.client.body == []
    modifies w, w.client, w.client.header
    ensures Relayed(w, up, 0, now)
  {
    for i := 0 to |up.early|
      invariant w.client.lines == Codes(up.early[..i]) && w.client.body == [] && !w.applied
    {
      assert Codes(up.early[..i + 1]) == Codes(up.early[..i]) + [up.early[i].status];
      w.client.header.fields := up.early[i].header;
      w.WriteHeader(up.early[i].status, now);
    }
    assert up.early[..|up.early|] == up.early;
    w.client.header.fields := up.header;
    if up.status.Some? {
      w.WriteHeader(up.status.value, now);
    }
  }

  method RelayWrite(w: BypassWriter, up: Upstream, i: nat, now: int)
    requires i < |up.writes| && Proper(up) && Relayed(w, up, i, now)
    modifies w, w.client, w.client.header
    ensures Relayed(w, up, i + 1, now)
  {
    assert up.writes[..i + 1][..i] == up.writes[..i];
    NoFinalYet(up, i);
    w.Write(up.writes[i], now);
  }

  /** Interim lines are not final. */
  lemma NoFinalYet(up: Upstream, i: nat)
    requires Proper(up) && i <= |up.writes|
    ensures Final(Codes(up.early) + Wire(Upto(up, i))) <==> Wire(Upto(up, i)) != []
  {
    if up.early != [] {
      assert Codes(up.early)[|up.early| - 1] == up.early[|up.early| - 1].status;
    }
  }
}
