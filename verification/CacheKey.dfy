/** The cache key: computeKeyDims and buildCacheKeyFor of sidekick.go. The key is the preimage of the MD5 digest. */
module CacheKeys {
  import opened Basics
  import opened Downstream

  type Fields = seq<Bytes>

  type Pairs = seq<(Bytes, Bytes)>

  /** What Sidekick looks at in a GET request; fields and cookies are in the order they were sent. */
  datatype Request = Request(host: Bytes, path: Bytes, rawQuery: Bytes, header: Pairs, cookies: Pairs)

  datatype KeyConfig = KeyConfig(headers: seq<Bytes>, cookies: seq<Bytes>, isStatic: Bytes -> bool)

  /** http.Header.Get: the first field of that name in any case, or "". */
  function Get(header: Pairs, name: Bytes): Bytes {
    if header == [] then []
    else if EqualFold(header[0].0, name) then header[0].1
    else Get(header[1..], name)
  }

  /** It is the first field whose name is that name in some case, and empty when there is none. */
  lemma {:induction false} GetIsFirst(header: Pairs, name: Bytes)
    ensures (exists i :: FirstField(header, name, i) && Get(header, name) == header[i].1) ||
            (Get(header, name) == [] && forall i :: 0 <= i < |header| ==> !EqualFold(header[i].0, name))
  {
    if header == [] {
    } else if EqualFold(header[0].0, name) {
      assert FirstField(header, name, 0);
    } else {
      GetIsFirst(header[1..], name);
      assert forall i :: 0 < i < |header| ==> header[i] == header[1..][i - 1];
      if i :| FirstField(header[1..], name, i) && Get(header[1..], name) == header[1..][i].1 {
        assert FirstField(header, name, i + 1);
      }
    }
  }

  ghost predicate FirstField(header: Pairs, name: Bytes, i: int) {
    0 <= i < |header| && EqualFold(header[i].0, name) && forall j :: 0 <= j < i ==> !EqualFold(header[j].0, name)
  }

  const RANGE: Bytes := "Range"
  const IF_RANGE: Bytes := "If-Range"

  predicate HasRange(r: Request) {
    Get(r.header, RANGE) != []
  }

  /** http.Header.Del. */
  function WithoutField(header: Pairs, name: Bytes): Pairs {
    if header == [] then []
    else if EqualFold(header[0].0, name) then WithoutField(header[1..], name)
    else [header[0]] + WithoutField(header[1..], name)
  }

  /** The request of a range fill: for the full representation, whatever range the client asked for. */
  function FullRequest(r: Request): Request {
    r.(header := WithoutField(WithoutField(r.header, RANGE), IF_RANGE))
  }

  lemma {:induction false} GetWithout(header: Pairs, removed: Bytes, name: Bytes)
    ensures Get(WithoutField(header, removed), name) == if EqualFold(removed, name) then [] else Get(header, name)
  {
    if header != [] {
      GetWithout(header[1..], removed, name);
    }
  }

  /** The upstream of a range fill never sees a Range, and every other field but If-Range reaches it. */
  lemma FullRequestHasNoRange(r: Request, name: Bytes)
    ensures !HasRange(FullRequest(r)) && Get(FullRequest(r).header, IF_RANGE) == []
    ensures !EqualFold(RANGE, name) && !EqualFold(IF_RANGE, name) ==>
            Get(FullRequest(r).header, name) == Get(r.header, name)
  {
    var once := WithoutField(r.header, RANGE);
    GetWithout(once, IF_RANGE, RANGE);
    GetWithout(r.header, RANGE, RANGE);
    GetWithout(once, IF_RANGE, IF_RANGE);
    GetWithout(once, IF_RANGE, name);
    GetWithout(r.header, RANGE, name);
  }

  // Framing.

  /** One field, preceded by its length. */
  function Field(v: Bytes): Bytes {
    Decimal(|v|) + [':'] + v
  }

  function Frame(fields: Fields): Bytes {
    if fields == [] then [] else Frame(fields[..|fields| - 1]) + Field(fields[|fields| - 1])
  }

  lemma FrameSnoc(fields: Fields, v: Bytes)
    ensures Frame(fields + [v]) == Frame(fields) + Field(v)
  {
    assert (fields + [v])[..|fields|] == fields;
  }

  lemma {:induction false} FrameCons(fields: Fields)
    requires fields != []
    ensures Frame(fields) == Field(fields[0]) + Frame(fields[1..])
  {
    if |fields| > 1 {
      var front, last := fields[..|fields| - 1], fields[|fields| - 1];
      FrameCons(front);
      assert fields[1..] == front[1..] + [last];
      FrameSnoc(front[1..], last);
      Regroup(Field(fields[0]), Frame(front[1..]), Field(last));
    }
  }

  /** Digits end where the first ':' stands. */
  lemma DigitsEnd(a: Bytes, b: Bytes, s: Bytes, t: Bytes)
    requires a + [':'] + s == b + [':'] + t && ':' !in a && ':' !in b
    ensures a == b && s == t
  {
    var u := a + [':'] + s;
    assert u[|a|] == ':' && u[|b|] == ':';
    assert (forall i :: 0 <= i < |a| ==> u[i] == a[i]) && (forall i :: 0 <= i < |b| ==> u[i] == b[i]);
    assert !(|a| < |b|) && !(|b| < |a|);
    assert a == u[..|a|] && b == u[..|b|] && s == u[|a| + 1..] && t == u[|b| + 1..];
  }

  /** A field says itself where it ends. */
  lemma FieldEnds(v: Bytes, w: Bytes, s: Bytes, t: Bytes)
    requires Field(v) + s == Field(w) + t
    ensures v == w && s == t
  {
    assert Field(v) + s == Decimal(|v|) + [':'] + (v + s);
    assert Field(w) + t == Decimal(|w|) + [':'] + (w + t);
    DigitsEnd(Decimal(|v|), Decimal(|w|), v + s, w + t);
    NumberOfDecimal(|v|);
    NumberOfDecimal(|w|);
    assert v == (v + s)[..|v|] && w == (w + t)[..|w|] && s == (v + s)[|v|..] && t == (w + t)[|w|..];
  }

  /** Framed fields decode uniquely: equal keys have equal field lists. */
  lemma {:induction false} FrameInjective(a: Fields, b: Fields)
    ensures Frame(a) == Frame(b) <==> a == b
  {
    if a != [] {
      FrameCons(a);
    }
    if b != [] {
      FrameCons(b);
    }
    if a != [] && b != [] && Frame(a) == Frame(b) {
      FieldEnds(a[0], b[0], Frame(a[1..]), Frame(b[1..]));
      FrameInjective(a[1..], b[1..]);
      assert a == [a[0]] + a[1..] && b == [b[0]] + b[1..];
    }
  }

  // What goes into the key.

  /** The value of a configured header; Go keeps Host outside the header map. */
  function KeyValue(r: Request, name: Bytes): Bytes {
    if EqualFold(name, "Host") then r.host else Get(r.header, name)
  }

  function HeaderPairs(names: seq<Bytes>, r: Request): Pairs {
    if names == [] then []
    else (if KeyValue(r, names[0]) == [] then [] else [(names[0], KeyValue(r, names[0]))]) + HeaderPairs(names[1..], r)
  }

  function PresentHeaders(names: seq<Bytes>, r: Request): seq<Bytes> {
    if names == [] then []
    else
      (if EqualFold(names[0], "Host") || Get(r.header, names[0]) == [] then [] else [names[0]]) +
      PresentHeaders(names[1..], r)
  }

  function Prefix(pattern: Bytes): Bytes {
    if pattern != [] && pattern[|pattern| - 1] == '*' then pattern[..|pattern| - 1] else pattern
  }

  /** Whether a cookie pattern stands for cookies of that name. */
  predicate PatternMatches(pattern: Bytes, name: Bytes) {
    if '*' in pattern then Prefix(pattern) <= name else pattern != [] && name == pattern
  }

  function WithPrefix(prefix: Bytes, cookies: Pairs): Pairs {
    if cookies == [] then []
    else (if prefix <= cookies[0].0 then [cookies[0]] else []) + WithPrefix(prefix, cookies[1..])
  }

  /** http.Request.Cookie: the first cookie of that name; none for the empty name. */
  function FirstCookie(name: Bytes, cookies: Pairs): Option<Bytes> {
    if name == [] || cookies == [] then None
    else if cookies[0].0 == name then Some(cookies[0].1)
    else FirstCookie(name, cookies[1..])
  }

  /** What one cookie pattern contributes to the key. */
  function PatternPairs(pattern: Bytes, cookies: Pairs): Pairs {
    if '*' in pattern then WithPrefix(Prefix(pattern), cookies)
    else match FirstCookie(pattern, cookies)
      case None => []
      case Some(v) => [(pattern, v)]
  }

  function PatternsPairs(patterns: seq<Bytes>, cookies: Pairs): Pairs {
    if patterns == [] then [] else PatternPairs(patterns[0], cookies) + PatternsPairs(patterns[1..], cookies)
  }

  /** The cookie pairs of the key: none on a static asset. */
  function CookiePairs(cfg: KeyConfig, r: Request): Pairs {
    if cfg.isStatic(r.path) then [] else PatternsPairs(cfg.cookies, r.cookies)
  }

  function Flat(pairs: Pairs): Fields {
    if pairs == [] then [] else [pairs[0].0, pairs[0].1] + Flat(pairs[1..])
  }

  function KeyFields(cfg: KeyConfig, r: Request, canonical: Bytes): Fields {
    [r.host, r.path, canonical] + Flat(HeaderPairs(cfg.headers, r) + CookiePairs(cfg, r))
  }

  function Key(cfg: KeyConfig, r: Request, canonical: Bytes): Bytes {
    Frame(KeyFields(cfg, r, canonical))
  }

  function Dims(cfg: KeyConfig, r: Request): KeyDims {
    KeyDims(PresentHeaders(cfg.headers, r), CookiePairs(cfg, r) != [])
  }

  // The loops.

  lemma {:induction false} WithPrefixNonEmpty(prefix: Bytes, cookies: Pairs)
    ensures WithPrefix(prefix, cookies) != [] <==> exists i :: 0 <= i < |cookies| && prefix <= cookies[i].0
  {
    if cookies != [] {
      WithPrefixNonEmpty(prefix, cookies[1..]);
      assert forall i :: 0 < i < |cookies| ==> cookies[i] == cookies[1..][i - 1];
      assert forall i :: 0 <= i < |cookies[1..]| ==> cookies[1..][i] == cookies[i + 1];
    }
  }

  method ComputeKeyDims(cfg: KeyConfig, r: Request) returns (dims: KeyDims)
    ensures dims == Dims(cfg, r)
  {
    var headers := ListHeaders(cfg.headers, r);
    if cfg.isStatic(r.path) {
      return KeyDims(headers, false);
    }
    var cookies := false;
    for i := 0 to |cfg.cookies|
      invariant PatternsPairs(cfg.cookies, r.cookies) == [] <==> PatternsPairs(cfg.cookies[i..], r.cookies) == []
      invariant !cookies
    {
      assert cfg.cookies[i..][1..] == cfg.cookies[i + 1..];
      var pattern := cfg.cookies[i];
      if '*' in pattern {
        cookies := AnyWithPrefix(Prefix(pattern), r.cookies);
      } else if FirstCookie(pattern, r.cookies).Some? {
        cookies := true;
      }
      if cookies {
        break;
      }
    }
    return KeyDims(headers, cookies);
  }

  method ListHeaders(names: seq<Bytes>, r: Request) returns (headers: seq<Bytes>)
    ensures headers == PresentHeaders(names, r)
  {
    headers := [];
    for i := 0 to |names|
      invariant headers + PresentHeaders(names[i..], r) == PresentHeaders(names, r)
    {
      if EqualFold(names[i], "Host") {
        continue;
      }
      if Get(r.header, names[i]) != [] {
        headers := headers + [names[i]];
      }
    }
  }

  method AnyWithPrefix(prefix: Bytes, cookies: Pairs) returns (found: bool)
    ensures found <==> WithPrefix(prefix, cookies) != []
  {
    WithPrefixNonEmpty(prefix, cookies);
    for j := 0 to |cookies|
      invariant forall k :: 0 <= k < j ==> !(prefix <= cookies[k].0)
    {
      if prefix <= cookies[j].0 {
        return true;
      }
    }
    return false;
  }

  lemma {:induction false} FlatConcat(a: Pairs, b: Pairs)
    ensures Flat(a + b) == Flat(a) + Flat(b)
  {
    if a == [] {
      assert a + b == b;
    } else {
      assert (a + b)[1..] == a[1..] + b;
      FlatConcat(a[1..], b);
    }
  }

  /** The running digest: what was written to it, and as which fields. */
  class KeyHash {
    var written: Bytes
    ghost var fields: Fields

    ghost predicate Valid()
      reads this
    {
      written == Frame(fields)
    }

    constructor ()
      ensures Valid() && fields == []
    {
      written, fields := [], [];
    }

    method Add(v: Bytes)
      requires Valid()
      modifies this
      ensures Valid() && fields == old(fields) + [v]
    {
      written := written + Field(v);
      fields := fields + [v];
      assert fields[..|fields| - 1] == old(fields);
    }
  }

  method BuildCacheKeyFor(cfg: KeyConfig, r: Request, canonical: Bytes) returns (key: Bytes, dims: KeyDims)
    ensures key == Key(cfg, r, canonical) && dims == Dims(cfg, r)
  {
    dims := ComputeKeyDims(cfg, r);
    var h := new KeyHash();
    h.Add(r.host);
    h.Add(r.path);
    h.Add(canonical);
    assert h.fields == [r.host, r.path, canonical];
    WriteHeaders(h, cfg.headers, r);
    if dims.cookies {
      WriteCookies(h, cfg.cookies, r.cookies);
    }
    KeyFieldsParts(cfg, r, canonical);
    key := h.written;
  }

  lemma KeyFieldsParts(cfg: KeyConfig, r: Request, canonical: Bytes)
    ensures KeyFields(cfg, r, canonical) ==
            [r.host, r.path, canonical] + Flat(HeaderPairs(cfg.headers, r)) + Flat(CookiePairs(cfg, r))
    ensures CookiePairs(cfg, r) == [] ==>
            KeyFields(cfg, r, canonical) == [r.host, r.path, canonical] + Flat(HeaderPairs(cfg.headers, r))
  {
    FlatConcat(HeaderPairs(cfg.headers, r), CookiePairs(cfg, r));
  }

  lemma FlatCons(p: (Bytes, Bytes), rest: Pairs)
    ensures Flat([p] + rest) == [p.0, p.1] + Flat(rest)
  {
    assert ([p] + rest)[1..] == rest;
  }

  method WriteHeaders(h: KeyHash, names: seq<Bytes>, r: Request)
    requires h.Valid()
    modifies h
    ensures h.Valid() && h.fields == old(h.fields) + Flat(HeaderPairs(names, r))
  {
    ghost var all := h.fields + Flat(HeaderPairs(names, r));
    for i := 0 to |names|
      invariant h.Valid() && h.fields + Flat(HeaderPairs(names[i..], r)) == all
    {
      ghost var before := h.fields;
      var val := KeyValue(r, names[i]);
      if val != [] {
        h.Add(names[i]);
        h.Add(val);
      }
      NextHeader(names, r, i, before, h.fields, all);
    }
    assert names[|names|..] == [];
  }

  lemma NextHeader(names: seq<Bytes>, r: Request, i: nat, before: Fields, after: Fields, all: Fields)
    requires i < |names| && before + Flat(HeaderPairs(names[i..], r)) == all
    requires after == if KeyValue(r, names[i]) == [] then before else before + [names[i]] + [KeyValue(r, names[i])]
    ensures after + Flat(HeaderPairs(names[i + 1..], r)) == all
  {
    FlatHeaders(names, r, i);
    Regroup(before, [names[i], KeyValue(r, names[i])], Flat(HeaderPairs(names[i + 1..], r)));
  }

  lemma FlatHeaders(names: seq<Bytes>, r: Request, i: nat)
    requires i < |names|
    ensures var val, rest := KeyValue(r, names[i]), Flat(HeaderPairs(names[i + 1..], r));
            Flat(HeaderPairs(names[i..], r)) == if val == [] then rest else [names[i], val] + rest
  {
    assert names[i..][1..] == names[i + 1..];
    var val, rest := KeyValue(r, names[i]), HeaderPairs(names[i + 1..], r);
    if val == [] {
      assert [] + rest == rest;
    } else {
      FlatCons((names[i], val), rest);
    }
  }

  method WriteCookies(h: KeyHash, patterns: seq<Bytes>, cookies: Pairs)
    requires h.Valid()
    modifies h
    ensures h.Valid() && h.fields == old(h.fields) + Flat(PatternsPairs(patterns, cookies))
  {
    ghost var all := old(h.fields) + Flat(PatternsPairs(patterns, cookies));
    for i := 0 to |patterns|
      invariant h.Valid() && h.fields + Flat(PatternsPairs(patterns[i..], cookies)) == all
    {
      ghost var before := h.fields;
      WritePattern(h, patterns[i], cookies);
      NextPattern(patterns, cookies, i, before, h.fields, all);
    }
    assert patterns[|patterns|..] == [];
  }

  lemma NextPattern(patterns: seq<Bytes>, cookies: Pairs, i: nat, before: Fields, after: Fields, all: Fields)
    requires i < |patterns| && after == before + Flat(PatternPairs(patterns[i], cookies))
    requires before + Flat(PatternsPairs(patterns[i..], cookies)) == all
    ensures after + Flat(PatternsPairs(patterns[i + 1..], cookies)) == all
  {
    FlatPatterns(patterns, cookies, i);
    Regroup(before, Flat(PatternPairs(patterns[i], cookies)), Flat(PatternsPairs(patterns[i + 1..], cookies)));
  }

  lemma FlatPatterns(patterns: seq<Bytes>, cookies: Pairs, i: nat)
    requires i < |patterns|
    ensures Flat(PatternsPairs(patterns[i..], cookies)) ==
            Flat(PatternPairs(patterns[i], cookies)) + Flat(PatternsPairs(patterns[i + 1..], cookies))
  {
    assert patterns[i..][1..] == patterns[i + 1..];
    FlatConcat(PatternPairs(patterns[i], cookies), PatternsPairs(patterns[i + 1..], cookies));
  }

  method WritePattern(h: KeyHash, pattern: Bytes, cookies: Pairs)
    requires h.Valid()
    modifies h
    ensures h.Valid() && h.fields == old(h.fields) + Flat(PatternPairs(pattern, cookies))
  {
    if '*' in pattern {
      WritePrefixed(h, Prefix(pattern), cookies);
    } else {
      var v := FirstCookie(pattern, cookies);
      if v.Some? {
        h.Add(pattern);
        h.Add(v.value);
      }
    }
  }

  method WritePrefixed(h: KeyHash, prefix: Bytes, cookies: Pairs)
    requires h.Valid()
    modifies h
    ensures h.Valid() && h.fields == old(h.fields) + Flat(WithPrefix(prefix, cookies))
  {
    for j := 0 to |cookies|
      invariant h.Valid()
      invariant h.fields + Flat(WithPrefix(prefix, cookies[j..])) == old(h.fields) + Flat(WithPrefix(prefix, cookies))
    {
      ghost var rest := WithPrefix(prefix, cookies[j + 1..]);
      assert cookies[j..][1..] == cookies[j + 1..];
      if prefix <= cookies[j].0 {
        FlatCons(cookies[j], rest);
        h.Add(cookies[j].0);
        h.Add(cookies[j].1);
      } else {
        assert [] + rest == rest;
      }
    }
  }
}
