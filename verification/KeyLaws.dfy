/** What equal cache keys say about the requests, and what the patterns for cookies take into the key. */
module KeyLaws {
  import opened Basics
  import opened Downstream
  import opened CacheKeys

  // What a cookie pattern takes.

  /** The pairs at the given positions, which are all those whose name the pattern matches, in request order. */
  ghost predicate TakenAt(p: Bytes, cs: Pairs, taken: Pairs, at: seq<nat>) {
    && |at| == |taken| && (forall k, l :: 0 <= k < l < |at| ==> at[k] < at[l])
    && (forall k :: 0 <= k < |at| ==> at[k] < |cs| && taken[k] == cs[at[k]])
    && forall i: nat :: i < |cs| ==> (i in at <==> PatternMatches(p, cs[i].0))
  }

  /** The first pair that the pattern matches, if any. */
  ghost predicate TakenFirst(p: Bytes, cs: Pairs, taken: Pairs, i: nat) {
    && i <= |cs| && (forall j :: 0 <= j < i ==> !PatternMatches(p, cs[j].0))
    && if i < |cs| then PatternMatches(p, cs[i].0) && taken == [cs[i]] else taken == []
  }

  /** What a pattern is to take of the cookies: a wildcard every match, an exact name the first. */
  ghost predicate Takes(p: Bytes, cs: Pairs, taken: Pairs) {
    if '*' in p then exists at :: TakenAt(p, cs, taken, at) else exists i: nat :: TakenFirst(p, cs, taken, i)
  }

  lemma WithPrefixSnoc(prefix: Bytes, front: Pairs, last: (Bytes, Bytes))
    ensures WithPrefix(prefix, front + [last]) ==
            WithPrefix(prefix, front) + if prefix <= last.0 then [last] else []
  {
    if front == [] {
      assert front + [last] == [last];
    } else {
      assert (front + [last])[1..] == front[1..] + [last];
      WithPrefixSnoc(prefix, front[1..], last);
    }
  }

  lemma TakenMore(p: Bytes, cs: Pairs, taken: Pairs, at: seq<nat>, last: (Bytes, Bytes))
    requires TakenAt(p, cs, taken, at)
    ensures PatternMatches(p, last.0) ==> TakenAt(p, cs + [last], taken + [last], at + [|cs|])
    ensures !PatternMatches(p, last.0) ==> TakenAt(p, cs + [last], taken, at)
  {
    var more := cs + [last];
    assert forall i :: 0 <= i < |cs| ==> more[i] == cs[i];
    assert |cs| !in at;
  }

  lemma TakenLess(p: Bytes, cs: Pairs, taken: Pairs, at: seq<nat>, last: (Bytes, Bytes))
    requires TakenAt(p, cs + [last], taken, at)
    ensures if PatternMatches(p, last.0) then
              taken != [] && taken[|taken| - 1] == last && TakenAt(p, cs, taken[..|taken| - 1], at[..|at| - 1])
            else TakenAt(p, cs, taken, at)
  {
    var more := cs + [last];
    assert more[|cs|] == last && forall i :: 0 <= i < |cs| ==> more[i] == cs[i];
    if PatternMatches(p, last.0) {
      assert |cs| in at;
      var k :| 0 <= k < |at| && at[k] == |cs|;
      assert at[|at| - 1] <= |cs|;
      assert forall i :: i in at ==> i == |cs| || i in at[..|at| - 1];
    } else {
      assert |cs| !in at;
    }
  }

  lemma {:induction false} WildcardAt(p: Bytes, cs: Pairs) returns (at: seq<nat>)
    requires '*' in p
    ensures TakenAt(p, cs, WithPrefix(Prefix(p), cs), at)
    decreases |cs|
  {
    if cs == [] {
      at := [];
    } else {
      var front, last := cs[..|cs| - 1], cs[|cs| - 1];
      assert cs == front + [last];
      WithPrefixSnoc(Prefix(p), front, last);
      at := WildcardAt(p, front);
      TakenMore(p, front, WithPrefix(Prefix(p), front), at, last);
      if PatternMatches(p, last.0) {
        at := at + [|front|];
      } else {
        NothingAdded(WithPrefix(Prefix(p), front));
      }
    }
  }

  lemma NothingAdded(x: Pairs)
    ensures x + [] == x
  {
  }

  lemma {:induction false} WildcardOnly(p: Bytes, cs: Pairs, taken: Pairs, at: seq<nat>)
    requires '*' in p && TakenAt(p, cs, taken, at)
    ensures taken == WithPrefix(Prefix(p), cs)
    decreases |cs|
  {
    if cs == [] {
      assert |at| == 0;
    } else {
      var front, last := cs[..|cs| - 1], cs[|cs| - 1];
      assert cs == front + [last];
      WithPrefixSnoc(Prefix(p), front, last);
      TakenLess(p, front, taken, at, last);
      if PatternMatches(p, last.0) {
        WildcardOnly(p, front, taken[..|taken| - 1], at[..|at| - 1]);
        assert taken == taken[..|taken| - 1] + [last];
      } else {
        WildcardOnly(p, front, taken, at);
        NothingAdded(WithPrefix(Prefix(p), front));
      }
    }
  }

  /** A wildcard takes exactly what PatternPairs computes. */
  lemma WildcardTakes(p: Bytes, cs: Pairs)
    requires '*' in p
    ensures Takes(p, cs, WithPrefix(Prefix(p), cs))
    ensures forall taken :: Takes(p, cs, taken) ==> taken == WithPrefix(Prefix(p), cs)
  {
    var at := WildcardAt(p, cs);
    forall taken | Takes(p, cs, taken) ensures taken == WithPrefix(Prefix(p), cs) {
      var at' :| TakenAt(p, cs, taken, at');
      WildcardOnly(p, cs, taken, at');
    }
  }

  lemma {:induction false} ExactTakes(p: Bytes, cs: Pairs)
    requires '*' !in p
    ensures exists i: nat :: TakenFirst(p, cs, PatternPairs(p, cs), i)
  {
    if cs == [] || p == [] {
      assert TakenFirst(p, cs, PatternPairs(p, cs), |cs|);
    } else if cs[0].0 == p {
      assert PatternPairs(p, cs) == [cs[0]];
      assert TakenFirst(p, cs, PatternPairs(p, cs), 0);
    } else {
      ExactTakes(p, cs[1..]);
      var i: nat :| TakenFirst(p, cs[1..], PatternPairs(p, cs[1..]), i);
      assert forall j :: 0 < j < |cs| ==> cs[j] == cs[1..][j - 1];
      assert TakenFirst(p, cs, PatternPairs(p, cs), i + 1);
    }
  }

  /** What a pattern contributes to the key is what it is to take, and nothing else is. */
  lemma PatternTakesExactly(p: Bytes, cs: Pairs, taken: Pairs)
    ensures Takes(p, cs, taken) <==> taken == PatternPairs(p, cs)
  {
    if '*' in p {
      WildcardTakes(p, cs);
    } else {
      ExactTakes(p, cs);
      var i: nat :| TakenFirst(p, cs, PatternPairs(p, cs), i);
      if j: nat :| TakenFirst(p, cs, taken, j) {
        assert !(i < j) && !(j < i);
      }
    }
  }

  /** In particular a wildcard keeps every matching cookie as often as it was sent, and no other. */
  lemma {:induction false} WildcardKeepsEvery(p: Bytes, cs: Pairs, c: (Bytes, Bytes))
    requires '*' in p
    ensures multiset(PatternPairs(p, cs))[c] == if PatternMatches(p, c.0) then multiset(cs)[c] else 0
  {
    if cs != [] {
      WildcardKeepsEvery(p, cs[1..], c);
      assert cs == [cs[0]] + cs[1..];
    }
  }

  // How many pairs of each name the patterns take: it decides where the pairs of one pattern end.

  function NameCount(x: Pairs, n: Bytes): nat {
    if x == [] then 0 else (if x[0].0 == n then 1 else 0) + NameCount(x[1..], n)
  }

  function Names(x: Pairs): seq<Bytes> {
    if x == [] then [] else [x[0].0] + Names(x[1..])
  }

  lemma {:induction false} CountIsMultiset(x: Pairs, n: Bytes)
    ensures |Names(x)| == |x| && NameCount(x, n) == multiset(Names(x))[n]
  {
    if x != [] {
      CountIsMultiset(x[1..], n);
    }
  }

  lemma SameCountsSameLength(x: Pairs, y: Pairs)
    requires forall n :: NameCount(x, n) == NameCount(y, n)
    ensures |x| == |y|
  {
    forall n ensures multiset(Names(x))[n] == multiset(Names(y))[n] {
      CountIsMultiset(x, n);
      CountIsMultiset(y, n);
    }
    CountIsMultiset(x, []);
    CountIsMultiset(y, []);
    assert multiset(Names(x)) == multiset(Names(y));
    assert |multiset(Names(x))| == |Names(x)| && |multiset(Names(y))| == |Names(y)|;
  }

  lemma {:induction false} CountConcat(x: Pairs, y: Pairs, n: Bytes)
    ensures NameCount(x + y, n) == NameCount(x, n) + NameCount(y, n)
  {
    if x == [] {
      assert x + y == y;
    } else {
      assert (x + y)[1..] == x[1..] + y;
      CountConcat(x[1..], y, n);
    }
  }

  /** How many pairs of a name a pattern takes when the cookies hold k of it. */
  function Share(p: Bytes, n: Bytes, k: nat): nat {
    if !PatternMatches(p, n) || k == 0 then 0 else if '*' in p then k else 1
  }

  function Total(ps: seq<Bytes>, n: Bytes, k: nat): nat {
    if ps == [] then 0 else Share(ps[0], n, k) + Total(ps[1..], n, k)
  }

  lemma {:induction false} PatternCount(p: Bytes, cs: Pairs, n: Bytes)
    ensures NameCount(PatternPairs(p, cs), n) == Share(p, n, NameCount(cs, n))
  {
    if cs != [] {
      PatternCount(p, cs[1..], n);
      if '*' in p {
        CountConcat(if Prefix(p) <= cs[0].0 then [cs[0]] else [], WithPrefix(Prefix(p), cs[1..]), n);
      }
    }
  }

  lemma {:induction false} PatternsCount(ps: seq<Bytes>, cs: Pairs, n: Bytes)
    ensures NameCount(PatternsPairs(ps, cs), n) == Total(ps, n, NameCount(cs, n))
  {
    if ps != [] {
      PatternsCount(ps[1..], cs, n);
      PatternCount(ps[0], cs, n);
      CountConcat(PatternPairs(ps[0], cs), PatternsPairs(ps[1..], cs), n);
    }
  }

  /** Every share grows with the number of cookies, so equal totals have equal shares. */
  lemma {:induction false} EqualTotals(ps: seq<Bytes>, n: Bytes, k: nat, l: nat)
    requires k <= l
    ensures Total(ps, n, k) <= Total(ps, n, l)
    ensures Total(ps, n, k) == Total(ps, n, l) ==> forall p :: p in ps ==> Share(p, n, k) == Share(p, n, l)
  {
    if ps != [] {
      EqualTotals(ps[1..], n, k, l);
      assert forall p :: p in ps ==> p == ps[0] || p in ps[1..];
    }
  }

  lemma SameTotalsSameShare(ps: seq<Bytes>, p: Bytes, n: Bytes, a: Pairs, b: Pairs)
    requires p in ps && NameCount(PatternsPairs(ps, a), n) == NameCount(PatternsPairs(ps, b), n)
    ensures NameCount(PatternPairs(p, a), n) == NameCount(PatternPairs(p, b), n)
  {
    PatternsCount(ps, a, n);
    PatternsCount(ps, b, n);
    PatternCount(p, a, n);
    PatternCount(p, b, n);
    var k, l := NameCount(a, n), NameCount(b, n);
    EqualTotals(ps, n, if k <= l then k else l, if k <= l then l else k);
  }

  lemma SameTotalSameLength(ps: seq<Bytes>, p: Bytes, a: Pairs, b: Pairs)
    requires p in ps && PatternsPairs(ps, a) == PatternsPairs(ps, b)
    ensures |PatternPairs(p, a)| == |PatternPairs(p, b)|
  {
    forall n ensures NameCount(PatternPairs(p, a), n) == NameCount(PatternPairs(p, b), n) {
      SameTotalsSameShare(ps, p, n, a, b);
    }
    SameCountsSameLength(PatternPairs(p, a), PatternPairs(p, b));
  }

  lemma {:induction false} PiecesSame(ps: seq<Bytes>, a: Pairs, b: Pairs)
    requires PatternsPairs(ps, a) == PatternsPairs(ps, b)
    requires forall p :: p in ps ==> |PatternPairs(p, a)| == |PatternPairs(p, b)|
    ensures forall p :: p in ps ==> PatternPairs(p, a) == PatternPairs(p, b)
  {
    if ps != [] {
      var n := |PatternPairs(ps[0], a)|;
      assert PatternPairs(ps[0], a) == PatternsPairs(ps, a)[..n] && PatternPairs(ps[0], b) == PatternsPairs(ps, b)[..n];
      assert PatternsPairs(ps[1..], a) == PatternsPairs(ps, a)[n..];
      assert PatternsPairs(ps[1..], b) == PatternsPairs(ps, b)[n..];
      PiecesSame(ps[1..], a, b);
      assert forall p :: p in ps ==> p == ps[0] || p in ps[1..];
    }
  }

  lemma {:induction false} PiecesMakeTheWhole(ps: seq<Bytes>, a: Pairs, b: Pairs)
    requires forall p :: p in ps ==> PatternPairs(p, a) == PatternPairs(p, b)
    ensures PatternsPairs(ps, a) == PatternsPairs(ps, b)
  {
    if ps != [] {
      PiecesMakeTheWhole(ps[1..], a, b);
    }
  }

  /** The pattern takes the same pairs of both. */
  ghost predicate SameTaken(p: Bytes, a: Pairs, b: Pairs) {
    exists taken :: Takes(p, a, taken) && Takes(p, b, taken)
  }

  lemma SameTakenMeans(p: Bytes, a: Pairs, b: Pairs)
    ensures SameTaken(p, a, b) <==> PatternPairs(p, a) == PatternPairs(p, b)
  {
    PatternTakesExactly(p, a, PatternPairs(p, a));
    PatternTakesExactly(p, b, PatternPairs(p, a));
    forall taken ensures Takes(p, a, taken) <==> taken == PatternPairs(p, a)
      ensures Takes(p, b, taken) <==> taken == PatternPairs(p, b)
    {
      PatternTakesExactly(p, a, taken);
      PatternTakesExactly(p, b, taken);
    }
  }

  /** The cookies of the key are the same exactly when every pattern takes the same pairs of both requests. */
  lemma SameCookiesExactlyWhen(ps: seq<Bytes>, a: Pairs, b: Pairs)
    ensures PatternsPairs(ps, a) == PatternsPairs(ps, b) <==> forall p :: p in ps ==> SameTaken(p, a, b)
  {
    forall p ensures SameTaken(p, a, b) <==> PatternPairs(p, a) == PatternPairs(p, b) {
      SameTakenMeans(p, a, b);
    }
    if PatternsPairs(ps, a) == PatternsPairs(ps, b) {
      forall p | p in ps ensures |PatternPairs(p, a)| == |PatternPairs(p, b)| {
        SameTotalSameLength(ps, p, a, b);
      }
      PiecesSame(ps, a, b);
    }
    if forall p :: p in ps ==> SameTaken(p, a, b) {
      PiecesMakeTheWhole(ps, a, b);
    }
  }

  // What equal keys mean.

  /** The two requests agree on everything the key is meant to separate; cookies do not vary static assets. */
  ghost predicate Agree(cfg: KeyConfig, a: Request, b: Request) {
    && a.host == b.host && a.path == b.path
    && (forall name :: name in cfg.headers ==> EqualFold(name, "Host") || Get(a.header, name) == Get(b.header, name))
    && (cfg.isStatic(a.path) || forall p :: p in cfg.cookies ==> SameTaken(p, a.cookies, b.cookies))
  }

  /** No configured header other than Host has a name that a cookie pattern also stands for. */
  ghost predicate Separable(cfg: KeyConfig) {
    forall h, p :: h in cfg.headers && p in cfg.cookies && !EqualFold(h, "Host") ==> !PatternMatches(p, h)
  }

  ghost predicate Named(pairs: Pairs, name: Bytes) {
    exists i :: 0 <= i < |pairs| && pairs[i].0 == name
  }

  lemma NamedConcat(a: Pairs, b: Pairs, name: Bytes)
    ensures Named(a + b, name) <==> Named(a, name) || Named(b, name)
  {
    assert forall i :: 0 <= i < |a| ==> (a + b)[i] == a[i];
    assert forall i :: 0 <= i < |b| ==> (a + b)[|a| + i] == b[i];
  }

  lemma {:induction false} NoHeaderNamed(names: seq<Bytes>, r: Request, name: Bytes)
    requires KeyValue(r, name) == []
    ensures !Named(HeaderPairs(names, r), name)
  {
    if names != [] {
      NoHeaderNamed(names[1..], r, name);
      var here: Pairs := if KeyValue(r, names[0]) == [] then [] else [(names[0], KeyValue(r, names[0]))];
      NamedConcat(here, HeaderPairs(names[1..], r), name);
    }
  }

  lemma {:induction false} PrefixPairNames(prefix: Bytes, cookies: Pairs)
    ensures forall i :: 0 <= i < |WithPrefix(prefix, cookies)| ==> prefix <= WithPrefix(prefix, cookies)[i].0
  {
    if cookies != [] {
      PrefixPairNames(prefix, cookies[1..]);
    }
  }

  lemma {:induction false} NoCookieNamed(patterns: seq<Bytes>, cookies: Pairs, name: Bytes)
    requires forall p :: p in patterns ==> !PatternMatches(p, name)
    ensures !Named(PatternsPairs(patterns, cookies), name)
  {
    if patterns != [] {
      NoCookieNamed(patterns[1..], cookies, name);
      PrefixPairNames(Prefix(patterns[0]), cookies);
      assert !PatternMatches(patterns[0], name);
      NamedConcat(PatternPairs(patterns[0], cookies), PatternsPairs(patterns[1..], cookies), name);
    }
  }

  lemma {:induction false} FlatInjective(a: Pairs, b: Pairs)
    ensures Flat(a) == Flat(b) <==> a == b
  {
    if a != [] && b != [] && Flat(a) == Flat(b) {
      assert Flat(a)[0] == a[0].0 && Flat(a)[1] == a[0].1 && Flat(a)[2..] == Flat(a[1..]);
      assert Flat(b)[0] == b[0].0 && Flat(b)[1] == b[0].1 && Flat(b)[2..] == Flat(b[1..]);
      FlatInjective(a[1..], b[1..]);
      assert a == [a[0]] + a[1..] && b == [b[0]] + b[1..];
    }
  }

  /** The header pairs end where they should: a header that only one request sends cannot be made up for. */
  lemma {:induction false} PairsSeparate(names: seq<Bytes>, a: Request, b: Request, x: Pairs, y: Pairs)
    requires a.host == b.host
    requires forall h :: h in names && !EqualFold(h, "Host") ==> !Named(x, h) && !Named(y, h)
    requires HeaderPairs(names, a) + x == HeaderPairs(names, b) + y
    ensures x == y && forall h :: h in names ==> KeyValue(a, h) == KeyValue(b, h)
  {
    if names == [] {
      assert HeaderPairs(names, a) + x == x && HeaderPairs(names, b) + y == y;
    } else {
      var h, rest := names[0], names[1..];
      var pa, pb := HeaderPairs(names, a) + x, HeaderPairs(names, b) + y;
      AbsentInBoth(names, a, b, x, y);
      AbsentInBoth(names, b, a, y, x);
      if KeyValue(a, h) != [] {
        assert pa[0] == (h, KeyValue(a, h)) && pb[0] == (h, KeyValue(b, h));
        assert pa[1..] == HeaderPairs(rest, a) + x && pb[1..] == HeaderPairs(rest, b) + y;
      } else {
        assert pa == HeaderPairs(rest, a) + x && pb == HeaderPairs(rest, b) + y;
      }
      PairsSeparate(rest, a, b, x, y);
    }
  }

  lemma AbsentInBoth(names: seq<Bytes>, a: Request, b: Request, x: Pairs, y: Pairs)
    requires names != [] && a.host == b.host && (!EqualFold(names[0], "Host") ==> !Named(x, names[0]))
    requires HeaderPairs(names, a) + x == HeaderPairs(names, b) + y
    ensures KeyValue(a, names[0]) == [] ==> KeyValue(b, names[0]) == []
  {
    var h := names[0];
    if KeyValue(a, h) == [] && !EqualFold(h, "Host") {
      NotMadeUp(names, a, x, h);
      HeaderNamedFirst(names, b, y);
    }
  }

  lemma HeaderNamedFirst(names: seq<Bytes>, r: Request, x: Pairs)
    requires names != []
    ensures KeyValue(r, names[0]) != [] ==> Named(HeaderPairs(names, r) + x, names[0])
  {
    if KeyValue(r, names[0]) != [] {
      assert (HeaderPairs(names, r) + x)[0].0 == names[0];
    }
  }

  lemma NotMadeUp(names: seq<Bytes>, r: Request, x: Pairs, h: Bytes)
    requires KeyValue(r, h) == [] && !Named(x, h)
    ensures !Named(HeaderPairs(names, r) + x, h)
  {
    NoHeaderNamed(names, r, h);
    NamedConcat(HeaderPairs(names, r), x, h);
  }

  lemma {:induction false} HeaderPairsSame(names: seq<Bytes>, a: Request, b: Request)
    requires forall h :: h in names ==> KeyValue(a, h) == KeyValue(b, h)
    ensures HeaderPairs(names, a) == HeaderPairs(names, b)
  {
    if names != [] {
      HeaderPairsSame(names[1..], a, b);
    }
  }

  lemma KeyParts(cfg: KeyConfig, a: Request, ca: Bytes, b: Request, cb: Bytes)
    ensures Key(cfg, a, ca) == Key(cfg, b, cb) <==>
            && a.host == b.host && a.path == b.path && ca == cb
            && HeaderPairs(cfg.headers, a) + CookiePairs(cfg, a) == HeaderPairs(cfg.headers, b) + CookiePairs(cfg, b)
  {
    var pa, pb := HeaderPairs(cfg.headers, a) + CookiePairs(cfg, a), HeaderPairs(cfg.headers, b) + CookiePairs(cfg, b);
    var fa, fb := KeyFields(cfg, a, ca), KeyFields(cfg, b, cb);
    FrameInjective(fa, fb);
    FlatInjective(pa, pb);
    assert fa[0] == a.host && fa[1] == a.path && fa[2] == ca && fa[3..] == Flat(pa);
    assert fb[0] == b.host && fb[1] == b.path && fb[2] == cb && fb[3..] == Flat(pb);
    assert fa == [fa[0], fa[1], fa[2]] + fa[3..] && fb == [fb[0], fb[1], fb[2]] + fb[3..];
  }

  /**
   Two requests share a key exactly when they agree on host, path, canonical query, every
   configured header value and the cookies of the key.
   */
  lemma KeySeparates(cfg: KeyConfig, a: Request, ca: Bytes, b: Request, cb: Bytes)
    requires Separable(cfg)
    ensures Key(cfg, a, ca) == Key(cfg, b, cb) <==> ca == cb && Agree(cfg, a, b)
  {
    KeyParts(cfg, a, ca, b, cb);
    SameCookiesExactlyWhen(cfg.cookies, a.cookies, b.cookies);
    if Key(cfg, a, ca) == Key(cfg, b, cb) {
      forall h | h in cfg.headers && !EqualFold(h, "Host")
        ensures !Named(CookiePairs(cfg, a), h) && !Named(CookiePairs(cfg, b), h)
      {
        NoCookieNamed(cfg.cookies, a.cookies, h);
        NoCookieNamed(cfg.cookies, b.cookies, h);
      }
      PairsSeparate(cfg.headers, a, b, CookiePairs(cfg, a), CookiePairs(cfg, b));
    }
    if Agree(cfg, a, b) {
      forall h | h in cfg.headers ensures KeyValue(a, h) == KeyValue(b, h) {
      }
      HeaderPairsSame(cfg.headers, a, b);
    }
  }

  /** No two configured names are one header, and no name is claimed by two cookie patterns. */
  ghost predicate Plain(cfg: KeyConfig) {
    && (forall i, j :: 0 <= i < j < |cfg.headers| ==> !EqualFold(cfg.headers[i], cfg.headers[j]))
    && (forall i, j, n :: 0 <= i < j < |cfg.cookies| && n in cfg.headers && PatternMatches(cfg.cookies[i], n) ==>
          !PatternMatches(cfg.cookies[j], n))
  }

  const ONE: Bytes := ['1']

  function WithHeader(path: Bytes, h: Bytes): Request {
    Request([], path, [], [(h, ONE)], [])
  }

  function WithCookie(path: Bytes, h: Bytes): Request {
    Request([], path, [], [], [(h, ONE)])
  }

  lemma {:induction false} OnlyHeader(names: seq<Bytes>, path: Bytes, h: Bytes)
    requires !EqualFold(h, "Host")
    requires forall i, j :: 0 <= i < j < |names| ==> !EqualFold(names[i], names[j])
    ensures HeaderPairs(names, WithCookie(path, h)) == []
    ensures h in names ==> HeaderPairs(names, WithHeader(path, h)) == [(h, ONE)]
    ensures (forall n :: n in names ==> !EqualFold(h, n)) ==> HeaderPairs(names, WithHeader(path, h)) == []
  {
    if names != [] {
      OnlyHeader(names[1..], path, h);
      assert [(h, ONE)][0] == (h, ONE) && [(h, ONE)][1..] == [];
      if names[0] == h {
        assert forall n :: n in names[1..] ==> !EqualFold(h, n);
        assert [(h, ONE)] + [] == [(h, ONE)];
      } else if h in names {
        assert h in names[1..] && !EqualFold(names[0], h);
      }
    }
  }

  lemma {:induction false} OnlyPattern(patterns: seq<Bytes>, h: Bytes)
    requires forall i, j :: 0 <= i < j < |patterns| && PatternMatches(patterns[i], h) ==>
             !PatternMatches(patterns[j], h)
    ensures (exists p :: p in patterns && PatternMatches(p, h)) ==> PatternsPairs(patterns, [(h, ONE)]) == [(h, ONE)]
    ensures (forall p :: p in patterns ==> !PatternMatches(p, h)) ==> PatternsPairs(patterns, [(h, ONE)]) == []
  {
    if patterns != [] {
      OnlyPattern(patterns[1..], h);
      var one := [(h, ONE)];
      assert one[1..] == [] && WithPrefix(Prefix(patterns[0]), []) == [];
      assert FirstCookie(patterns[0], one[1..]) == None;
      if PatternMatches(patterns[0], h) {
        assert forall p :: p in patterns[1..] ==> !PatternMatches(p, h);
        assert PatternPairs(patterns[0], one) == one;
        assert one + [] == one;
      } else {
        assert PatternPairs(patterns[0], one) == [];
      }
    }
  }

  /** A header and a cookie of one name look alike in the key. */
  lemma HeaderLooksLikeCookie(cfg: KeyConfig, path: Bytes, h: Bytes, p: Bytes)
    requires Plain(cfg) && !cfg.isStatic(path)
    requires h in cfg.headers && p in cfg.cookies && !EqualFold(h, "Host") && PatternMatches(p, h)
    ensures var a, b := WithHeader(path, h), WithCookie(path, h);
            Key(cfg, a, []) == Key(cfg, b, []) && !Agree(cfg, a, b)
  {
    var a, b := WithHeader(path, h), WithCookie(path, h);
    HeaderIsLost(path, h);
    assert EqualFold(h, "Host") || Get(a.header, h) != Get(b.header, h);
    LooksAlike(cfg, path, h, p);
  }

  lemma HeaderIsLost(path: Bytes, h: Bytes)
    ensures Get(WithHeader(path, h).header, h) == ONE && Get(WithCookie(path, h).header, h) == []
  {
  }

  lemma LooksAlike(cfg: KeyConfig, path: Bytes, h: Bytes, p: Bytes)
    requires Plain(cfg) && !cfg.isStatic(path)
    requires h in cfg.headers && p in cfg.cookies && !EqualFold(h, "Host") && PatternMatches(p, h)
    ensures Key(cfg, WithHeader(path, h), []) == Key(cfg, WithCookie(path, h), [])
  {
    var a, b := WithHeader(path, h), WithCookie(path, h);
    OnlyHeader(cfg.headers, path, h);
    OnlyPattern(cfg.cookies, h);
    NoCookies(cfg.cookies);
    KeyParts(cfg, a, [], b, []);
    assert HeaderPairs(cfg.headers, a) + CookiePairs(cfg, a) == [(h, ONE)];
    assert HeaderPairs(cfg.headers, b) + CookiePairs(cfg, b) == [(h, ONE)];
  }

  lemma {:induction false} NoCookies(patterns: seq<Bytes>)
    ensures PatternsPairs(patterns, []) == []
  {
    if patterns != [] {
      NoCookies(patterns[1..]);
    }
  }

  /** For configurations without duplicates, keys separate requests exactly when the names are disjoint. */
  lemma KeysSeparateExactlyWhen(cfg: KeyConfig, path: Bytes)
    requires Plain(cfg) && !cfg.isStatic(path)
    ensures Separable(cfg) <==>
            forall a, b, ca, cb :: Key(cfg, a, ca) == Key(cfg, b, cb) ==> ca == cb && Agree(cfg, a, b)
  {
    if Separable(cfg) {
      forall a, b, ca, cb | Key(cfg, a, ca) == Key(cfg, b, cb) ensures ca == cb && Agree(cfg, a, b) {
        KeySeparates(cfg, a, ca, b, cb);
      }
    } else {
      var h, p :| h in cfg.headers && p in cfg.cookies && !EqualFold(h, "Host") && PatternMatches(p, h);
      HeaderLooksLikeCookie(cfg, path, h, p);
    }
  }

  /**
   The flag that makes a response private says exactly whether cookies vary the key: it is
   set when the key holds a cookie pair, and otherwise the key is the one of the same
   request without any cookie.
   */
  lemma CookieFlagIsExact(cfg: KeyConfig, r: Request, canonical: Bytes)
    ensures Dims(cfg, r).cookies <==>
            !cfg.isStatic(r.path) && Claimed(cfg.cookies, r.cookies)
    ensures Dims(cfg, r).cookies <==> Key(cfg, r, canonical) != Key(cfg, r.(cookies := []), canonical)
  {
    var bare := r.(cookies := []);
    NoCookies(cfg.cookies);
    PatternsNonEmpty(cfg.cookies, r.cookies);
    forall h | h in cfg.headers ensures KeyValue(r, h) == KeyValue(bare, h) {
    }
    HeaderPairsSame(cfg.headers, r, bare);
    KeyParts(cfg, r, canonical, bare, canonical);
    var hp, cp := HeaderPairs(cfg.headers, r), CookiePairs(cfg, r);
    assert |hp + cp| == |hp| + |cp| && |hp + CookiePairs(cfg, bare)| == |hp|;
  }

  lemma {:induction false} FirstCookieSome(name: Bytes, cookies: Pairs)
    ensures FirstCookie(name, cookies).Some? <==> name != [] && Named(cookies, name)
  {
    if cookies != [] {
      FirstCookieSome(name, cookies[1..]);
      assert forall i :: 0 < i < |cookies| ==> cookies[i] == cookies[1..][i - 1];
      assert forall i :: 0 <= i < |cookies[1..]| ==> cookies[1..][i] == cookies[i + 1];
    }
  }

  predicate Claimed(patterns: seq<Bytes>, cookies: Pairs) {
    exists i, p :: 0 <= i < |cookies| && p in patterns && PatternMatches(p, cookies[i].0)
  }

  lemma PatternNonEmpty(pattern: Bytes, cookies: Pairs)
    ensures PatternPairs(pattern, cookies) != [] <==>
            exists i :: 0 <= i < |cookies| && PatternMatches(pattern, cookies[i].0)
  {
    WithPrefixNonEmpty(Prefix(pattern), cookies);
    FirstCookieSome(pattern, cookies);
    if '*' !in pattern && Named(cookies, pattern) && pattern != [] {
      var i :| 0 <= i < |cookies| && cookies[i].0 == pattern;
      assert PatternMatches(pattern, cookies[i].0);
    }
  }

  lemma {:induction false} PatternsNonEmpty(patterns: seq<Bytes>, cookies: Pairs)
    ensures PatternsPairs(patterns, cookies) != [] <==> Claimed(patterns, cookies)
  {
    if patterns != [] {
      PatternsNonEmpty(patterns[1..], cookies);
      PatternNonEmpty(patterns[0], cookies);
      ClaimedCons(patterns, cookies);
      var here, rest := PatternPairs(patterns[0], cookies), PatternsPairs(patterns[1..], cookies);
      assert |here + rest| == |here| + |rest|;
    }
  }

  lemma ClaimedCons(patterns: seq<Bytes>, cookies: Pairs)
    requires patterns != []
    ensures Claimed(patterns, cookies) <==>
            || Claimed(patterns[1..], cookies)
            || exists i :: 0 <= i < |cookies| && PatternMatches(patterns[0], cookies[i].0)
  {
    if Claimed(patterns, cookies) {
      var i, p :| 0 <= i < |cookies| && p in patterns && PatternMatches(p, cookies[i].0);
      assert p == patterns[0] || p in patterns[1..];
    }
    if i :| 0 <= i < |cookies| && PatternMatches(patterns[0], cookies[i].0) {
      assert patterns[0] in patterns;
    }
    if Claimed(patterns[1..], cookies) {
      var i, p :| 0 <= i < |cookies| && p in patterns[1..] && PatternMatches(p, cookies[i].0);
      assert p in patterns;
    }
  }

  /** The headers reported as dimensions are the configured ones that the request carries, but for Host. */
  lemma {:induction false} DimensionsArePresent(names: seq<Bytes>, r: Request, name: Bytes)
    ensures name in PresentHeaders(names, r) <==>
            name in names && !EqualFold(name, "Host") && Get(r.header, name) != []
  {
    if names != [] {
      DimensionsArePresent(names[1..], r, name);
      assert name in names <==> name == names[0] || name in names[1..];
    }
  }
}
