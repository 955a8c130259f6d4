/** Which responses may be stored: the pure checks of response_writer.go. */
module ResponseRules {
  import opened Basics
  import opened Headers
  import opened Downstream

  function Itoa(n: int): string {
    if n < 0 then "-" + Decimal(-n) else Decimal(n)
  }

  /** An entry is a whole status code, or the single digit a "2XX" wildcard is stored as. */
  predicate IsCacheableStatus(codes: seq<string>, status: int) {
    exists i :: 0 <= i < |codes| && (codes[i] == Itoa(status) || (|codes[i]| == 1 && codes[i] == Itoa(status)[..1]))
  }

  /** For the statuses of HTTP: the code itself is listed, or its first digit alone. */
  lemma CacheableStatusMeans(codes: seq<string>, status: int)
    requires 100 <= status < 1000
    ensures IsCacheableStatus(codes, status) <==> Decimal(status) in codes || Decimal(status / 100) in codes
  {
    assert Decimal(status / 100) == [Digit(status / 100)];
    assert Decimal(status / 10) == Decimal(status / 100) + [Digit(status / 10 % 10)];
    assert Itoa(status) == Decimal(status / 10) + [Digit(status % 10)] && Itoa(status)[..1] == Decimal(status / 100);
  }

  predicate RulesOutStoring(name: string) {
    name in {"Content-Range", "Www-Authenticate", "Connection", "Proxy-Connection", "Proxy-Authenticate",
             "Proxy-Authorization", "Te", "Trailer", "Upgrade", "Retry-After"}
  }

  predicate HasUncacheableHeader(h: Header) {
    exists i :: 0 <= i < |h| && RulesOutStoring(h[i].0)
  }

  predicate Contains(s: string, sub: string) {
    exists i :: 0 <= i <= |s| && sub <= s[i..]
  }

  /** The origin said that only one client may keep the response, or nobody. */
  predicate OriginPrivate(h: Header) {
    var cc := Lower(HeaderValue(h, "Cache-Control"));
    cc != "" && ForbidsStoring(cc)
  }

  predicate ForbidsStoring(control: string) {
    Contains(control, "no-store") || Contains(control, "private")
  }

  /** Some Cache-Control line says so. */
  predicate SaysPrivate(h: Header) {
    exists i :: 0 <= i < |Values(h, "Cache-Control")| && ForbidsStoring(Lower(Values(h, "Cache-Control")[i]))
  }

  /** Only the first line is read: the origin's word is heeded exactly when that line gives it or no other line does. */
  lemma FirstLineDecides(h: Header)
    ensures OriginPrivate(h) ==> SaysPrivate(h)
    ensures var lines := Values(h, "Cache-Control");
            (OriginPrivate(h) <==> SaysPrivate(h)) <==>
            || (lines != [] && ForbidsStoring(Lower(lines[0])))
            || forall i :: 1 <= i < |lines| ==> !ForbidsStoring(Lower(lines[i]))
  {
    var lines := Values(h, "Cache-Control");
    if lines != [] && ForbidsStoring(Lower(lines[0])) {
      assert SaysPrivate(h);
    }
    if i :| 1 <= i < |lines| && ForbidsStoring(Lower(lines[i])) {
      assert SaysPrivate(h);
    }
  }

  const TWO_LINES: Header := [("Cache-Control", "max-age=60"), ("Cache-Control", "private")]

  /** A second line that says private goes unnoticed: the response may be stored. */
  lemma SecondLineIsMissed()
    ensures SaysPrivate(TWO_LINES) && !OriginPrivate(TWO_LINES)
    ensures forall codes, size :: IsCacheableStatus(codes, 200) ==> Storable(codes, size, 200, TWO_LINES)
  {
    assert Values(TWO_LINES, "Cache-Control") == ["max-age=60", "private"] by {
      assert TWO_LINES[1..] == [("Cache-Control", "private")] && TWO_LINES[1..][1..] == [];
    }
    assert |"Content-Length"| == 14 && |"Cache-Control"| == 13;
    assert Values(TWO_LINES, "Content-Length") == [];
    assert Lower("private") == "private" && "private" <= "private"[0..];
    assert Contains("private", "private");
    assert ForbidsStoring(Lower(Values(TWO_LINES, "Cache-Control")[1]));
    var one := Lower("max-age=60");
    assert one == "max-age=60";
    assert |"no-store"| == 8 && |"private"| == 7 && "no-store"[0] == 'n' && "private"[0] == 'p';
    assert forall i :: 0 <= i < |one| ==> one[i] != 'n' && one[i] != 'p';
  }

  const MAX_INT64 := 0x7fff_ffff_ffff_ffff

  /** strconv.ParseInt in base 10 for 64 bits. */
  function ParseInt(s: string): Option<int> {
    var negative := |s| > 0 && s[0] == '-';
    var digits := if |s| > 0 && (s[0] == '-' || s[0] == '+') then s[1..] else s;
    if !IsDigits(digits) then None
    else
      var n: int := Number(digits);
      if n > (if negative then MAX_INT64 + 1 else MAX_INT64) then None
      else Some(if negative then -n else n)
  }

  /** The declared length alone shows that the body will not fit. */
  predicate DeclaredTooLarge(maxCacheableSize: int, h: Header) {
    match ParseInt(HeaderValue(h, "Content-Length"))
    case None => false
    case Some(size) => maxCacheableSize == 0 || 0 < maxCacheableSize < size
  }

  /** A response whose header allows it to be stored. */
  predicate Storable(codes: seq<string>, maxCacheableSize: int, status: int, h: Header) {
    && IsCacheableStatus(codes, status)
    && !HasUncacheableHeader(h)
    && !DeclaredTooLarge(maxCacheableSize, h)
    && !OriginPrivate(h)
  }

  /** A cacheable status, none of the fields that rule storing out, and no word of the origin's or length against it. */
  predicate LineAllows(codes: seq<string>, maxCacheableSize: int, status: int, h: Header) {
    && IsCacheableStatus(codes, status)
    && (forall i :: 0 <= i < |h| ==> !RulesOutStoring(h[i].0))
    && (HasField(h, "Cache-Control") ==> !ForbidsStoring(Lower(Values(h, "Cache-Control")[0])))
    && (HasField(h, "Content-Length") && ParseInt(Values(h, "Content-Length")[0]).Some? ==>
          maxCacheableSize != 0 &&
          (maxCacheableSize > 0 ==> ParseInt(Values(h, "Content-Length")[0]).value <= maxCacheableSize))
  }

  lemma StorableMeans(codes: seq<string>, maxCacheableSize: int, status: int, h: Header)
    ensures Storable(codes, maxCacheableSize, status, h) <==> LineAllows(codes, maxCacheableSize, status, h)
  {
    EmptyForbidsNothing();
    assert ParseInt("").None?;
  }

  lemma EmptyForbidsNothing()
    ensures forall s: string :: Lower(s) == "" <==> s == ""
    ensures !ForbidsStoring("")
  {
    assert |"no-store"| == 8 && |"private"| == 7;
  }

  /** Whether so many body bytes may be kept; zero disables storing, a negative limit lifts it. */
  predicate Fits(maxCacheableSize: int, size: nat) {
    maxCacheableSize < 0 || (maxCacheableSize > 0 && size <= maxCacheableSize)
  }
}
