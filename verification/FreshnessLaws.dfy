/** What the downstream headers promise, over every state, mode, clock and entry. */
module FreshnessLaws {
  import opened Basics
  import opened Headers
  import opened Metadatas
  import opened Storages
  import opened Downstream
  import opened ResponseRules

  /** The number of seconds a Cache-Control value lets others keep the response, if it is the public form. */
  function MaxAge(control: string): Option<nat> {
    if |control| > |PUBLIC| && control[..|PUBLIC|] == PUBLIC && IsDigits(control[|PUBLIC|..])
    then Some(Number(control[|PUBLIC|..])) else None
  }

  lemma MaxAgeOfPublic(n: nat)
    ensures MaxAge(PUBLIC + Decimal(n)) == Some(n)
  {
    var s := PUBLIC + Decimal(n);
    assert s[..|PUBLIC|] == PUBLIC && s[|PUBLIC|..] == Decimal(n);
    NumberOfDecimal(n);
  }

  ghost predicate Advertises(v: Verdict, seconds: nat) {
    v.control.Put? && MaxAge(v.control.value) == Some(seconds)
  }

  /**
   A response is advertised as public exactly when its key was not varied by a cookie, the
   legacy mode does not apply, it sets no cookie of its own, and its state allows it; in
   particular never for a private, policy or debug bypass.
   */
  lemma PublicExactlyWhen(p: Policy, dims: KeyDims, state: CacheState, meta: Option<Metadata>, now: int, h: Header)
    ensures var hit := state.CacheHit? || state.NotModified?;
            (exists n :: Advertises(Decide(p, dims, state, meta, now, h), n)) <==>
            && !dims.cookies && p.ttl > 0
            && (hit || !p.legacyNoStore)
            && (hit ==> meta.Some? && meta.value.timestamp > 0)
            && (state.Miss? || state.BypassQuery? ==> !HasField(h, "Set-Cookie"))
            && (state.BypassQuery? ==> HeaderValue(h, "Cache-Control") == "" && HeaderValue(h, "Expires") == "")
            && (hit || state.Miss? || state.BypassQuery?)
  {
    var v := Decide(p, dims, state, meta, now, h);
    assert PRIVATE[..1] == "p" && PRIVATE[1] == 'r' && PUBLIC[1] == 'u' && NO_STORE[0] == 'n' && PUBLIC[0] == 'p';
    if v.control == Put(PRIVATE) {
      assert PRIVATE[..|PUBLIC|] != PUBLIC by { assert PRIVATE[..|PUBLIC|][1] == 'r'; }
    } else if v.control == Put(NO_STORE) {
      assert NO_STORE[..|PUBLIC|] != PUBLIC by { assert NO_STORE[..|PUBLIC|][0] == 'n'; }
    } else if v.control.Put? {
      var hit := state.CacheHit? || state.NotModified?;
      var n := if hit then Remaining(p.ttl, AgeOf(meta.value.timestamp, now)) else p.ttl;
      MaxAgeOfPublic(n);
      assert Advertises(v, n);
    }
  }

  /** The header forbids others to keep the response. */
  ghost predicate Forbids(v: Verdict) {
    v.control.Put? && ForbidsStoring(Lower(v.control.value))
  }

  /**
   A response is marked as not to be kept exactly when a cookie varies its key, the legacy mode applies,
   it is a private or a debug bypass, or it sets a cookie where it could have been advertised. What is
   neither marked so nor advertised keeps the Cache-Control it has.
   */
  lemma ForbidsExactlyWhen(p: Policy, dims: KeyDims, state: CacheState, meta: Option<Metadata>, now: int, h: Header)
    ensures var v := Decide(p, dims, state, meta, now, h);
            && (Forbids(v) <==>
                || dims.cookies
                || (p.legacyNoStore && !state.CacheHit? && !state.NotModified?)
                || state.BypassPrivate? || state.BypassDebug?
                || (state.Miss? && HasField(h, "Set-Cookie"))
                || (state.BypassQuery? && HasField(h, "Set-Cookie") &&
                    HeaderValue(h, "Cache-Control") == "" && HeaderValue(h, "Expires") == ""))
            && (v.control == Keep <==> !Forbids(v) && forall n :: !Advertises(v, n))
  {
    OwnLabelsForbidStoring();
    var v := Decide(p, dims, state, meta, now, h);
    PublicExactlyWhen(p, dims, state, meta, now, h);
    if n :| Advertises(v, n) {
      AdvertisedIsPublic(p, dims, state, meta, now, h, n);
      PublicIsNotForbidden(n);
    }
  }

  /**
   The other two fields follow: Pragma is added for a cookie, the legacy mode and a private bypass; Age is
   the entry's for a hit that is advertised and zero for anything else that is, goes where the header forbids
   storing, and is otherwise left alone but for a bypass.
   */
  lemma PragmaAndAgeFollow(p: Policy, dims: KeyDims, state: CacheState, meta: Option<Metadata>, now: int, h: Header)
    ensures var v := Decide(p, dims, state, meta, now, h);
            var hit := state.CacheHit? || state.NotModified?;
            && v.pragma == (if dims.cookies || (p.legacyNoStore && !hit) || state.BypassPrivate?
                            then Put("no-cache") else Keep)
            && (forall n :: Advertises(v, n) ==>
                  v.age == Put(Decimal(if hit then AgeOf(meta.value.timestamp, now) else 0)))
            && (Forbids(v) ==> v.age == Drop)
            && (v.control == Keep ==> v.age == if hit || state.Miss? then Keep else Drop)
  {
    ForbidsExactlyWhen(p, dims, state, meta, now, h);
    PublicExactlyWhen(p, dims, state, meta, now, h);
    assert Decimal(0) == "0";
  }

  /** What is advertised is the public form of that number. */
  lemma AdvertisedIsPublic(p: Policy, dims: KeyDims, state: CacheState, meta: Option<Metadata>, now: int, h: Header,
                           n: nat)
    requires Advertises(Decide(p, dims, state, meta, now, h), n)
    ensures Decide(p, dims, state, meta, now, h).control == Put(PUBLIC + Decimal(n))
  {
    PublicExactlyWhen(p, dims, state, meta, now, h);
    MaxAgeOfPublic(if state.CacheHit? || state.NotModified? then Remaining(p.ttl, AgeOf(meta.value.timestamp, now))
                   else p.ttl);
  }

  lemma OwnLabelsForbidStoring()
    ensures ForbidsStoring(Lower(PRIVATE)) && ForbidsStoring(Lower(NO_STORE))
  {
    LowerSame(PRIVATE);
    LowerSame(NO_STORE);
    assert "no-store" <= PRIVATE[9..] && Contains(PRIVATE, "no-store");
    assert "no-store" <= NO_STORE[10..] && Contains(NO_STORE, "no-store");
  }

  lemma LowerSame(s: string)
    requires forall i :: 0 <= i < |s| ==> !('A' <= s[i] <= 'Z')
    ensures Lower(s) == s
  {
  }

  lemma PublicIsNotForbidden(n: nat)
    ensures !ForbidsStoring(Lower(PUBLIC + Decimal(n)))
  {
    var digits := Decimal(n);
    assert forall i :: 0 <= i < |PUBLIC| ==> PUBLIC[i] != 'v' && PUBLIC[i] != 'o' && !('A' <= PUBLIC[i] <= 'Z');
    PlainConcat(PUBLIC, digits);
    LowerSame(PUBLIC + digits);
    NotContained(PUBLIC + digits, "no-store", 1);
    NotContained(PUBLIC + digits, "private", 3);
  }

  lemma PlainConcat(a: string, digits: string)
    requires forall i :: 0 <= i < |a| ==> a[i] != 'v' && a[i] != 'o' && !('A' <= a[i] <= 'Z')
    requires forall i :: 0 <= i < |digits| ==> '0' <= digits[i] <= '9'
    ensures var s := a + digits;
            forall i :: 0 <= i < |s| ==> s[i] != 'v' && s[i] != 'o' && !('A' <= s[i] <= 'Z')
  {
  }

  lemma NotContained(s: string, sub: string, j: nat)
    requires j < |sub| && forall i :: 0 <= i < |s| ==> s[i] != sub[j]
    ensures !Contains(s, sub)
  {
    forall i | 0 <= i <= |s| ensures !(sub <= s[i..]) {
      if i + j < |s| {
        assert s[i..][j] == s[i + j];
      }
    }
  }

  /** An entry is as old as the header says: one within its time is not expired, and one past it is. */
  lemma ExpiryFollowsAge(ttl: int, timestamp: int, now: int)
    ensures IsExpired(ttl, timestamp, now) ==>
              AgeOf(timestamp, now) >= ttl && Remaining(ttl, AgeOf(timestamp, now)) == 0
    ensures ttl > 0 && timestamp > 0 && AgeOf(timestamp, now) > ttl ==> IsExpired(ttl, timestamp, now)
    ensures IsExpired(ttl, timestamp, now) ==> ttl > 0 && timestamp > 0
  {
  }

  /** Vary names what varied the key: the headers that were present, Cookie if one did, and Accept-Encoding once. */
  lemma VaryListsDimensions(dims: KeyDims, name: string)
    ensures name in VaryFields(dims) <==>
            || name == "Accept-Encoding"
            || (name in dims.headers && !EqualFold(name, "Accept-Encoding"))
            || (name == "Cookie" && dims.cookies)
    ensures VaryFields(dims)[0] == "Accept-Encoding" &&
            forall i :: 0 < i < |VaryFields(dims)| ==> !EqualFold(VaryFields(dims)[i], "Accept-Encoding")
  {
    VaryHeadersAre(dims.headers, name);
    var cookie := Lower("Cookie");
    assert |cookie| == 6 && |Lower("Accept-Encoding")| == 15;
    forall i | 0 < i < |VaryFields(dims)| ensures !EqualFold(VaryFields(dims)[i], "Accept-Encoding") {
      if i <= |VaryHeaders(dims.headers)| {
        VaryHeadersAre(dims.headers, VaryHeaders(dims.headers)[i - 1]);
        assert VaryFields(dims)[i] == VaryHeaders(dims.headers)[i - 1];
      }
    }
  }

  lemma {:induction false} VaryHeadersAre(hs: seq<string>, name: string)
    ensures name in VaryHeaders(hs) <==> name in hs && !EqualFold(name, "Accept-Encoding")
  {
    if hs != [] {
      VaryHeadersAre(hs[1..], name);
      assert name in hs <==> name == hs[0] || name in hs[1..];
    }
  }

  /** A cookie-varied response is private, lists Cookie in Vary and carries no Age, in every state and mode. */
  lemma CookieVariedIsPrivate(p: Policy, dims: KeyDims, state: CacheState, meta: Option<Metadata>, now: int, h: Header)
    requires dims.cookies
    ensures var v := Decide(p, dims, state, meta, now, h);
            && v.control == Put(PRIVATE) && v.age == Drop
            && (forall n :: !Advertises(v, n))
            && VaryFields(dims)[|VaryFields(dims)| - 1] == "Cookie"
  {
    PublicExactlyWhen(p, dims, state, meta, now, h);
  }

  /**
   The end of freshness advertised for a hit never lies beyond the entry's own end or now;
   and a hit on an entry that is not expired says Age + max-age = TTL.
   */
  lemma HitFreshness(p: Policy, dims: KeyDims, state: CacheState, meta: Metadata, now: int, h: Header)
    requires !dims.cookies && p.ttl > 0 && meta.timestamp > 0 && (state.CacheHit? || state.NotModified?)
    ensures var v := Decide(p, dims, state, Some(meta), now, h);
            var seconds, age := Remaining(p.ttl, AgeOf(meta.timestamp, now)), AgeOf(meta.timestamp, now);
            && Advertises(v, seconds) && v.age == Put(Decimal(age)) && Number(Decimal(age)) == age
            && (meta.timestamp <= now / SECOND ==>
                  || now / SECOND + seconds <= now / SECOND
                  || now / SECOND + seconds <= meta.timestamp + p.ttl)
            && (meta.timestamp <= now / SECOND && !IsExpired(p.ttl, meta.timestamp, now) ==> age + seconds == p.ttl)
  {
    MaxAgeOfPublic(Remaining(p.ttl, AgeOf(meta.timestamp, now)));
    NumberOfDecimal(AgeOf(meta.timestamp, now));
  }

  /**
   What a labelled miss advertises, if anything, ends no later than the entry that is stored
   for it when the response is complete.
   */
  lemma MissFreshness(p: Policy, dims: KeyDims, sent: int, closed: int, mark: string, before: Header, after: Header)
    requires p.ttl > 0 && sent <= closed
    requires Labelled(Decide(p, dims, Miss, None, sent, before), mark, dims, before, after)
    ensures EndsWithin(p, sent, after, closed / SECOND)
  {
    var v := Decide(p, dims, Miss, None, sent, before);
    forall n | MaxAge(HeaderValue(after, "Cache-Control")) == Some(n) ensures n == p.ttl {
      assert v.control.Put? && Values(after, "Cache-Control") == [v.control.value];
      assert Advertises(v, n);
      PublicExactlyWhen(p, dims, Miss, None, sent, before);
      MaxAgeOfPublic(p.ttl);
    }
  }

  /** The end of freshness advertised in a line sent then is not beyond the end of an entry with that timestamp. */
  ghost predicate EndsWithin(p: Policy, sent: int, after: Header, timestamp: int) {
    forall n :: MaxAge(HeaderValue(after, "Cache-Control")) == Some(n) ==> sent / SECOND + n <= timestamp + p.ttl
  }
}
