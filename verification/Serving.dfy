/** Answering from the cache: the hit branches of ServeHTTP, tryServeStreamed and awaitFill of sidekick.go. */
module Serving {
  import opened Basics
  import GoQuery
  import opened Headers
  import opened Clients
  import opened Metadatas
  import opened Compression
  import opened Storages
  import opened StorageLaws
  import opened Downstream
  import opened Upstreams
  import opened Capture
  import opened ServedContent
  import opened Conditionals
  import opened Bypass

  // Negotiation.

  const COMPRESSORS: set<string> := {"br", "gzip", "zstd"}
  const STOPS: set<string> := {"identity", "*"}

  /** The coding an element of Accept-Encoding names, without its parameters. */
  function CodingName(enc: Bytes): Bytes {
    GoQuery.Cut(TrimSpace(enc), ';').0
  }

  /** No element before i ends the negotiation. */
  predicate Reaches(encs: seq<Bytes>, i: nat) {
    i < |encs| && forall j :: 0 <= j < i ==> CodingName(encs[j]) !in STOPS
  }

  /** Some compressor is named before the negotiation ends. */
  ghost predicate Wants(encs: seq<Bytes>) {
    exists i: nat :: Reaches(encs, i) && CodingName(encs[i]) in COMPRESSORS
  }

  method ClientWantsCompression(encs: seq<Bytes>) returns (r: bool)
    ensures r <==> Wants(encs)
  {
    for i := 0 to |encs|
      invariant forall j :: 0 <= j < i ==> CodingName(encs[j]) !in STOPS && CodingName(encs[j]) !in COMPRESSORS
    {
      var enc := CodingName(encs[i]);
      if enc in COMPRESSORS {
        assert Reaches(encs, i);
        return true;
      }
      if enc in STOPS {
        return false;
      }
    }
    return false;
  }

  /** The i-th element names a compressor that works on data. */
  predicate Works(codecs: string -> Codec, encs: seq<Bytes>, i: nat, data: Bytes) {
    i < |encs| && CodingName(encs[i]) in COMPRESSORS && codecs(CodingName(encs[i])).compress(data).Some?
  }

  /** The i-th element is the one negotiation settles on. */
  ghost predicate Settles(codecs: string -> Codec, encs: seq<Bytes>, i: nat, data: Bytes) {
    Reaches(encs, i) && Works(codecs, encs, i, data) && forall j :: 0 <= j < i ==> !Works(codecs, encs, j, data)
  }

  /** The negotiation loop: a compressor that fails is passed over. */
  method Negotiate(codecs: string -> Codec, encs: seq<Bytes>, data: Bytes) returns (body: Bytes, coding: string)
    ensures coding == "" ==> body == data && forall i: nat :: !Settles(codecs, encs, i, data)
    ensures coding != "" ==> coding in COMPRESSORS && codecs(coding).compress(data) == Some(body)
    ensures coding != "" ==> exists i: nat :: Settles(codecs, encs, i, data) && coding == CodingName(encs[i])
  {
    for i := 0 to |encs|
      invariant forall j :: 0 <= j < i ==> CodingName(encs[j]) !in STOPS && !Works(codecs, encs, j, data)
    {
      var enc := CodingName(encs[i]);
      if enc in COMPRESSORS {
        var out := codecs(enc).compress(data);
        if out.Some? {
          assert Settles(codecs, encs, i, data);
          return out.value, enc;
        }
      } else if enc in STOPS {
        return data, "";
      }
    }
    return data, "";
  }

  /**
   clientWantsCompression mirrors the loop: when it says no, the loop never compresses; when
   it says yes and no compressor fails, the loop does.
   */
  lemma WantsMirrorsNegotiation(codecs: string -> Codec, encs: seq<Bytes>, data: Bytes)
    ensures !Wants(encs) ==> forall i: nat :: !Settles(codecs, encs, i, data)
    ensures (forall c :: c in COMPRESSORS ==> codecs(c).compress(data).Some?) ==>
              (Wants(encs) <==> exists i: nat :: Settles(codecs, encs, i, data))
  {
    if Wants(encs) && forall c :: c in COMPRESSORS ==> codecs(c).compress(data).Some? {
      var i: nat :| Reaches(encs, i) && CodingName(encs[i]) in COMPRESSORS;
      FirstWorks(codecs, encs, i, data);
    }
  }

  lemma {:induction false} FirstWorks(codecs: string -> Codec, encs: seq<Bytes>, i: nat, data: Bytes)
    requires Reaches(encs, i) && Works(codecs, encs, i, data)
    ensures exists k: nat :: Settles(codecs, encs, k, data)
  {
    if j :| 0 <= j < i && Works(codecs, encs, j, data) {
      FirstWorks(codecs, encs, j, data);
    } else {
      assert Settles(codecs, encs, i, data);
    }
  }

  /** An element names the coding itself or '*'. */
  predicate Accepts(encs: seq<Bytes>, coding: string) {
    exists i :: 0 <= i < |encs| && (CodingName(encs[i]) == coding || CodingName(encs[i]) == "*")
  }

  method ClientAccepts(encs: seq<Bytes>, coding: string) returns (r: bool)
    ensures r <==> Accepts(encs, coding)
  {
    r := false;
    for i := 0 to |encs|
      invariant forall j :: 0 <= j < i ==> CodingName(encs[j]) != coding && CodingName(encs[j]) != "*"
    {
      if CodingName(encs[i]) == coding || CodingName(encs[i]) == "*" {
        return true;
      }
    }
  }

  // Weights.

  /** The parameters of an element, in order. */
  function Params(enc: Bytes): seq<Bytes> {
    GoQuery.Split(GoQuery.Cut(TrimSpace(enc), ';').1, ';')
  }

  /** q=0, with up to three decimals. */
  predicate ZeroWeight(param: Bytes) {
    && 3 <= |param| <= 7 && (param[0] == 'q' || param[0] == 'Q') && param[1] == '=' && param[2] == '0'
    && (|param| == 3 || (param[3] == '.' && forall i :: 4 <= i < |param| ==> param[i] == '0'))
  }

  /** The element says that its coding is not acceptable, section 12.4.2 of RFC 9110. */
  predicate Refuses(enc: Bytes) {
    exists i :: 0 <= i < |Params(enc)| && ZeroWeight(TrimSpace(Params(enc)[i]))
  }

  /** No earlier element names the same coding. */
  predicate NamedFirst(encs: seq<Bytes>, i: nat) {
    i < |encs| && forall j :: 0 <= j < i ==> CodingName(encs[j]) != CodingName(encs[i])
  }

  /** Whatever works, negotiation never settles on an element that refuses its coding. */
  ghost predicate HeedsRefusals(encs: seq<Bytes>) {
    forall codecs, i: nat, data :: Settles(codecs, encs, i, data) ==> !Refuses(encs[i])
  }

  /** Weights are not read: that holds exactly when no compressor in its reach is refused where it is first named. */
  lemma RefusalsHeededExactlyWhen(encs: seq<Bytes>)
    ensures HeedsRefusals(encs) <==>
            forall i: nat :: Reaches(encs, i) && CodingName(encs[i]) in COMPRESSORS && NamedFirst(encs, i) ==>
              !Refuses(encs[i])
  {
    forall i: nat | Reaches(encs, i) && CodingName(encs[i]) in COMPRESSORS && NamedFirst(encs, i)
      ensures exists codecs :: Settles(codecs, encs, i, [])
    {
      assert Settles(OnlyCodec(CodingName(encs[i])), encs, i, []);
    }
    forall codecs, i: nat, data | Settles(codecs, encs, i, data) ensures NamedFirst(encs, i) {
      assert forall j :: 0 <= j < i && CodingName(encs[j]) == CodingName(encs[i]) ==> Works(codecs, encs, j, data);
    }
  }

  /** A library in which that compressor alone works. */
  function OnlyCodec(name: string): string -> Codec {
    c => if c == name then Codec(d => Some(d), d => Some(d)) else Codec(d => None, d => None)
  }

  const BR_REFUSED: Bytes := "br;q=0"

  /** A client that refuses br is sent br. */
  lemma RefusedCodingIsSent(codecs: string -> Codec, data: Bytes)
    requires codecs("br").compress(data).Some?
    ensures Settles(codecs, [BR_REFUSED], 0, data) && Refuses(BR_REFUSED)
  {
    var enc := BR_REFUSED;
    assert TrimSpace(enc) == enc;
    CutBrRefused();
    assert CodingName(enc) == "br";
    var params := Params(enc);
    assert params[0] == "q=0" && TrimSpace(params[0]) == "q=0";
  }

  lemma CutBrRefused()
    ensures GoQuery.Cut(BR_REFUSED, ';') == ("br", "q=0") && GoQuery.Split("q=0", ';') == ["q=0"]
  {
    var enc := BR_REFUSED;
    assert enc[1..] == "r;q=0" && enc[1..][1..] == ";q=0" && enc[1..][1..][1..] == "q=0";
    var none: Bytes := [];
    assert ['r'] + none == "r" && ['b'] + "r" == "br";
    assert GoQuery.Cut(";q=0", ';') == ([], "q=0");
    assert GoQuery.Cut("r;q=0", ';') == ("r", "q=0");
    SplitWithout("q=0", ';');
  }

  // The reply.

  predicate Identity(coding: string) {
    coding == "" || coding == "identity"
  }

  /** What reached the client: its status lines, its body, the coding it was announced with, and all its fields. */
  datatype Out = Out(lines: seq<int>, body: Bytes, coding: string, sent: Header)

  function OutOf(client: Client): Out
    reads client
  {
    Out(client.lines, client.body, HeaderValue(client.sent, ENCODING), client.sent)
  }

  function StoredCoding(meta: Metadata): string {
    HeaderValue(meta.header, ENCODING)
  }

  /** A field that a hit hands on as it was stored: Sidekick decides the others itself. */
  predicate HandedOn(n: string) {
    n !in LABELS && n != ENCODING && n != LENGTH
  }

  function Last(values: seq<string>): string
    requires values != []
  {
    values[|values| - 1]
  }

  /** A reply, if it is one of ServeContent, leaves the field alone. */
  predicate Spared(kind: Option<Kind>, typed: bool, n: string) {
    kind.None? || !TouchedBy(kind.value, typed, n)
  }

  /** Every stored field that is handed on goes out as it was stored, unless a reply of that kind may change it. */
  ghost predicate Carries(stored: Header, kind: Option<Kind>, sent: Header) {
    forall n :: HandedOn(n) && HasField(stored, n) && Spared(kind, true, n) ==>
      Values(sent, n) == [Last(Values(stored, n))]
  }

  /**
   One reply of ServeContent about an identity-coded 200, with the stored fields: a 200 is the whole
   body, a 206 a window of it for a Range, in several parts or one.
   */
  ghost predicate WindowedAs(ranged: bool, meta: Metadata, data: Bytes, out: Out, several: bool) {
    && meta.status == 200 && Identity(StoredCoding(meta)) && |out.lines| == 1
    && out.lines[0] in STATUSES
    && (out.lines[0] == 200 ==> out.body == data && out.coding == "")
    && (out.lines[0] == 206 ==>
        ranged && out.coding == "" &&
        exists parts, glue :: CutFrom(data, parts, glue, out.body) && several == (|parts| > 1))
    && (out.lines[0] == 416 ==> ranged)
    && Carries(meta.header, Some(Kind(out.lines[0], several)), out.sent)
  }

  ghost predicate Windowed(ranged: bool, meta: Metadata, data: Bytes, out: Out) {
    exists several :: WindowedAs(ranged, meta, data, out, several)
  }

  /** One range of the body by itself, or several with part headings around them. */
  ghost predicate CutFrom(data: Bytes, parts: seq<Part>, glue: seq<Bytes>, body: Bytes) {
    && Fitting(parts, glue, |data|) && parts != [] && (|parts| == 1 ==> glue == [[], []])
    && body == Woven(data, parts, glue)
  }

  /** For a single range that is the slice itself. */
  lemma SingleRange(data: Bytes, parts: seq<Part>, glue: seq<Bytes>, body: Bytes)
    requires CutFrom(data, parts, glue, body) && |parts| == 1
    ensures body == data[parts[0].lo..parts[0].hi]
  {
    var slice := data[parts[0].lo..parts[0].hi];
    assert parts[1..] == [] && glue[1..] == [[]] && glue[0] == [];
    assert Woven(data, parts[1..], glue[1..]) == [];
    assert glue[0] + slice + [] == slice;
  }

  /** The body needs a final line, so an entry with an interim status gets one for 200 besides. */
  function ReplyLines(status: int): seq<int> {
    if status >= 200 then [status] else [status, 200]
  }

  ghost predicate Whole(codecs: string -> Codec, encs: seq<Bytes>, meta: Metadata, data: Bytes, out: Out) {
    var stored := StoredCoding(meta);
    && out.lines == ReplyLines(meta.status) && Carries(meta.header, None, out.sent)
    && if Identity(stored) then
         if out.coding == "" then out.body == data
         else out.coding in COMPRESSORS && codecs(out.coding).compress(data) == Some(out.body)
       else out.body == data && out.coding == if Accepts(encs, stored) then stored else ""
  }

  /** Compressors for clients, and the parser of dates. */
  datatype Library = Library(codecs: string -> Codec, dates: Dates)

  /** What a request asks of a hit. */
  datatype Ask = Ask(encs: seq<Bytes>, range: bool, validators: Validators)

  predicate CanRange(ask: Ask, meta: Metadata) {
    ask.range && meta.status == 200 && Identity(StoredCoding(meta))
  }

  /** A 304, for a client whose validators say that it has the entry already. */
  ghost predicate NotModifiedReply(lib: Library, ask: Ask, meta: Metadata, out: Out) {
    out.lines == [304] && out.body == [] && !CanRange(ask, meta) && NotModifiedFor(lib.dates, ask.validators, meta)
  }

  /** Everything a hit may answer from a stored body. */
  ghost predicate HitReply(lib: Library, ask: Ask, meta: Metadata, data: Bytes, out: Out) {
    || NotModifiedReply(lib, ask, meta, out)
    || (Windowed(ask.range, meta, data, out) && (ask.range || !NotModifiedFor(lib.dates, ask.validators, meta)))
    || (Whole(lib.codecs, ask.encs, meta, data, out) && !CanRange(ask, meta) &&
        !NotModifiedFor(lib.dates, ask.validators, meta))
  }

  /** A client that follows Content-Encoding ends up with what the upstream sent. */
  predicate Conveys(codecs: string -> Codec, stored: string, data: Bytes, coding: string, body: Bytes) {
    || (body == data && (coding == stored || (Identity(coding) && Identity(stored))))
    || (Identity(stored) && coding in COMPRESSORS && codecs(coding).decompress(body) == Some(data))
  }

  ghost predicate LosslessClientCodecs(codecs: string -> Codec) {
    forall c :: c in COMPRESSORS ==> Lossless(codecs(c))
  }

  /**
   A whole reply gives the client the upstream's body exactly when the entry was stored
   without a content coding or in one that Accept-Encoding names.
   */
  lemma WholeConveysExactlyWhen(codecs: string -> Codec, encs: seq<Bytes>, meta: Metadata, data: Bytes, out: Out)
    requires LosslessClientCodecs(codecs) && Whole(codecs, encs, meta, data, out)
    ensures Conveys(codecs, StoredCoding(meta), data, out.coding, out.body) <==>
            Identity(StoredCoding(meta)) || Accepts(encs, StoredCoding(meta))
  {
  }

  /** A hit answered with 200 does so exactly then, whichever path it took. */
  lemma OkConveysExactlyWhen(lib: Library, ask: Ask, meta: Metadata, data: Bytes, out: Out)
    requires LosslessClientCodecs(lib.codecs) && HitReply(lib, ask, meta, data, out) && out.lines == [200]
    ensures meta.status == 200
    ensures Conveys(lib.codecs, StoredCoding(meta), data, out.coding, out.body) <==>
            Identity(StoredCoding(meta)) || Accepts(ask.encs, StoredCoding(meta))
  {
    if Whole(lib.codecs, ask.encs, meta, data, out) {
      WholeConveysExactlyWhen(lib.codecs, ask.encs, meta, data, out);
    }
  }

  /** A client that accepts nothing is sent the bytes of a gzip entry as if they were not encoded. */
  lemma EncodedGoesOutUnannounced(lib: Library, data: Bytes)
    requires LosslessClientCodecs(lib.codecs)
    ensures var meta, ask := Metadata(200, [(ENCODING, "gzip")], 0, []), Ask([[]], false, Validators([], []));
            var out := Out([200], data, "", []);
            HitReply(lib, ask, meta, data, out) && !Conveys(lib.codecs, StoredCoding(meta), data, out.coding, out.body)
  {
    var meta, ask := Metadata(200, [(ENCODING, "gzip")], 0, []), Ask([[]], false, Validators([], []));
    assert meta.header[1..] == [] && Values(meta.header, ENCODING) == ["gzip"];
    assert Carries(meta.header, None, []);
    assert CodingName([]) == [];
    assert !Accepts(ask.encs, "gzip");
  }

  // Restoring the header.

  const SKIPPED := MANAGED + {ENCODING, LENGTH}

  /** The last field of that name, as repeated Set leaves it. */
  function Restored(h: Header, n: string, before: seq<string>): seq<string> {
    if h == [] then before
    else if h[|h| - 1].0 == n then [h[|h| - 1].1]
    else Restored(h[..|h| - 1], n, before)
  }

  method ApplyCachedHeaders(p: Policy, hdr: HttpHeader, meta: Metadata, dims: KeyDims, now: int)
    modifies hdr
    ensures Reissued(p, dims, meta, now, old(hdr.fields), hdr.fields)
  {
    ghost var before := hdr.fields;
    RestoreFields(hdr, meta.header);
    ghost var mid := hdr.fields;
    ApplyDownstreamCacheHeaders(p, hdr, dims, CacheHit, Some(meta), now);
    ManagedAreSkipped(p, dims, meta, now, before, mid, hdr.fields);
  }

  /** The stored fields replace those of before, but for the ones Sidekick decides itself. */
  ghost predicate Reissued(p: Policy, dims: KeyDims, meta: Metadata, now: int, before: Header, after: Header) {
    var v := Decide(p, dims, CacheHit, Some(meta), now, before);
    && Values(after, "Vary") == [Join(VaryFields(dims), ", ")]
    && Values(after, "Cache-Control") == Applied(v.control, before, "Cache-Control")
    && Values(after, "Pragma") == Applied(v.pragma, before, "Pragma")
    && Values(after, "Age") == Applied(v.age, before, "Age")
    && forall n :: n !in MANAGED ==>
         Values(after, n) == if n in SKIPPED then Values(before, n) else Restored(meta.header, n, Values(before, n))
  }

  lemma ManagedAreSkipped(p: Policy, dims: KeyDims, meta: Metadata, now: int, before: Header, mid: Header,
                          after: Header)
    requires forall n :: Values(mid, n) ==
                         if n in SKIPPED then Values(before, n) else Restored(meta.header, n, Values(before, n))
    requires Obeys(Decide(p, dims, CacheHit, Some(meta), now, mid), Join(VaryFields(dims), ", "), mid, after)
    ensures Reissued(p, dims, meta, now, before, after)
  {
    assert "Cache-Control" in SKIPPED && "Pragma" in SKIPPED && "Age" in SKIPPED;
    HitDecides(p, dims, meta, now, before, mid);
  }

  method RestoreFields(hdr: HttpHeader, stored: Header)
    modifies hdr
    ensures forall n :: Values(hdr.fields, n) == if n in SKIPPED then Values(old(hdr.fields), n)
                                                 else Restored(stored, n, Values(old(hdr.fields), n))
  {
    for i := 0 to |stored|
      invariant forall n :: Values(hdr.fields, n) == if n in SKIPPED then Values(old(hdr.fields), n)
                                                     else Restored(stored[..i], n, Values(old(hdr.fields), n))
    {
      assert stored[..i + 1][..i] == stored[..i];
      if stored[i].0 in SKIPPED {
        continue;
      }
      hdr.Set(stored[i].0, stored[i].1);
    }
    assert stored[..|stored|] == stored;
  }

  /** What is restored of a field is its last stored value, and what was there before when none is stored. */
  lemma {:induction false} RestoredMeans(h: Header, n: string, before: seq<string>)
    ensures Restored(h, n, before) == if HasField(h, n) then [Last(Values(h, n))] else before
  {
    if h != [] {
      var front, last := h[..|h| - 1], h[|h| - 1];
      RestoredMeans(front, n, before);
      ValuesAppended(front, last, n);
      assert h == front + [last];
    }
  }

  /** Metadata as the store keeps it: no field of it can pass for Sidekick's own mark. */
  predicate Unmarked(meta: Metadata) {
    !HasField(meta.header, CACHE_HEADER)
  }

  lemma RetainedIsUnmarked(h: Header)
    ensures !HasField(Retain(h), CACHE_HEADER)
  {
    assert |CACHE_HEADER| == 16 && CACHE_HEADER[2] == 'S';
    assert !Retained(CACHE_HEADER);
    RetainedValues(h, CACHE_HEADER);
  }

  /** Headers of a hit: marked, labelled with the entry's own age, announced in that coding. */
  ghost predicate HitHeaders(p: Policy, dims: KeyDims, meta: Metadata, now: int, coding: string, before: Header,
                             after: Header) {
    && HitLabels(p, dims, meta, now, before, after)
    && Values(after, ENCODING) == (if coding == "" then [] else [coding])
    && Restores(meta.header, before, after)
  }

  /** Stored fields take the place of those of before, and no other field changes. */
  ghost predicate Restores(stored: Header, before: Header, after: Header) {
    forall n :: HandedOn(n) ==>
      Values(after, n) == if HasField(stored, n) then [Last(Values(stored, n))] else Values(before, n)
  }

  ghost predicate HitLabels(p: Policy, dims: KeyDims, meta: Metadata, now: int, before: Header, after: Header) {
    Labelled(Decide(p, dims, CacheHit, Some(meta), now, before), "HIT", dims, before, after)
  }

  /** The reply is labelled as a hit, unless it is a 304 or an error of ServeContent. */
  ghost predicate LabelledAsHit(p: Policy, dims: KeyDims, meta: Metadata, now: int, before: Header, client: Client)
    reads client
  {
    client.lines != [] && (client.lines[0] !in DROPS ==> HitLabels(p, dims, meta, now, before, client.sent))
  }

  method HitHeader(p: Policy, hdr: HttpHeader, meta: Metadata, dims: KeyDims, coding: string, now: int)
    requires Unmarked(meta) && Values(hdr.fields, ENCODING) == []
    modifies hdr
    ensures HitHeaders(p, dims, meta, now, coding, old(hdr.fields), hdr.fields)
  {
    NamesDiffer();
    ghost var before := hdr.fields;
    hdr.Set(CACHE_HEADER, "HIT");
    if coding != "" {
      hdr.Set(ENCODING, coding);
    }
    ghost var mid := hdr.fields;
    ApplyCachedHeaders(p, hdr, meta, dims, now);
    ReissuedRestores(p, dims, meta, now, before, mid, hdr.fields);
    ReissuedIsHit(p, dims, meta, now, coding, before, mid, hdr.fields);
  }

  lemma ReissuedIsHit(p: Policy, dims: KeyDims, meta: Metadata, now: int, coding: string, before: Header, mid: Header,
                      after: Header)
    requires Unmarked(meta) && Reissued(p, dims, meta, now, mid, after)
    requires Values(mid, CACHE_HEADER) == ["HIT"] && Values(mid, ENCODING) == if coding == "" then [] else [coding]
    requires Values(mid, "Cache-Control") == Values(before, "Cache-Control")
    requires Values(mid, "Pragma") == Values(before, "Pragma") && Values(mid, "Age") == Values(before, "Age")
    ensures HitLabels(p, dims, meta, now, before, after)
    ensures Values(after, ENCODING) == if coding == "" then [] else [coding]
  {
    NamesDiffer();
    RestoredMeans(meta.header, CACHE_HEADER, ["HIT"]);
    HitDecides(p, dims, meta, now, before, mid);
    assert Values(after, CACHE_HEADER) == ["HIT"];
  }

  lemma ReissuedRestores(p: Policy, dims: KeyDims, meta: Metadata, now: int, before: Header, mid: Header, after: Header)
    requires Reissued(p, dims, meta, now, mid, after)
    requires forall n :: n != CACHE_HEADER && n != ENCODING ==> Values(mid, n) == Values(before, n)
    ensures Restores(meta.header, before, after)
  {
    forall n | HandedOn(n)
      ensures Values(after, n) == if HasField(meta.header, n) then [Last(Values(meta.header, n))] else Values(before, n)
    {
      assert n !in SKIPPED && n !in MANAGED && n != CACHE_HEADER && n != ENCODING;
      RestoredMeans(meta.header, n, Values(before, n));
    }
  }

  /** For a hit the decision does not depend on the fields. */
  lemma HitDecides(p: Policy, dims: KeyDims, meta: Metadata, now: int, a: Header, b: Header)
    ensures Decide(p, dims, CacheHit, Some(meta), now, a) == Decide(p, dims, CacheHit, Some(meta), now, b)
  {
  }

  lemma NamesDiffer()
    ensures CACHE_HEADER !in SKIPPED && ENCODING !in MANAGED && CACHE_HEADER != ENCODING && LENGTH != ENCODING &&
            !Kept(LENGTH)
  {
    assert |CACHE_HEADER| == 16 && |ENCODING| == 16 && |LENGTH| == 14 && CACHE_HEADER[0] == 'X' && ENCODING[0] == 'C';
    LengthIsNotKept();
  }

  // The branches.

  /**
   The fields of a hit: every field that is handed on is the stored one, or the one that was there before if
   none is stored, unless a reply of that kind may change it.
   */
  ghost predicate HandsOn(stored: Header, before: Header, kind: Option<Kind>, sent: Header) {
    forall n :: HandedOn(n) && Spared(kind, HasField(stored, TYPE) || HasField(before, TYPE), n) ==>
      Values(sent, n) == if HasField(stored, n) then [Last(Values(stored, n))] else Values(before, n)
  }

  lemma HandsOnCarries(stored: Header, before: Header, kind: Option<Kind>, sent: Header)
    requires HandsOn(stored, before, kind, sent)
    ensures Carries(stored, kind, sent)
  {
    forall n | HandedOn(n) && HasField(stored, n) && Spared(kind, true, n)
      ensures Values(sent, n) == [Last(Values(stored, n))]
    {
      assert Spared(kind, HasField(stored, TYPE) || HasField(before, TYPE), n);
    }
  }

  /** What an edit leaves alone of the fields that were restored. */
  lemma EditedHandsOn(stored: Header, before: Header, restored: Header, r: Reply, sent: Header)
    requires Restores(stored, before, restored) && Edited(r, restored, sent)
    ensures HandsOn(stored, before, Some(KindOf(r)), sent)
  {
    TypeIsPlain();
    assert HandedOn(TYPE);
    assert HasField(restored, TYPE) == (HasField(stored, TYPE) || HasField(before, TYPE));
  }

  ghost predicate Untouched(client: Client)
    reads client, client.header
  {
    client.lines == [] && client.body == [] && Values(client.header.fields, ENCODING) == []
  }

  /** The buffered hit. */
  method ServeBuffered(p: Policy, lib: Library, client: Client, ask: Ask, choose: nat -> Reply, dims: KeyDims,
                       data: Bytes, meta: Metadata, now: int)
    requires Untouched(client) && Unmarked(meta) && Windows(choose, ask.range)
    modifies client, client.header
    ensures HitReply(lib, ask, meta, data, OutOf(client))
    ensures if CanRange(ask, meta) then Windowed(true, meta, data, OutOf(client))
            else if NotModifiedFor(lib.dates, ask.validators, meta) then NotModifiedReply(lib, ask, meta, OutOf(client))
            else Whole(lib.codecs, ask.encs, meta, data, OutOf(client))
    ensures LabelledAsHit(p, dims, meta, now, old(client.header.fields), client)
    ensures client.lines == [200] && !Wants(ask.encs) && Identity(StoredCoding(meta)) ==> client.body == data
    ensures CanRange(ask, meta) || !NotModifiedFor(lib.dates, ask.validators, meta) ==>
              HandsOn(meta.header, old(client.header.fields),
                      if CanRange(ask, meta) then Some(KindOf(choose(|data|))) else None, client.sent)
  {
    var stored := StoredCoding(meta);
    var canRange := ask.range && meta.status == 200 && Identity(stored);
    if !canRange {
      var notModified := ShouldReturn304(lib.dates, ask.validators, meta);
      if notModified {
        SendNotModified(p, client, meta, dims, now);
        return;
      }
    }
    var body, coding := data, "";
    if !Identity(stored) {
      var accepts := ClientAccepts(ask.encs, stored);
      if accepts {
        coding := stored;
      }
    } else if !canRange {
      body, coding := Negotiate(lib.codecs, ask.encs, data);
      WantsMirrorsNegotiation(lib.codecs, ask.encs, data);
    }
    ghost var before := client.header.fields;
    HitHeader(p, client.header, meta, dims, coding, now);
    if canRange {
      ServeWindow(client, meta, data, choose, true, before);
    } else {
      SendWhole(client, meta, body, before);
    }
  }

  method SendNotModified(p: Policy, client: Client, meta: Metadata, dims: KeyDims, now: int)
    requires client.lines == [] && client.body == []
    modifies client, client.header
    ensures client.lines == [304] && client.body == []
    ensures Obeys(Decide(p, dims, NotModified, Some(meta), now, old(client.header.fields)),
                  Join(VaryFields(dims), ", "),
                  old(client.header.fields), client.sent)
  {
    ApplyDownstreamCacheHeaders(p, client.header, dims, NotModified, Some(meta), now);
    client.WriteHeader(304);
  }

  method ServeWindow(client: Client, meta: Metadata, data: Bytes, choose: nat -> Reply, ghost ranged: bool,
                     ghost before: Header)
    requires client.lines == [] && client.body == [] && Windows(choose, ranged)
    requires meta.status == 200 && Identity(StoredCoding(meta)) && Values(client.header.fields, ENCODING) == []
    requires Restores(meta.header, before, client.header.fields)
    modifies client, client.header
    ensures Windowed(ranged, meta, data, OutOf(client))
    ensures HandsOn(meta.header, before, Some(KindOf(choose(|data|))), client.sent)
    ensures client.lines[0] !in DROPS ==>
              forall n :: Kept(n) ==> Values(client.sent, n) == Values(old(client.header.fields), n)
  {
    var r := choose(|data|);
    assert Window(r, |data|, ranged);
    ghost var restored := client.header.fields;
    ServeContent(client, BytesSource(data), |data|, choose, ranged);
    assert Kept(ENCODING);
    assert [] + ReplyBody(r, data) == ReplyBody(r, data);
    EditedHandsOn(meta.header, before, restored, r, client.sent);
    HandsOnCarries(meta.header, before, Some(KindOf(r)), client.sent);
    WindowMeans(ranged, meta, data, r, OutOf(client));
  }

  lemma WindowMeans(ranged: bool, meta: Metadata, data: Bytes, r: Reply, out: Out)
    requires Window(r, |data|, ranged) && meta.status == 200 && Identity(StoredCoding(meta))
    requires out.lines == [r.status] && out.body == ReplyBody(r, data) && (r.status !in DROPS ==> out.coding == "")
    requires Carries(meta.header, Some(KindOf(r)), out.sent)
    ensures WindowedAs(ranged, meta, data, out, |r.parts| > 1)
  {
    if r.status == 206 {
      assert CutFrom(data, r.parts, r.glue, out.body);
    }
  }

  method SendWhole(client: Client, meta: Metadata, body: Bytes, ghost before: Header)
    requires client.lines == [] && client.body == [] && Restores(meta.header, before, client.header.fields)
    modifies client, client.header
    ensures client.lines == ReplyLines(meta.status) && client.body == body
    ensures HandsOn(meta.header, before, None, client.sent) && Carries(meta.header, None, client.sent)
    ensures forall n :: Kept(n) ==> Values(client.sent, n) == Values(old(client.header.fields), n)
  {
    NamesDiffer();
    client.header.Set(LENGTH, Decimal(|body|));
    client.WriteHeader(meta.status);
    client.Write(body);
    HandsOnCarries(meta.header, before, None, client.sent);
  }

  /** The streamed hit; false leaves the request to the buffered path with nothing sent. */
  method ServeStreamed(p: Policy, lib: Library, client: Client, ask: Ask, choose: nat -> Reply, dims: KeyDims,
                       data: Bytes, meta: Metadata, now: int)
    returns (served: bool)
    requires Untouched(client) && Unmarked(meta) && Windows(choose, ask.range)
    modifies client, client.header
    ensures served <==> meta.status == 200 && Identity(StoredCoding(meta))
    ensures served ==> HitReply(lib, ask, meta, data, OutOf(client))
    ensures served ==> if !ask.range && NotModifiedFor(lib.dates, ask.validators, meta)
                       then NotModifiedReply(lib, ask, meta, OutOf(client))
                       else Windowed(ask.range, meta, data, OutOf(client))
    ensures served ==> LabelledAsHit(p, dims, meta, now, old(client.header.fields), client)
    ensures served && (ask.range || !NotModifiedFor(lib.dates, ask.validators, meta)) ==>
              HandsOn(meta.header, old(client.header.fields), Some(KindOf(choose(|data|))), client.sent)
    ensures !served ==> Untouched(client) && client.header.fields == old(client.header.fields)
  {
    if meta.status != 200 || !Identity(StoredCoding(meta)) {
      return false;
    }
    if !ask.range {
      var notModified := ShouldReturn304(lib.dates, ask.validators, meta);
      if notModified {
        SendNotModified(p, client, meta, dims, now);
        return true;
      }
    }
    ServeHitWindow(p, client, meta, data, dims, choose, ask.range, now);
    return true;
  }

  /** A hit answered by ServeContent, which works out the length itself. */
  method ServeHitWindow(p: Policy, client: Client, meta: Metadata, data: Bytes, dims: KeyDims, choose: nat -> Reply,
                        ghost ranged: bool, now: int)
    requires Untouched(client) && Unmarked(meta) && Windows(choose, ranged)
    requires meta.status == 200 && Identity(StoredCoding(meta))
    modifies client, client.header
    ensures Windowed(ranged, meta, data, OutOf(client))
    ensures LabelledAsHit(p, dims, meta, now, old(client.header.fields), client)
    ensures HandsOn(meta.header, old(client.header.fields), Some(KindOf(choose(|data|))), client.sent)
  {
    ghost var before := client.header.fields;
    HitHeader(p, client.header, meta, dims, "", now);
    NamesDiffer();
    client.header.Del(LENGTH);
    ServeWindow(client, meta, data, choose, ranged, before);
    assert forall n :: n in LABELS ==> Kept(n);
  }

  /** What the store must hold for its entries to be served: entries made by Close. */
  predicate Servable(meta: Metadata) {
    Unmarked(meta) && meta.status >= 100
  }

  lemma StoredIsServable(cfg: Config, meta: Metadata, data: Bytes, now: int)
    requires Servable(meta)
    ensures Servable(StoredMeta(cfg, meta, data, now))
  {
    StoredMetaKeeps(cfg, meta, data, now);
    assert |CACHE_HEADER| == 16 && |COMPRESSION_TYPE| == 18;
  }

  ghost predicate HitServable(a: Answer) {
    a.Hit? ==> Servable(a.meta)
  }

  /** An identity-coded 200: what may be streamed, and cut into ranges. */
  predicate Rangeable(a: Answer) {
    a.Hit? && a.meta.status == 200 && Identity(StoredCoding(a.meta))
  }

  /** tryServeStreamed. */
  method TryServeStreamed(storage: Storage, p: Policy, lib: Library, client: Client, ask: Ask, choose: nat -> Reply,
                          dims: KeyDims, key: Bytes, now: int)
    returns (served: bool)
    requires storage.Valid() && HitServable(ReadStream(storage.cfg, storage.View(), key, now))
    requires Untouched(client) && Windows(choose, ask.range)
    modifies client, client.header, storage.memCache, storage.diskCache, storage.diskCache.lru
    ensures storage.Valid() && storage.View() == AfterRead(storage.cfg, old(storage.View()), key, now)
    ensures served <==> Rangeable(ReadStream(storage.cfg, old(storage.View()), key, now))
    ensures served ==> var a := ReadStream(storage.cfg, old(storage.View()), key, now);
                       && HitReply(lib, ask, a.meta, a.data, OutOf(client))
                       && LabelledAsHit(p, dims, a.meta, now, old(client.header.fields), client)
    ensures !served ==> Untouched(client) && client.header.fields == old(client.header.fields)
  {
    var a := storage.GetReader(key, now);
    if !a.Hit? {
      return false;
    }
    served := ServeStreamed(p, lib, client, ask, choose, dims, a.data, a.meta, now);
  }

  method TryServeBuffered(storage: Storage, p: Policy, lib: Library, client: Client, ask: Ask, choose: nat -> Reply,
                          dims: KeyDims,
                          key: Bytes, now: int) returns (hit: bool)
    requires storage.Valid() && HitServable(Read(storage.cfg, storage.View(), key, now))
    requires Untouched(client) && Windows(choose, ask.range)
    modifies client, client.header, storage.memCache, storage.diskCache, storage.diskCache.lru
    ensures storage.Valid() && storage.View() == AfterRead(storage.cfg, old(storage.View()), key, now)
    ensures hit <==> Read(storage.cfg, old(storage.View()), key, now).Hit?
    ensures hit ==> var a := Read(storage.cfg, old(storage.View()), key, now);
                    && HitReply(lib, ask, a.meta, a.data, OutOf(client))
                    && LabelledAsHit(p, dims, a.meta, now, old(client.header.fields), client)
    ensures !hit ==> Untouched(client) && client.header.fields == old(client.header.fields)
  {
    var a := storage.Get(key, now);
    if !a.Hit? {
      return false;
    }
    ServeBuffered(p, lib, client, ask, choose, dims, a.data, a.meta, now);
    return true;
  }

  /**
   The hit paths of ServeHTTP: streamed when nothing has to be compressed, else buffered. It hits
   exactly when Get does.
   */
  method ServeFromCache(storage: Storage, p: Policy, lib: Library, client: Client, ask: Ask, choose: nat -> Reply,
                        dims: KeyDims,
                        key: Bytes, now: int) returns (hit: bool)
    requires storage.Valid() && Consistent(storage.View()) && HitServable(Read(storage.cfg, storage.View(), key, now))
    requires Untouched(client) && Windows(choose, ask.range)
    modifies client, client.header, storage.memCache, storage.diskCache, storage.diskCache.lru
    ensures storage.Valid()
    ensures var once := AfterRead(storage.cfg, old(storage.View()), key, now);
            storage.View() == if Wants(ask.encs) || Rangeable(ReadStream(storage.cfg, old(storage.View()), key, now))
                              then once else AfterRead(storage.cfg, once, key, now)
    ensures hit <==> Read(storage.cfg, old(storage.View()), key, now).Hit?
    ensures hit ==> var a := Read(storage.cfg, old(storage.View()), key, now);
                    && HitReply(lib, ask, a.meta, a.data, OutOf(client))
                    && LabelledAsHit(p, dims, a.meta, now, old(client.header.fields), client)
    ensures !hit ==> Untouched(client) && client.header.fields == old(client.header.fields)
  {
    ReadAgain(storage.cfg, storage.View(), key, now);
    StreamAgreesWithGet(storage.cfg, storage.View(), key, now);
    var wants := ClientWantsCompression(ask.encs);
    if !wants {
      var served := TryServeStreamed(storage, p, lib, client, ask, choose, dims, key, now);
      if served {
        return true;
      }
    }
    hit := TryServeBuffered(storage, p, lib, client, ask, choose, dims, key, now);
  }

  /** How the wait of a follower ends. */
  datatype Wait = DoneClosed | ClientGone | TimedOut

  /** The case of awaitFill in which done was closed. */
  method CollapseOnto(storage: Storage, p: Policy, client: Client, choose: nat -> Reply, dims: KeyDims, key: Bytes,
                      now: int)
    returns (collapsed: bool)
    requires storage.Valid() && HitServable(Read(storage.cfg, storage.View(), key, now))
    requires Untouched(client) && Windows(choose, true)
    modifies client, client.header, storage.memCache, storage.diskCache, storage.diskCache.lru
    ensures storage.Valid() && storage.View() == AfterRead(storage.cfg, old(storage.View()), key, now)
    ensures collapsed <==> Rangeable(Read(storage.cfg, old(storage.View()), key, now))
    ensures collapsed ==> var a := Read(storage.cfg, old(storage.View()), key, now);
                          && Windowed(true, a.meta, a.data, OutOf(client))
                          && LabelledAsHit(p, dims, a.meta, now, old(client.header.fields), client)
                          && HandsOn(a.meta.header, old(client.header.fields), Some(KindOf(choose(|a.data|))),
                                     client.sent)
    ensures !collapsed ==> Untouched(client) && client.header.fields == old(client.header.fields)
  {
    var a := storage.Get(key, now);
    if !Rangeable(a) {
      return false;
    }
    ServeHitWindow(p, client, a.meta, a.data, dims, choose, true, now);
    return true;
  }

  /** A follower answers from the leader's entry when it can use it, and otherwise lets the origin answer. */
  method AwaitFill(wait: Wait, storage: Storage, p: Policy, codes: seq<string>, client: Client, choose: nat -> Reply,
                   dims: KeyDims,
                   key: Bytes, up: Upstream, now: int) returns (collapsed: bool, err: bool)
    requires storage.Valid() && HitServable(Read(storage.cfg, storage.View(), key, now))
    requires Untouched(client) && Windows(choose, true) && Proper(up)
    modifies client, client.header, storage.memCache, storage.diskCache, storage.diskCache.lru
    ensures storage.Valid()
    ensures storage.View() == if wait.DoneClosed? then AfterRead(storage.cfg, old(storage.View()), key, now)
                              else old(storage.View())
    ensures collapsed <==> wait.DoneClosed? && Rangeable(Read(storage.cfg, old(storage.View()), key, now))
    ensures collapsed ==> var a := Read(storage.cfg, old(storage.View()), key, now);
                          && Windowed(true, a.meta, a.data, OutOf(client))
                          && LabelledAsHit(p, dims, a.meta, now, old(client.header.fields), client)
    ensures wait.ClientGone? ==> client.lines == [] && client.body == []
    ensures !collapsed && !wait.ClientGone? ==>
              && client.body == Concat(up.writes) && err == up.failed
              && client.lines == Lines(up)
              && Stamped(Decide(p, dims, BypassPolicy, None, now, up.header), "BYPASS", dims, up.header,
                         client.header.fields)
  {
    if wait.ClientGone? {
      return false, true;
    }
    if wait.DoneClosed? {
      collapsed := CollapseOnto(storage, p, client, choose, dims, key, now);
      if collapsed {
        return true, false;
      }
    }
    err := PassToOrigin(p, codes, client, dims, up, now);
    return false, err;
  }

  /** The way out of awaitFill: the origin answers the original request, as an ordinary policy bypass. */
  method PassToOrigin(p: Policy, codes: seq<string>, client: Client, dims: KeyDims, up: Upstream, now: int)
    returns (err: bool)
    requires Untouched(client) && Proper(up)
    modifies client, client.header
    ensures client.body == Concat(up.writes) && err == up.failed
    ensures client.lines == Lines(up)
    ensures Stamped(Decide(p, dims, BypassPolicy, None, now, up.header), "BYPASS", dims, up.header,
                    client.header.fields)
  {
    var w := new BypassWriter(codes, p, dims, BypassPolicy, client);
    err := ServeBypass(w, up, now);
  }
}
