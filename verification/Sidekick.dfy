/** What a configured Sidekick promises about every run: the system of Runs.dfy with the rules of this handler. */
module Sidekick {
  import opened Basics
  import opened Headers
  import opened Metadatas
  import opened Storages
  import opened StorageLaws
  import opened ResponseRules
  import opened Upstreams
  import opened Capture
  import opened ServedContent
  import opened Misses
  import opened Conditionals
  import opened QueryKeys
  import opened QueryLaws
  import opened CacheKeys
  import opened KeyLaws
  import opened Bypass
  import opened Serving
  import opened Purging
  import opened Runs
  import GoQuery
  import Fills

  datatype Site = Site(query: QueryConfig, keys: KeyConfig, bypass: BypassConfig, store: Config, limits: Limits,
                       rangeFill: bool, rangeFillMaxSize: int, lib: Library)

  ghost function QueryOf(si: Site, r: Request): QueryClass {
    Class(si.query, r.rawQuery)
  }

  ghost function KeyOf(si: Site, r: Request): Bytes {
    Key(si.keys, r, QueryOf(si, r).canonical)
  }

  ghost predicate Admitted(si: Site, r: Request) {
    ReasonFor(si.bypass, si.keys, r, QueryOf(si, r)) == ReasonNone
  }

  const ACCEPT_ENCODING: Bytes := "Accept-Encoding"
  const IF_NONE_MATCH: Bytes := "If-None-Match"
  const IF_MODIFIED_SINCE: Bytes := "If-Modified-Since"

  predicate IsRangeFill(si: Site, r: Request) {
    si.rangeFill && HasRange(r)
  }

  function AskOf(r: Request): Ask {
    Ask(GoQuery.Split(Get(r.header, ACCEPT_ENCODING), ','), HasRange(r),
        Validators(Get(r.header, IF_NONE_MATCH), Get(r.header, IF_MODIFIED_SINCE)))
  }

  /**
   The reply ServeContent may answer a miss with; none unless the response is a range fill answered
   from its capture.
   */
  ghost predicate MayAnswer(si: Site, r: Request, up: Upstream, answer: Option<Kind>) {
    if FromCapture(si.limits, up, IsRangeFill(si, r), si.rangeFillMaxSize) then
      answer.Some? && exists reply :: Window(reply, |Concat(up.writes)|, HasRange(r)) && KindOf(reply) == answer.value
    else answer.None?
  }

  /** The system runs with the rules of this configuration. */
  ghost predicate Configured(su: Setup, si: Site) {
    && su.store == si.store && LosslessCodecs(su.store)
    && (forall r :: su.rules.key(r) == KeyOf(si, r))
    && (forall r :: su.rules.admits(r) == Admitted(si, r))
    && (forall r :: su.rules.readOnly(r) == QueryOf(si, r).readOnly)
    && (forall r :: su.rules.compresses(r) == Wants(AskOf(r).encs))
    && (forall r :: su.rules.rangeFills(r) == IsRangeFill(si, r))
    && (forall up :: su.rules.captures(up) == Captures(si.limits, up))
    && (forall r, up, answer :: su.rules.answers(r, up, answer) == MayAnswer(si, r, up, answer))
    && (forall r, meta, data, out ::
        su.rules.replies(r, meta, data, out) == HitReply(si.lib, AskOf(r), meta, data, out))
  }

  // The steps are what the methods do.

  /** What TryServeStreamed and TryServeBuffered do for a request is a Look of it. */
  lemma LookIsAStep(su: Setup, si: Site, w: World, pid: nat, streamed: bool, now: int, out: Out)
    requires Configured(su, si) && pid in w.reqs && pid !in w.missed
    requires streamed ==> !Wants(AskOf(w.reqs[pid]).encs)
    requires var a := if streamed then ReadStream(su.store, w.store, su.rules.key(w.reqs[pid]), now)
                      else Read(su.store, w.store, su.rules.key(w.reqs[pid]), now);
             (if streamed then Rangeable(a) else a.Hit?) ==> HitReply(si.lib, AskOf(w.reqs[pid]), a.meta, a.data, out)
    ensures exists t :: Steps(su, w, Look(pid, streamed, now, out), t) &&
                        t.store == AfterRead(su.store, w.store, su.rules.key(w.reqs[pid]), now)
  {
    var r := w.reqs[pid];
    var key := su.rules.key(r);
    StreamAgreesWithGet(su.store, w.store, key, now);
    var a := Read(su.store, w.store, key, now);
    var found := if streamed then Rangeable(ReadStream(su.store, w.store, key, now)) else a.Hit?;
    var misses := !streamed && !found && !su.rules.readOnly(r);
    RepliesAgree(su, si, r, a, out);
    var t := AfterAnswer(su, w, pid, found, misses, now, out);
    assert Answers(su, w, pid, found, misses, now, out, t);
    assert Steps(su, w, Look(pid, streamed, now, out), t);
  }

  /** The world after a read that answers the request, or not. */
  ghost function AfterAnswer(su: Setup, w: World, pid: nat, found: bool, misses: bool, now: int, out: Out): World
    requires pid in w.reqs && (found ==> Read(su.store, w.store, su.rules.key(w.reqs[pid]), now).Hit?)
  {
    var key := su.rules.key(w.reqs[pid]);
    var a := Read(su.store, w.store, key, now);
    w.(store := AfterRead(su.store, w.store, key, now),
       missed := if misses then w.missed + {pid} else w.missed,
       trace := if found then w.trace + [Served(pid, now, Entry(key, a.data, a.meta), out)] else w.trace)
  }

  lemma RepliesAgree(su: Setup, si: Site, r: Request, a: Answer, out: Out)
    requires Configured(su, si)
    ensures su.rules.compresses(r) == Wants(AskOf(r).encs)
    ensures a.Hit? ==> su.rules.replies(r, a.meta, a.data, out) == HitReply(si.lib, AskOf(r), a.meta, a.data, out)
  {
  }

  /** What CollapseOnto does for a woken follower of a range fill is a Collapse of it. */
  lemma CollapseIsAStep(su: Setup, si: Site, w: World, pid: nat, now: int, out: Out)
    requires Configured(su, si) && pid in w.reqs && HasRange(w.reqs[pid])
    requires pid in w.fills.procs && w.fills.procs[pid].pc.Woken?
    requires var a := Read(su.store, w.store, su.rules.key(w.reqs[pid]), now);
             Rangeable(a) ==> Windowed(true, a.meta, a.data, out)
    ensures exists t :: Steps(su, w, Collapse(pid, now, out), t) &&
                        t.store == AfterRead(su.store, w.store, su.rules.key(w.reqs[pid]), now)
  {
    var r := w.reqs[pid];
    var a := Read(su.store, w.store, su.rules.key(r), now);
    RepliesAgree(su, si, r, a, out);
    var t := AfterAnswer(su, w, pid, Rangeable(a), false, now, out);
    assert Answers(su, w, pid, Rangeable(a), false, now, out, t);
    assert Collapses(su, w, pid, now, out, t);
    assert Steps(su, w, Collapse(pid, now, out), t);
  }

  /** What HandlePurge leaves behind, with paths or without, is a Purge; so is what Storage.Purge does to one key. */
  lemma PurgeIsAStep(su: Setup, w: World, paths: seq<Bytes>, after: Contents, key: Bytes)
    requires paths == [] ==> after == EMPTY
    requires paths != [] ==> Cleared(w.store, after, AllDoomed(w.store, paths, |paths|)) &&
                             ByPath(su.store, w.store, paths, AllDoomed(w.store, paths, |paths|))
    ensures exists t, keys :: Steps(su, w, Purge(keys), t) && t.store == after
    ensures exists t, keys :: Steps(su, w, Purge(keys), t) && t.store == AfterPurge(w.store, key)
  {
    var keys := if paths == [] then ALL else AllDoomed(w.store, paths, |paths|);
    var t := w.(store := after, trace := w.trace + [Purged(keys)]);
    assert PurgeStep(su, w, keys, t);
    assert Steps(su, w, Purge(keys), t);
    var one := w.(store := AfterPurge(w.store, key), trace := w.trace + [Purged(iset{key})]);
    assert PurgeStep(su, w, iset{key}, one);
    assert Steps(su, w, Purge(iset{key}), one);
  }

  /** What Close does to the store, once it is its turn in the sync.Once, is a Store of the request. */
  lemma CloseIsAStep(su: Setup, w: World, pid: nat, header: Header, meta: Metadata, metaSize: nat, now: int,
                     after: Contents)
    requires pid in w.reqs && pid in w.ups && pid in w.answers
    requires Fills.Inv(w.fills) && pid in w.fills.procs && w.fills.procs[pid].pc.Storing?
    requires AtClose(w.ups[pid], w.answers[pid], header)
    requires meta == Metadata(FinalStatus(w.ups[pid]), Retain(header), now / SECOND, w.reqs[pid].path)
    requires after == AfterClose(su.store, w.store, KeepsEncoding(header), su.rules.key(w.reqs[pid]), meta,
                                 Concat(w.ups[pid].writes), metaSize, now)
    ensures exists t :: Steps(su, w, Store(pid, header, metaSize, now), t) && t.store == after
  {
    var key, data := su.rules.key(w.reqs[pid]), Concat(w.ups[pid].writes);
    var stores := Storing(su.store, Values(header, ENCODING), data);
    var fills := Fills.Apply(w.fills, Fills.ExitOnce(pid, stores));
    var t := if stores
             then w.(fills := fills, store := after,
                     trace := w.trace + [Stored(pid, Entry(key, data, StoredMeta(su.store, meta, data, now)))])
             else w.(fills := fills);
    assert StoreStep(su, w, pid, header, metaSize, now, t);
    assert Steps(su, w, Store(pid, header, metaSize, now), t);
  }

  /** And the fields that HandleMiss leaves are those such a Store asks for. */
  lemma AnswerIsTheReply(si: Site, r: Request, up: Upstream, choose: nat -> Reply, fields: Header)
    returns (answer: Option<Kind>)
    requires Windows(choose, HasRange(r))
    requires FieldsAtClose(si.limits, up, IsRangeFill(si, r), si.rangeFillMaxSize, choose, fields)
    ensures MayAnswer(si, r, up, answer) && AtClose(up, answer, fields)
  {
    var reply := choose(|Concat(up.writes)|);
    assert Window(reply, |Concat(up.writes)|, HasRange(r));
    answer := if FromCapture(si.limits, up, IsRangeFill(si, r), si.rangeFillMaxSize) then Some(KindOf(reply)) else None;
  }

  // Hits.

  /** Two requests agree on everything the cache key is meant to separate. */
  ghost predicate SameDimensions(si: Site, a: Request, b: Request) {
    Agree(si.keys, a, b) && SameVariables(si.query, a.rawQuery, b.rawQuery)
  }

  /** Admitted requests share a key exactly when they agree on host, path, keyed query values, headers and cookies. */
  lemma SameKeySameDimensions(si: Site, a: Request, b: Request)
    requires Separable(si.keys) && Admitted(si, a) && Admitted(si, b)
    ensures KeyOf(si, a) == KeyOf(si, b) <==> SameDimensions(si, a, b)
  {
    AdmittedQuery(si, a);
    AdmittedQuery(si, b);
    SameCanonicalExactlyWhen(si.query, a.rawQuery, b.rawQuery);
    KeySeparates(si.keys, a, QueryOf(si, a).canonical, b, QueryOf(si, b).canonical);
  }

  lemma AdmittedQuery(si: Site, r: Request)
    requires Admitted(si, r)
    ensures Class(si.query, r.rawQuery).reason == ReasonNone
  {
    NoReasonNoQueryReason(si.bypass, si.keys, r, QueryOf(si, r));
    ClassReasons(si.query, r.rawQuery);
  }

  lemma ConfiguredDimensions(su: Setup, si: Site, a: Request, b: Request)
    requires Configured(su, si) && Separable(si.keys) && su.rules.admits(a) && su.rules.admits(b)
    requires su.rules.key(a) == su.rules.key(b)
    ensures SameDimensions(si, a, b)
  {
    assert Admitted(si, a) && Admitted(si, b) && KeyOf(si, a) == KeyOf(si, b);
    SameKeySameDimensions(si, a, b);
  }

  /**
   What the client got for the stored body: all of it, with a 200 or whatever other status was
   stored; ranges of it with a 206; or word that it has it.
   */
  ghost predicate Satisfies(lib: Library, ask: Ask, meta: Metadata, data: Bytes, out: Out) {
    && HitReply(lib, ask, meta, data, out)
    && (out.lines == [200] ==> meta.status == 200)
    && (out.lines == [200] || Whole(lib.codecs, ask.encs, meta, data, out) ==>
          (Conveys(lib.codecs, StoredCoding(meta), data, out.coding, out.body) <==>
           Identity(StoredCoding(meta)) || Accepts(ask.encs, StoredCoding(meta))))
    && (out.lines == [206] && meta.status != 206 ==>
          ask.range && exists parts, glue :: CutFrom(data, parts, glue, out.body))
  }

  /** Every field that was retained of the upstream's is the client's, unless one of the two replies may change it. */
  ghost predicate CarriesFrom(up: Upstream, answer: Option<Kind>, kind: Option<Kind>, sent: Header) {
    forall n :: HandedOn(n) && Retained(n) && HasField(up.header, n) && Spared(answer, true, n) &&
                Spared(kind, true, n) ==>
      Values(sent, n) == [Join(Values(up.header, n), ",")]
  }

  /** What became of the upstream's fields in a hit that is not a 304. */
  ghost predicate SendsFields(lib: Library, ask: Ask, e: Entry, out: Out, up: Upstream, answer: Option<Kind>) {
    && (Whole(lib.codecs, ask.encs, e.meta, e.data, out) ==> CarriesFrom(up, answer, None, out.sent))
    && forall several :: WindowedAs(ask.range, e.meta, e.data, out, several) ==>
         CarriesFrom(up, answer, Some(Kind(out.lines[0], several)), out.sent)
  }

  lemma KeptIsCarried(up: Upstream, answer: Option<Kind>, stored: Header, kind: Option<Kind>, sent: Header)
    requires FieldsKept(up, answer, stored) && Carries(stored, kind, sent)
    ensures CarriesFrom(up, answer, kind, sent)
  {
    CompressionTypeNotRetained();
    forall n | HandedOn(n) && Retained(n) && HasField(up.header, n) && Spared(answer, true, n) && Spared(kind, true, n)
      ensures Values(sent, n) == [Join(Values(up.header, n), ",")]
    {
      assert Spared(answer, HasField(up.header, TYPE), n);
      assert Values(stored, n) == [Join(Values(up.header, n), ",")];
    }
  }

  lemma FillerIsCarried(lib: Library, ask: Ask, e: Entry, out: Out, up: Upstream, answer: Option<Kind>)
    requires FieldsKept(up, answer, e.meta.header)
    ensures SendsFields(lib, ask, e, out, up, answer)
  {
    if Whole(lib.codecs, ask.encs, e.meta, e.data, out) {
      KeptIsCarried(up, answer, e.meta.header, None, out.sent);
    }
    forall several | WindowedAs(ask.range, e.meta, e.data, out, several)
      ensures CarriesFrom(up, answer, Some(Kind(out.lines[0], several)), out.sent)
    {
      KeptIsCarried(up, answer, e.meta.header, Some(Kind(out.lines[0], several)), out.sent);
    }
  }

  /** The store k gave the hit j its entry, for a request that agrees on all that is keyed, and its fields. */
  ghost predicate HitFrom(su: Setup, si: Site, w: World, k: nat, j: nat) {
    && FilledBy(su, w, k, j)
    && SameDimensions(si, w.reqs[w.trace[j].pid], w.reqs[w.trace[k].pid])
    && SendsFields(si.lib, AskOf(w.reqs[w.trace[j].pid]), w.trace[j].entry, w.trace[j].out, w.ups[w.trace[k].pid],
                   w.answers[w.trace[k].pid])
  }

  lemma HitSatisfies(lib: Library, ask: Ask, meta: Metadata, data: Bytes, out: Out)
    requires LosslessClientCodecs(lib.codecs) && HitReply(lib, ask, meta, data, out)
    ensures Satisfies(lib, ask, meta, data, out)
  {
    if out.lines == [200] {
      OkConveysExactlyWhen(lib, ask, meta, data, out);
    }
    if Whole(lib.codecs, ask.encs, meta, data, out) {
      WholeConveysExactlyWhen(lib.codecs, ask.encs, meta, data, out);
    }
  }

  /**
   Every hit of every run, buffered, streamed or collapsed, answers from a body that the
   upstream wrote for an earlier request that was neither bypassed nor read-only, was not
   purged since its store, is not expired, and agrees with this request on all that is keyed.
   With a 200 the client gets all of that body, with a 206 a window of it, and under the fields
   that were retained of the upstream's.
   */
  lemma HitServesEarlierResponse(su: Setup, si: Site, w: World, j: nat)
    requires Configured(su, si) && Separable(si.keys) && LosslessClientCodecs(si.lib.codecs)
    requires Reachable(su, w) && j < |w.trace| && w.trace[j].Served?
    ensures w.trace[j].pid in w.reqs
    ensures exists k: nat :: HitFrom(su, si, w, k, j)
    ensures var v := w.trace[j];
            && !IsExpired(si.store.ttl, v.entry.meta.timestamp, v.now)
            && Satisfies(si.lib, AskOf(w.reqs[v.pid]), v.entry.meta, v.entry.data, v.out)
  {
    HitIsFilled(su, w, j);
    var k: nat :| FilledBy(su, w, k, j);
    FilledIsHitFrom(su, si, w, k, j);
    var v := w.trace[j];
    RepliesAgree(su, si, w.reqs[v.pid], Hit(v.entry.data, v.entry.meta), v.out);
    HitSatisfies(si.lib, AskOf(w.reqs[v.pid]), v.entry.meta, v.entry.data, v.out);
  }

  lemma FilledIsHitFrom(su: Setup, si: Site, w: World, k: nat, j: nat)
    requires Configured(su, si) && Separable(si.keys) && FilledBy(su, w, k, j)
    ensures HitFrom(su, si, w, k, j)
  {
    var v, q := w.trace[j], w.trace[k].pid;
    ConfiguredDimensions(su, si, w.reqs[v.pid], w.reqs[q]);
    FillerIsCarried(si.lib, AskOf(w.reqs[v.pid]), v.entry, v.out, w.ups[q], w.answers[q]);
  }

  // The coding of what is stored.

  /** The request was a range fill that ServeContent answered with an error, or with a 304. */
  predicate Dropped(answer: Option<Kind>) {
    answer.Some? && answer.value.status in DROPS
  }

  /**
   What is stored names the coding the upstream gave it, exactly unless such an answer dropped one
   that is not empty.
   */
  lemma StoredCodingExactlyWhen(su: Setup, w: World, e: Entry) returns (q: nat)
    requires LosslessCodecs(su.store) && Reachable(su, w) && e in Held(su.store, w.store)
    ensures Filler(su, w, q, e)
    ensures StoredCoding(e.meta) == Coding(w.ups[q].header) <==> Coding(w.ups[q].header) == "" || !Dropped(w.answers[q])
  {
    q := HeldIsFilled(su, w, e);
  }

  const ONE_BYTE: Bytes := ['x']
  const ENCODED: Header := [("Content-Encoding", "gzip")]
  const GZIPPED := Upstream([], ENCODED, Some(200), [ONE_BYTE], false)

  predicate TakesOneByte(si: Site) {
    IsCacheableStatus(si.limits.codes, 200) && Fits(si.limits.maxCacheableSize, 1) && !TooLarge(si.store, 1)
  }

  lemma ValuesOfOne(f: (string, string), name: string)
    ensures Values([f], name) == if f.0 == name then [f.1] else []
  {
    assert [f][1..] == [];
  }

  lemma OneByte()
    ensures Concat([ONE_BYTE]) == ONE_BYTE
  {
    assert [ONE_BYTE][..0] == [] && [] + ONE_BYTE == ONE_BYTE;
  }

  lemma GzippedIsCaptured(si: Site)
    requires TakesOneByte(si)
    ensures Captures(si.limits, GZIPPED) && Coding(ENCODED) == "gzip"
  {
    EncodedIsPlain();
    OneByte();
    assert MayStore(si.limits, 200, ENCODED);
  }

  lemma EncodedIsPlain()
    ensures !HasUncacheableHeader(ENCODED) && !OriginPrivate(ENCODED) && Values(ENCODED, "Content-Length") == []
    ensures Coding(ENCODED) == "gzip"
  {
    assert |"Content-Encoding"| == 16 && |"Content-Length"| == 14 && |"Cache-Control"| == 13;
    ValuesOfOne(ENCODED[0], "Content-Length");
    ValuesOfOne(ENCODED[0], "Cache-Control");
    ValuesOfOne(ENCODED[0], ENCODING);
    assert "Content-Encoding"[8] == 'E';
    assert !RulesOutStoring(ENCODED[0].0);
  }

  function Refuse(h: Header): Header {
    [(TYPE, TEXT_PLAIN)] + Removed(Removed(h, TYPE), ENCODING)
  }

  const REFUSED := Kind(416, false)

  lemma RefusalIsAWindow()
    ensures Window(Reply(416, [], [], [], Refuse), 1, true)
  {
    forall h ensures Edited(Reply(416, [], [], [], Refuse), h, Refuse(h)) {
      TypeIsPlain();
      RemovedOthers(h, TYPE);
      RemovedOthers(Removed(h, TYPE), ENCODING);
    }
  }

  /**
   A range fill whose range cannot be satisfied: the bytes of the gzip response are stored as if they
   were not encoded.
   */
  lemma CodingIsLost(su: Setup, si: Site, r: Request) returns (w: World, e: Entry)
    requires Configured(su, si) && su.rules.admits(r) && !su.rules.readOnly(r)
    requires IsRangeFill(si, r) && TakesOneByte(si) && si.rangeFillMaxSize <= 0
    ensures Reachable(su, w) && e in Held(su.store, w.store) && Filler(su, w, 0, e)
    ensures Coding(w.ups[0].header) == "gzip" && StoredCoding(e.meta) == ""
  {
    GzippedIsCaptured(si);
    RefusalIsAnAnswer(si, r);
    RulesAgree(su, si, GZIPPED, r, Some(REFUSED));
    w, e := GzippedIsStored(su, r);
  }

  lemma RefusalIsAnAnswer(si: Site, r: Request)
    requires IsRangeFill(si, r) && si.rangeFillMaxSize <= 0 && Captures(si.limits, GZIPPED)
    ensures MayAnswer(si, r, GZIPPED, Some(REFUSED))
  {
    OneByte();
    RefusalIsAWindow();
  }

  lemma GzippedIsStored(su: Setup, r: Request) returns (w: World, e: Entry)
    requires LosslessCodecs(su.store) && su.rules.admits(r) && !su.rules.readOnly(r)
    requires su.rules.captures(GZIPPED) && su.rules.answers(r, GZIPPED, Some(REFUSED)) && Coding(ENCODED) == "gzip"
    ensures Reachable(su, w) && e in Held(su.store, w.store) && Filler(su, w, 0, e)
    ensures Coding(w.ups[0].header) == "gzip" && StoredCoding(e.meta) == ""
  {
    OneByte();
    RefusedFields();
    w, e := FirstMissIsStored(su, r, GZIPPED, Some(REFUSED), [(TYPE, TEXT_PLAIN)]);
    var q := HeldIsFilled(su, w, e);
  }

  lemma RefusedFields()
    ensures AtClose(GZIPPED, Some(REFUSED), [(TYPE, TEXT_PLAIN)])
  {
    TypeIsPlain();
    forall n ensures Values([(TYPE, TEXT_PLAIN)], n) == if n == TYPE then [TEXT_PLAIN] else []
      ensures Values(ENCODED, n) == if n == ENCODING then ["gzip"] else []
    {
      ValuesOfOne((TYPE, TEXT_PLAIN), n);
      ValuesOfOne(ENCODED[0], n);
    }
  }

  lemma RulesAgree(su: Setup, si: Site, up: Upstream, r: Request, answer: Option<Kind>)
    requires Configured(su, si)
    ensures su.rules.captures(up) == Captures(si.limits, up) && su.rules.rangeFills(r) == IsRangeFill(si, r)
    ensures su.rules.answers(r, up, answer) == MayAnswer(si, r, up, answer)
    ensures LosslessCodecs(su.store) && su.store == si.store
  {
  }

  // What may be stored.

  /**
   Whatever any tier holds in any state of any run is what an upstream wrote to a request that was neither
   bypassed nor read-only, in a response that one of its lines allows to be stored, within the size limit.
   */
  lemma StoredWasAllowed(su: Setup, si: Site, w: World, e: Entry) returns (q: nat)
    requires Configured(su, si) && Reachable(su, w) && e in Held(su.store, w.store)
    ensures Filler(su, w, q, e) && Admitted(si, w.reqs[q]) && !QueryOf(si, w.reqs[q]).readOnly
    ensures SomeLineAllows(si.limits, w.ups[q])
    ensures w.ups[q].writes == [] || si.limits.maxCacheableSize < 0 ||
            (0 < si.limits.maxCacheableSize && |e.data| <= si.limits.maxCacheableSize)
  {
    q := HeldIsFilled(su, w, e);
    RulesAgree(su, si, w.ups[q], w.reqs[q], None);
    AdmissionAgrees(su, si, w.reqs[q]);
    CapturesExactlyWhen(si.limits, w.ups[q]);
  }

  lemma AdmissionAgrees(su: Setup, si: Site, r: Request)
    requires Configured(su, si)
    ensures su.rules.admits(r) == Admitted(si, r) && su.rules.readOnly(r) == QueryOf(si, r).readOnly
  {
  }

  // Partial bodies.

  /** Some run stores what that upstream wrote, for some request. */
  ghost predicate CanBeStored(su: Setup, up: Upstream) {
    exists w, e, q :: StoredFrom(su, w, e, q, up)
  }

  ghost predicate StoredFrom(su: Setup, w: World, e: Entry, q: nat, up: Upstream) {
    && LosslessCodecs(su.store) && Reachable(su, w) && e in Held(su.store, w.store) && Filler(su, w, q, e) &&
       w.ups[q] == up
  }

  /**
   That the upstream failed makes no difference: what it wrote until then is stored exactly
   when its lines and fields allow it, its coding is one that is kept, and it fits.
   */
  lemma FailedIsStoredExactlyWhen(su: Setup, si: Site, r: Request, up: Upstream)
    requires Configured(su, si) && su.rules.admits(r) && !su.rules.readOnly(r) && Proper(up) && up.failed
    ensures CanBeStored(su, up) <==>
            Captures(si.limits, up) && KeepsEncoding(up.header) && !TooLarge(si.store, |Concat(up.writes)|)
  {
    FailedHasNoAnswer(si, r, up, None);
    RulesAgree(su, si, up, r, None);
    if CanBeStored(su, up) {
      StoredIsCaptured(su, si, up);
    }
    if Captures(si.limits, up) && Storing(su.store, Values(up.header, ENCODING), Concat(up.writes)) {
      FailedIsStored(su, r, up);
    }
  }

  lemma StoredIsCaptured(su: Setup, si: Site, up: Upstream)
    requires Configured(su, si) && CanBeStored(su, up) && up.failed
    ensures su.rules.captures(up) && Storing(su.store, Values(up.header, ENCODING), Concat(up.writes))
  {
    var w, q := StoredSomewhere(su, up);
    FailedIsNotAnswered(su, si, w, q);
  }

  lemma StoredSomewhere(su: Setup, up: Upstream) returns (w: World, q: nat)
    requires CanBeStored(su, up)
    ensures Reachable(su, w) && q in w.reqs && q in w.ups && q in w.answers && w.ups[q] == up && su.rules.captures(up)
    ensures Storing(su.store, EncodingKept(up, w.answers[q]), Concat(up.writes))
  {
    var e;
    w, e, q :| StoredFrom(su, w, e, q, up);
  }

  lemma FailedIsStored(su: Setup, r: Request, up: Upstream)
    requires LosslessCodecs(su.store) && su.rules.admits(r) && !su.rules.readOnly(r) && Proper(up)
    requires su.rules.captures(up) && su.rules.answers(r, up, None)
    requires Storing(su.store, Values(up.header, ENCODING), Concat(up.writes))
    ensures CanBeStored(su, up)
  {
    var w, e := FirstMissIsStored(su, r, up, None, up.header);
    var q := HeldIsFilled(su, w, e);
    assert StoredFrom(su, w, e, q, up);
  }

  /** ServeContent is not called when the upstream failed. */
  lemma FailedIsNotAnswered(su: Setup, si: Site, w: World, q: nat)
    requires Configured(su, si) && Reachable(su, w) && q in w.ups && q in w.answers && q in w.reqs && w.ups[q].failed
    ensures w.answers[q].None?
  {
    AnswersAllowed(su, w, q);
    RulesAgree(su, si, w.ups[q], w.reqs[q], w.answers[q]);
    FailedHasNoAnswer(si, w.reqs[q], w.ups[q], w.answers[q]);
  }

  lemma FailedHasNoAnswer(si: Site, r: Request, up: Upstream, answer: Option<Kind>)
    requires up.failed
    ensures MayAnswer(si, r, up, answer) <==> answer.None?
  {
  }

  const TWO_PROMISED: Header := [("Content-Length", "2")]
  const CUT_SHORT := Upstream([], TWO_PROMISED, Some(200), [ONE_BYTE], true)

  lemma CutShortIsCaptured(si: Site)
    requires TakesOneByte(si) && Fits(si.limits.maxCacheableSize, 2)
    ensures Captures(si.limits, CUT_SHORT) && KeepsEncoding(TWO_PROMISED)
    ensures ParseInt(HeaderValue(TWO_PROMISED, "Content-Length")) == Some(2)
  {
    TwoPromisedIsPlain();
    OneByte();
    assert MayStore(si.limits, 200, TWO_PROMISED);
  }

  lemma TwoPromisedIsPlain()
    ensures !HasUncacheableHeader(TWO_PROMISED) && !OriginPrivate(TWO_PROMISED) && KeepsEncoding(TWO_PROMISED)
    ensures ParseInt(HeaderValue(TWO_PROMISED, "Content-Length")) == Some(2)
  {
    assert |ENCODING| == 16 && |"Content-Length"| == 14 && |"Cache-Control"| == 13;
    ValuesOfOne(TWO_PROMISED[0], "Content-Length");
    ValuesOfOne(TWO_PROMISED[0], "Cache-Control");
    ValuesOfOne(TWO_PROMISED[0], ENCODING);
    assert !RulesOutStoring(TWO_PROMISED[0].0);
    assert Number("2") == 2;
  }

  /** The upstream promises two bytes, writes one and fails: the one byte becomes the entry. */
  lemma PartialBodyIsStored(su: Setup, si: Site, r: Request)
    requires Configured(su, si) && su.rules.admits(r) && !su.rules.readOnly(r)
    requires TakesOneByte(si) && Fits(si.limits.maxCacheableSize, 2)
    ensures CUT_SHORT.failed && |Concat(CUT_SHORT.writes)| == 1
    ensures ParseInt(HeaderValue(CUT_SHORT.header, "Content-Length")) == Some(2) && CanBeStored(su, CUT_SHORT)
  {
    CutShortIsCaptured(si);
    OneByte();
    FailedIsStoredExactlyWhen(su, si, r, CUT_SHORT);
  }

  // Partial responses.

  /** The upstream answers 206 only to a request that reaches it with a Range, section 15.3.7 of RFC 9110. */
  ghost predicate Conforming(si: Site, w: World) {
    forall p :: p in w.ups && FinalStatus(w.ups[p]) == 206 ==>
      p in w.reqs && HasRange(Forwarded(w.reqs[p], IsRangeFill(si, w.reqs[p])))
  }

  /** A 206 may be kept: its own status is cacheable, or that of an interim line before it. */
  ghost predicate KeepsPartial(codes: seq<string>) {
    IsCacheableStatus(codes, 206) || exists c :: InterimStatus(c) && IsCacheableStatus(codes, c)
  }

  lemma {:induction false} NoEarlyStore(limits: Limits, early: seq<Interim>)
    requires EarlyMayStore(limits, early) && forall i :: 0 <= i < |early| ==> InterimStatus(early[i].status)
    ensures exists c :: InterimStatus(c) && IsCacheableStatus(limits.codes, c)
  {
    if EarlyMayStore(limits, early[..|early| - 1]) {
      NoEarlyStore(limits, early[..|early| - 1]);
    } else {
      assert InterimStatus(early[|early| - 1].status);
    }
  }

  /** With range fills on, no request reaches the upstream with a Range, so a conforming one never answers 206. */
  lemma NoPartialWhen(su: Setup, si: Site, w: World)
    requires Configured(su, si) && Reachable(su, w) && Conforming(si, w)
    requires si.rangeFill || !KeepsPartial(si.limits.codes)
    ensures NoneHeld(su, w, 206)
  {
    forall e | e in Held(su.store, w.store) ensures e.meta.status != 206 {
      var q := HeldIsFilled(su, w, e);
      RulesAgree(su, si, w.ups[q], w.reqs[q], None);
      FullRequestHasNoRange(w.reqs[q], RANGE);
      if e.meta.status == 206 {
        CapturedAsCacheable(si.limits, w.ups[q]);
      }
    }
  }

  lemma CapturedAsCacheable(limits: Limits, up: Upstream)
    requires Captures(limits, up) && Proper(up) && FinalStatus(up) == 206
    ensures KeepsPartial(limits.codes)
  {
    if EarlyMayStore(limits, up.early) {
      NoEarlyStore(limits, up.early);
    }
  }

  const MULTIPART: Header := [("Content-Type", "multipart/byteranges")]

  /** A 206 with several ranges: it carries no Content-Range of its own, section 15.3.7.2 of RFC 9110. */
  function MultipleRanges(early: seq<Interim>): Upstream {
    Upstream(early, MULTIPART, Some(206), [], false)
  }

  lemma MultipartIsPlain()
    ensures !HasUncacheableHeader(MULTIPART) && !OriginPrivate(MULTIPART) && Values(MULTIPART, "Content-Length") == []
    ensures Coding(MULTIPART) == "" && KeepsEncoding(MULTIPART)
    ensures !HasUncacheableHeader([]) && !OriginPrivate([]) && Values([], "Content-Length") == []
  {
    assert |"Content-Type"| == 12 && |ENCODING| == 16 && |"Content-Length"| == 14 && |"Cache-Control"| == 13;
    ValuesOfOne(MULTIPART[0], "Content-Length");
    ValuesOfOne(MULTIPART[0], "Cache-Control");
    ValuesOfOne(MULTIPART[0], ENCODING);
    assert !RulesOutStoring(MULTIPART[0].0);
  }

  lemma MultipleRangesAreCaptured(limits: Limits) returns (early: seq<Interim>)
    requires KeepsPartial(limits.codes)
    ensures Captures(limits, MultipleRanges(early)) && Proper(MultipleRanges(early))
  {
    MultipartIsPlain();
    if IsCacheableStatus(limits.codes, 206) {
      early := [];
    } else {
      var c :| InterimStatus(c) && IsCacheableStatus(limits.codes, c);
      early := [Interim(c, [])];
      assert early[..0] == [];
    }
  }

  /**
   Range fills off, and a 206 or an interim line cacheable: the multipart 206 becomes the entry of
   the whole object.
   */
  lemma PartialIsStored(su: Setup, si: Site, r: Request) returns (w: World)
    requires Configured(su, si) && su.rules.admits(r) && !su.rules.readOnly(r) && HasRange(r)
    requires !si.rangeFill && KeepsPartial(si.limits.codes)
    ensures Reachable(su, w) && Conforming(si, w) && !NoneHeld(su, w, 206)
  {
    var early := MultipleRangesAreCaptured(si.limits);
    RulesAgree(su, si, MultipleRanges(early), r, None);
    w := MultipleRangesAreStored(su, r, MultipleRanges(early));
    AloneConforms(si, w, r, MultipleRanges(early));
  }

  lemma MultipleRangesAreStored(su: Setup, r: Request, up: Upstream) returns (w: World)
    requires LosslessCodecs(su.store) && su.rules.admits(r) && !su.rules.readOnly(r)
    requires Proper(up) && up.header == MULTIPART && up.status == Some(206) && up.writes == []
    requires su.rules.captures(up) && su.rules.answers(r, up, None)
    ensures Reachable(su, w) && w.reqs == map[0 := r] && w.ups == map[0 := up] && !NoneHeld(su, w, 206)
  {
    MultipartIsPlain();
    var e;
    w, e := FirstMissIsStored(su, r, up, None, MULTIPART);
  }

  lemma AloneConforms(si: Site, w: World, r: Request, up: Upstream)
    requires w.reqs == map[0 := r] && w.ups == map[0 := up] && HasRange(r) && !si.rangeFill
    ensures Conforming(si, w)
  {
  }

  /**
   "A partial response is never stored" holds exactly when range fills are on or neither 206
   nor an interim status is cacheable, given an upstream that conforms and some range request
   that may fill.
   */
  lemma NoPartialExactlyWhen(su: Setup, si: Site, r: Request)
    requires Configured(su, si) && su.rules.admits(r) && !su.rules.readOnly(r) && HasRange(r)
    ensures (forall w :: Reachable(su, w) && Conforming(si, w) ==> NoneHeld(su, w, 206)) <==>
            si.rangeFill || !KeepsPartial(si.limits.codes)
  {
    if si.rangeFill || !KeepsPartial(si.limits.codes) {
      forall w | Reachable(su, w) && Conforming(si, w) ensures NoneHeld(su, w, 206) {
        NoPartialWhen(su, si, w);
      }
    } else {
      var w := PartialIsStored(su, si, r);
    }
  }

  // A run with a hit.

  const PLAIN := Upstream([], [], Some(200), [ONE_BYTE], false)

  /**
   A request without conditions and its repetition: the second is a hit, so what is said of hits is
   said of something.
   */
  lemma RepetitionHits(su: Setup, si: Site, r: Request) returns (w: World)
    requires Configured(su, si) && su.rules.admits(r) && !su.rules.readOnly(r) && TakesOneByte(si)
    requires !HasRange(r) && AskOf(r).validators == Validators([], [])
    ensures Reachable(su, w) && w.trace != [] && w.trace[|w.trace| - 1].Served? &&
            w.trace[|w.trace| - 1].out == PLAIN_OUT
  {
    PlainIsCaptured(si);
    assert MayAnswer(si, r, PLAIN, None);
    RulesAgree(su, si, PLAIN, r, None);
    var v, a := PlainIsRead(su, r);
    PlainReply(si.lib, AskOf(r), a.meta);
    RepliesAgree(su, si, r, a, PLAIN_OUT);
    w := HitReaches(su, v, r, PLAIN_OUT);
  }

  const PLAIN_OUT := Out([200], ONE_BYTE, "", [])

  lemma PlainIsRead(su: Setup, r: Request) returns (w: World, a: Answer)
    requires LosslessCodecs(su.store) && su.rules.admits(r) && !su.rules.readOnly(r)
    requires su.rules.captures(PLAIN) && su.rules.answers(r, PLAIN, None) && !TooLarge(su.store, 1)
    ensures Reachable(su, w) && w.reqs == map[0 := r] && w.missed == {0} &&
            a == Read(su.store, w.store, su.rules.key(r), 0)
    ensures a.Hit? && a.data == ONE_BYTE && a.meta.status == 200 && a.meta.header == []
  {
    OneByte();
    assert Values([], ENCODING) == [] && Retain([]) == [];
    w, a := FirstMissIsRead(su, r, PLAIN, None, []);
  }

  lemma PlainReply(lib: Library, ask: Ask, meta: Metadata)
    requires !ask.range && ask.validators == Validators([], []) && meta.status == 200 && meta.header == []
    ensures HitReply(lib, ask, meta, ONE_BYTE, PLAIN_OUT)
  {
    assert Whole(lib.codecs, ask.encs, meta, ONE_BYTE, PLAIN_OUT);
  }

  lemma PlainIsCaptured(si: Site)
    requires TakesOneByte(si)
    ensures Captures(si.limits, PLAIN) && KeepsEncoding(PLAIN.header) && Values(PLAIN.header, ENCODING) == []
  {
    assert Values([], "Content-Length") == [] && Values([], "Cache-Control") == [];
    OneByte();
  }

  /** Every configuration with lossless codecs has such a system. */
  lemma ConfiguredExists(si: Site)
    requires LosslessCodecs(si.store)
    ensures exists su :: Configured(su, si)
  {
    var su := Setup(si.store, Rules(
      r => KeyOf(si, r), r => Admitted(si, r), r => QueryOf(si, r).readOnly, r => Wants(AskOf(r).encs),
      r => IsRangeFill(si, r), up => Captures(si.limits, up), (r, up, answer) => MayAnswer(si, r, up, answer),
      (r, meta, data, out) => HitReply(si.lib, AskOf(r), meta, data, out)));
    assert Configured(su, si);
  }
}
