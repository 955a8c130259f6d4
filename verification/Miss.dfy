/**
 A miss from beginning to end: the upstream call, the range fill of sidekick.go, and the store when
 the writer is closed.
 */
module Misses {
  import opened Basics
  import opened Headers
  import opened Clients
  import opened Metadatas
  import opened Storages
  import opened Downstream
  import opened FreshnessLaws
  import opened ResponseRules
  import opened CacheKeys
  import opened Upstreams
  import opened Capture
  import opened ServedContent

  // The upstream call.

  /** An interim line allowed the response to be stored. */
  predicate EarlyMayStore(limits: Limits, early: seq<Interim>) {
    early != [] &&
    (EarlyMayStore(limits, early[..|early| - 1]) ||
     MayStore(limits, early[|early| - 1].status, early[|early| - 1].header))
  }

  /** Exactly the responses whose body is captured to the end. */
  predicate Captures(limits: Limits, up: Upstream) {
    && (EarlyMayStore(limits, up.early) || (Decided(up) && MayStore(limits, FinalStatus(up), up.header)))
    && (up.writes == [] || Fits(limits.maxCacheableSize, |Concat(up.writes)|))
  }

  predicate Allows(limits: Limits, status: int, h: Header) {
    LineAllows(limits.codes, limits.maxCacheableSize, status, h)
  }

  /** A line of the response, interim or final, that allows it to be stored. */
  ghost predicate SomeLineAllows(limits: Limits, up: Upstream) {
    || (exists i :: 0 <= i < |up.early| && Allows(limits, up.early[i].status, up.early[i].header))
    || (Decided(up) && Allows(limits, FinalStatus(up), up.header))
  }

  lemma {:induction false} EarlyAllows(limits: Limits, early: seq<Interim>)
    ensures EarlyMayStore(limits, early) <==>
            exists i :: 0 <= i < |early| && MayStore(limits, early[i].status, early[i].header)
  {
    if early != [] {
      var front := early[..|early| - 1];
      EarlyAllows(limits, front);
      assert forall i :: 0 <= i < |front| ==> front[i] == early[i];
    }
  }

  /** What is captured to the end is what some line allows to be stored and what is within the limit. */
  lemma CapturesExactlyWhen(limits: Limits, up: Upstream)
    ensures Captures(limits, up) <==>
            && SomeLineAllows(limits, up)
            && (up.writes == [] || limits.maxCacheableSize < 0 ||
                (0 < limits.maxCacheableSize && |Concat(up.writes)| <= limits.maxCacheableSize))
  {
    EarlyAllows(limits, up.early);
    forall status, h ensures MayStore(limits, status, h) <==> Allows(limits, status, h) {
      StorableMeans(limits.codes, limits.maxCacheableSize, status, h);
    }
  }

  /** Exactly the responses that a range fill holds back to the end. */
  predicate HeldToEnd(limits: Limits, up: Upstream) {
    Begun(up) ==> up.early == [] && Captures(limits, up) && FinalStatus(up) == 200
  }

  /**
   The writer after the interim lines, the upstream's fields and its first i writes; held says
   whether the body was to be held back.
   */
  ghost predicate Passed(nw: ResponseWriter, up: Upstream, i: nat, held: bool, now: int)
    requires i <= |up.writes|
    reads nw, nw.client, nw.client.header, nw.tempFile
  {
    var part := Upto(up, i);
    && nw.Open() && nw.written == Concat(part.writes) && (nw.status == if Begun(part) then FinalStatus(up) else -1)
    && nw.early == Codes(up.early)
    && nw.needCache == Captures(nw.limits, part)
    && nw.captureOnly == (held && HeldToEnd(nw.limits, part))
    && nw.fillAbandoned == (held && !nw.captureOnly)
    && (!nw.captureOnly ==> nw.client.lines == Lines(part))
    && (i > 0 ==> nw.captureOnly || Final(nw.client.lines))
    && if Decided(part) then
       MissStamped(nw.limits, nw.policy, nw.dims, FinalStatus(up), now, up.header, nw.client.header.fields)
       else nw.client.header.fields == up.header
  }

  method PassWrite(nw: ResponseWriter, up: Upstream, i: nat, ghost held: bool, now: int)
    requires i < |up.writes| && Proper(up) && Passed(nw, up, i, held, now)
    modifies nw, nw.client, nw.client.header, nw.tempFile
    ensures Passed(nw, up, i + 1, held, now)
    ensures nw.tempFile == old(nw.tempFile) || nw.tempFile == null || fresh(nw.tempFile)
  {
    OneMoreWrite(nw.limits, up, i);
    var _ := nw.Write(up.writes[i], now);
  }

  /** What one more write makes of the response. */
  lemma OneMoreWrite(limits: Limits, up: Upstream, i: nat)
    requires i < |up.writes|
    ensures var before, after := Upto(up, i), Upto(up, i + 1);
            && Concat(after.writes) == Concat(before.writes) + up.writes[i]
            && Begun(after) && FinalStatus(before) == FinalStatus(up) == FinalStatus(after)
            && Captures(limits, after) ==
               ((if Begun(before) then Captures(limits, before) else MayStore(limits, 200, up.header)) &&
                                           Fits(limits.maxCacheableSize, |Concat(after.writes)|))
            && HeldToEnd(limits, after) == (HeldToEnd(limits, before) && Captures(limits, after))
            && Decided(after) == (Decided(before) || !Begun(before))
            && Codes(up.early) + Wire(before) == Lines(before) && Lines(after) == Codes(up.early) + Wire(after)
            && (i > 0 || up.status.Some? ==> Wire(before) == Wire(after))
            && (!Begun(before) ==> FinalStatus(up) == 200)
  {
    assert up.writes[..i + 1][..i] == up.writes[..i];
  }

  /** The interim lines: after the first of them nothing is held back any more. */
  method PassEarly(nw: ResponseWriter, up: Upstream, now: int)
    requires nw.Open() && nw.status == -1 && Proper(up)
    modifies nw, nw.client, nw.client.header
    ensures nw.Open() && nw.Waiting() && nw.written == [] && nw.early == Codes(up.early) && nw.tempFile == null
    ensures nw.status == if up.early == [] then -1 else up.early[|up.early| - 1].status
    ensures nw.needCache == EarlyMayStore(nw.limits, up.early)
    ensures nw.captureOnly == (old(nw.captureOnly) && up.early == [])
    ensures nw.fillAbandoned == (old(nw.captureOnly) && !nw.captureOnly)
    ensures nw.client.lines == Codes(up.early)
  {
    for i := 0 to |up.early|
      invariant nw.Open() && nw.Waiting() && nw.written == [] && nw.early == Codes(up.early[..i]) && nw.tempFile == null
      invariant nw.status == if i == 0 then -1 else up.early[i - 1].status
      invariant nw.needCache == EarlyMayStore(nw.limits, up.early[..i])
      invariant nw.captureOnly == (old(nw.captureOnly) && i == 0)
      invariant nw.fillAbandoned == (old(nw.captureOnly) && !nw.captureOnly)
      invariant nw.client.lines == Codes(up.early[..i])
    {
      EarlyOneMore(nw.limits, up.early, i);
      nw.client.header.fields := up.early[i].header;
      nw.WriteHeader(up.early[i].status, now);
    }
    assert up.early[..|up.early|] == up.early;
  }

  lemma EarlyOneMore(limits: Limits, early: seq<Interim>, i: nat)
    requires i < |early|
    ensures Codes(early[..i + 1]) == Codes(early[..i]) + [early[i].status]
    ensures EarlyMayStore(limits, early[..i + 1]) <==>
            EarlyMayStore(limits, early[..i]) || MayStore(limits, early[i].status, early[i].header)
  {
    assert early[..i + 1][..i] == early[..i] && early[..i + 1][i] == early[i];
  }

  /** Everything before the first write. */
  method PassHeader(nw: ResponseWriter, up: Upstream, now: int)
    requires nw.Open() && nw.status == -1 && Proper(up)
    modifies nw, nw.client, nw.client.header
    ensures Passed(nw, up, 0, old(nw.captureOnly), now) && nw.tempFile == null
  {
    PassEarly(nw, up, now);
    nw.client.header.fields := up.header;
    if up.status.Some? {
      nw.WriteHeader(up.status.value, now);
    }
  }

  /** Runs the upstream handler against the writer: any lines, any fields, any sequence of writes. */
  method ServeUpstream(nw: ResponseWriter, up: Upstream, now: int)
    requires nw.Open() && nw.status == -1 && Proper(up)
    modifies nw, nw.client, nw.client.header
    ensures Passed(nw, up, |up.writes|, old(nw.captureOnly), now)
    ensures nw.tempFile == null || fresh(nw.tempFile)
  {
    PassHeader(nw, up, now);
    for i := 0 to |up.writes|
      invariant Passed(nw, up, i, old(nw.captureOnly), now)
      invariant nw.tempFile == null || fresh(nw.tempFile)
    {
      PassWrite(nw, up, i, old(nw.captureOnly), now);
    }
  }

  // Interim lines.

  /** The label of a line leaves everything alone that decides about storing, but for Cache-Control. */
  lemma LabelKeepsTheRest(v: Verdict, mark: string, dims: KeyDims, before: Header, after: Header)
    requires Stamped(v, mark, dims, before, after)
    ensures HasUncacheableHeader(after) == HasUncacheableHeader(before)
    ensures Values(after, LENGTH) == Values(before, LENGTH)
  {
    LengthIsNotKept();
    if HasUncacheableHeader(before) {
      RuledOutStays(before, after);
    }
    if HasUncacheableHeader(after) {
      RuledOutStays(after, before);
    }
  }

  lemma RuledOutStays(a: Header, b: Header)
    requires HasUncacheableHeader(a) && forall n :: n !in LABELS ==> Values(a, n) == Values(b, n)
    ensures HasUncacheableHeader(b)
  {
    var i :| 0 <= i < |a| && RulesOutStoring(a[i].0);
    var n := a[i].0;
    RuledOutIsNoLabel(n);
    NoValues(a, n);
    NoValues(b, n);
    var j :| 0 <= j < |b| && b[j].0 == n;
    assert RulesOutStoring(b[j].0);
  }

  lemma RuledOutIsNoLabel(n: string)
    requires RulesOutStoring(n)
    ensures n !in LABELS
  {
    assert |CACHE_HEADER| == 16 && CACHE_HEADER[0] == 'X' && |"Cache-Control"| == 13 && |"Pragma"| == 6;
    assert |"Vary"| == 4 && |"Age"| == 3 && |"Content-Range"| == 13 && "Content-Range"[1] == 'o';
  }

  /** Whether the label that a line gets says that the response may not be stored. */
  lemma LabelForbidsWhen(limits: Limits, policy: Policy, dims: KeyDims, status: int, now: int, before: Header,
                         after: Header)
    requires MissStamped(limits, policy, dims, status, now, before, after) && !MayStore(limits, status, before)
    ensures OriginPrivate(after) <==> dims.cookies || policy.legacyNoStore || OriginPrivate(before)
  {
    OwnLabelsForbidStoring();
    var v := Decide(policy, dims, MissState(limits, status, before), None, now, before);
    assert Values(after, "Cache-Control") == Applied(v.control, before, "Cache-Control");
  }

  /**
   What the label of a line says, by the response's own fields: MISS and, where nothing stands against it, the
   public form with the whole TTL if it may be stored; otherwise BYPASS, and private if the origin says so.
   */
  lemma MissLabelMeans(limits: Limits, policy: Policy, dims: KeyDims, status: int, now: int, before: Header,
                       after: Header)
    requires MissLabelled(limits, policy, dims, status, now, before, after)
    ensures var stores := MayStore(limits, status, before);
            var open := !dims.cookies && !policy.legacyNoStore;
            && Values(after, CACHE_HEADER) == [if stores then "MISS" else "BYPASS"]
            && (open && stores && policy.ttl > 0 && !HasField(before, "Set-Cookie") ==>
                  MaxAge(HeaderValue(after, "Cache-Control")) == Some(policy.ttl) && Values(after, "Age") == ["0"])
            && (!open || (stores && HasField(before, "Set-Cookie")) || (!stores && OriginPrivate(before)) ==>
                  OriginPrivate(after) && Values(after, "Age") == [])
            && (open && !stores && !OriginPrivate(before) ==>
                  Values(after, "Cache-Control") == Values(before, "Cache-Control") && Values(after, "Age") == [])
  {
    OwnLabelsForbidStoring();
    if policy.ttl > 0 {
      MaxAgeOfPublic(policy.ttl);
    }
    assert Decide(policy, dims, MissState(limits, status, before), None, now, before).control.Put? ==>
      |Values(after, "Cache-Control")| == 1;
    assert Lower(PRIVATE) != "" && Lower(NO_STORE) != "";
  }

  /**
   One interim line, a handler that leaves the fields as the line's label left them, and a final
   line. The response is stored exactly when the interim line itself may be stored, whatever
   the final one is, or when the final one may be and the label does not forbid it: the key
   does not vary by cookie and the legacy mode is off.
   */
  lemma InterimDecides(limits: Limits, policy: Policy, dims: KeyDims, interim: Interim, now: int, up: Upstream)
    requires up.early == [interim] && up.status.Some?
    requires MissStamped(limits, policy, dims, interim.status, now, interim.header, up.header)
    requires up.writes == [] || Fits(limits.maxCacheableSize, |Concat(up.writes)|)
    ensures Captures(limits, up) <==>
            || MayStore(limits, interim.status, interim.header)
            || (MayStore(limits, up.status.value, interim.header) && !dims.cookies && !policy.legacyNoStore)
  {
    OneInterim(limits, interim);
    if !MayStore(limits, interim.status, interim.header) {
      LabelForbidsWhen(limits, policy, dims, interim.status, now, interim.header, up.header);
      var state := MissState(limits, interim.status, interim.header);
      LabelKeepsTheRest(Decide(policy, dims, state, None, now, interim.header),
                        MissMark(limits, interim.status, interim.header), dims, interim.header, up.header);
      MayStoreBut(limits, up.status.value, interim.header, up.header);
    }
  }

  lemma OneInterim(limits: Limits, interim: Interim)
    ensures EarlyMayStore(limits, [interim]) <==> MayStore(limits, interim.status, interim.header)
  {
    assert [interim][..0] == [];
  }

  /** On fields that differ in Cache-Control alone, that alone makes the difference. */
  lemma MayStoreBut(limits: Limits, status: int, a: Header, b: Header)
    requires HasUncacheableHeader(a) == HasUncacheableHeader(b) && Values(a, LENGTH) == Values(b, LENGTH)
    ensures MayStore(limits, status, b) && !OriginPrivate(a) <==> MayStore(limits, status, a) && !OriginPrivate(b)
  {
  }

  const PRIVATE_LABEL: Header :=
    [(CACHE_HEADER, "BYPASS"), ("Vary", "Accept-Encoding, Cookie"), ("Cache-Control", PRIVATE), ("Pragma", "no-cache")]

  const COOKIES := KeyDims([], true)

  /** The label of a 103 without any fields, for a key that varies by cookie. */
  lemma LabelOfInterim(limits: Limits, policy: Policy, now: int)
    requires !IsCacheableStatus(limits.codes, 103)
    ensures MissStamped(limits, policy, COOKIES, 103, now, [], PRIVATE_LABEL)
  {
    assert VaryFields(COOKIES) == ["Accept-Encoding", "Cookie"];
    assert Join(["Accept-Encoding", "Cookie"], ", ") == "Accept-Encoding, Cookie" by {
      assert ["Accept-Encoding", "Cookie"][1..] == ["Cookie"];
    }
    forall n ensures Values(PRIVATE_LABEL, n) == LabelOf(n) {
      LabelValues(n);
    }
    assert OriginPrivate([]) == false;
  }

  function LabelOf(n: string): seq<string> {
    if n == CACHE_HEADER then ["BYPASS"]
    else if n == "Vary" then ["Accept-Encoding, Cookie"]
    else if n == "Cache-Control" then [PRIVATE]
    else if n == "Pragma" then ["no-cache"]
    else []
  }

  lemma LabelValues(n: string)
    ensures Values(PRIVATE_LABEL, n) == LabelOf(n)
  {
    assert |CACHE_HEADER| == 16 && |"Cache-Control"| == 13 && |"Pragma"| == 6 && |"Vary"| == 4;
    var last: Header := [("Pragma", "no-cache")];
    var two: Header := [("Cache-Control", PRIVATE), ("Pragma", "no-cache")];
    var three: Header := [("Vary", "Accept-Encoding, Cookie"), ("Cache-Control", PRIVATE), ("Pragma", "no-cache")];
    assert PRIVATE_LABEL[1..] == three && three[1..] == two && two[1..] == last && last[1..] == [];
    assert Values(last, n) == if n == "Pragma" then ["no-cache"] else [];
    assert Values(two, n) == if n == "Cache-Control" then [PRIVATE] else Values(last, n);
    assert Values(three, n) == if n == "Vary" then ["Accept-Encoding, Cookie"] else Values(two, n);
  }

  /**
   So a 103 costs a cookie-varied 200 its place in the store, although the 200 alone, on the
   same fields, would be stored.
   */
  lemma InterimKeepsFromStoring(limits: Limits, policy: Policy, now: int)
    requires IsCacheableStatus(limits.codes, 200) && !IsCacheableStatus(limits.codes, 103)
    ensures MissStamped(limits, policy, COOKIES, 103, now, [], PRIVATE_LABEL)
    ensures !Captures(limits, Upstream([Interim(103, [])], PRIVATE_LABEL, Some(200), [], false))
    ensures Captures(limits, Upstream([], [], Some(200), [], false))
  {
    LabelOfInterim(limits, policy, now);
    InterimDecides(limits, policy, COOKIES, Interim(103, []), now,
                   Upstream([Interim(103, [])], PRIVATE_LABEL, Some(200), [], false));
  }

  // The range fill.

  /** The response of a range fill that is answered by ServeContent. */
  predicate FromCapture(limits: Limits, up: Upstream, isRangeFill: bool, rangeFillMaxSize: int) {
    isRangeFill && HeldToEnd(limits, up) && !up.failed && !(0 < rangeFillMaxSize < |Concat(up.writes)|)
  }

  /**
   What the client of a miss has received in the end: the whole upstream response, unless it
   was held back to the end for a range fill. Then it is nothing if the upstream failed, the
   whole body if it is too large to be ranged, and otherwise one reply of ServeContent.
   */
  ghost predicate Answered(limits: Limits, up: Upstream, isRangeFill: bool, rangeFillMaxSize: int, choose: nat -> Reply,
                           lines: seq<int>, body: Bytes) {
    var all := Concat(up.writes);
    if FromCapture(limits, up, isRangeFill, rangeFillMaxSize) then
      lines == [choose(|all|).status] && body == ReplyBody(choose(|all|), all)
    else if isRangeFill && HeldToEnd(limits, up) then
      if up.failed then lines == [] && body == [] else lines == [200] && body == all
    else lines == Lines(up) && body == all
  }

  /** The lines of Content-Encoding when the writer is closed: ServeContent may have dropped them. */
  function EncodingAtClose(limits: Limits, up: Upstream, isRangeFill: bool, rangeFillMaxSize: int,
                           choose: nat -> Reply): seq<string> {
    if FromCapture(limits, up, isRangeFill, rangeFillMaxSize) && choose(|Concat(up.writes)|).status in DROPS then []
    else Values(up.header, ENCODING)
  }

  /** A field that answering from the capture may have changed. */
  predicate TouchedAtClose(limits: Limits, up: Upstream, isRangeFill: bool, rangeFillMaxSize: int, choose: nat -> Reply,
                           n: string) {
    if FromCapture(limits, up, isRangeFill, rangeFillMaxSize) then
      n == LENGTH || Touched(choose(|Concat(up.writes)|), up.header, n)
    else isRangeFill && HeldToEnd(limits, up) && !up.failed && n == LENGTH
  }

  /** The fields when the writer is closed are the upstream's own, but for Sidekick's labels and what that changed. */
  ghost predicate FieldsAtClose(limits: Limits, up: Upstream, isRangeFill: bool, rangeFillMaxSize: int,
                                choose: nat -> Reply,
                                fields: Header) {
    && Values(fields, ENCODING) == EncodingAtClose(limits, up, isRangeFill, rangeFillMaxSize, choose)
    && (forall n :: n !in LABELS && !TouchedAtClose(limits, up, isRangeFill, rangeFillMaxSize, choose, n) ==>
          Values(fields, n) == Values(up.header, n))
    && (FromCapture(limits, up, isRangeFill, rangeFillMaxSize) ==>
          choose(|Concat(up.writes)|).status in STATUSES &&
          TypeLeft(KindOf(choose(|Concat(up.writes)|)), Values(up.header, TYPE), Values(fields, TYPE)))
  }

  /** No type that ServeContent writes of its own accord. */
  predicate OwnType(types: seq<string>) {
    types != [] && types != [TEXT_PLAIN] && !(MULTIPART_TYPE <= types[0])
  }

  /**
   The Content-Type under which the whole body is stored is the upstream's exactly unless a
   range fill was answered with several parts, a 304 or an error.
   */
  lemma TypeKeptExactlyWhen(limits: Limits, up: Upstream, isRangeFill: bool, rangeFillMaxSize: int,
                            choose: nat -> Reply,
                            fields: Header)
    requires FieldsAtClose(limits, up, isRangeFill, rangeFillMaxSize, choose, fields) &&
             OwnType(Values(up.header, TYPE))
    ensures var r := choose(|Concat(up.writes)|);
            Values(fields, TYPE) == Values(up.header, TYPE) <==>
            !(FromCapture(limits, up, isRangeFill, rangeFillMaxSize) &&
              (r.status in DROPS || (r.status == 206 && |r.parts| > 1)))
  {
    TypeIsPlain();
    if FromCapture(limits, up, isRangeFill, rangeFillMaxSize) {
      TypeLeftIsOwn(choose(|Concat(up.writes)|), Values(up.header, TYPE), Values(fields, TYPE));
    } else {
      assert !TouchedAtClose(limits, up, isRangeFill, rangeFillMaxSize, choose, TYPE);
    }
  }

  /** Two parts, and the type that goes with them. */
  const TWO_PARTS := Reply(206, [Part(0, 0), Part(0, 0)], [[], [], []], [], Multipart)

  function Multipart(h: Header): Header {
    [(TYPE, MULTIPART_TYPE)] + Removed(h, TYPE)
  }

  /** A range fill that asks for two ranges: the whole body is stored as if it were a multipart message. */
  lemma TypeIsLost(limits: Limits, up: Upstream, rangeFillMaxSize: int, fields: Header)
    requires FromCapture(limits, up, true, rangeFillMaxSize) && OwnType(Values(up.header, TYPE))
    requires FieldsAtClose(limits, up, true, rangeFillMaxSize, n => TWO_PARTS, fields)
    ensures Windows(n => TWO_PARTS, true) && Values(fields, TYPE) != Values(up.header, TYPE)
  {
    TwoPartsIsAWindow();
    assert Kind(206, true) == KindOf(TWO_PARTS);
  }

  lemma TwoPartsIsAWindow()
    ensures Windows(n => TWO_PARTS, true)
  {
    forall h ensures Edited(TWO_PARTS, h, Multipart(h)) {
      RemovedOthers(h, TYPE);
    }
    forall size: nat ensures Window(TWO_PARTS, size, true) {
    }
  }

  lemma TypeLeftIsOwn(r: Reply, before: seq<string>, after: seq<string>)
    requires r.status in STATUSES && TypeLeft(KindOf(r), before, after) && OwnType(before)
    ensures after == before <==> !(r.status in DROPS || (r.status == 206 && |r.parts| > 1))
  {
  }

  /**
   The label in the end. Every final line but an error of ServeContent went out after the
   label: the decision for a miss made on the upstream's own fields. But a first write after
   an interim line sends its line under the fields just as the handler left them.
   */
  ghost predicate Marked(limits: Limits, policy: Policy, dims: KeyDims, up: Upstream, isRangeFill: bool,
                         rangeFillMaxSize: int,
                         choose: nat -> Reply, now: int, lines: seq<int>, sent: Header) {
    && (Decided(up) && lines != [] &&
        (FromCapture(limits, up, isRangeFill, rangeFillMaxSize) ==> choose(|Concat(up.writes)|).status !in DROPS) ==>
          MissLabelled(limits, policy, dims, FinalStatus(up), now, up.header, sent))
    && (!Decided(up) && up.writes != [] ==> sent == up.header)
  }

  method ServeRangeFill(nw: ResponseWriter, r: Request, next: Request -> Upstream, rangeFillMaxSize: int,
                        choose: nat -> Reply, now: int)
    returns (err: bool)
    requires nw.Open() && nw.status == -1 && Proper(next(FullRequest(r))) && Windows(choose, HasRange(r))
    modifies nw, nw.client, nw.client.header
    ensures var up := next(FullRequest(r));
            && nw.Collected() && nw.written == Concat(up.writes) && nw.needCache == Captures(nw.limits, up)
            && nw.status == (if Begun(up) then FinalStatus(up) else -1)
            && err == (up.failed)
            && Answered(nw.limits, up, true, rangeFillMaxSize, choose, nw.client.lines, nw.client.body)
            && Marked(nw.limits, nw.policy, nw.dims, up, true, rangeFillMaxSize, choose, now,
                      nw.client.lines, nw.client.sent)
            && FieldsAtClose(nw.limits, up, true, rangeFillMaxSize, choose, nw.client.header.fields)
    ensures nw.tempFile == null || fresh(nw.tempFile)
  {
    nw.captureOnly := true;
    var up := next(FullRequest(r));
    ServeUpstream(nw, up, now);
    UptoAll(up);
    EncodingIsNoLabel();
    LengthIsNotKept();
    if up.failed {
      return true;
    }
    if nw.fillAbandoned {
      return false;
    }
    FillMarked(nw, up, rangeFillMaxSize, choose, HasRange(r), now);
    return false;
  }

  /** A fill that was not given up is answered from the capture, and keeps its label unless the reply drops it. */
  method FillMarked(nw: ResponseWriter, up: Upstream, rangeFillMaxSize: int, choose: nat -> Reply, ghost ranged: bool,
                    ghost now: int)
    requires Passed(nw, up, |up.writes|, true, now) && Upto(up, |up.writes|) == up && nw.captureOnly && !up.failed
    requires Windows(choose, ranged)
    modifies nw.client, nw.client.header, nw.tempFile
    ensures nw.Collected()
    ensures Answered(nw.limits, up, true, rangeFillMaxSize, choose, nw.client.lines, nw.client.body)
    ensures Marked(nw.limits, nw.policy, nw.dims, up, true, rangeFillMaxSize, choose, now,
                   nw.client.lines, nw.client.sent)
    ensures FieldsAtClose(nw.limits, up, true, rangeFillMaxSize, choose, nw.client.header.fields)
  {
    assert !Begun(up) ==> up.writes == [] && nw.Captured() == [];
    ghost var before := nw.client.header.fields;
    AnswerFromCapture(nw, rangeFillMaxSize, choose, ranged);
    FillFields(nw.limits, nw.policy, nw.dims, up, rangeFillMaxSize, choose, ranged, now, before,
               nw.client.header.fields,
               nw.client.lines);
  }

  /** The fields before the answer, still the upstream's but for the label. */
  ghost predicate Labelling(limits: Limits, policy: Policy, dims: KeyDims, up: Upstream, now: int, before: Header) {
    if Decided(up) then MissStamped(limits, policy, dims, FinalStatus(up), now, up.header, before)
      else before == up.header
  }

  /** What a reply leaves alone, it leaves alone on the upstream's own fields too. */
  lemma AnsweringKeeps(r: Reply, size: nat, ranged: bool, before: Header, after: Header, n: string)
    requires Window(r, size, ranged) && Answering(r, before, after)
    ensures n != LENGTH && !Touched(r, before, n) ==> Values(after, n) == Values(before, n)
    ensures r.status !in DROPS && Kept(n) ==> Values(after, n) == Values(before, n)
    ensures r.status in DROPS ==> Values(after, ENCODING) == []
    ensures TypeLeft(KindOf(r), Values(before, TYPE), Values(after, TYPE))
  {
    var h :| WithoutLength(before, h) && Edited(r, h, after);
    TypeIsPlain();
    LengthIsNotKept();
    assert Values(h, TYPE) == Values(before, TYPE);
    if r.status !in DROPS && Kept(n) {
      KeptIsNotTouched(r, h, n);
    }
  }

  lemma FillFields(limits: Limits, policy: Policy, dims: KeyDims, up: Upstream, rangeFillMaxSize: int,
                   choose: nat -> Reply,
                   ranged: bool, now: int, before: Header, after: Header, lines: seq<int>)
    requires Labelling(limits, policy, dims, up, now, before) && Windows(choose, ranged)
    requires HeldToEnd(limits, up) && !up.failed
    requires var size := |Concat(up.writes)|;
             if 0 < rangeFillMaxSize < size then forall n :: n != LENGTH ==> Values(after, n) == Values(before, n)
             else Answering(choose(size), before, after)
    ensures FieldsAtClose(limits, up, true, rangeFillMaxSize, choose, after)
    ensures Marked(limits, policy, dims, up, true, rangeFillMaxSize, choose, now, lines, after)
  {
    var size := |Concat(up.writes)|;
    LengthIsNotKept();
    EncodingIsNoLabel();
    TypeIsPlain();
    SameButLabels(limits, policy, dims, up, now, before);
    if !(0 < rangeFillMaxSize < size) {
      assert Window(choose(size), size, ranged);
      forall n
        ensures n != LENGTH && !Touched(choose(size), before, n) ==> Values(after, n) == Values(before, n)
        ensures choose(size).status !in DROPS && n in LABELS ==> Values(after, n) == Values(before, n)
      {
        AnsweringKeeps(choose(size), size, ranged, before, after, n);
      }
      AnsweringKeeps(choose(size), size, ranged, before, after, ENCODING);
      assert forall n :: Touched(choose(size), before, n) == Touched(choose(size), up.header, n);
    }
  }

  lemma SameButLabels(limits: Limits, policy: Policy, dims: KeyDims, up: Upstream, now: int, before: Header)
    requires Labelling(limits, policy, dims, up, now, before)
    ensures forall n :: n !in LABELS ==> Values(before, n) == Values(up.header, n)
  {
  }

  lemma UptoAll(up: Upstream)
    ensures Upto(up, |up.writes|) == up
  {
    assert up.writes[..|up.writes|] == up.writes;
  }

  /** The end of serveRangeFill: the capture is complete and nothing has been sent. */
  method AnswerFromCapture(nw: ResponseWriter, rangeFillMaxSize: int, choose: nat -> Reply, ghost ranged: bool)
    requires nw.Collected() && (nw.status == -1 || nw.status == 200) && Windows(choose, ranged)
    requires nw.client.lines == [] && nw.client.body == []
    modifies nw.client, nw.client.header, nw.tempFile
    ensures nw.Collected() && nw.Captured() == old(nw.Captured())
    ensures var all := nw.Captured();
            if 0 < rangeFillMaxSize < |all| then nw.client.lines == [200] && nw.client.body == all
            else nw.client.lines == [choose(|all|).status] && nw.client.body == ReplyBody(choose(|all|), all)
    ensures nw.client.sent == nw.client.header.fields
    ensures var size := |nw.Captured()|;
            if 0 < rangeFillMaxSize < size then
              forall n :: n != LENGTH ==> Values(nw.client.header.fields, n) == Values(old(nw.client.header.fields), n)
            else Answering(choose(size), old(nw.client.header.fields), nw.client.header.fields)
  {
    var source, size := nw.CapturedReader();
    if rangeFillMaxSize > 0 && size > rangeFillMaxSize {
      nw.ReplayCaptured();
      return;
    }
    ghost var before := nw.client.header.fields;
    nw.client.header.Del(LENGTH);
    assert WithoutLength(before, nw.client.header.fields);
    ServeContent(nw.client, source, size, choose, ranged);
  }

  ghost predicate WithoutLength(before: Header, after: Header) {
    forall n :: Values(after, n) == if n == LENGTH then [] else Values(before, n)
  }

  /** The edit of the reply, made once the length is gone. */
  ghost predicate Answering(r: Reply, before: Header, after: Header) {
    exists h :: WithoutLength(before, h) && Edited(r, h, after)
  }

  /** The request the upstream sees. */
  function Forwarded(r: Request, isRangeFill: bool): Request {
    if isRangeFill then FullRequest(r) else r
  }

  /** A response that may be stored advertises nothing beyond the entry with that timestamp. */
  ghost predicate FreshAtClose(limits: Limits, policy: Policy, up: Upstream, isRangeFill: bool, rangeFillMaxSize: int,
                               choose: nat -> Reply, sent: int, lines: seq<int>, fields: Header, timestamp: int) {
    policy.ttl > 0 && Decided(up) && MayStore(limits, FinalStatus(up), up.header) && lines != [] &&
    (FromCapture(limits, up, isRangeFill, rangeFillMaxSize) ==> choose(|Concat(up.writes)|).status !in DROPS) ==>
      EndsWithin(policy, sent, fields, timestamp)
  }

  lemma MarkedIsFresh(limits: Limits, policy: Policy, dims: KeyDims, up: Upstream, isRangeFill: bool,
                      rangeFillMaxSize: int,
                      choose: nat -> Reply, sent: int, closed: int, lines: seq<int>, before: Header)
    requires sent <= closed
    requires Marked(limits, policy, dims, up, isRangeFill, rangeFillMaxSize, choose, sent, lines, before)
    ensures FreshAtClose(limits, policy, up, isRangeFill, rangeFillMaxSize, choose, sent, lines, before,
                         closed / SECOND)
  {
    if policy.ttl > 0 && MissLabelled(limits, policy, dims, FinalStatus(up), sent, up.header, before) &&
       MayStore(limits, FinalStatus(up), up.header) {
      MissFreshness(policy, dims, sent, closed, "MISS", up.header, before);
    }
  }

  method Respond(limits: Limits, policy: Policy, dims: KeyDims, client: Client, r: Request, next: Request -> Upstream,
                 isRangeFill: bool, rangeFillMaxSize: int, choose: nat -> Reply, sent: int, ghost closed: int)
    returns (err: bool, nw: ResponseWriter, ghost up: Upstream)
    requires client.lines == [] && client.body == [] && sent <= closed
    requires Proper(next(Forwarded(r, isRangeFill))) && Windows(choose, HasRange(r))
    modifies client, client.header
    ensures fresh(nw) && (nw.tempFile == null || fresh(nw.tempFile)) && nw.client == client
    ensures up == next(Forwarded(r, isRangeFill)) && err == up.failed
    ensures nw.Collected() && nw.written == Concat(up.writes) && nw.needCache == Captures(limits, up)
    ensures nw.status == if Begun(up) then FinalStatus(up) else -1
    ensures Answered(limits, up, isRangeFill, rangeFillMaxSize, choose, client.lines, client.body)
    ensures Marked(limits, policy, dims, up, isRangeFill, rangeFillMaxSize, choose, sent, client.lines, client.sent)
    ensures FieldsAtClose(limits, up, isRangeFill, rangeFillMaxSize, choose, client.header.fields)
    ensures FreshAtClose(limits, policy, up, isRangeFill, rangeFillMaxSize, choose, sent, client.lines, client.sent,
                         closed / SECOND)
  {
    nw := new ResponseWriter(limits, policy, dims, client);
    up := next(Forwarded(r, isRangeFill));
    if isRangeFill {
      err := ServeRangeFill(nw, r, next, rangeFillMaxSize, choose, sent);
    } else {
      var passed := next(r);
      ServeUpstream(nw, passed, sent);
      UptoAll(passed);
      EncodingIsNoLabel();
      LengthIsNotKept();
      err := passed.failed;
    }
    MarkedIsFresh(limits, policy, dims, up, isRangeFill, rangeFillMaxSize, choose, sent, closed,
                  client.lines, client.sent);
  }

  /**
   The miss path of ServeHTTP after the fill was acquired: pass the response through, or
   range-fill it, then Close. The line goes out at the time sent, and Close runs at the time
   closed, whether or not the upstream ended in an error and wherever serving a window left
   the cursor; it stores exactly what the upstream wrote, under the fields as they are then.
   */
  method HandleMiss(limits: Limits, policy: Policy, dims: KeyDims, client: Client, r: Request,
                    next: Request -> Upstream,
                    isRangeFill: bool, rangeFillMaxSize: int, choose: nat -> Reply,
                    once: Once, storage: Storage, key: Bytes, metaSize: nat, sent: int, closed: int)
    returns (err: bool, ghost up: Upstream, ghost meta: Metadata)
    requires client.lines == [] && client.body == [] && storage.Valid() && sent <= closed
    requires Proper(next(Forwarded(r, isRangeFill))) && Windows(choose, HasRange(r))
    modifies client, client.header, once, storage.memCache, storage.diskCache, storage.diskCache.lru
    ensures up == next(Forwarded(r, isRangeFill))
    ensures storage.Valid() && err == up.failed && once.used == (old(once.used) || Captures(limits, up))
    ensures meta ==
            Metadata(if Begun(up) then FinalStatus(up) else -1, Retain(client.header.fields), closed / SECOND, r.path)
    ensures storage.View() == AfterClose(storage.cfg, old(storage.View()),
                                         Captures(limits, up) && !old(once.used) && KeepsEncoding(client.header.fields),
                                         key, meta, Concat(up.writes), metaSize, closed)
    ensures Answered(limits, up, isRangeFill, rangeFillMaxSize, choose, client.lines, client.body)
    ensures Marked(limits, policy, dims, up, isRangeFill, rangeFillMaxSize, choose, sent, client.lines, client.sent)
    ensures FieldsAtClose(limits, up, isRangeFill, rangeFillMaxSize, choose, client.header.fields)
    ensures FreshAtClose(limits, policy, up, isRangeFill, rangeFillMaxSize, choose, sent, client.lines, client.sent,
                         meta.timestamp)
  {
    var nw;
    err, nw, up := Respond(limits, policy, dims, client, r, next, isRangeFill, rangeFillMaxSize, choose, sent, closed);
    meta := nw.Close(once, storage, key, r.path, metaSize, closed);
  }
}
