/**
 The whole cache as one interleaved system: requests arrive, look the store up, collapse
 onto fills, fetch, store and are answered, while purges strike at any time. Its steps are
 the operations the other modules verify. What the configuration makes of a request is a
 parameter here; Sidekick.dfy fills it in.
 */
module Runs {
  import opened Basics
  import opened Headers
  import opened Metadatas
  import opened Compression
  import opened Storages
  import opened StorageLaws
  import opened Upstreams
  import opened Capture
  import opened ServedContent
  import opened CacheKeys
  import opened Serving
  import opened Purging
  import Fills
  import FillLaws

  /** How requests and responses are classified. */
  datatype Rules = Rules(
    key: Request -> Bytes,
    admits: Request -> bool,
    readOnly: Request -> bool,
    compresses: Request -> bool,
    rangeFills: Request -> bool,
    captures: Upstream -> bool,
    answers: (Request, Upstream, Option<Kind>) -> bool,
    replies: (Request, Metadata, Bytes, Out) -> bool)

  datatype Setup = Setup(store: Config, rules: Rules)

  datatype Event =
    | Stored(pid: nat, entry: Entry)
    | Served(pid: nat, now: int, entry: Entry, out: Out)
    | Purged(keys: iset<Bytes>)

  datatype World = World(fills: Fills.State, store: Contents, reqs: map<nat, Request>, missed: set<nat>,
                         ups: map<nat, Upstream>, answers: map<nat, Option<Kind>>, trace: seq<Event>)

  const START := World(Fills.INITIAL, EMPTY, map[], {}, map[], map[], [])

  datatype Step =
    | Arrive(pid: nat, req: Request)
    | Look(pid: nat, streamed: bool, now: int, out: Out)
    | Enter(pid: nat)
    | Fetched(pid: nat, up: Upstream, answer: Option<Kind>)
    | BeginClose(pid: nat)
    | Store(pid: nat, header: Header, metaSize: nat, now: int)
    | Release(pid: nat)
    | Signal(pid: nat)
    | Wake(pid: nat)
    | GiveUp(pid: nat)
    | Collapse(pid: nat, now: int, out: Out)
    | Purge(keys: iset<Bytes>)

  /** A read of the store that answers the request if found holds; it misses into missed. */
  ghost predicate Answers(su: Setup, w: World, pid: nat, found: bool, misses: bool, now: int, out: Out, t: World)
    requires pid in w.reqs
  {
    var r := w.reqs[pid];
    var key := su.rules.key(r);
    var a := Read(su.store, w.store, key, now);
    && (found ==> a.Hit? && su.rules.replies(r, a.meta, a.data, out))
    && t == w.(store := AfterRead(su.store, w.store, key, now),
               missed := if misses then w.missed + {pid} else w.missed,
               trace := if found then w.trace + [Served(pid, now, Entry(key, a.data, a.meta), out)] else w.trace)
  }

  /** A lookup: the streamed path for clients that want no compression, or the buffered one. */
  ghost predicate Looks(su: Setup, w: World, pid: nat, streamed: bool, now: int, out: Out, t: World) {
    && pid in w.reqs && pid !in w.missed
    && var r := w.reqs[pid];
       if streamed then
         !su.rules.compresses(r) &&
         Answers(su, w, pid, Rangeable(ReadStream(su.store, w.store, su.rules.key(r), now)), false, now, out, t)
       else
         var hit := Read(su.store, w.store, su.rules.key(r), now).Hit?;
         Answers(su, w, pid, hit, !hit && !su.rules.readOnly(r), now, out, t)
  }

  /** A woken follower looks again and answers its range from what it finds, if it can. */
  ghost predicate Collapses(su: Setup, w: World, pid: nat, now: int, out: Out, t: World) {
    && pid in w.reqs && pid in w.fills.procs && w.fills.procs[pid].pc.Woken?
    && Answers(su, w, pid, Rangeable(Read(su.store, w.store, su.rules.key(w.reqs[pid]), now)), false, now, out, t)
  }

  /** One step of the fill protocol. */
  ghost predicate Moves(s: Fills.State, a: Fills.Action, t: Fills.State) {
    Fills.Wellformed(s) && Fills.Enabled(s, a) && t == Fills.Apply(s, a)
  }

  /** The metadata Close makes. */
  ghost function Made(r: Request, up: Upstream, header: Header, now: int): Metadata {
    Metadata(FinalStatus(up), Retain(header), now / SECOND, r.path)
  }

  /**
   The lines of Content-Encoding when Close runs; answer is the kind of reply with which ServeContent
   answered the client, if the response was a range fill answered from its capture.
   */
  function EncodingKept(up: Upstream, answer: Option<Kind>): seq<string> {
    if answer.Some? && answer.value.status in DROPS then [] else Values(up.header, ENCODING)
  }

  /** The fields when Close runs: the upstream's, but for Sidekick's labels and what the answer may have changed. */
  ghost predicate AtClose(up: Upstream, answer: Option<Kind>, header: Header) {
    && Values(header, ENCODING) == EncodingKept(up, answer)
    && (forall n :: HandedOn(n) && Spared(answer, HasField(up.header, TYPE), n) ==>
          Values(header, n) == Values(up.header, n))
    && (answer.Some? ==> TypeLeft(answer.value, Values(up.header, TYPE), Values(header, TYPE)))
  }

  /** The fields of an entry: those Close retains of the upstream's, several lines of one name joined. */
  ghost predicate FieldsKept(up: Upstream, answer: Option<Kind>, stored: Header) {
    forall n :: HandedOn(n) && n != COMPRESSION_TYPE && Spared(answer, HasField(up.header, TYPE), n) ==>
      Values(stored, n) == if Retained(n) && HasField(up.header, n) then [Join(Values(up.header, n), ",")] else []
  }

  lemma StoredFieldsKept(cfg: Config, up: Upstream, answer: Option<Kind>, header: Header, meta: Metadata, data: Bytes,
                         now: int)
    requires AtClose(up, answer, header) && meta.header == Retain(header)
    ensures FieldsKept(up, answer, StoredMeta(cfg, meta, data, now).header)
  {
    StoredMetaKeeps(cfg, meta, data, now);
    forall n ensures Values(Retain(header), n) == if Retained(n) && HasField(header, n)
                                                  then [Join(Values(header, n), ",")] else []
    {
      RetainedValues(header, n);
    }
  }

  /** SetWithKey is called for it and does not turn it down for its size. */
  predicate Storing(cfg: Config, lines: seq<string>, data: Bytes) {
    KeepsLines(lines) && !TooLarge(cfg, |data|)
  }

  /** The store inside the sync.Once; header is the response header when Close runs. */
  ghost predicate StoreStep(su: Setup, w: World, pid: nat, header: Header, metaSize: nat, now: int, t: World) {
    && pid in w.reqs && pid in w.ups
    && pid in w.answers && AtClose(w.ups[pid], w.answers[pid], header)
    && Moves(w.fills, Fills.ExitOnce(pid, Storing(su.store, Values(header, ENCODING), Concat(w.ups[pid].writes))),
             t.fills)
    && var key, data := su.rules.key(w.reqs[pid]), Concat(w.ups[pid].writes);
       var meta := Made(w.reqs[pid], w.ups[pid], header, now);
       t == if Storing(su.store, Values(header, ENCODING), data)
            then w.(fills := t.fills, store := AfterSet(su.store, w.store, key, meta, data, metaSize, now),
                    trace := w.trace + [Stored(pid, Entry(key, data, StoredMeta(su.store, meta, data, now)))])
            else w.(fills := t.fills)
  }

  ghost const ALL := iset k: Bytes | true

  /** A purge of one key, by path patterns, or of everything. */
  ghost predicate PurgeStep(su: Setup, w: World, keys: iset<Bytes>, t: World) {
    && t == w.(store := t.store, trace := w.trace + [Purged(keys)])
    && (|| (exists key :: keys == iset{key} && t.store == AfterPurge(w.store, key))
        || (exists patterns :: ByPath(su.store, w.store, patterns, keys) && Cleared(w.store, t.store, keys))
        || (keys == ALL && t.store == EMPTY))
  }

  /** The protocol step that goes with a step of the system. */
  ghost function ActionOf(su: Setup, w: World, s: Step): Option<Fills.Action> {
    match s
    case Enter(pid) =>
      if pid in w.reqs then Some(Fills.Acquire(pid, su.rules.key(w.reqs[pid]), su.rules.rangeFills(w.reqs[pid])))
        else None
    case Fetched(pid, up, _) => Some(Fills.FinishFetch(pid, su.rules.captures(up)))
    case BeginClose(pid) => Some(Fills.EnterOnce(pid))
    case Release(pid) => Some(Fills.Delete(pid))
    case Signal(pid) => Some(Fills.CloseDone(pid))
    case Wake(pid) => Some(Fills.Wake(pid))
    case GiveUp(pid) => Some(Fills.GiveUp(pid))
    case _ => None
  }

  /** A step of the fill protocol that leaves the store alone. */
  ghost predicate FillStep(su: Setup, w: World, s: Step, t: World) {
    && ActionOf(su, w, s).Some? && Moves(w.fills, ActionOf(su, w, s).value, t.fills)
    && (s.Enter? ==> s.pid in w.missed && s.pid in w.reqs)
    && (s.Fetched? ==> Proper(s.up) && s.pid !in w.ups && s.pid !in w.answers &&
                       s.pid in w.reqs && su.rules.answers(w.reqs[s.pid], s.up, s.answer))
    && t == w.(fills := t.fills, ups := if s.Fetched? then w.ups[s.pid := s.up] else w.ups,
               answers := if s.Fetched? then w.answers[s.pid := s.answer] else w.answers)
  }

  ghost predicate Steps(su: Setup, w: World, s: Step, t: World) {
    match s
    case Arrive(pid, req) => pid !in w.reqs && su.rules.admits(req) && t == w.(reqs := w.reqs[pid := req])
    case Look(pid, streamed, now, out) => Looks(su, w, pid, streamed, now, out, t)
    case Collapse(pid, now, out) => Collapses(su, w, pid, now, out, t)
    case Store(pid, header, metaSize, now) => StoreStep(su, w, pid, header, metaSize, now, t)
    case Purge(keys) => PurgeStep(su, w, keys, t)
    case _ => FillStep(su, w, s, t)
  }

  ghost predicate Leads(su: Setup, w: World, t: World) {
    exists s :: Steps(su, w, s, t)
  }

  ghost predicate IsRun(su: Setup, run: seq<World>) {
    && run != [] && run[0] == START
    && forall i :: 0 <= i < |run| - 1 ==> Leads(su, run[i], run[i + 1])
  }

  // What every run keeps: the members of the protocol.

  /** A member is a request that missed and may fill, under its own key; past its fetch it has a response. */
  ghost predicate Member(su: Setup, reqs: map<nat, Request>, missed: set<nat>, ups: map<nat, Upstream>, p: nat,
                         q: Fills.Proc) {
    && p in missed && p in reqs && q.key == su.rules.key(reqs[p]) && q.rangeFill == su.rules.rangeFills(reqs[p])
    && (q.pc.Closing? ==> p in ups && Proper(ups[p]) && q.pc.needCache == su.rules.captures(ups[p]))
    && (q.pc.Storing? ==> p in ups && Proper(ups[p]) && su.rules.captures(ups[p]))
  }

  ghost predicate Admissible(su: Setup, reqs: map<nat, Request>, missed: set<nat>) {
    && (forall p :: p in reqs ==> su.rules.admits(reqs[p]))
    && (forall p :: p in missed ==> p in reqs && !su.rules.readOnly(reqs[p]))
  }

  ghost predicate Members(su: Setup, w: World) {
    && Admissible(su, w.reqs, w.missed)
    && forall p :: p in w.fills.procs ==> Member(su, w.reqs, w.missed, w.ups, p, w.fills.procs[p])
  }

  lemma MoveKeepsMembers(su: Setup, w: World, a: Fills.Action, s: Fills.State, ups: map<nat, Upstream>)
    requires Members(su, w) && Fills.Extends(w.fills, a, s) && Fills.Acts(w.fills, a, s)
    requires forall p :: p in w.ups ==> p in ups && ups[p] == w.ups[p]
    requires a.Acquire? ==> a.pid in w.missed && a.key == su.rules.key(w.reqs[a.pid]) &&
                            a.rangeFill == su.rules.rangeFills(w.reqs[a.pid])
    requires a.FinishFetch? ==> a.pid in ups && Proper(ups[a.pid]) && a.needCache == su.rules.captures(ups[a.pid])
    ensures Members(su, w.(fills := s, ups := ups))
  {
  }

  // What every run keeps: everything held was stored and not purged since.

  ghost predicate NotPurged(trace: seq<Event>, i: nat, n: nat, key: Bytes)
    requires n <= |trace|
  {
    forall j :: i < j < n && trace[j].Purged? ==> key !in trace[j].keys
  }

  ghost predicate StoredAt(trace: seq<Event>, i: nat, n: nat, e: Entry)
    requires n <= |trace|
  {
    i < n && trace[i].Stored? && trace[i].entry == e && NotPurged(trace, i, n, e.key)
  }

  /** Among the first n events the entry was stored, and not purged since. */
  ghost predicate Vouched(trace: seq<Event>, n: nat, e: Entry)
    requires n <= |trace|
  {
    exists i :: StoredAt(trace, i, n, e)
  }

  ghost predicate AllVouched(held: iset<Entry>, trace: seq<Event>) {
    forall e :: e in held ==> Vouched(trace, |trace|, e)
  }

  lemma VouchedStays(trace: seq<Event>, longer: seq<Event>, n: nat, e: Entry)
    requires trace <= longer && n <= |trace| && Vouched(trace, n, e)
    ensures Vouched(longer, n, e)
  {
    var i :| StoredAt(trace, i, n, e);
    assert StoredAt(longer, i, n, e);
  }

  lemma VouchedExtends(trace: seq<Event>, v: Event, e: Entry)
    requires Vouched(trace, |trace|, e) && (v.Purged? ==> e.key !in v.keys)
    ensures Vouched(trace + [v], |trace| + 1, e)
  {
    var i :| StoredAt(trace, i, |trace|, e);
    assert StoredAt(trace + [v], i, |trace| + 1, e);
  }

  lemma AllVouchedAfter(held: iset<Entry>, trace: seq<Event>, v: Event, after: iset<Entry>)
    requires AllVouched(held, trace)
    requires forall e :: e in after ==>
               (e in held && (v.Purged? ==> e.key !in v.keys)) || (v.Stored? && e == v.entry)
    ensures AllVouched(after, trace + [v])
  {
    forall e | e in after ensures Vouched(trace + [v], |trace| + 1, e) {
      if v.Stored? && e == v.entry {
        assert StoredAt(trace + [v], |trace|, |trace| + 1, e);
      } else {
        VouchedExtends(trace, v, e);
      }
    }
  }

  lemma AllVouchedFewer(held: iset<Entry>, trace: seq<Event>, after: iset<Entry>)
    requires AllVouched(held, trace) && after <= held
    ensures AllVouched(after, trace)
  {
  }

  // What every run keeps: every event is accounted for.

  /** What was stored is what the upstream wrote for that request, which was allowed to fill. */
  ghost predicate Origin(su: Setup, reqs: map<nat, Request>, missed: set<nat>, ups: map<nat, Upstream>,
                         answers: map<nat, Option<Kind>>, pid: nat, e: Entry) {
    && pid in reqs && pid in ups && pid in missed && pid in answers && Proper(ups[pid]) &&
       e.key == su.rules.key(reqs[pid])
    && su.rules.captures(ups[pid]) && e.data == Concat(ups[pid].writes)
    && e.meta.status == FinalStatus(ups[pid]) && e.meta.path == reqs[pid].path && Servable(e.meta)
    && StoredCoding(e.meta) == Join(EncodingKept(ups[pid], answers[pid]), ",")
    && FieldsKept(ups[pid], answers[pid], e.meta.header)
    && Storing(su.store, EncodingKept(ups[pid], answers[pid]), e.data)
  }

  /** A hit answers this request, from a vouched entry that is not expired. */
  ghost predicate Hits(su: Setup, reqs: map<nat, Request>, trace: seq<Event>, i: nat)
    requires i < |trace| && trace[i].Served?
  {
    var v := trace[i];
    && v.pid in reqs && v.entry.key == su.rules.key(reqs[v.pid])
    && Vouched(trace, i, v.entry)
    && !IsExpired(su.store.ttl, v.entry.meta.timestamp, v.now)
    && su.rules.replies(reqs[v.pid], v.entry.meta, v.entry.data, v.out)
  }

  ghost predicate Accounted(su: Setup, w: World, i: nat)
    requires i < |w.trace|
  {
    && (w.trace[i].Stored? ==> Origin(su, w.reqs, w.missed, w.ups, w.answers, w.trace[i].pid, w.trace[i].entry))
    && (w.trace[i].Served? ==> Hits(su, w.reqs, w.trace, i))
  }

  ghost predicate AllAccounted(su: Setup, w: World) {
    forall i :: 0 <= i < |w.trace| ==> Accounted(su, w, i)
  }

  /** Events, requests and responses are never forgotten or changed. */
  ghost predicate Grows(w: World, t: World) {
    && w.trace <= t.trace && |t.trace| <= |w.trace| + 1 && w.missed <= t.missed
    && (forall p :: p in w.reqs ==> p in t.reqs && t.reqs[p] == w.reqs[p])
    && (forall p :: p in w.ups ==> p in t.ups && t.ups[p] == w.ups[p])
    && (forall p :: p in w.answers ==> p in t.answers && t.answers[p] == w.answers[p])
  }

  /** What was accounted for stays so. */
  lemma AccountedStays(su: Setup, w: World, t: World)
    requires AllAccounted(su, w) && Grows(w, t) && (|t.trace| > |w.trace| ==> Accounted(su, t, |w.trace|))
    ensures AllAccounted(su, t)
  {
    forall i | 0 <= i < |t.trace| ensures Accounted(su, t, i) {
      if i < |w.trace| {
        assert Accounted(su, w, i) && t.trace[i] == w.trace[i];
        if t.trace[i].Served? {
          VouchedStays(w.trace, t.trace, i, t.trace[i].entry);
        }
      }
    }
  }

  ghost predicate Inv(su: Setup, w: World) {
    && Fills.Inv(w.fills) && Members(su, w)
    && Consistent(w.store) && AllVouched(Held(su.store, w.store), w.trace)
    && AllAccounted(su, w)
  }

  lemma AnswersKeeps(su: Setup, w: World, pid: nat, found: bool, misses: bool, now: int, out: Out, t: World)
    requires Inv(su, w) && pid in w.reqs && Answers(su, w, pid, found, misses, now, out, t)
    requires misses ==> !su.rules.readOnly(w.reqs[pid])
    ensures Inv(su, t)
  {
    var key := su.rules.key(w.reqs[pid]);
    var held, after := Held(su.store, w.store), Held(su.store, t.store);
    ReadShrinks(su.store, w.store, key, now);
    if found {
      var v := t.trace[|w.trace|];
      HitIsHeld(su.store, w.store, key, now);
      AllVouchedAfter(held, w.trace, v, after);
      VouchedStays(w.trace, t.trace, |w.trace|, v.entry);
    } else {
      AllVouchedFewer(held, w.trace, after);
    }
    AccountedStays(su, w, t);
    MembersMonotone(su, w, t);
  }

  lemma MembersMonotone(su: Setup, w: World, t: World)
    requires Members(su, w) && Grows(w, t) && t.fills == w.fills && Admissible(su, t.reqs, t.missed)
    ensures Members(su, t)
  {
  }

  lemma StoreKeeps(su: Setup, w: World, pid: nat, header: Header, metaSize: nat, now: int, t: World)
    requires LosslessCodecs(su.store) && Inv(su, w) && StoreStep(su, w, pid, header, metaSize, now, t)
    ensures Inv(su, t)
  {
    var stores := Storing(su.store, Values(header, ENCODING), Concat(w.ups[pid].writes));
    var a := Fills.ExitOnce(pid, stores);
    Fills.StepKeeps(w.fills, a);
    Fills.StepExtends(w.fills, a);
    Fills.StepActs(w.fills, a);
    MoveKeepsMembers(su, w, a, t.fills, w.ups);
    MembersMonotone(su, w.(fills := t.fills), t);
    if stores {
      assert Member(su, w.reqs, w.missed, w.ups, pid, w.fills.procs[pid]);
      RetainedIsUnpacked(header);
      AddKeeps(su, w, pid, su.rules.key(w.reqs[pid]), Made(w.reqs[pid], w.ups[pid], header, now),
               Concat(w.ups[pid].writes), metaSize, now);
      MadeIsKept(su.store, w.reqs[pid], w.ups[pid], w.answers[pid], header, now);
    }
    AccountedStays(su, w, t);
  }

  /** What Close stores adds one entry, which the event vouches for. */
  lemma AddKeeps(su: Setup, w: World, pid: nat, key: Bytes, meta: Metadata, data: Bytes, metaSize: nat, now: int)
    requires LosslessCodecs(su.store) && Consistent(w.store) && AllVouched(Held(su.store, w.store), w.trace)
    requires Unpacked(meta)
    ensures var e := Entry(key, data, StoredMeta(su.store, meta, data, now));
            var after := AfterSet(su.store, w.store, key, meta, data, metaSize, now);
            Consistent(after) && AllVouched(Held(su.store, after), w.trace + [Stored(pid, e)])
  {
    SetAddsOne(su.store, w.store, key, meta, data, metaSize, now);
    AllVouchedAfter(Held(su.store, w.store), w.trace,
                    Stored(pid, Entry(key, data, StoredMeta(su.store, meta, data, now))),
                    Held(su.store, AfterSet(su.store, w.store, key, meta, data, metaSize, now)));
  }

  /** The metadata Close makes is servable and keeps the coding and the fields. */
  lemma MadeIsKept(cfg: Config, r: Request, up: Upstream, answer: Option<Kind>, header: Header, now: int)
    requires AtClose(up, answer, header) && Proper(up)
    ensures var m := StoredMeta(cfg, Made(r, up, header, now), Concat(up.writes), now);
            && m.status == FinalStatus(up) && m.path == r.path && Servable(m) && FieldsKept(up, answer, m.header)
            && StoredCoding(m) == Join(EncodingKept(up, answer), ",")
  {
    var meta, data := Made(r, up, header, now), Concat(up.writes);
    RetainedValues(header, ENCODING);
    assert Retained(ENCODING) && StoredCoding(meta) == Coding(header);
    StoredMetaKeeps(cfg, meta, data, now);
    RetainedIsUnmarked(header);
    StoredIsServable(cfg, meta, data, now);
    StoredFieldsKept(cfg, up, answer, header, meta, data, now);
  }

  lemma PurgeKeeps(su: Setup, w: World, keys: iset<Bytes>, t: World)
    requires Inv(su, w) && PurgeStep(su, w, keys, t)
    ensures Inv(su, t)
  {
    PurgeStepClears(su, w, keys, t);
    ClearedHeld(su.store, w.store, t.store, keys);
    AllVouchedAfter(Held(su.store, w.store), w.trace, Purged(keys), Held(su.store, t.store));
    AccountedStays(su, w, t);
    MembersMonotone(su, w, t);
  }

  lemma PurgeStepClears(su: Setup, w: World, keys: iset<Bytes>, t: World)
    requires Consistent(w.store) && PurgeStep(su, w, keys, t)
    ensures Cleared(w.store, t.store, keys)
  {
    if key :| keys == iset{key} && t.store == AfterPurge(w.store, key) {
      PurgeClearsOne(w.store, key);
    } else if keys == ALL && t.store == EMPTY {
      forall k ensures k in keys && NoEntry(t.store, k) {
      }
    }
  }

  lemma MoveKeeps(su: Setup, w: World, a: Fills.Action, s: Fills.State, ups: map<nat, Upstream>,
                  answers: map<nat, Option<Kind>>)
    requires Inv(su, w) && Moves(w.fills, a, s)
    requires forall p :: p in w.ups ==> p in ups && ups[p] == w.ups[p]
    requires forall p :: p in w.answers ==> p in answers && answers[p] == w.answers[p]
    requires a.Acquire? ==> a.pid in w.missed && a.key == su.rules.key(w.reqs[a.pid]) &&
                            a.rangeFill == su.rules.rangeFills(w.reqs[a.pid])
    requires a.FinishFetch? ==> a.pid in ups && Proper(ups[a.pid]) && a.needCache == su.rules.captures(ups[a.pid])
    ensures Inv(su, w.(fills := s, ups := ups, answers := answers))
  {
    Fills.StepKeeps(w.fills, a);
    Fills.StepExtends(w.fills, a);
    Fills.StepActs(w.fills, a);
    MoveKeepsMembers(su, w, a, s, ups);
    AccountedStays(su, w, w.(fills := s, ups := ups, answers := answers));
  }

  lemma FillKeeps(su: Setup, w: World, s: Step, t: World)
    requires Inv(su, w) && FillStep(su, w, s, t)
    ensures Inv(su, t)
  {
    MoveKeeps(su, w, ActionOf(su, w, s).value, t.fills, t.ups, t.answers);
  }

  lemma ArriveKeeps(su: Setup, w: World, pid: nat, req: Request)
    requires Inv(su, w) && pid !in w.reqs && su.rules.admits(req)
    ensures Inv(su, w.(reqs := w.reqs[pid := req]))
  {
    var t := w.(reqs := w.reqs[pid := req]);
    AccountedStays(su, w, t);
    MembersMonotone(su, w, t);
  }

  lemma LookKeeps(su: Setup, w: World, pid: nat, streamed: bool, now: int, out: Out, t: World)
    requires Inv(su, w) && Looks(su, w, pid, streamed, now, out, t)
    ensures Inv(su, t)
  {
    var key := su.rules.key(w.reqs[pid]);
    if streamed {
      AnswersKeeps(su, w, pid, Rangeable(ReadStream(su.store, w.store, key, now)), false, now, out, t);
    } else {
      var hit := Read(su.store, w.store, key, now).Hit?;
      AnswersKeeps(su, w, pid, hit, !hit && !su.rules.readOnly(w.reqs[pid]), now, out, t);
    }
  }

  lemma StepKeeps(su: Setup, w: World, s: Step, t: World)
    requires LosslessCodecs(su.store) && Inv(su, w) && Steps(su, w, s, t)
    ensures Inv(su, t)
  {
    match s
    case Arrive(pid, req) => ArriveKeeps(su, w, pid, req);
    case Look(pid, streamed, now, out) => LookKeeps(su, w, pid, streamed, now, out, t);
    case Collapse(pid, now, out) =>
      AnswersKeeps(su, w, pid, Rangeable(Read(su.store, w.store, su.rules.key(w.reqs[pid]), now)), false, now, out, t);
    case Store(pid, header, metaSize, now) => StoreKeeps(su, w, pid, header, metaSize, now, t);
    case Purge(keys) => PurgeKeeps(su, w, keys, t);
    case _ => FillKeeps(su, w, s, t);
  }

  lemma StartInv(su: Setup)
    ensures Inv(su, START)
  {
  }

  lemma {:induction false} EveryRunKeepsInv(su: Setup, run: seq<World>, i: nat)
    requires LosslessCodecs(su.store) && IsRun(su, run) && i < |run|
    ensures Inv(su, run[i])
    decreases i
  {
    if i == 0 {
      StartInv(su);
    } else {
      EveryRunKeepsInv(su, run, i - 1);
      assert Leads(su, run[i - 1], run[i - 1 + 1]);
      var s :| Steps(su, run[i - 1], s, run[i]);
      StepKeeps(su, run[i - 1], s, run[i]);
    }
  }

  ghost predicate Reachable(su: Setup, w: World) {
    exists run :: IsRun(su, run) && run[|run| - 1] == w
  }

  lemma ReachableInv(su: Setup, w: World)
    requires LosslessCodecs(su.store) && Reachable(su, w)
    ensures Inv(su, w)
  {
    var run :| IsRun(su, run) && run[|run| - 1] == w;
    EveryRunKeepsInv(su, run, |run| - 1);
  }

  lemma Reach(su: Setup, w: World, s: Step, t: World)
    requires Reachable(su, w) && Steps(su, w, s, t)
    ensures Reachable(su, t)
  {
    assert Leads(su, w, t);
    ReachLeads(su, w, t);
  }

  lemma ReachLeads(su: Setup, w: World, t: World)
    requires Reachable(su, w) && Leads(su, w, t)
    ensures Reachable(su, t)
  {
    var run :| IsRun(su, run) && run[|run| - 1] == w;
    var longer := run + [t];
    assert forall i :: 0 <= i < |run| ==> longer[i] == run[i];
    forall i | 0 <= i < |longer| - 1 ensures Leads(su, longer[i], longer[i + 1]) {
      if i < |run| - 1 {
        assert Leads(su, run[i], run[i + 1]);
      }
    }
    assert IsRun(su, longer) && longer[|longer| - 1] == t;
  }

  // What follows for hits and for everything held.

  /** Event k stored what event j served, for a request that was allowed to fill and has the same key. */
  ghost predicate FilledBy(su: Setup, w: World, k: nat, j: nat) {
    && k < j < |w.trace| && w.trace[j].Served? && StoredAt(w.trace, k, j, w.trace[j].entry)
    && w.trace[j].pid in w.reqs && su.rules.admits(w.reqs[w.trace[j].pid])
    && Filler(su, w, w.trace[k].pid, w.trace[k].entry)
    && su.rules.key(w.reqs[w.trace[j].pid]) == su.rules.key(w.reqs[w.trace[k].pid])
  }

  /** The entry is what the upstream wrote for the request q, which was neither bypassed nor read-only. */
  ghost predicate Filler(su: Setup, w: World, q: nat, e: Entry) {
    && q in w.reqs && q in w.ups && q in w.answers && Proper(w.ups[q]) && su.rules.admits(w.reqs[q]) &&
       !su.rules.readOnly(w.reqs[q])
    && su.rules.captures(w.ups[q]) && e.key == su.rules.key(w.reqs[q]) && e.data == Concat(w.ups[q].writes)
    && e.meta.status == FinalStatus(w.ups[q]) && e.meta.path == w.reqs[q].path && Servable(e.meta)
    && StoredCoding(e.meta) == Join(EncodingKept(w.ups[q], w.answers[q]), ",")
    && FieldsKept(w.ups[q], w.answers[q], e.meta.header)
    && Storing(su.store, EncodingKept(w.ups[q], w.answers[q]), e.data)
  }

  /** Every hit is filled by an earlier store of an allowed request, not purged since; and it is not expired. */
  lemma HitIsFilled(su: Setup, w: World, j: nat)
    requires LosslessCodecs(su.store) && Reachable(su, w) && j < |w.trace| && w.trace[j].Served?
    ensures exists k: nat :: FilledBy(su, w, k, j)
    ensures var v := w.trace[j];
            && v.pid in w.reqs && su.rules.admits(w.reqs[v.pid])
            && !IsExpired(su.store.ttl, v.entry.meta.timestamp, v.now)
            && su.rules.replies(w.reqs[v.pid], v.entry.meta, v.entry.data, v.out)
  {
    ReachableInv(su, w);
    assert Accounted(su, w, j);
    var k :| StoredAt(w.trace, k, j, w.trace[j].entry);
    assert Accounted(su, w, k);
    assert FilledBy(su, w, k, j);
  }

  lemma HeldIsFilled(su: Setup, w: World, e: Entry) returns (q: nat)
    requires LosslessCodecs(su.store) && Reachable(su, w) && e in Held(su.store, w.store)
    ensures Filler(su, w, q, e)
  {
    ReachableInv(su, w);
    assert Vouched(w.trace, |w.trace|, e);
    var i: nat :| StoredAt(w.trace, i, |w.trace|, e);
    assert Accounted(su, w, i);
    q := w.trace[i].pid;
  }

  /** What ServeFromCache and AwaitFill ask of the store holds in every state of every run. */
  lemma EveryRunIsServable(su: Setup, w: World, key: Bytes, now: int)
    requires LosslessCodecs(su.store) && Reachable(su, w)
    ensures Consistent(w.store)
    ensures HitServable(Read(su.store, w.store, key, now)) && HitServable(ReadStream(su.store, w.store, key, now))
  {
    ReachableInv(su, w);
    StreamAgreesWithGet(su.store, w.store, key, now);
    var a := Read(su.store, w.store, key, now);
    if a.Hit? {
      HitIsHeld(su.store, w.store, key, now);
      var q := HeldIsFilled(su, w, Entry(key, a.data, a.meta));
    }
  }

  // What the fill protocol promises holds here.

  lemma StepFollows(su: Setup, w: World, t: World)
    requires Leads(su, w, t)
    ensures t.fills == w.fills || Fills.Follows(w.fills, t.fills)
  {
  }

  /** What the fill protocol promises holds here: its part of every run is one of its own runs. */
  lemma {:induction false} FillsReachable(su: Setup, run: seq<World>, i: nat)
    requires IsRun(su, run) && i < |run|
    ensures Fills.Reachable(run[i].fills)
    decreases i
  {
    if i == 0 {
      assert Fills.IsRun([Fills.INITIAL]);
    } else {
      FillsReachable(su, run, i - 1);
      assert Leads(su, run[i - 1], run[i - 1 + 1]);
      StepFollows(su, run[i - 1], run[i]);
      if run[i].fills != run[i - 1].fills {
        var a :| Fills.Enabled(run[i - 1].fills, a) && run[i].fills == Fills.Apply(run[i - 1].fills, a);
        Fills.Reach(run[i - 1].fills, a, run[i].fills);
      }
    }
  }

  ghost predicate FetchesFor(su: Setup, w: World, pid: nat, key: Bytes) {
    && pid in w.fills.procs && w.fills.procs[pid].pc.Fetching? && pid in w.reqs && su.rules.key(w.reqs[pid]) == key
  }

  /**
   If every request for the key that missed is a range fill, the key is fetched by at most one
   request at a time, whatever goes on for other keys.
   */
  lemma OneUpstreamFetch(su: Setup, w: World, p: nat, q: nat, key: Bytes)
    requires LosslessCodecs(su.store) && Reachable(su, w)
    requires forall r :: r in w.missed && r in w.reqs && su.rules.key(w.reqs[r]) == key ==>
             su.rules.rangeFills(w.reqs[r])
    requires FetchesFor(su, w, p, key) && FetchesFor(su, w, q, key)
    ensures p == q
  {
    ReachableInv(su, w);
    var run :| IsRun(su, run) && run[|run| - 1] == w;
    FillsReachable(su, run, |run| - 1);
    var fills :| Fills.IsRun(fills) && fills[|fills| - 1] == w.fills;
    forall r | r in w.fills.procs
      ensures r in w.reqs && w.fills.procs[r].key == su.rules.key(w.reqs[r])
      ensures w.fills.procs[r].key == key ==> w.fills.procs[r].rangeFill
    {
      assert Member(su, w.reqs, w.missed, w.ups, r, w.fills.procs[r]);
    }
    OneOfTwo(fills, p, q, key);
  }

  lemma OneOfTwo(fills: seq<Fills.State>, p: nat, q: nat, key: Bytes)
    requires Fills.IsRun(fills)
    requires var s := fills[|fills| - 1];
             && FillLaws.KeyRangeFills(s, key) && p in s.procs && q in s.procs &&
                s.procs[p].key == s.procs[q].key == key
             && s.procs[p].pc.Fetching? && s.procs[q].pc.Fetching?
    ensures p == q
  {
    FillLaws.OneFetchPerKey(fills, |fills| - 1, p, q, key);
  }

  // A first run.

  ghost predicate NoneHeld(su: Setup, w: World, status: int) {
    forall e :: e in Held(su.store, w.store) ==> e.meta.status != status
  }

  /** The states of a single request that misses, is fetched and is stored. */
  ghost function Alone(key: Bytes, r: Request, fills: bool, pc: Fills.PC, once: Fills.OnceState, stores: nat,
                       ups: map<nat, Upstream>, answers: map<nat, Option<Kind>>): World {
    World(AloneFills(key, fills, pc, once, stores), EMPTY, map[0 := r], {0}, ups, answers, [])
  }

  ghost function AloneFills(key: Bytes, fills: bool, pc: Fills.PC, once: Fills.OnceState, stores: nat): Fills.State {
    Fills.State(map[key := 0], [Fills.Rec(key, 0, once, stores, false, 0)], map[0 := Fills.Proc(key, 0, fills, pc)])
  }

  ghost function AloneFetching(su: Setup, r: Request): World {
    Alone(su.rules.key(r), r, su.rules.rangeFills(r), Fills.Fetching, Fills.Unused, 0, map[], map[])
  }

  lemma MissReaches(su: Setup, r: Request)
    requires su.rules.admits(r) && !su.rules.readOnly(r)
    ensures Reachable(su, AloneFetching(su, r))
  {
    var key := su.rules.key(r);
    assert IsRun(su, [START]);
    var w1 := START.(reqs := map[0 := r]);
    assert START.reqs[0 := r] == w1.reqs;
    Reach(su, START, Arrive(0, r), w1);
    var out := Out([], [], "", []);
    assert AfterRead(su.store, EMPTY, key, 0) == EMPTY;
    var w2 := w1.(missed := {0});
    assert w1.missed + {0} == w2.missed;
    Reach(su, w1, Look(0, false, 0, out), w2);
    JoinReaches(su, r, w2);
  }

  lemma JoinReaches(su: Setup, r: Request, w: World)
    requires Reachable(su, w) && w == World(Fills.INITIAL, EMPTY, map[0 := r], {0}, map[], map[], [])
    ensures Reachable(su, AloneFetching(su, r))
  {
    var t := AloneFetching(su, r);
    var a := Fills.Acquire(0, su.rules.key(r), su.rules.rangeFills(r));
    assert ActionOf(su, w, Enter(0)) == Some(a);
    assert Moves(w.fills, a, t.fills);
    Reach(su, w, Enter(0), t);
  }

  lemma FetchReaches(su: Setup, r: Request, up: Upstream, answer: Option<Kind>)
    requires Reachable(su, AloneFetching(su, r)) && su.rules.captures(up) && Proper(up) &&
             su.rules.answers(r, up, answer)
    ensures Reachable(su, Alone(su.rules.key(r), r, su.rules.rangeFills(r), Fills.Closing(true), Fills.Unused, 0,
                                map[0 := up], map[0 := answer]))
  {
    var w := AloneFetching(su, r);
    var t := Alone(su.rules.key(r), r, su.rules.rangeFills(r), Fills.Closing(true), Fills.Unused, 0, map[0 := up],
                   map[0 := answer]);
    FetchMove(su.rules.key(r), su.rules.rangeFills(r));
    assert w.ups[0 := up] == t.ups && w.answers[0 := answer] == t.answers;
    assert FillStep(su, w, Fetched(0, up, answer), t);
    Reach(su, w, Fetched(0, up, answer), t);
  }

  lemma FetchMove(key: Bytes, fills: bool)
    ensures Moves(AloneFills(key, fills, Fills.Fetching, Fills.Unused, 0), Fills.FinishFetch(0, true),
                  AloneFills(key, fills, Fills.Closing(true), Fills.Unused, 0))
  {
    var p := Fills.Proc(key, 0, fills, Fills.Fetching);
    assert map[0 := p][0 := p.(pc := Fills.Closing(true))] == map[0 := p.(pc := Fills.Closing(true))];
  }

  lemma BeginMove(key: Bytes, fills: bool)
    ensures Moves(AloneFills(key, fills, Fills.Closing(true), Fills.Unused, 0), Fills.EnterOnce(0),
                  AloneFills(key, fills, Fills.Storing, Fills.Running(0), 0))
  {
    var p, rec := Fills.Proc(key, 0, fills, Fills.Closing(true)), Fills.Rec(key, 0, Fills.Unused, 0, false, 0);
    assert map[0 := p][0 := p.(pc := Fills.Storing)] == map[0 := p.(pc := Fills.Storing)];
    assert [rec][0 := rec.(once := Fills.Running(0))] == [rec.(once := Fills.Running(0))];
  }

  lemma CloseReaches(su: Setup, key: Bytes, r: Request, fills: bool, ups: map<nat, Upstream>,
                     answers: map<nat, Option<Kind>>)
    requires Reachable(su, Alone(key, r, fills, Fills.Closing(true), Fills.Unused, 0, ups, answers))
    ensures Reachable(su, Alone(key, r, fills, Fills.Storing, Fills.Running(0), 0, ups, answers))
  {
    var w := Alone(key, r, fills, Fills.Closing(true), Fills.Unused, 0, ups, answers);
    var t := Alone(key, r, fills, Fills.Storing, Fills.Running(0), 0, ups, answers);
    BeginMove(key, fills);
    assert FillStep(su, w, BeginClose(0), t);
    Reach(su, w, BeginClose(0), t);
  }

  lemma StoreReaches(su: Setup, r: Request, fills: bool, up: Upstream, answer: Option<Kind>, header: Header)
    returns (w: World)
    requires Reachable(su, Alone(su.rules.key(r), r, fills, Fills.Storing, Fills.Running(0), 0, map[0 := up],
                                 map[0 := answer]))
    requires AtClose(up, answer, header)
    requires Storing(su.store, EncodingKept(up, answer), Concat(up.writes))
    ensures var key, data, meta := su.rules.key(r), Concat(up.writes), Made(r, up, header, 0);
            && Reachable(su, w) && w.reqs == map[0 := r] && w.missed == {0} && w.ups == map[0 := up] &&
               w.answers == map[0 := answer]
            && w.store == AfterSet(su.store, EMPTY, key, meta, data, 0, 0)
  {
    var key, data, meta := su.rules.key(r), Concat(up.writes), Made(r, up, header, 0);
    var e := Entry(key, data, StoredMeta(su.store, meta, data, 0));
    var before := Alone(key, r, fills, Fills.Storing, Fills.Running(0), 0, map[0 := up], map[0 := answer]);
    var after := Alone(key, r, fills, Fills.Closed, Fills.Used, 1, map[0 := up], map[0 := answer]);
    w := after.(store := AfterSet(su.store, EMPTY, key, meta, data, 0, 0), trace := [Stored(0, e)]);
    LastMove(key, fills);
    assert before.trace + [Stored(0, e)] == w.trace;
    assert StoreStep(su, before, 0, header, 0, 0, w);
    Reach(su, before, Store(0, header, 0, 0), w);
  }

  lemma LastMove(key: Bytes, fills: bool)
    ensures Moves(AloneFills(key, fills, Fills.Storing, Fills.Running(0), 0), Fills.ExitOnce(0, true),
                  AloneFills(key, fills, Fills.Closed, Fills.Used, 1))
  {
  }

  /**
   A captured response of an allowed request is stored, in a run of that request alone, under any
   fields with the coding kept.
   */
  lemma FirstMissIsStored(su: Setup, r: Request, up: Upstream, answer: Option<Kind>, header: Header)
    returns (w: World, e: Entry)
    requires LosslessCodecs(su.store) && su.rules.admits(r) && !su.rules.readOnly(r)
    requires su.rules.captures(up) && Proper(up) && su.rules.answers(r, up, answer)
    requires AtClose(up, answer, header)
    requires Storing(su.store, EncodingKept(up, answer), Concat(up.writes))
    ensures Reachable(su, w) && w.reqs == map[0 := r] && w.ups == map[0 := up] && w.answers == map[0 := answer]
    ensures e in Held(su.store, w.store) && e.data == Concat(up.writes)
    ensures e.meta.status == FinalStatus(up) && StoredCoding(e.meta) == Join(EncodingKept(up, answer), ",")
  {
    MissReaches(su, r);
    FetchReaches(su, r, up, answer);
    CloseReaches(su, su.rules.key(r), r, su.rules.rangeFills(r), map[0 := up], map[0 := answer]);
    w := StoreReaches(su, r, su.rules.rangeFills(r), up, answer, header);
    var meta := Made(r, up, header, 0);
    RetainedIsUnpacked(header);
    RetainedValues(header, ENCODING);
    assert Retained(ENCODING);
    FirstIsHeld(su.store, su.rules.key(r), meta, Concat(up.writes));
    StoredMetaKeeps(su.store, meta, Concat(up.writes), 0);
    e := Entry(su.rules.key(r), Concat(up.writes), StoredMeta(su.store, meta, Concat(up.writes), 0));
  }

  lemma FirstIsHeld(cfg: Config, key: Bytes, meta: Metadata, data: Bytes)
    requires LosslessCodecs(cfg) && Unpacked(meta) && meta.timestamp == 0
    requires cfg.diskItemMaxSize > 0 ==> |data| <= cfg.diskItemMaxSize
    ensures Entry(key, data, StoredMeta(cfg, meta, data, 0)) in Held(cfg, AfterSet(cfg, EMPTY, key, meta, data, 0, 0))
  {
    var after := AfterSet(cfg, EMPTY, key, meta, data, 0, 0);
    FreshKeyIsVisible(cfg, EMPTY, key, meta, data, 0, 0);
    SetThenGet(cfg, EMPTY, key, meta, data, 0, 0, 0);
    SetKeepsConsistent(cfg, EMPTY, key, meta, data, 0, 0);
    HitIsHeld(cfg, after, key, 0);
  }

  /** And the next read finds it. */
  lemma FirstMissIsRead(su: Setup, r: Request, up: Upstream, answer: Option<Kind>, header: Header)
    returns (w: World, a: Answer)
    requires LosslessCodecs(su.store) && su.rules.admits(r) && !su.rules.readOnly(r)
    requires su.rules.captures(up) && Proper(up) && su.rules.answers(r, up, answer)
    requires AtClose(up, answer, header)
    requires Storing(su.store, EncodingKept(up, answer), Concat(up.writes))
    ensures Reachable(su, w) && w.reqs == map[0 := r] && w.missed == {0} &&
            a == Read(su.store, w.store, su.rules.key(r), 0)
    ensures a == Hit(Concat(up.writes), StoredMeta(su.store, Made(r, up, header, 0), Concat(up.writes), 0))
    ensures a.meta.status == FinalStatus(up)
    ensures StoredCoding(a.meta) == Join(EncodingKept(up, answer), ",")
  {
    MissReaches(su, r);
    FetchReaches(su, r, up, answer);
    CloseReaches(su, su.rules.key(r), r, su.rules.rangeFills(r), map[0 := up], map[0 := answer]);
    w := StoreReaches(su, r, su.rules.rangeFills(r), up, answer, header);
    a := Read(su.store, w.store, su.rules.key(r), 0);
    var meta := Made(r, up, header, 0);
    RetainedIsUnpacked(header);
    RetainedValues(header, ENCODING);
    assert Retained(ENCODING);
    FirstIsRead(su.store, su.rules.key(r), meta, Concat(up.writes));
    StoredMetaKeeps(su.store, meta, Concat(up.writes), 0);
  }

  lemma FirstIsRead(cfg: Config, key: Bytes, meta: Metadata, data: Bytes)
    requires LosslessCodecs(cfg) && Unpacked(meta) && meta.timestamp == 0
    requires cfg.diskItemMaxSize > 0 ==> |data| <= cfg.diskItemMaxSize
    ensures Read(cfg, AfterSet(cfg, EMPTY, key, meta, data, 0, 0), key, 0) == Hit(data, StoredMeta(cfg, meta, data, 0))
  {
    FreshKeyIsVisible(cfg, EMPTY, key, meta, data, 0, 0);
    SetThenGet(cfg, EMPTY, key, meta, data, 0, 0, 0);
  }

  /** A second request with the key of the first reads what the first left. */
  lemma HitReaches(su: Setup, v: World, r: Request, out: Out) returns (w: World)
    requires Reachable(su, v) && v.reqs == map[0 := r] && v.missed == {0} && su.rules.admits(r)
    requires var a := Read(su.store, v.store, su.rules.key(r), 0); a.Hit? && su.rules.replies(r, a.meta, a.data, out)
    ensures Reachable(su, w) && w.trace != [] && w.trace[|w.trace| - 1].Served? && w.trace[|w.trace| - 1].out == out
  {
    var key := su.rules.key(r);
    var a := Read(su.store, v.store, key, 0);
    var u := v.(reqs := v.reqs[1 := r]);
    Reach(su, v, Arrive(1, r), u);
    w := u.(store := AfterRead(su.store, u.store, key, 0),
            trace := u.trace + [Served(1, 0, Entry(key, a.data, a.meta), out)]);
    assert Answers(su, u, 1, true, false, 0, out, w);
    Reach(su, u, Look(1, false, 0, out), w);
  }

  /** Every answer on record was allowed for its response. */
  ghost predicate AllAnswersAllowed(su: Setup, w: World) {
    forall p :: p in w.answers ==> p in w.reqs && p in w.ups && su.rules.answers(w.reqs[p], w.ups[p], w.answers[p])
  }

  lemma StepKeepsAnswers(su: Setup, w: World, t: World)
    requires AllAnswersAllowed(su, w) && (forall p :: p in w.ups ==> p in w.answers) && Leads(su, w, t)
    ensures AllAnswersAllowed(su, t) && forall p :: p in t.ups ==> p in t.answers
  {
    var s :| Steps(su, w, s, t);
    OnlyFetchedAnswers(su, w, s, t);
  }

  lemma OnlyFetchedAnswers(su: Setup, w: World, s: Step, t: World)
    requires Steps(su, w, s, t)
    ensures forall p :: p in w.reqs ==> p in t.reqs && t.reqs[p] == w.reqs[p]
    ensures if s.Fetched? then
              && s.pid in t.reqs && s.pid !in w.ups && su.rules.answers(t.reqs[s.pid], s.up, s.answer)
              && t.ups == w.ups[s.pid := s.up] && t.answers == w.answers[s.pid := s.answer]
            else t.ups == w.ups && t.answers == w.answers
  {
  }

  lemma {:induction false} RunKeepsAnswers(su: Setup, run: seq<World>, i: nat)
    requires IsRun(su, run) && i < |run|
    ensures AllAnswersAllowed(su, run[i]) && forall p :: p in run[i].ups ==> p in run[i].answers
    decreases i
  {
    if i > 0 {
      RunKeepsAnswers(su, run, i - 1);
      assert Leads(su, run[i - 1], run[i - 1 + 1]);
      StepKeepsAnswers(su, run[i - 1], run[i]);
    }
  }

  lemma AnswersAllowed(su: Setup, w: World, q: nat)
    requires Reachable(su, w) && q in w.answers
    ensures q in w.reqs && q in w.ups && su.rules.answers(w.reqs[q], w.ups[q], w.answers[q])
  {
    var run :| IsRun(su, run) && run[|run| - 1] == w;
    RunKeepsAnswers(su, run, |run| - 1);
  }
}
