/** What the fill protocol promises to those who wait: collapsing, progress, and its link to SyncHandler. */
module FillLaws {
  import opened Basics
  import opened Fills

  // A follower is served.

  /** One step of a holder of record id. */
  ghost predicate HolderStep(s: State, id: nat, a: Action) {
    && Wellformed(s) && a.pid in s.procs && IsHolder(s.procs[a.pid]) && s.procs[a.pid].rec == id
    && !a.Acquire? && Enabled(s, a)
  }

  /** Whether a response may be stored, and whether it then is, is not up to the protocol: choose says it. */
  ghost predicate Honors(choose: State -> bool, s: State, a: Action) {
    (a.FinishFetch? ==> a.needCache == choose(s)) && (a.ExitOnce? ==> a.stored == choose(s))
  }

  ghost predicate HolderLeads(s: State, id: nat, choose: State -> bool, t: State) {
    exists a :: HolderStep(s, id, a) && Honors(choose, s, a) && t == Apply(s, a)
  }

  /** A run in which only holders of the record step. */
  ghost predicate HolderRun(run: seq<State>, id: nat, choose: State -> bool) {
    run != [] && forall i :: 0 <= i < |run| - 1 ==> HolderLeads(run[i], id, choose, run[i + 1])
  }

  /** The distance of the leader, and one more step while somebody is inside the sync.Once. */
  ghost function Distance(s: State, id: nat): nat
    requires Inv(s) && id < |s.recs|
  {
    2 * Rank(s.procs[s.recs[id].leader].pc) + if s.recs[id].once.Running? then 1 else 0
  }

  ghost function Advance(s: State, id: nat, choose: State -> bool): Action
    requires Inv(s) && id < |s.recs|
  {
    var leader := s.recs[id].leader;
    match s.procs[leader].pc
    case Fetching => FinishFetch(leader, choose(s))
    case Closing(_) => if s.recs[id].once.Running? then ExitOnce(s.recs[id].once.inside, choose(s))
      else EnterOnce(leader)
    case Storing => ExitOnce(leader, choose(s))
    case Closed => Delete(leader)
    case _ => CloseDone(leader)
  }

  /** While done is open some holder can step, whatever it decides. */
  lemma AdvanceIsEnabled(s: State, id: nat, choose: State -> bool)
    requires Inv(s) && id < |s.recs| && s.recs[id].closes == 0
    ensures HolderStep(s, id, Advance(s, id, choose)) && Honors(choose, s, Advance(s, id, choose))
  {
    var leader := s.recs[id].leader;
    assert leader in s.procs && s.procs[leader].rec == id && IsHolder(s.procs[leader]);
  }

  /** Leaving the sync.Once frees it. */
  lemma ExitFrees(s: State, a: Action, id: nat)
    requires Wellformed(s) && Enabled(s, a) && id < |s.recs| <= |Apply(s, a).recs|
    ensures a.ExitOnce? && s.procs[a.pid].rec == id ==> Apply(s, a).recs[id].once == Used
  {
  }

  /** That step brings the leader nearer to its release. */
  lemma AdvanceIsNearer(s: State, id: nat, choose: State -> bool)
    requires Inv(s) && id < |s.recs| && s.recs[id].closes == 0 && HolderStep(s, id, Advance(s, id, choose))
    ensures var t := Apply(s, Advance(s, id, choose));
            Inv(t) && id < |t.recs| && Distance(t, id) < Distance(s, id)
  {
    var a := Advance(s, id, choose);
    StepKeeps(s, a);
    StepExtends(s, a);
    NobodyDelaysTheLeader(s, a, id);
    ExitFrees(s, a, id);
    assert a.pid == s.recs[id].leader || (a.ExitOnce? && s.procs[a.pid].rec == id && s.recs[id].once.Running?);
  }

  lemma HolderRunCons(s: State, rest: seq<State>, id: nat, choose: State -> bool)
    requires HolderRun(rest, id, choose) && HolderLeads(s, id, choose, rest[0])
    ensures HolderRun([s] + rest, id, choose)
  {
    var run := [s] + rest;
    forall i | 0 <= i < |run| - 1 ensures HolderLeads(run[i], id, choose, run[i + 1]) {
      if i > 0 {
        assert HolderLeads(rest[i - 1], id, choose, rest[i - 1 + 1]);
      }
    }
  }

  lemma {:induction false} DoneIsClosed(s: State, id: nat, choose: State -> bool) returns (run: seq<State>)
    requires Inv(s) && id < |s.recs|
    ensures HolderRun(run, id, choose) && run[0] == s
    ensures id < |run[|run| - 1].recs| && run[|run| - 1].recs[id].closes > 0
    decreases Distance(s, id)
  {
    if s.recs[id].closes > 0 {
      run := [s];
    } else {
      AdvanceIsEnabled(s, id, choose);
      AdvanceIsNearer(s, id, choose);
      var t := Apply(s, Advance(s, id, choose));
      assert HolderLeads(s, id, choose, t);
      var rest := DoneIsClosed(t, id, choose);
      HolderRunCons(s, rest, id, choose);
      run := [s] + rest;
    }
  }

  /** Nobody moves the leader away from its release, and each step of its own brings it nearer. */
  lemma NobodyDelaysTheLeader(s: State, a: Action, id: nat)
    requires Inv(s) && Enabled(s, a) && id < |s.recs|
    ensures var leader, t := s.recs[id].leader, Apply(s, a);
            && leader in t.procs && Rank(t.procs[leader].pc) <= Rank(s.procs[leader].pc)
            && (a.pid == leader ==> Rank(t.procs[leader].pc) < Rank(s.procs[leader].pc))
  {
    StepExtends(s, a);
    StepActs(s, a);
    StaysInPlace(s, a, Apply(s, a), s.recs[id].leader);
  }

  lemma StaysInPlace(s: State, a: Action, t: State, p: nat)
    requires Extends(s, a, t) && Acts(s, a, t) && p in s.procs && IsHolder(s.procs[p]) &&
             (a.Acquire? ==> a.pid !in s.procs)
    ensures p in t.procs && Rank(t.procs[p].pc) <= Rank(s.procs[p].pc)
    ensures a.pid == p ==> Rank(t.procs[p].pc) < Rank(s.procs[p].pc)
  {
  }

  ghost predicate EndsClosed(s: State, id: nat, choose: State -> bool) {
    exists run: seq<State> :: HolderRun(run, id, choose) && run[0] == s && id < |run[|run| - 1].recs| &&
      run[|run| - 1].recs[id].closes > 0
  }

  /**
   What a waiting follower can count on, in every state of every run: while done is open, the
   leader is a live holder, and whatever is decided about storing, steps of holders of the
   record alone end with done closed; and when done is closed, so that the follower can wake,
   a holder has been through Close and its store.
   */
  lemma FollowerIsServed(run: seq<State>, i: nat, pid: nat)
    requires IsRun(run) && i < |run| && pid in run[i].procs && run[i].procs[pid].pc == Waiting
    ensures Wellformed(run[i])
    ensures var s, id := run[i], run[i].procs[pid].rec;
            if s.recs[id].closes > 0 then Enabled(s, Wake(pid)) && HasReleased(s, id)
            else
              var leader := s.recs[id].leader;
              && leader in s.procs && s.procs[leader].rec == id && IsHolder(s.procs[leader]) &&
                 s.procs[leader].pc != Released
              && forall choose :: EndsClosed(s, id, choose)
  {
    EveryRunKeepsInv(run, i);
    var s, id := run[i], run[i].procs[pid].rec;
    forall choose ensures EndsClosed(s, id, choose) {
      var ending := DoneIsClosed(s, id, choose);
    }
  }

  // When every request for a key is a range fill.

  ghost predicate KeyRangeFills(s: State, key: Bytes) {
    forall p :: p in s.procs && s.procs[p].key == key ==> s.procs[p].rangeFill
  }

  /** Every holder of a record of the key is its leader, and until it releases, the record is in the map. */
  ghost predicate OneHolder(s: State, key: Bytes)
    requires Wellformed(s)
  {
    forall p :: p in s.procs && IsHolder(s.procs[p]) && s.procs[p].key == key ==> Sole(s, p)
  }

  ghost predicate Sole(s: State, p: nat)
    requires Wellformed(s) && p in s.procs
  {
    var q := s.procs[p];
    && s.recs[q.rec].leader == p
    && (BeforeRelease(q) ==> q.key in s.inFlight && s.inFlight[q.key] == q.rec)
  }

  lemma KeepsSole(s: State, a: Action, t: State, p: nat)
    requires Refers(s) && Refers(t) && Extends(s, a, t) && p in t.procs && IsHolder(t.procs[p])
    requires OneHolder(s, t.procs[p].key) && (p != a.pid || !a.Acquire?)
    ensures Sole(t, p)
  {
    var q := t.procs[p];
    assert p in s.procs && IsHolder(s.procs[p]) && q.rec == s.procs[p].rec < |s.recs| && q.key == s.procs[p].key;
    assert Sole(s, p);
    if BeforeRelease(q) && a.Delete? {
      var d := s.procs[a.pid];
      assert d.key == q.key ==> Sole(s, a.pid);
      assert s.recs[d.rec].key == d.key && s.recs[q.rec].key == q.key;
    }
  }

  lemma KeepsOneHolder(s: State, a: Action, key: Bytes)
    requires Inv(s) && Enabled(s, a) && KeyRangeFills(Apply(s, a), key) && OneHolder(s, key)
    ensures Inv(Apply(s, a)) && OneHolder(Apply(s, a), key)
  {
    StepKeeps(s, a);
    StepExtends(s, a);
    forall p | p in Apply(s, a).procs && IsHolder(Apply(s, a).procs[p]) && Apply(s, a).procs[p].key == key
      ensures Sole(Apply(s, a), p)
    {
      if p != a.pid || !a.Acquire? {
        KeepsSole(s, a, Apply(s, a), p);
      } else {
        assert Apply(s, a).procs[p].rangeFill;
      }
    }
  }

  lemma {:induction false} RangeRunKeepsOneHolder(run: seq<State>, i: nat, key: Bytes)
    requires IsRun(run) && i < |run| && KeyRangeFills(run[i], key)
    ensures Inv(run[i]) && OneHolder(run[i], key)
    decreases i
  {
    if i > 0 {
      assert Follows(run[i - 1], run[i - 1 + 1]);
      var s := run[i - 1];
      var a :| Enabled(s, a) && run[i] == Apply(s, a);
      StepExtends(s, a);
      forall p | p in s.procs && s.procs[p].key == key ensures s.procs[p].rangeFill {
        assert run[i].procs[p].rangeFill == s.procs[p].rangeFill && run[i].procs[p].key == key;
      }
      RangeRunKeepsOneHolder(run, i - 1, key);
      KeepsOneHolder(s, a, key);
    }
  }

  /**
   If every request for a key is a range fill, no two of them fetch it at the same time, and
   a follower can only wake once the leader itself has been through Close; whatever the
   requests for other keys are.
   */
  lemma OneFetchPerKey(run: seq<State>, i: nat, p: nat, q: nat, key: Bytes)
    requires IsRun(run) && i < |run| && KeyRangeFills(run[i], key) && p in run[i].procs && q in run[i].procs
    requires run[i].procs[p].key == run[i].procs[q].key == key
    ensures run[i].procs[p].pc == Fetching && run[i].procs[q].pc == Fetching ==> p == q
    ensures Wellformed(run[i])
    ensures Enabled(run[i], Wake(p)) ==>
              var leader := run[i].recs[run[i].procs[p].rec].leader;
              leader in run[i].procs && run[i].procs[leader].pc == Released
  {
    RangeRunKeepsOneHolder(run, i, key);
    var s := run[i];
    assert s.procs[p].pc == Fetching ==> Sole(s, p);
    assert s.procs[q].pc == Fetching ==> Sole(s, q);
    if Enabled(s, Wake(p)) {
      WakerIsLeader(s, p);
    }
  }

  lemma WakerIsLeader(s: State, p: nat)
    requires Inv(s) && p in s.procs && OneHolder(s, s.procs[p].key) && s.recs[s.procs[p].rec].closes > 0
    ensures var leader := s.recs[s.procs[p].rec].leader; leader in s.procs && s.procs[leader].pc == Released
  {
    var id := s.procs[p].rec;
    var h :| h in s.procs && s.procs[h].rec == id && s.procs[h].pc == Released;
    assert s.recs[id].key == s.procs[p].key == s.procs[h].key;
    assert Sole(s, h);
  }

  ghost predicate RangeFetching(s: State, pid: nat, key: Bytes) {
    pid in s.procs && s.procs[pid].rangeFill && s.procs[pid].key == key && s.procs[pid].pc == Fetching
  }

  /**
   Without that assumption it fails: an ordinary request joins a range fill, ends first and
   releases the shared record, and the next range request starts a second full fetch.
   */
  lemma JoinerEndsCollapsing(key: Bytes)
    ensures exists s: State :: Reachable(s) && RangeFetching(s, 0, key) && RangeFetching(s, 2, key)
  {
    var leader, joiner := Proc(key, 0, true, Fetching), Proc(key, 0, false, Fetching);
    var rec := Rec(key, 0, Unused, 0, false, 0);
    var s1 := State(map[key := 0], [rec], map[0 := leader]);
    var s5 := State(map[], [rec], map[0 := leader, 1 := joiner.(pc := Deleted)]);
    var s6 := State(map[key := 1], [rec, rec.(leader := 2)], s5.procs[2 := leader.(rec := 1)]);
    assert IsRun([INITIAL]);
    Reach(INITIAL, Acquire(0, key, true), s1);
    JoinerReleases(key, s1, s5);
    Reach(s5, Acquire(2, key, true), s6);
  }

  lemma JoinerReleases(key: Bytes, s: State, t: State)
    requires s.recs == [Rec(key, 0, Unused, 0, false, 0)] && s.inFlight == map[key := 0]
    requires s.procs == map[0 := Proc(key, 0, true, Fetching)]
    requires t == State(map[], s.recs, s.procs[1 := Proc(key, 0, false, Deleted)])
    requires Reachable(s)
    ensures Reachable(t)
  {
    var joiner := Proc(key, 0, false, Fetching);
    var s2 := s.(procs := s.procs[1 := joiner]);
    var s3 := s.(procs := s.procs[1 := joiner.(pc := Closing(false))]);
    var s4 := s.(procs := s.procs[1 := joiner.(pc := Closed)]);
    Reach(s, Acquire(1, key, false), s2);
    assert s2.procs[1 := joiner.(pc := Closing(false))] == s3.procs;
    Reach(s2, FinishFetch(1, false), s3);
    assert s3.procs[1 := joiner.(pc := Closed)] == s4.procs;
    Reach(s3, EnterOnce(1), s4);
    assert s4.procs[1 := joiner.(pc := Deleted)] == t.procs;
    Reach(s4, Delete(1), t);
  }

  /** No two range requests for the key are fetching it in full. */
  ghost predicate OneRangeFetch(s: State, key: Bytes) {
    forall p, q :: RangeFetching(s, p, key) && RangeFetching(s, q, key) ==> p == q
  }

  /** Concurrent range requests for a key collapse onto one fetch exactly if no ordinary request for it is allowed. */
  lemma CollapsingExactlyWhen(key: Bytes, ordinary: bool)
    ensures (forall s :: Reachable(s) && (ordinary || KeyRangeFills(s, key)) ==> OneRangeFetch(s, key)) <==> !ordinary
  {
    if ordinary {
      JoinerEndsCollapsing(key);
    } else {
      forall s | Reachable(s) && KeyRangeFills(s, key) ensures OneRangeFetch(s, key) {
        var run :| IsRun(run) && run[|run| - 1] == s;
        forall p, q | RangeFetching(s, p, key) && RangeFetching(s, q, key) ensures p == q {
          OneFetchPerKey(run, |run| - 1, p, q, key);
        }
      }
    }
  }

  // The steps are what SyncHandler does.

  /** The map of SyncHandler and the map of the protocol agree; objs are the records in the order of their making. */
  ghost predicate Names<F>(inFlight: map<Bytes, F>, ids: map<Bytes, nat>, objs: seq<F>) {
    && (forall i, j :: 0 <= i < j < |objs| ==> objs[i] != objs[j])
    && inFlight.Keys == ids.Keys
    && forall k :: k in ids ==> ids[k] < |objs| && inFlight[k] == objs[ids[k]]
  }

  /** What AcquireFill leaves behind and returns is an Acquire of the protocol. */
  lemma AcquireIsAStep<F>(s: State, pid: nat, key: Bytes, rangeFill: bool, objs: seq<F>,
                          before: map<Bytes, F>, after: map<Bytes, F>, f: F, isLeader: bool)
    requires Wellformed(s) && pid !in s.procs && |objs| == |s.recs| && Names(before, s.inFlight, objs)
    requires isLeader <==> key !in before
    requires isLeader ==> f !in objs && after == before[key := f]
    requires !isLeader ==> f == before[key] && after == before
    ensures Enabled(s, Acquire(pid, key, rangeFill))
    ensures var t, more := Apply(s, Acquire(pid, key, rangeFill)), if isLeader then objs + [f] else objs;
            && |more| == |t.recs| && Names(after, t.inFlight, more)
            && more[t.procs[pid].rec] == f && (isLeader <==> t.procs[pid].rec == |s.recs|)
  {
  }

  /** What ReleaseFill does to the map is the Delete of the protocol. */
  lemma ReleaseDeletes<F>(s: State, pid: nat, objs: seq<F>, before: map<Bytes, F>, f: F)
    requires Wellformed(s) && pid in s.procs && s.procs[pid].pc == Closed && |objs| == |s.recs| &&
             Names(before, s.inFlight, objs)
    requires f == objs[s.procs[pid].rec]
    ensures Enabled(s, Delete(pid))
    ensures Names(AfterRelease(before, s.procs[pid].key, f), Apply(s, Delete(pid)).inFlight, objs)
  {
    var key, id := s.procs[pid].key, s.procs[pid].rec;
    assert key in s.inFlight ==> (before[key] == f <==> s.inFlight[key] == id);
  }

  /** And what it does to the record is the CloseDone, for everyone who releases it. */
  lemma ReleaseCloses(s: State, pid: nat)
    requires Wellformed(s) && ClosedOnce(s) && pid in s.procs && s.procs[pid].pc == Deleted
    ensures Enabled(s, CloseDone(pid))
    ensures var t := Apply(s, CloseDone(pid)); t.inFlight == s.inFlight && t.recs[s.procs[pid].rec].closes == 1
  {
  }

  /**
   Close uses the sync.Once as the protocol says: used before is what Close finds, and what it
   leaves is used or the response's own need for it. It gets inside exactly when it stores.
   */
  lemma CloseIsTwoSteps(s: State, pid: nat, stored: bool)
    requires Inv(s) && pid in s.procs && s.procs[pid].pc.Closing? && !s.recs[s.procs[pid].rec].once.Running?
    ensures var id, needCache, used := s.procs[pid].rec, s.procs[pid].pc.needCache, s.recs[s.procs[pid].rec].once.Used?;
            && Enabled(s, EnterOnce(pid))
            && var t := Apply(s, EnterOnce(pid));
               if needCache && !used then
                 && t.procs[pid].pc == Storing && Wellformed(t) && Enabled(t, ExitOnce(pid, stored))
                 && var u := Apply(t, ExitOnce(pid, stored));
                    u.procs[pid].pc == Closed && u.recs[id].once.Used? && (stored ==> u.recs[id].stores == 1)
               else t.procs[pid].pc == Closed && (t.recs[id].once.Used? <==> used || needCache)
  {
    StepKeeps(s, EnterOnce(pid));
    assert s.recs[s.procs[pid].rec].stores <= if s.recs[s.procs[pid].rec].once.Used? then 1 else 0;
  }
}
