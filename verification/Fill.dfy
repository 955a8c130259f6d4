/**
 Collapsing concurrent fills of one key: acquireFill and releaseFill of sidekick.go, and the
 protocol that leaders, joiners and followers run over them, as interleaved steps.
 */
module Fills {
  import opened Basics

  /** The delete half of a release: only the record that is still the current one is removed. */
  function AfterRelease<F(==)>(inFlight: map<Bytes, F>, key: Bytes, f: F): map<Bytes, F> {
    if key in inFlight && inFlight[key] == f then inFlight - {key} else inFlight
  }

  /** A fill record; closes counts how often the channel done was closed. */
  class InflightFill {
    var closes: nat
    var closeOnce: bool

    ghost predicate Valid()
      reads this
    {
      closes == if closeOnce then 1 else 0
    }

    constructor ()
      ensures Valid() && closes == 0
    {
      closes, closeOnce := 0, false;
    }

    method CloseDone()
      requires Valid()
      modifies this
      ensures Valid() && closes == 1
    {
      if !closeOnce {
        closeOnce := true;
        closes := closes + 1;
      }
    }
  }

  class SyncHandler {
    var inFlight: map<Bytes, InflightFill>

    constructor ()
      ensures inFlight == map[]
    {
      inFlight := map[];
    }

    method AcquireFill(key: Bytes) returns (f: InflightFill, isLeader: bool)
      modifies this
      ensures isLeader <==> key !in old(inFlight)
      ensures isLeader ==> fresh(f) && f.Valid() && f.closes == 0 && inFlight == old(inFlight)[key := f]
      ensures !isLeader ==> f == old(inFlight)[key] && inFlight == old(inFlight)
    {
      if key in inFlight {
        return inFlight[key], false;
      }
      f := new InflightFill();
      inFlight := inFlight[key := f];
      return f, true;
    }

    method ReleaseFill(key: Bytes, f: InflightFill)
      requires f.Valid()
      modifies this, f
      ensures inFlight == AfterRelease(old(inFlight), key, f)
      ensures f.Valid() && f.closes == 1
    {
      if key in inFlight && inFlight[key] == f {
        inFlight := inFlight - {key};
      }
      f.CloseDone();
    }
  }

  // The protocol. A record is named by its position in recs, a request by its number.

  datatype OnceState = Unused | Running(inside: nat) | Used

  datatype Rec = Rec(key: Bytes, leader: nat, once: OnceState, stores: nat, closeOnce: bool, closes: nat)

  /**
   Where a request is. Holders (the leader and everyone who joins without a range fill) go
   from Fetching to Released; Closing is the deferred Close before its sync.Once, Storing is
   inside it, Closed is after Close returned, Deleted is between the two steps of a release.
   Followers wait, and then wake or give up.
   */
  datatype PC = Fetching | Closing(needCache: bool) | Storing | Closed | Deleted | Released | Waiting | Woken | GaveUp

  datatype Proc = Proc(key: Bytes, rec: nat, rangeFill: bool, pc: PC)

  predicate IsHolder(p: Proc) {
    !p.pc.Waiting? && !p.pc.Woken? && !p.pc.GaveUp?
  }

  datatype State = State(inFlight: map<Bytes, nat>, recs: seq<Rec>, procs: map<nat, Proc>)

  const INITIAL := State(map[], [], map[])

  datatype Action =
    | Acquire(pid: nat, key: Bytes, rangeFill: bool)
    | FinishFetch(pid: nat, needCache: bool)
    | EnterOnce(pid: nat)
    | ExitOnce(pid: nat, stored: bool)
    | Delete(pid: nat)
    | CloseDone(pid: nat)
    | Wake(pid: nat)
    | GiveUp(pid: nat)

  predicate Wellformed(s: State) {
    && (forall p :: p in s.procs ==> s.procs[p].rec < |s.recs|)
    && (forall k :: k in s.inFlight ==> s.inFlight[k] < |s.recs|)
  }

  predicate Enabled(s: State, a: Action)
    requires Wellformed(s)
  {
    match a
    case Acquire(pid, _, _) => pid !in s.procs
    case FinishFetch(pid, _) => pid in s.procs && s.procs[pid].pc == Fetching
    case EnterOnce(pid) => pid in s.procs && s.procs[pid].pc.Closing? &&
                           (s.procs[pid].pc.needCache ==> !s.recs[s.procs[pid].rec].once.Running?)
    case ExitOnce(pid, _) => pid in s.procs && s.procs[pid].pc == Storing
    case Delete(pid) => pid in s.procs && s.procs[pid].pc == Closed
    case CloseDone(pid) => pid in s.procs && s.procs[pid].pc == Deleted
    case Wake(pid) => pid in s.procs && s.procs[pid].pc == Waiting && s.recs[s.procs[pid].rec].closes > 0
    case GiveUp(pid) => pid in s.procs && s.procs[pid].pc == Waiting
  }

  function Moved(s: State, pid: nat, pc: PC): State
    requires pid in s.procs
  {
    s.(procs := s.procs[pid := s.procs[pid].(pc := pc)])
  }

  function WithRec(s: State, id: nat, r: Rec): State
    requires id < |s.recs|
  {
    s.(recs := s.recs[id := r])
  }

  function Apply(s: State, a: Action): State
    requires Wellformed(s) && Enabled(s, a)
  {
    match a
    case Acquire(pid, key, rangeFill) =>
      if key in s.inFlight then
        s.(procs := s.procs[pid := Proc(key, s.inFlight[key], rangeFill, if rangeFill then Waiting else Fetching)])
      else
        State(s.inFlight[key := |s.recs|], s.recs + [Rec(key, pid, Unused, 0, false, 0)],
              s.procs[pid := Proc(key, |s.recs|, rangeFill, Fetching)])
    case FinishFetch(pid, needCache) => Moved(s, pid, Closing(needCache))
    case EnterOnce(pid) =>
      var id := s.procs[pid].rec;
      if s.procs[pid].pc.needCache && s.recs[id].once.Unused? then
        WithRec(Moved(s, pid, Storing), id, s.recs[id].(once := Running(pid)))
      else Moved(s, pid, Closed)
    case ExitOnce(pid, stored) =>
      var id := s.procs[pid].rec;
      WithRec(Moved(s, pid, Closed), id,
              s.recs[id].(once := Used, stores := s.recs[id].stores + if stored then 1 else 0))
    case Delete(pid) =>
      Moved(s, pid, Deleted).(inFlight := AfterRelease(s.inFlight, s.procs[pid].key, s.procs[pid].rec))
    case CloseDone(pid) =>
      var id := s.procs[pid].rec;
      var m := Moved(s, pid, Released);
      if s.recs[id].closeOnce then m
      else WithRec(m, id, s.recs[id].(closeOnce := true, closes := s.recs[id].closes + 1))
    case Wake(pid) => Moved(s, pid, Woken)
    case GiveUp(pid) => Moved(s, pid, GaveUp)
  }

  // What every interleaving keeps.

  /** Requests and map entries refer to records of their own key. */
  ghost predicate Refers(s: State) {
    && Wellformed(s)
    && (forall p :: p in s.procs ==> s.recs[s.procs[p].rec].key == s.procs[p].key)
    && (forall k :: k in s.inFlight ==> s.recs[s.inFlight[k]].key == k)
  }

  /** A record in the map is unreleased and its done is open. */
  ghost predicate Unreleased(s: State)
    requires Wellformed(s)
  {
    && (forall k :: k in s.inFlight ==> s.recs[s.inFlight[k]].closes == 0)
    && (forall p :: p in s.procs && (s.procs[p].pc.Deleted? || s.procs[p].pc.Released?) ==>
          !(s.procs[p].key in s.inFlight && s.inFlight[s.procs[p].key] == s.procs[p].rec))
  }

  /** done is closed at most once, and only by a holder that has finished Close and released. */
  ghost predicate ClosedOnce(s: State) {
    forall id :: 0 <= id < |s.recs| ==>
      && s.recs[id].closes == (if s.recs[id].closeOnce then 1 else 0)
      && (s.recs[id].closes > 0 ==> HasReleased(s, id))
  }

  /** While done is open the request that created the record is a live holder that will close it. */
  ghost predicate LeaderLive(s: State) {
    forall id :: 0 <= id < |s.recs| ==>
      var r := s.recs[id];
      && r.leader in s.procs && s.procs[r.leader].rec == id && IsHolder(s.procs[r.leader])
      && (r.closes == 0 ==> s.procs[r.leader].pc != Released)
  }

  /** Each record stores at most once, and only the request inside the sync.Once is storing. */
  ghost predicate StoresOnce(s: State)
    requires Wellformed(s)
  {
    && (forall id :: 0 <= id < |s.recs| ==> s.recs[id].stores <= if s.recs[id].once.Used? then 1 else 0)
    && (forall p :: p in s.procs && s.procs[p].pc == Storing ==> s.recs[s.procs[p].rec].once == Running(p))
    && (forall id :: 0 <= id < |s.recs| && s.recs[id].once.Running? ==>
          var p := s.recs[id].once.inside;
          p in s.procs && s.procs[p].pc == Storing && s.procs[p].rec == id)
  }

  ghost predicate Inv(s: State) {
    Refers(s) && Unreleased(s) && ClosedOnce(s) && LeaderLive(s) && StoresOnce(s)
  }

  /** What any step leaves alone. */
  ghost predicate Extends(s: State, a: Action, t: State) {
    && |s.recs| <= |t.recs| && a.pid in t.procs && (a.pid in s.procs <==> !a.Acquire?)
    && (forall id :: 0 <= id < |s.recs| ==> t.recs[id].key == s.recs[id].key && t.recs[id].leader == s.recs[id].leader)
    && (forall p :: p in t.procs && p != a.pid ==> p in s.procs && t.procs[p] == s.procs[p])
    && (forall p :: p in s.procs ==> p in t.procs)
    && (forall k :: k in t.inFlight ==>
        (k in s.inFlight && t.inFlight[k] == s.inFlight[k]) || (a.Acquire? && t.inFlight[k] == |s.recs|))
    && (a.pid in s.procs ==> t.procs[a.pid] == s.procs[a.pid].(pc := t.procs[a.pid].pc))
    && (a.Delete? ==> IsHolder(s.procs[a.pid]))
    && (a.Delete? ==> forall k :: k in s.inFlight && k !in t.inFlight ==> s.inFlight[k] == s.procs[a.pid].rec)
    && (!a.Delete? ==> forall k :: k in s.inFlight ==> k in t.inFlight && t.inFlight[k] == s.inFlight[k])
    && (!a.Acquire? ==> BeforeRelease(t.procs[a.pid]) ==> !a.Delete? && BeforeRelease(s.procs[a.pid]))
    && (!a.Acquire? ==> IsHolder(t.procs[a.pid]) ==> IsHolder(s.procs[a.pid]))
  }

  predicate BeforeRelease(p: Proc) {
    p.pc.Fetching? || p.pc.Closing? || p.pc.Storing? || p.pc.Closed?
  }

  lemma StepExtends(s: State, a: Action)
    requires Wellformed(s) && Enabled(s, a)
    ensures Extends(s, a, Apply(s, a))
  {
  }

  /** How far a holder is from its release. */
  function Rank(pc: PC): nat {
    match pc
    case Fetching => 5
    case Closing(_) => 4
    case Storing => 3
    case Closed => 2
    case Deleted => 1
    case _ => 0
  }

  /** What a step does to the request that takes it. */
  ghost predicate Acts(s: State, a: Action, t: State) {
    && a.pid in t.procs
    && var q := t.procs[a.pid];
       && (a.Acquire? ==> q.key == a.key && q.rangeFill == a.rangeFill)
       && (!a.Acquire? ==> a.pid in s.procs && q == s.procs[a.pid].(pc := q.pc))
       && (q.pc.Closing? ==> a.FinishFetch? && q.pc.needCache == a.needCache)
       && (q.pc.Storing? ==> a.EnterOnce? && s.procs[a.pid].pc == Closing(true))
       && (a.ExitOnce? ==> s.procs[a.pid].pc.Storing?)
       && (!a.Acquire? && IsHolder(s.procs[a.pid]) ==> IsHolder(q) && Rank(q.pc) < Rank(s.procs[a.pid].pc))
  }

  lemma StepActs(s: State, a: Action)
    requires Wellformed(s) && Enabled(s, a)
    ensures Acts(s, a, Apply(s, a))
  {
  }

  lemma KeepsRefers(s: State, a: Action)
    requires Refers(s) && Enabled(s, a)
    ensures Refers(Apply(s, a))
  {
    StepExtends(s, a);
    var t := Apply(s, a);
    assert t.procs[a.pid].rec < |t.recs| && t.recs[t.procs[a.pid].rec].key == t.procs[a.pid].key;
  }

  lemma KeepsOpen(s: State, a: Action, k: Bytes)
    requires Refers(s) && Unreleased(s) && Enabled(s, a) && k in Apply(s, a).inFlight
    ensures var t := Apply(s, a); t.inFlight[k] < |t.recs| && t.recs[t.inFlight[k]].closes == 0
  {
    if a.CloseDone? {
      assert s.recs[s.inFlight[k]].key == k;
      assert s.inFlight[k] != s.procs[a.pid].rec;
    }
  }

  lemma KeepsGone(s: State, a: Action, p: nat)
    requires Refers(s) && Unreleased(s) && Enabled(s, a) && p in Apply(s, a).procs
    ensures var t := Apply(s, a);
            t.procs[p].pc.Deleted? || t.procs[p].pc.Released? ==>
              !(t.procs[p].key in t.inFlight && t.inFlight[t.procs[p].key] == t.procs[p].rec)
  {
    if p != a.pid {
      assert Apply(s, a).procs[p] == s.procs[p];
    }
  }

  lemma KeepsUnreleased(s: State, a: Action)
    requires Refers(s) && Unreleased(s) && Enabled(s, a)
    ensures Wellformed(Apply(s, a)) && Unreleased(Apply(s, a))
  {
    KeepsRefers(s, a);
    forall k | k in Apply(s, a).inFlight ensures Apply(s, a).recs[Apply(s, a).inFlight[k]].closes == 0 {
      KeepsOpen(s, a, k);
    }
    forall p | p in Apply(s, a).procs
      ensures var q := Apply(s, a).procs[p];
              q.pc.Deleted? || q.pc.Released? ==>
                !(q.key in Apply(s, a).inFlight && Apply(s, a).inFlight[q.key] == q.rec)
    {
      KeepsGone(s, a, p);
    }
  }

  /** Some holder of the record has released it. */
  ghost predicate HasReleased(s: State, id: nat) {
    exists p :: p in s.procs && s.procs[p].rec == id && s.procs[p].pc == Released
  }

  lemma ReleasedStays(s: State, a: Action, id: nat)
    requires Wellformed(s) && Enabled(s, a) && HasReleased(s, id)
    ensures HasReleased(Apply(s, a), id)
  {
    var p :| p in s.procs && s.procs[p].rec == id && s.procs[p].pc == Released;
    assert Apply(s, a).procs[p] == s.procs[p];
  }

  lemma KeepsClosedOnce(s: State, a: Action)
    requires Wellformed(s) && ClosedOnce(s) && Enabled(s, a)
    ensures ClosedOnce(Apply(s, a))
  {
    var t := Apply(s, a);
    forall id | 0 <= id < |t.recs|
      ensures t.recs[id].closes == if t.recs[id].closeOnce then 1 else 0
      ensures t.recs[id].closes > 0 ==> HasReleased(t, id)
    {
      if id < |s.recs| && s.recs[id].closes > 0 {
        ReleasedStays(s, a, id);
      } else if a.CloseDone? && s.procs[a.pid].rec == id {
        assert t.procs[a.pid].pc == Released;
      }
    }
  }

  lemma KeepsLeaderLive(s: State, a: Action)
    requires Wellformed(s) && LeaderLive(s) && ClosedOnce(s) && Enabled(s, a)
    ensures LeaderLive(Apply(s, a))
  {
    var t := Apply(s, a);
    forall id | 0 <= id < |t.recs|
      ensures var r := t.recs[id];
              && r.leader in t.procs && t.procs[r.leader].rec == id && IsHolder(t.procs[r.leader])
              && (r.closes == 0 ==> t.procs[r.leader].pc != Released)
    {
      if id < |s.recs| {
        var leader := s.recs[id].leader;
        assert t.recs[id].leader == leader && leader in t.procs && t.recs[id].closes >= s.recs[id].closes;
        if a.Acquire? {
          assert t.procs[leader] == s.procs[leader];
        }
      }
    }
  }

  lemma KeepsStoresOnce(s: State, a: Action)
    requires Refers(s) && StoresOnce(s) && Enabled(s, a)
    ensures Wellformed(Apply(s, a)) && StoresOnce(Apply(s, a))
  {
    var t := Apply(s, a);
    KeepsRefers(s, a);
    StepExtends(s, a);
    forall p | p in t.procs && t.procs[p].pc == Storing ensures t.recs[t.procs[p].rec].once == Running(p) {
      KeepsInside(s, a, p);
    }
    forall id | 0 <= id < |t.recs|
      ensures t.recs[id].stores <= if t.recs[id].once.Used? then 1 else 0
      ensures t.recs[id].once.Running? ==>
                var p := t.recs[id].once.inside; p in t.procs && t.procs[p].pc == Storing && t.procs[p].rec == id
    {
      if id < |s.recs| {
        KeepsOnce(s, a, id);
      }
    }
  }

  lemma KeepsInside(s: State, a: Action, p: nat)
    requires Refers(s) && StoresOnce(s) && Enabled(s, a) && p in Apply(s, a).procs && Apply(s, a).procs[p].pc == Storing
    ensures Refers(Apply(s, a)) && Apply(s, a).recs[Apply(s, a).procs[p].rec].once == Running(p)
  {
    KeepsRefers(s, a);
    if p != a.pid {
      assert Apply(s, a).procs[p] == s.procs[p] && s.recs[s.procs[p].rec].once == Running(p);
    }
  }

  lemma KeepsOnce(s: State, a: Action, id: nat)
    requires Refers(s) && StoresOnce(s) && Enabled(s, a) && id < |s.recs| <= |Apply(s, a).recs|
    ensures var r := Apply(s, a).recs[id];
            && r.stores <= (if r.once.Used? then 1 else 0)
            && (r.once.Running? ==> var p := r.once.inside;
                p in Apply(s, a).procs && Apply(s, a).procs[p].pc == Storing && Apply(s, a).procs[p].rec == id)
  {
    var r := s.recs[id];
    assert r.stores <= if r.once.Used? then 1 else 0;
    if r.once.Running? {
      assert r.once.inside in s.procs && s.procs[r.once.inside].pc == Storing && s.procs[r.once.inside].rec == id;
    }
  }

  lemma StepKeeps(s: State, a: Action)
    requires Inv(s) && Enabled(s, a)
    ensures Inv(Apply(s, a))
  {
    KeepsRefers(s, a);
    KeepsUnreleased(s, a);
    KeepsClosedOnce(s, a);
    KeepsLeaderLive(s, a);
    KeepsStoresOnce(s, a);
  }

  /** A run: every state follows from the one before by some action of some request. */
  ghost predicate IsRun(run: seq<State>) {
    && |run| > 0 && run[0] == INITIAL
    && forall i :: 0 <= i < |run| - 1 ==> Follows(run[i], run[i + 1])
  }

  ghost predicate Follows(s: State, t: State) {
    Wellformed(s) && exists a :: Enabled(s, a) && t == Apply(s, a)
  }

  lemma FollowsKeeps(s: State, t: State)
    requires Inv(s) && Follows(s, t)
    ensures Inv(t)
  {
    var a :| Enabled(s, a) && t == Apply(s, a);
    StepKeeps(s, a);
  }

  /** The protocol's promises, over all interleavings. */
  lemma {:induction false} EveryRunKeepsInv(run: seq<State>, i: nat)
    requires IsRun(run) && i < |run|
    ensures Inv(run[i])
    decreases i
  {
    if i > 0 {
      EveryRunKeepsInv(run, i - 1);
      assert Follows(run[i - 1], run[i - 1 + 1]);
      FollowsKeeps(run[i - 1], run[i]);
    }
  }

  /** A release by an older generation leaves a newer record of the key where it is. */
  lemma LateReleaseKeepsNewer(s: State, pid: nat, k: Bytes)
    requires Inv(s) && Enabled(s, Delete(pid)) && k in s.inFlight && s.inFlight[k] != s.procs[pid].rec
    ensures var t := Apply(s, Delete(pid)); k in t.inFlight && t.inFlight[k] == s.inFlight[k]
  {
  }

  ghost predicate Reachable(s: State) {
    exists run :: IsRun(run) && run[|run| - 1] == s
  }

  lemma Reach(s: State, a: Action, t: State)
    requires Reachable(s) && Wellformed(s) && Enabled(s, a) && t == Apply(s, a)
    ensures Reachable(t)
  {
    var run :| IsRun(run) && run[|run| - 1] == s;
    var longer := run + [t];
    assert Follows(s, t);
    assert forall i :: 0 <= i < |run| ==> longer[i] == run[i];
    assert IsRun(longer) && longer[|longer| - 1] == t;
  }
}
