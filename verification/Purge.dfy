/** Purging by path: the loop of handlePurgeRequest in sidekick.go and the patterns it matches. */
module Purging {
  import opened Basics
  import opened Lru
  import opened DiskCaches
  import opened CacheLaws
  import opened GoQuery
  import opened Storages
  import opened StorageLaws

  // Patterns.

  /** The compiled pattern: '*' has become ".*", in which '.' stands for any character but a newline. */
  predicate MatchesGlob(pattern: Bytes, s: Bytes)
    decreases |pattern| + |s|
  {
    if pattern == [] then s == []
    else if pattern[0] == '*' then
      MatchesGlob(pattern[1..], s) || (s != [] && s[0] != '\n' && MatchesGlob(pattern, s[1..]))
    else s != [] && s[0] == pattern[0] && MatchesGlob(pattern[1..], s[1..])
  }

  predicate MatchesPath(pattern: Bytes, path: Bytes) {
    if '*' in pattern then MatchesGlob(pattern, path) else path == pattern
  }

  /** The literal pieces of a pattern with one run of characters put in for each '*'. */
  function Filled(pieces: seq<Bytes>, runs: seq<Bytes>): Bytes
    requires |pieces| == |runs| + 1
  {
    if runs == [] then pieces[0] else pieces[0] + runs[0] + Filled(pieces[1..], runs[1..])
  }

  ghost predicate FilledWith(pattern: Bytes, path: Bytes, runs: seq<Bytes>) {
    && |Split(pattern, '*')| == |runs| + 1
    && OneLine(runs)
    && path == Filled(Split(pattern, '*'), runs)
  }

  /** A first run that is empty adds nothing; a longer one gives up its first character. */
  lemma FilledFirst(run: Bytes, rest: seq<Bytes>, pattern: Bytes)
    requires pattern != [] && |Split(pattern, '*')| == |rest| + 2 && pattern[0] == '*'
    ensures Filled(Split(pattern, '*'), [run] + rest) == run + Filled(Split(pattern[1..], '*'), rest)
  {
    assert ([run] + rest)[1..] == rest && Split(pattern, '*')[1..] == Split(pattern[1..], '*');
    assert [] + run == run;
  }

  lemma FilledLiteral(pattern: Bytes, runs: seq<Bytes>)
    requires pattern != [] && pattern[0] != '*' && |Split(pattern, '*')| == |runs| + 1
    ensures Filled(Split(pattern, '*'), runs) == [pattern[0]] + Filled(Split(pattern[1..], '*'), runs)
  {
    var r := Split(pattern[1..], '*');
    assert Split(pattern, '*') == [[pattern[0]] + r[0]] + r[1..];
    if runs != [] {
      assert Split(pattern, '*')[1..] == r[1..];
      assert ([pattern[0]] + r[0]) + runs[0] + Filled(r[1..], runs[1..]) ==
        [pattern[0]] + (r[0] + runs[0] + Filled(r[1..], runs[1..]));
    }
  }

  lemma LongerRun(pattern: Bytes, s: Bytes, run: Bytes, rest: seq<Bytes>)
    requires pattern != [] && pattern[0] == '*' && s != [] && s[0] != '\n'
    requires FilledWith(pattern, s[1..], [run] + rest)
    ensures FilledWith(pattern, s, [[s[0]] + run] + rest)
  {
    FilledFirst(run, rest, pattern);
    FilledFirst([s[0]] + run, rest, pattern);
    Prepend(s, run, Filled(Split(pattern[1..], '*'), rest));
    NoNewlines(s[0], run, rest);
  }

  lemma Prepend(s: Bytes, run: Bytes, tail: Bytes)
    requires s != [] && s[1..] == run + tail
    ensures s == ([s[0]] + run) + tail
  {
  }

  ghost predicate OneLine(runs: seq<Bytes>) {
    forall i :: 0 <= i < |runs| ==> '\n' !in runs[i]
  }

  lemma NoNewlines(c: byte, run: Bytes, rest: seq<Bytes>)
    requires c != '\n' && OneLine([run] + rest)
    ensures OneLine([[c] + run] + rest)
  {
    var shorter, longer := [run] + rest, [[c] + run] + rest;
    assert '\n' !in shorter[0];
    assert forall i :: 0 < i < |longer| ==> longer[i] == shorter[i];
  }

  lemma {:induction false} GlobGivesRuns(pattern: Bytes, s: Bytes) returns (runs: seq<Bytes>)
    requires MatchesGlob(pattern, s)
    ensures FilledWith(pattern, s, runs)
    decreases |pattern| + |s|
  {
    if pattern == [] {
      runs := [];
    } else if pattern[0] == '*' && MatchesGlob(pattern[1..], s) {
      var rest := GlobGivesRuns(pattern[1..], s);
      runs := [[]] + rest;
      FilledFirst([], rest, pattern);
      assert [] + s == s;
    } else if pattern[0] == '*' {
      var shorter := GlobGivesRuns(pattern, s[1..]);
      var rest := shorter[1..];
      assert shorter == [shorter[0]] + rest;
      runs := [[s[0]] + shorter[0]] + rest;
      LongerRun(pattern, s, shorter[0], rest);
    } else {
      runs := GlobGivesRuns(pattern[1..], s[1..]);
      FilledLiteral(pattern, runs);
      assert s == [s[0]] + s[1..];
    }
  }

  lemma {:induction false} RunsGiveGlob(pattern: Bytes, s: Bytes, runs: seq<Bytes>)
    requires FilledWith(pattern, s, runs)
    ensures MatchesGlob(pattern, s)
    decreases |pattern| + |s|
  {
    if pattern == [] {
    } else if pattern[0] == '*' {
      var run, rest := runs[0], runs[1..];
      assert runs == [run] + rest;
      FilledFirst(run, rest, pattern);
      if run == [] {
        assert [] + Filled(Split(pattern[1..], '*'), rest) == Filled(Split(pattern[1..], '*'), rest);
        RunsGiveGlob(pattern[1..], s, rest);
      } else {
        FilledFirst(run[1..], rest, pattern);
        assert s[0] == run[0] && s[1..] == run[1..] + Filled(Split(pattern[1..], '*'), rest);
        RunsGiveGlob(pattern, s[1..], [run[1..]] + rest);
      }
    } else {
      FilledLiteral(pattern, runs);
      assert s[0] == pattern[0] && s[1..] == Filled(Split(pattern[1..], '*'), runs);
      RunsGiveGlob(pattern[1..], s[1..], runs);
    }
  }

  lemma {:induction false} NoStarSplit(pattern: Bytes)
    requires '*' !in pattern
    ensures Split(pattern, '*') == [pattern]
  {
    if pattern != [] {
      NoStarSplit(pattern[1..]);
      assert [pattern[0]] + pattern[1..] == pattern;
    }
  }

  /** A path matches exactly when it is the pattern with a newline-free run of characters in place of each '*'. */
  lemma MatchesPathMeans(pattern: Bytes, path: Bytes)
    ensures MatchesPath(pattern, path) <==> exists runs :: FilledWith(pattern, path, runs)
  {
    if '*' in pattern {
      if MatchesGlob(pattern, path) {
        var runs := GlobGivesRuns(pattern, path);
      }
      if runs :| FilledWith(pattern, path, runs) {
        RunsGiveGlob(pattern, path, runs);
      }
    } else {
      NoStarSplit(pattern);
      if path == pattern {
        assert FilledWith(pattern, path, []);
      }
    }
  }

  const TRAILING_STAR: Bytes := ['/', '*']
  const WITH_NEWLINE: Bytes := ['/', 'a', '\n', 'b']

  /** So '*' does not stand for every run of characters: a path with a newline in it escapes it. */
  lemma NewlineEscapesStar()
    ensures !MatchesPath(TRAILING_STAR, WITH_NEWLINE)
    ensures exists run :: WITH_NEWLINE == Filled(Split(TRAILING_STAR, '*'), [run])
  {
    assert TRAILING_STAR[1..] == ['*'] && WITH_NEWLINE[1..] == ['a', '\n', 'b'];
    assert WITH_NEWLINE[1..][1..] == ['\n', 'b'];
    assert !MatchesGlob(['*'], ['\n', 'b']);
    assert ['*'][1..] == [];
    assert !MatchesGlob(['*'], ['a', '\n', 'b']) by {
      assert ['a', '\n', 'b'][1..] == ['\n', 'b'];
    }
    assert Split([], '*') == [[]] && Split(['*'], '*') == [[], []];
    var last: Bytes := ['*'];
    assert TRAILING_STAR[1..] == last && Split(last, '*') == [[], []];
    var none: Bytes, slash: Bytes := [], ['/'];
    assert slash + none == slash && Split(last, '*')[0] == none && Split(last, '*')[1..] == [none];
    assert Split(TRAILING_STAR, '*') == [slash, none];
    var run: Bytes := ['a', '\n', 'b'];
    assert [slash, none][1..] == [none] && [run][1..] == [] && Filled([none], []) == none;
    assert Filled([slash, none], [run]) == slash + run + none;
    assert WITH_NEWLINE == Filled(Split(TRAILING_STAR, '*'), [run]);
  }

  // What a purge does to the store.

  /** The path of an entry, as the purge finds it: in memory first, then in the files. */
  function PathOf(c: Contents, key: Bytes): Option<Bytes> {
    match Lookup(c.mem, key)
    case Some(m) => Some(m.meta.path)
    case None =>
      match Lookup(c.disk, key)
      case None => None
      case Some(item) => if item.path in c.files then Some(c.files[item.path].meta.path) else None
  }

  predicate Matched(c: Contents, pattern: Bytes, key: Bytes) {
    var p := PathOf(c, key);
    p.Some? && p.value != [] && MatchesPath(pattern, p.value)
  }

  /** The entries that are to go: their path matches one of the first n patterns. */
  ghost predicate Doomed(c: Contents, patterns: seq<Bytes>, n: nat, key: Bytes) {
    exists i :: 0 <= i < n <= |patterns| && Matched(c, patterns[i], key)
  }

  ghost function AllMatched(c: Contents, pattern: Bytes): iset<Bytes> {
    iset k | Matched(c, pattern, k)
  }

  ghost function AllDoomed(c: Contents, patterns: seq<Bytes>, n: nat): iset<Bytes> {
    iset k | Doomed(c, patterns, n, k)
  }

  ghost function Of(keys: seq<Bytes>): iset<Bytes> {
    iset k | k in keys
  }

  ghost predicate SameEntry(a: Contents, b: Contents, key: Bytes) {
    && Lookup(b.mem, key) == Lookup(a.mem, key) && Lookup(b.disk, key) == Lookup(a.disk, key)
    && (key in b.files <==> key in a.files) && (key in b.files ==> b.files[key] == a.files[key])
  }

  ghost predicate NoEntry(c: Contents, key: Bytes) {
    Lookup(c.mem, key).None? && Lookup(c.disk, key).None? && key !in c.files
  }

  /** The entries of gone have left both tiers and every other entry is as before, but for its recency. */
  ghost predicate Cleared(a: Contents, b: Contents, gone: iset<Bytes>) {
    Consistent(b) && forall key :: if key in gone then NoEntry(b, key) else SameEntry(a, b, key)
  }

  lemma ClearedChain(a: Contents, b: Contents, c: Contents, first: iset<Bytes>, more: iset<Bytes>)
    requires Cleared(a, b, first) && Cleared(b, c, more)
    ensures Cleared(a, c, first + more)
  {
    forall key ensures if key in first + more then NoEntry(c, key) else SameEntry(a, c, key) {
      assert if key in first then NoEntry(b, key) else SameEntry(a, b, key);
      assert if key in more then NoEntry(c, key) else SameEntry(b, c, key);
    }
  }

  lemma TouchClearsNothing(c: Contents, key: Bytes)
    requires Consistent(c)
    ensures Cleared(c, c.(mem := Touch(c.mem, key)), iset{})
    ensures Cleared(c, c.(disk := Touch(c.disk, key)), iset{})
  {
    RemovalKeepsDistinct(c.mem, key);
    RemovalKeepsDistinct(c.disk, key);
    TouchSized(c.disk, key);
    forall k
      ensures Lookup(Touch(c.mem, key), k) == Lookup(c.mem, k)
      ensures Lookup(Touch(c.disk, key), k) == Lookup(c.disk, k)
    {
      LookupTouch(c.mem, key, k);
      LookupTouch(c.disk, key, k);
    }
    forall k | k in c.files ensures HasKey(Touch(c.disk, key), k) {
      assert Lookup(Touch(c.disk, key), k) == Lookup(c.disk, k);
    }
  }

  lemma PurgeClearsOne(c: Contents, key: Bytes)
    requires Consistent(c)
    ensures Cleared(c, AfterPurge(c, key), iset{key})
  {
    PurgeKeepsConsistent(c, key);
    forall k ensures if k in iset{key} then NoEntry(AfterPurge(c, key), k) else SameEntry(c, AfterPurge(c, key), k) {
      LookupWithout(c.mem, key, k);
      LookupWithout(c.disk, key, k);
    }
  }

  /** An entry that is gone is a miss; every other one answers as before. */
  lemma ClearedReads(cfg: Config, a: Contents, b: Contents, gone: iset<Bytes>, key: Bytes, now: int)
    requires Consistent(a) && Cleared(a, b, gone)
    ensures Read(cfg, b, key, now) == if key in gone then NotFound else Read(cfg, a, key, now)
  {
    assert if key in gone then NoEntry(b, key) else SameEntry(a, b, key);
    DiskPath(a.disk, key);
    DiskPath(b.disk, key);
  }

  lemma ClearedHeld(cfg: Config, a: Contents, b: Contents, gone: iset<Bytes>)
    requires Cleared(a, b, gone)
    ensures forall e: Entry :: e in Held(cfg, b) <==> e in Held(cfg, a) && e.key !in gone
  {
    forall e: Entry ensures e in Held(cfg, b) <==> e in Held(cfg, a) && e.key !in gone {
      assert if e.key in gone then NoEntry(b, e.key) else SameEntry(a, b, e.key);
    }
  }

  lemma SamePath(a: Contents, b: Contents, gone: iset<Bytes>, key: Bytes)
    requires Consistent(a) && Cleared(a, b, gone)
    ensures PathOf(b, key) == if key in gone then None else PathOf(a, key)
  {
    assert if key in gone then NoEntry(b, key) else SameEntry(a, b, key);
    DiskPath(a.disk, key);
    DiskPath(b.disk, key);
  }

  // The loop.

  /** The keys of a tier. */
  method ListKeys<V>(ll: seq<Item<Bytes, V>>) returns (keys: seq<Bytes>)
    ensures forall k :: k in keys <==> HasKey(ll, k)
  {
    keys := [];
    for i := 0 to |ll|
      invariant |keys| == i && forall j :: 0 <= j < i ==> keys[j] == ll[j].key
    {
      keys := keys + [ll[i].key];
    }
  }

  method FindPath(s: Storage, key: Bytes) returns (path: Option<Bytes>)
    requires s.Valid() && Consistent(s.View())
    modifies s.memCache, s.diskCache.lru
    ensures s.Valid() && Cleared(old(s.View()), s.View(), iset{})
    ensures path == PathOf(old(s.View()), key)
  {
    TouchClearsNothing(s.View(), key);
    var m := s.memCache.Get(key);
    if m.Some? {
      return Some(m.value.meta.path);
    }
    var item := s.diskCache.Get(key);
    if item.None? || item.value.path !in s.diskCache.files {
      return None;
    }
    return Some(s.diskCache.files[item.value.path].meta.path);
  }

  method SelectKeys(s: Storage, keys: seq<Bytes>, pattern: Bytes) returns (selected: seq<Bytes>)
    requires s.Valid() && Consistent(s.View())
    modifies s.memCache, s.diskCache.lru
    ensures s.Valid() && Cleared(old(s.View()), s.View(), iset{})
    ensures forall k :: k in selected <==> k in keys && Matched(old(s.View()), pattern, k)
  {
    selected := [];
    ghost var before := s.View();
    for i := 0 to |keys|
      invariant s.Valid() && Cleared(before, s.View(), iset{})
      invariant forall k :: k in selected <==> k in keys[..i] && Matched(before, pattern, k)
    {
      assert keys[..i + 1] == keys[..i] + [keys[i]];
      SamePath(before, s.View(), iset{}, keys[i]);
      ghost var mid := s.View();
      var path := FindPath(s, keys[i]);
      ClearedChain(before, mid, s.View(), iset{}, iset{});
      ghost var none: iset<Bytes> := iset{};
      assert none + none == none;
      if path.Some? && path.value != [] && MatchesPath(pattern, path.value) {
        selected := selected + [keys[i]];
      }
    }
    assert keys[..|keys|] == keys;
  }

  lemma NextKey(before: Contents, mid: Contents, keys: seq<Bytes>, i: nat)
    requires i < |keys| && Cleared(before, mid, Of(keys[..i]))
    ensures Cleared(before, AfterPurge(mid, keys[i]), Of(keys[..i + 1]))
  {
    PurgeClearsOne(mid, keys[i]);
    ClearedChain(before, mid, AfterPurge(mid, keys[i]), Of(keys[..i]), iset{keys[i]});
    assert keys[..i + 1] == keys[..i] + [keys[i]];
    assert Of(keys[..i + 1]) == Of(keys[..i]) + iset{keys[i]};
  }

  method PurgeKeys(s: Storage, keys: seq<Bytes>)
    requires s.Valid() && Consistent(s.View())
    modifies s.memCache, s.diskCache, s.diskCache.lru
    ensures s.Valid() && Cleared(old(s.View()), s.View(), Of(keys))
  {
    ghost var before := s.View();
    for i := 0 to |keys|
      invariant s.Valid() && Cleared(before, s.View(), Of(keys[..i]))
    {
      ghost var mid := s.View();
      s.Purge(keys[i]);
      NextKey(before, mid, keys, i);
    }
    assert keys[..|keys|] == keys;
  }

  method PurgePattern(s: Storage, pattern: Bytes)
    requires s.Valid() && Consistent(s.View())
    modifies s.memCache, s.diskCache, s.diskCache.lru
    ensures s.Valid()
    ensures Cleared(old(s.View()), s.View(), AllMatched(old(s.View()), pattern))
  {
    ghost var before := s.View();
    var memKeys := ListKeys(s.memCache.ll);
    var diskKeys := ListKeys(s.diskCache.lru.ll);
    var keys := memKeys + diskKeys;
    var selected := SelectKeys(s, keys, pattern);
    ghost var mid := s.View();
    PurgeKeys(s, selected);
    ClearedChain(before, mid, s.View(), iset{}, Of(selected));
    assert iset{} + Of(selected) == AllMatched(before, pattern);
  }

  method PurgePaths(s: Storage, patterns: seq<Bytes>)
    requires s.Valid() && Consistent(s.View())
    modifies s.memCache, s.diskCache, s.diskCache.lru
    ensures s.Valid()
    ensures Cleared(old(s.View()), s.View(), AllDoomed(old(s.View()), patterns, |patterns|))
  {
    ghost var before := s.View();
    for i := 0 to |patterns|
      invariant s.Valid() && Cleared(before, s.View(), AllDoomed(before, patterns, i))
    {
      ghost var mid := s.View();
      PurgePattern(s, patterns[i]);
      NextPattern(before, mid, s.View(), patterns, i);
    }
  }

  lemma NextPattern(before: Contents, mid: Contents, after: Contents, patterns: seq<Bytes>, i: nat)
    requires i < |patterns| && Consistent(before) && Cleared(before, mid, AllDoomed(before, patterns, i))
    requires Cleared(mid, after, AllMatched(mid, patterns[i]))
    ensures Cleared(before, after, AllDoomed(before, patterns, i + 1))
  {
    var gone := AllDoomed(before, patterns, i);
    var more := AllMatched(mid, patterns[i]);
    ClearedChain(before, mid, after, gone, more);
    forall k ensures k in gone + more <==> Doomed(before, patterns, i + 1, k) {
      SamePath(before, mid, gone, k);
    }
    assert gone + more == AllDoomed(before, patterns, i + 1);
  }

  /** One of the patterns matches the path, which is known. */
  predicate MatchesAny(patterns: seq<Bytes>, path: Bytes) {
    path != [] && exists i :: 0 <= i < |patterns| && MatchesPath(patterns[i], path)
  }

  /**
   Among the entries that can be read, the keys are those whose path, as the metadata read says it,
   matches one of the patterns.
   */
  ghost predicate ByPath(cfg: Config, c: Contents, patterns: seq<Bytes>, keys: iset<Bytes>) {
    forall key, now :: Read(cfg, c, key, now).Hit? ==>
      (key in keys <==> MatchesAny(patterns, Read(cfg, c, key, now).meta.path))
  }

  /** The path a purge finds for an entry, whichever tier holds it, is the one its readers see. */
  lemma DoomedByPath(cfg: Config, c: Contents, patterns: seq<Bytes>)
    ensures ByPath(cfg, c, patterns, AllDoomed(c, patterns, |patterns|))
  {
    forall key, now | Read(cfg, c, key, now).Hit?
      ensures key in AllDoomed(c, patterns, |patterns|) <==>
              MatchesAny(patterns, Read(cfg, c, key, now).meta.path)
    {
      var path := Read(cfg, c, key, now).meta.path;
      assert PathOf(c, key) == Some(path);
      if i :| 0 <= i < |patterns| && Matched(c, patterns[i], key) {
        assert MatchesPath(patterns[i], path);
      }
      if i :| 0 <= i < |patterns| && path != [] && MatchesPath(patterns[i], path) {
        assert Matched(c, patterns[i], key);
      }
    }
  }

  /**
   A purge request: without paths everything goes, otherwise exactly the entries whose path
   is known and matches one of the patterns, from both tiers.
   */
  method HandlePurge(s: Storage, paths: seq<Bytes>)
    requires s.Valid() && Consistent(s.View())
    modifies s, s.memCache, s.diskCache, s.diskCache.lru
    ensures s.Valid() && Consistent(s.View())
    ensures paths == [] ==> s.View() == EMPTY
    ensures paths != [] ==> Cleared(old(s.View()), s.View(), AllDoomed(old(s.View()), paths, |paths|))
    ensures paths != [] ==> ByPath(s.cfg, old(s.View()), paths, AllDoomed(old(s.View()), paths, |paths|))
    ensures forall key, now :: Read(s.cfg, s.View(), key, now) ==
              if paths == [] || Doomed(old(s.View()), paths, |paths|, key) then NotFound
              else Read(s.cfg, old(s.View()), key, now)
    ensures forall key, now :: var a := Read(s.cfg, old(s.View()), key, now);
              a.Hit? ==>
                Read(s.cfg, s.View(), key, now) == if paths == [] || MatchesAny(paths, a.meta.path) then NotFound else a
  {
    if paths == [] {
      s.Flush();
      return;
    }
    PurgePaths(s, paths);
    DoomedByPath(s.cfg, old(s.View()), paths);
    forall key, now
      ensures Read(s.cfg, s.View(), key, now) ==
              if Doomed(old(s.View()), paths, |paths|, key) then NotFound else Read(s.cfg, old(s.View()), key, now)
    {
      ClearedReads(s.cfg, old(s.View()), s.View(), AllDoomed(old(s.View()), paths, |paths|), key, now);
    }
  }
}
