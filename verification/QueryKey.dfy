/** How a query string affects caching, querykey.go. */
module QueryKeys {
  import opened Basics
  import opened GoQuery
  import opened PhpQuery

  datatype BypassReason = ReasonNone | ReasonPrivate | ReasonPolicy | ReasonDebug | ReasonQuery

  datatype QueryConfig = QueryConfig(keyList: seq<Bytes>, ignoreList: seq<Bytes>, noCacheNames: seq<Bytes>)

  datatype QueryClass = QueryClass(canonical: Bytes, readOnly: bool, reason: BypassReason)

  /** An entry names one parameter, or every one with the prefix before a trailing '*'. */
  predicate EntryMatches(entry: Bytes, name: Bytes) {
    if entry != [] && entry[|entry| - 1] == '*' then entry[..|entry| - 1] <= name else name == entry
  }

  /** In cache_key_queries and cache_ignore_queries a bare '*' and an empty entry match nothing. */
  predicate MatchesQueryList(list: seq<Bytes>, name: Bytes) {
    exists i :: 0 <= i < |list| && list[i] != ['*'] && list[i] != [] && EntryMatches(list[i], name)
  }

  predicate KeyAllQueries(list: seq<Bytes>) {
    ['*'] in list
  }

  /** In nocache_query a bare '*' is the empty prefix. */
  predicate MatchesNoCache(names: seq<Bytes>, got: seq<Bytes>) {
    exists i, j :: 0 <= i < |got| && 0 <= j < |names| && EntryMatches(names[j], got[i])
  }

  const MAX_CLICK_ID_VALUE_LEN := 512

  predicate ClickIDValueOK(v: Bytes) {
    |v| <= MAX_CLICK_ID_VALUE_LEN &&
    forall i :: 0 <= i < |v| ==>
      'a' <= v[i] <= 'z' || 'A' <= v[i] <= 'Z' || '0' <= v[i] <= '9' || v[i] in {'.', '_', '~', '*', '=', '-'}
  }

  /** What a parameter means for the cache, by the raw name Go parsed. */
  datatype Role = Dropped | Keyed | Ignored | Refused

  /** PHP's view of a raw name: the variable it becomes and what that means. */
  datatype View = View(name: Bytes, role: Role)

  function ViewOf(cfg: QueryConfig, raw: Bytes): View {
    var (name, isArray) := VarNameArray(raw);
    View(name,
         if name == [] then Dropped
         else if isArray then Refused
         else if MatchesQueryList(cfg.keyList, name) then Keyed
         else if MatchesQueryList(cfg.ignoreList, name) then Ignored
         else if KeyAllQueries(cfg.keyList) then Keyed
         else Refused)
  }

  type Views = map<Bytes, View>

  function ViewsOf(cfg: QueryConfig, m: Values): Views {
    map raw | raw in m :: ViewOf(cfg, raw)
  }

  /** Two spellings that PHP merges into one variable. */
  ghost predicate Conflict(v: Views) {
    exists a, b :: a in v && b in v && a != b && v[a].name == v[b].name != []
  }

  ghost predicate HasRole(v: Views, role: Role) {
    exists raw :: raw in v && v[raw].role == role
  }

  predicate AllClean(vs: seq<Bytes>) {
    forall i :: 0 <= i < |vs| ==> ClickIDValueOK(vs[i])
  }

  /** A click ID that must not fill the shared entry. */
  ghost predicate Unclean(v: Views, m: Values)
    requires v.Keys == m.Keys
  {
    exists raw :: raw in v && v[raw].role == Ignored && !AllClean(m[raw])
  }

  ghost predicate IsOwner(v: Views, raw: Bytes, name: Bytes) {
    raw in v && v[raw] == View(name, Keyed)
  }

  ghost function KeyedNames(v: Views): set<Bytes> {
    set raw | raw in v && v[raw].role == Keyed :: v[raw].name
  }

  ghost function OwnerOf(v: Views, name: Bytes): (raw: Bytes)
    requires name in KeyedNames(v)
    ensures IsOwner(v, raw, name)
  {
    var raw :| raw in v && v[raw].role == Keyed && v[raw].name == name;
    raw
  }

  /** The keyed parameters, by their PHP name. */
  ghost function KeyedMap(v: Views, m: Values): Values
    requires v.Keys == m.Keys
  {
    map name | name in KeyedNames(v) :: m[OwnerOf(v, name)]
  }

  const PRIVATE_QUERY := QueryClass([], false, ReasonPrivate)

  /** The class of a query, said without any order of its parameters. */
  ghost function ClassOf(v: Views, m: Values): QueryClass
    requires v.Keys == m.Keys
  {
    if Conflict(v) then PRIVATE_QUERY
    else QueryClass(Encoded(KeyedMap(v, m)), Unclean(v, m), if HasRole(v, Refused) then ReasonQuery else ReasonNone)
  }

  ghost function Class(cfg: QueryConfig, rawQuery: Bytes): QueryClass {
    if MatchesNoCache(cfg.noCacheNames, QueryNames(Split(rawQuery, '&'))) then PRIVATE_QUERY
    else match ParseQuery(rawQuery)
      case None => PRIVATE_QUERY
      case Some(ps) => ClassOf(ViewsOf(cfg, Collect(ps)), Collect(ps))
  }

  method MatchNoCacheQuery(cfg: QueryConfig, rawQuery: Bytes) returns (r: bool)
    ensures r == MatchesNoCache(cfg.noCacheNames, QueryNames(Split(rawQuery, '&')))
  {
    var got := PhpQueryNames(rawQuery);
    for i := 0 to |got|
      invariant !MatchesNoCache(cfg.noCacheNames, got[..i])
    {
      for j := 0 to |cfg.noCacheNames|
        invariant !exists k :: 0 <= k < j && EntryMatches(cfg.noCacheNames[k], got[i])
      {
        if EntryMatches(cfg.noCacheNames[j], got[i]) {
          return true;
        }
      }
    }
    assert got[..|got|] == got;
    return false;
  }

  method ClassifyQuery(cfg: QueryConfig, rawQuery: Bytes) returns (qc: QueryClass)
    ensures qc == Class(cfg, rawQuery)
  {
    if rawQuery == [] {
      EmptyQuery(cfg);
      return QueryClass([], false, ReasonNone);
    }
    var noCache := MatchNoCacheQuery(cfg, rawQuery);
    if noCache {
      return PRIVATE_QUERY;
    }
    var parsed := ParseQuery(rawQuery);
    if parsed.None? {
      return PRIVATE_QUERY;
    }
    qc := ClassifyValues(cfg, Collect(parsed.value));
  }

  lemma EncodedEmpty()
    ensures Encoded(map[]) == []
  {
    var m: Values := map[];
    AscendingUnique(Sorted(m.Keys), [], m.Keys);
  }

  lemma EmptyQuery(cfg: QueryConfig)
    ensures Class(cfg, []) == QueryClass([], false, ReasonNone)
  {
    assert Split([], '&') == [[]] && QueryNames([[]]) == [];
    assert ParseTokens([[]]) == Some([]) && Collect([]) == map[];
    var none: Views := map[];
    assert ViewsOf(cfg, map[]) == none && KeyedNames(none) == {} && KeyedMap(none, map[]) == map[];
    EncodedEmpty();
  }

  /** owner holds, for every PHP name of v, the one raw name it comes from. */
  ghost predicate Owned(v: Views, owner: map<Bytes, Bytes>) {
    && (forall raw :: raw in v && v[raw].name != [] ==> v[raw].name in owner && owner[v[raw].name] == raw)
    && (forall name :: name in owner ==> owner[name] in v && v[owner[name]].name == name != [])
  }

  ghost predicate KeyedFrom(v: Views, m: Values, owner: map<Bytes, Bytes>, keyed: Values)
    requires v.Keys == m.Keys && Owned(v, owner)
  {
    && (forall name :: name in keyed <==> name in owner && v[owner[name]].role == Keyed)
    && (forall name :: name in keyed ==> keyed[name] == m[owner[name]])
  }

  ghost predicate Named(v: Views) {
    forall raw :: raw in v ==> (v[raw].role == Dropped <==> v[raw].name == [])
  }

  lemma OwnOne(v: Views, m: Values, owner: map<Bytes, Bytes>, keyed: Values, raw: Bytes, w: View, vs: seq<Bytes>)
    requires v.Keys == m.Keys && Owned(v, owner) && KeyedFrom(v, m, owner, keyed)
    requires raw !in v && w.name !in owner && (w.role == Dropped <==> w.name == [])
    ensures var owner' := if w.name == [] then owner else owner[w.name := raw];
            Owned(v[raw := w], owner') &&
            KeyedFrom(v[raw := w], m[raw := vs], owner', if w.role == Keyed then keyed[w.name := vs] else keyed)
  {
  }

  lemma NoteOne(v: Views, m: Values, raw: Bytes, w: View, vs: seq<Bytes>)
    requires v.Keys == m.Keys && raw !in v
    ensures Unclean(v[raw := w], m[raw := vs]) <==> Unclean(v, m) || (w.role == Ignored && !AllClean(vs))
    ensures HasRole(v[raw := w], Refused) <==> HasRole(v, Refused) || w.role == Refused
  {
    var v', m' := v[raw := w], m[raw := vs];
    assert raw in v' && v'[raw] == w && m'[raw] == vs;
    assert forall r :: r in v ==> r in v' && v'[r] == v[r] && m'[r] == m[r];
  }

  lemma OwnedAll(v: Views, m: Values, owner: map<Bytes, Bytes>, keyed: Values)
    requires v.Keys == m.Keys && Owned(v, owner) && KeyedFrom(v, m, owner, keyed) && Named(v)
    ensures keyed == KeyedMap(v, m) && !Conflict(v)
  {
    forall name ensures name in KeyedNames(v) <==> name in keyed {
      if name in keyed {
        assert IsOwner(v, owner[name], name);
      }
    }
    forall name | name in keyed ensures KeyedMap(v, m)[name] == keyed[name] {
      assert v[OwnerOf(v, name)].name == name;
    }
  }

  ghost function Part<T>(m: map<Bytes, T>, done: seq<Bytes>): map<Bytes, T> {
    map raw | raw in done && raw in m :: m[raw]
  }

  /** The loop of classifyQuery after the raw names in done. */
  ghost predicate Progress(all: Views, m: Values, done: seq<Bytes>, owner: map<Bytes, Bytes>, keyed: Values,
                           readOnly: bool, refused: bool)
    requires all.Keys == m.Keys
  {
    var v := Part(all, done);
    && Named(all) && Owned(v, owner) && KeyedFrom(v, Part(m, done), owner, keyed)
    && readOnly == Unclean(v, Part(m, done)) && refused == HasRole(v, Refused)
  }

  lemma ProgressStep(all: Views, m: Values, done: seq<Bytes>, owner: map<Bytes, Bytes>, keyed: Values,
                     readOnly: bool, refused: bool, raw: Bytes, more: seq<Bytes>)
    requires more == done + [raw]
    requires all.Keys == m.Keys && Progress(all, m, done, owner, keyed, readOnly, refused)
    requires raw in m && raw !in done
    ensures var w := all[raw];
            if w.name in owner then Conflict(all)
            else Progress(all, m, more, if w.name == [] then owner else owner[w.name := raw],
                          if w.role == Keyed then keyed[w.name := m[raw]] else keyed,
                          readOnly || (w.role == Ignored && !AllClean(m[raw])), refused || w.role == Refused)
  {
    var w, v := all[raw], Part(all, done);
    if w.name in owner {
      assert v[owner[w.name]].name == w.name;
    } else {
      OwnOne(v, Part(m, done), owner, keyed, raw, w, m[raw]);
      NoteOne(v, Part(m, done), raw, w, m[raw]);
      PartOneMore(all, done, raw, more);
      PartOneMore(m, done, raw, more);
    }
  }

  lemma PartOneMore<T>(m: map<Bytes, T>, done: seq<Bytes>, raw: Bytes, more: seq<Bytes>)
    requires more == done + [raw] && raw in m
    ensures Part(m, more) == Part(m, done)[raw := m[raw]]
  {
  }

  lemma ProgressEnd(all: Views, m: Values, done: seq<Bytes>, owner: map<Bytes, Bytes>, keyed: Values,
                    readOnly: bool, refused: bool)
    requires all.Keys == m.Keys && Progress(all, m, done, owner, keyed, readOnly, refused)
    requires forall raw :: raw in m ==> raw in done
    ensures ClassOf(all, m) == QueryClass(Encoded(keyed), readOnly, if refused then ReasonQuery else ReasonNone)
  {
    assert Part(all, done) == all && Part(m, done) == m;
    OwnedAll(all, m, owner, keyed);
  }

  /** What the loop of classifyQuery carries; None once two spellings have met. */
  datatype Gathered = Gathered(keyed: Values, owner: map<Bytes, Bytes>, readOnly: bool, reason: BypassReason)

  function Gather(g: Gathered, raw: Bytes, w: View, values: seq<Bytes>): Option<Gathered> {
    if w.name in g.owner then None
    else Some(Gathered(
      if w.role == Keyed then g.keyed[w.name := values] else g.keyed,
      if w.name == [] then g.owner else g.owner[w.name := raw],
      g.readOnly || (w.role == Ignored && !AllClean(values)),
      if w.role == Refused then ReasonQuery else g.reason))
  }

  function GatherAll(views: Views, m: Values, raws: seq<Bytes>): Option<Gathered>
    requires forall raw :: raw in raws ==> raw in m && raw in views
  {
    if raws == [] then Some(Gathered(map[], map[], false, ReasonNone))
    else
      var last := raws[|raws| - 1];
      match GatherAll(views, m, raws[..|raws| - 1])
      case None => None
      case Some(g) => Gather(g, last, views[last], m[last])
  }

  /** The order in which the names are gathered does not show in the result. */
  lemma {:induction false} GatherAllMeans(views: Views, m: Values, raws: seq<Bytes>)
    requires views.Keys == m.Keys && Named(views) && Ascending(raws) && forall raw :: raw in raws ==> raw in m
    ensures match GatherAll(views, m, raws)
            case None => Conflict(views)
            case Some(g) => Progress(views, m, raws, g.owner, g.keyed, g.readOnly, g.reason == ReasonQuery)
  {
    if raws == [] {
      assert Part(views, []) == map[] && Part(m, []) == map[];
    } else {
      var front, last := raws[..|raws| - 1], raws[|raws| - 1];
      GatherAllMeans(views, m, front);
      match GatherAll(views, m, front)
      case None =>
      case Some(g) =>
        ProgressStep(views, m, front, g.owner, g.keyed, g.readOnly, g.reason == ReasonQuery, last, raws);
    }
  }

  /** What gathering every name, or meeting a conflict on the way, says about the whole query. */
  lemma GatherAllClass(views: Views, m: Values, raws: seq<Bytes>, i: nat)
    requires views.Keys == m.Keys && Named(views) && Enumerates(raws, m.Keys) && i <= |raws|
    requires GatherAll(views, m, raws[..i]).None? || i == |raws|
    ensures match GatherAll(views, m, raws[..i])
            case None => ClassOf(views, m) == PRIVATE_QUERY
            case Some(g) => ClassOf(views, m) ==
                            QueryClass(Encoded(g.keyed), g.readOnly,
                                       if g.reason == ReasonQuery then ReasonQuery else ReasonNone)
  {
    GatherAllMeans(views, m, raws[..i]);
    match GatherAll(views, m, raws[..i])
    case None =>
    case Some(g) => ProgressEnd(views, m, raws[..i], g.owner, g.keyed, g.readOnly, g.reason == ReasonQuery);
  }

  /** The loop body of classifyQuery: one raw name with its values. */
  method AddParameter(cfg: QueryConfig, raw: Bytes, values: seq<Bytes>, g: Gathered) returns (r: Option<Gathered>)
    requires [] !in g.owner
    ensures r == Gather(g, raw, ViewOf(cfg, raw), values)
    ensures r.Some? ==> [] !in r.value.owner
  {
    var name, isArray := PhpVarNameArray(raw);
    if name == [] {
      return Some(g);
    }
    if name in g.owner {
      return None;
    }
    var keyed, readOnly, reason := g.keyed, g.readOnly, g.reason;
    if isArray {
      reason := ReasonQuery;
    } else if MatchesQueryList(cfg.keyList, name) {
      keyed := keyed[name := values];
    } else if MatchesQueryList(cfg.ignoreList, name) {
      var clean := AllClickIDs(values);
      if !clean {
        readOnly := true;
      }
    } else if KeyAllQueries(cfg.keyList) {
      keyed := keyed[name := values];
    } else {
      reason := ReasonQuery;
    }
    return Some(Gathered(keyed, g.owner[name := raw], readOnly, reason));
  }

  /** The loop of classifyQuery; it stops at the first conflict. */
  method GatherNames(cfg: QueryConfig, parsed: Values, raws: seq<Bytes>) returns (r: Option<Gathered>, ghost stop: nat)
    requires forall raw :: raw in raws ==> raw in parsed
    ensures stop <= |raws| && r == GatherAll(ViewsOf(cfg, parsed), parsed, raws[..stop]) && (r.None? || stop == |raws|)
    ensures r.Some? ==> r.value.reason == ReasonNone || r.value.reason == ReasonQuery
  {
    ghost var views := ViewsOf(cfg, parsed);
    var g := Gathered(map[], map[], false, ReasonNone);
    for i := 0 to |raws|
      invariant GatherAll(views, parsed, raws[..i]) == Some(g) && [] !in g.owner
      invariant g.reason == ReasonNone || g.reason == ReasonQuery
    {
      assert raws[i] in raws && raws[..i + 1][..i] == raws[..i];
      r := AddParameter(cfg, raws[i], parsed[raws[i]], g);
      if r.None? {
        return r, i + 1;
      }
      g := r.value;
    }
    return Some(g), |raws|;
  }

  method ClassifyValues(cfg: QueryConfig, parsed: Values) returns (qc: QueryClass)
    ensures qc == ClassOf(ViewsOf(cfg, parsed), parsed)
  {
    var raws := SortedNames(parsed);
    var r, stop := GatherNames(cfg, parsed, raws);
    GatherAllClass(ViewsOf(cfg, parsed), parsed, raws, stop);
    if r.None? {
      return PRIVATE_QUERY;
    }
    var canonical := Encode(r.value.keyed);
    qc := QueryClass(canonical, r.value.readOnly, r.value.reason);
  }

  method AllClickIDs(vs: seq<Bytes>) returns (ok: bool)
    ensures ok == AllClean(vs)
  {
    ok := true;
    for i := 0 to |vs|
      invariant ok <==> forall j :: 0 <= j < i ==> ClickIDValueOK(vs[j])
    {
      if !ClickIDValueOK(vs[i]) {
        ok := false;
      }
    }
  }
}
