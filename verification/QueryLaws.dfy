/** What the classification of a query guarantees. */
module QueryLaws {
  import opened Basics
  import opened GoQuery
  import opened PhpQuery
  import opened QueryKeys

  /** The values of a query Go accepts. */
  ghost function Parsed(rawQuery: Bytes): Values
    requires ParseQuery(rawQuery).Some?
  {
    Collect(ParseQuery(rawQuery).value)
  }

  /** The keyed parameters, by the name PHP gives them. */
  ghost function KeyedValues(cfg: QueryConfig, rawQuery: Bytes): Values
    requires ParseQuery(rawQuery).Some?
  {
    KeyedMap(ViewsOf(cfg, Parsed(rawQuery)), Parsed(rawQuery))
  }

  ghost predicate AccountsFor(cfg: QueryConfig, m: Values, name: Bytes, raw: Bytes) {
    && raw in m && VarNameArray(raw) == (name, false)
    && (MatchesQueryList(cfg.keyList, name) || MatchesQueryList(cfg.ignoreList, name) || KeyAllQueries(cfg.keyList))
    && forall other :: other in m && VarName(other) == name ==> other == raw
  }

  /**
   A query that may be cached: every variable PHP registers for it comes from exactly one raw
   name, is not an array, and is keyed or ignored.
   */
  lemma CacheableAccountsForEveryName(cfg: QueryConfig, rawQuery: Bytes, name: Bytes)
    requires Class(cfg, rawQuery).reason == ReasonNone && name in QueryNames(Split(rawQuery, '&'))
    ensures ParseQuery(rawQuery).Some? && exists raw :: AccountsFor(cfg, Parsed(rawQuery), name, raw)
  {
    CacheableIsClean(cfg, rawQuery);
    var raw := RawNameOf(rawQuery, name);
    OneRawName(cfg, Parsed(rawQuery), name, raw);
  }

  lemma RawNameOf(rawQuery: Bytes, name: Bytes) returns (raw: Bytes)
    requires ParseQuery(rawQuery).Some? && name in QueryNames(Split(rawQuery, '&'))
    ensures raw in Parsed(rawQuery) && VarName(raw) == name != []
  {
    var ps := ParseQuery(rawQuery).value;
    NamesAgree(Split(rawQuery, '&'));
    PairNamesAre(ps, name);
    CollectedNonEmpty(ps);
    var i :| 0 <= i < |ps| && VarName(ps[i].0) == name;
    raw := ps[i].0;
  }

  lemma CacheableIsClean(cfg: QueryConfig, rawQuery: Bytes)
    requires Class(cfg, rawQuery).reason == ReasonNone
    ensures ParseQuery(rawQuery).Some?
    ensures !Conflict(ViewsOf(cfg, Parsed(rawQuery))) && !HasRole(ViewsOf(cfg, Parsed(rawQuery)), Refused)
  {
    NotPrivate(cfg, rawQuery);
  }

  lemma NotPrivate(cfg: QueryConfig, rawQuery: Bytes)
    requires Class(cfg, rawQuery).reason != ReasonPrivate
    ensures ParseQuery(rawQuery).Some? && !Conflict(ViewsOf(cfg, Parsed(rawQuery)))
    ensures Class(cfg, rawQuery) ==
            QueryClass(Encoded(KeyedValues(cfg, rawQuery)), Unclean(ViewsOf(cfg, Parsed(rawQuery)), Parsed(rawQuery)),
                       if HasRole(ViewsOf(cfg, Parsed(rawQuery)), Refused) then ReasonQuery else ReasonNone)
  {
  }

  lemma OneRawName(cfg: QueryConfig, m: Values, name: Bytes, raw: Bytes)
    requires raw in m && VarName(raw) == name != []
    requires !Conflict(ViewsOf(cfg, m)) && !HasRole(ViewsOf(cfg, m), Refused)
    ensures AccountsFor(cfg, m, name, raw)
  {
    var views := ViewsOf(cfg, m);
    assert raw in views && views[raw] == ViewOf(cfg, raw) && views[raw].role != Refused;
    forall other | other in m && VarName(other) == name ensures other == raw {
      assert views[other].name == views[raw].name;
    }
  }

  /**
   A query is private exactly when PHP registers a parameter that nocache_query names, Go
   cannot read it, or PHP merges two of its raw names into one variable.
   */
  lemma PrivateExactlyWhen(cfg: QueryConfig, rawQuery: Bytes)
    ensures Class(cfg, rawQuery).reason == ReasonPrivate <==>
            || NamesNoCache(cfg.noCacheNames, QueryNames(Split(rawQuery, '&')))
            || ParseQuery(rawQuery).None?
            || Merges(Parsed(rawQuery))
    ensures Class(cfg, rawQuery).reason == ReasonPrivate ==> Class(cfg, rawQuery) == PRIVATE_QUERY
  {
    NamesNoCacheMeans(cfg.noCacheNames, QueryNames(Split(rawQuery, '&')));
    if ParseQuery(rawQuery).Some? {
      ConflictMeans(cfg, Parsed(rawQuery));
    }
  }

  ghost predicate NamesNoCache(entries: seq<Bytes>, names: seq<Bytes>) {
    exists n, e :: n in names && e in entries && EntryMatches(e, n)
  }

  lemma NamesNoCacheMeans(entries: seq<Bytes>, names: seq<Bytes>)
    ensures MatchesNoCache(entries, names) <==> NamesNoCache(entries, names)
  {
    if n, e :| n in names && e in entries && EntryMatches(e, n) {
      var i :| 0 <= i < |names| && names[i] == n;
      var j :| 0 <= j < |entries| && entries[j] == e;
      assert EntryMatches(entries[j], names[i]);
    }
    if MatchesNoCache(entries, names) {
      var i, j :| 0 <= i < |names| && 0 <= j < |entries| && EntryMatches(entries[j], names[i]);
      assert names[i] in names && entries[j] in entries;
    }
  }

  /** Two raw names that PHP takes for one variable. */
  ghost predicate Merges(m: Values) {
    exists a, b :: a in m && b in m && a != b && VarName(a) == VarName(b) != []
  }

  /** A ';' anywhere makes the query private: Go does not read it. */
  lemma SemicolonIsPrivate(cfg: QueryConfig, rawQuery: Bytes)
    requires ';' in rawQuery
    ensures Class(cfg, rawQuery) == PRIVATE_QUERY
  {
    var token := PieceWith(rawQuery, '&', ';');
    BadTokenRejects(Split(rawQuery, '&'), token);
  }

  lemma {:induction false} PieceWith(s: Bytes, sep: byte, c: byte) returns (piece: Bytes)
    requires c in s && c != sep
    ensures piece in Split(s, sep) && c in piece
  {
    var r := Split(s[1..], sep);
    if s[0] == sep || (s[0] != c && c !in r[0]) {
      piece := PieceWith(s[1..], sep, c);
      assert s[0] != sep ==> piece in r[1..];
    } else {
      piece := [s[0]] + r[0];
      assert piece == Split(s, sep)[0];
    }
  }

  lemma {:induction false} BadTokenRejects(tokens: seq<Bytes>, token: Bytes)
    requires token in tokens && ';' in token
    ensures ParseTokens(tokens).None?
  {
    if token != tokens[0] {
      BadTokenRejects(tokens[1..], token);
    }
  }

  lemma ConflictMeans(cfg: QueryConfig, m: Values)
    ensures Conflict(ViewsOf(cfg, m)) <==> Merges(m)
  {
    var v := ViewsOf(cfg, m);
    forall raw | raw in m ensures raw in v && v[raw].name == VarName(raw) {
    }
    if Conflict(v) {
      var a, b :| a in v && b in v && a != b && v[a].name == v[b].name != [];
      assert a in m && b in m && VarName(a) == VarName(b) != [];
    }
    if a, b :| a in m && b in m && a != b && VarName(a) == VarName(b) != [] {
      assert v[a].name == v[b].name;
    }
  }

  /** It bypasses as unkeyed exactly when it is not private and some variable is an array or on no list. */
  lemma UnkeyedExactlyWhen(cfg: QueryConfig, rawQuery: Bytes)
    requires Class(cfg, rawQuery).reason != ReasonPrivate
    ensures ParseQuery(rawQuery).Some?
    ensures Class(cfg, rawQuery).reason == if exists raw :: raw in Parsed(rawQuery) && Unkeyed(cfg, VarNameArray(raw))
                                           then ReasonQuery else ReasonNone
  {
    NotPrivate(cfg, rawQuery);
    RefusedMeans(cfg, Parsed(rawQuery));
  }

  lemma RefusedMeans(cfg: QueryConfig, m: Values)
    ensures HasRole(ViewsOf(cfg, m), Refused) <==> exists raw :: raw in m && Unkeyed(cfg, VarNameArray(raw))
  {
    var views := ViewsOf(cfg, m);
    forall raw | raw in m ensures raw in views && (views[raw].role == Refused <==> Unkeyed(cfg, VarNameArray(raw))) {
      RolesMean(cfg, raw);
    }
    if HasRole(views, Refused) {
      var raw :| raw in views && views[raw].role == Refused;
      assert raw in m;
    }
  }

  lemma RolesMean(cfg: QueryConfig, raw: Bytes)
    ensures ViewOf(cfg, raw).role == Refused <==> Unkeyed(cfg, VarNameArray(raw))
    ensures ViewOf(cfg, raw).role == Ignored <==> Tolerated(cfg, raw)
  {
  }

  /** A variable that is ignored, and not keyed. */
  predicate Tolerated(cfg: QueryConfig, raw: Bytes) {
    && VarName(raw) != [] && !VarNameArray(raw).1
    && MatchesQueryList(cfg.ignoreList, VarName(raw)) && !MatchesQueryList(cfg.keyList, VarName(raw))
  }

  /** A variable that no list lets through: an array, or a name on neither list when '*' does not key the rest. */
  predicate Unkeyed(cfg: QueryConfig, v: (Bytes, bool)) {
    && v.0 != []
    && (v.1 || (!MatchesQueryList(cfg.keyList, v.0) && !MatchesQueryList(cfg.ignoreList, v.0) &&
                !KeyAllQueries(cfg.keyList)))
  }

  /**
   What is keyed, by the lists alone: a variable that is not an array, under its PHP name, if the name is
   on the key list, or on neither list while '*' keys the rest; with the values given to its raw name.
   */
  lemma KeyedExactlyWhen(cfg: QueryConfig, rawQuery: Bytes, name: Bytes)
    requires Class(cfg, rawQuery).reason != ReasonPrivate
    ensures ParseQuery(rawQuery).Some?
    ensures name in KeyedValues(cfg, rawQuery) <==>
            exists raw :: raw in Parsed(rawQuery) && VarNameArray(raw) == (name, false) && name != [] &&
                          (|| MatchesQueryList(cfg.keyList, name)
                           || (KeyAllQueries(cfg.keyList) && !MatchesQueryList(cfg.ignoreList, name)))
    ensures forall raw :: raw in Parsed(rawQuery) && VarName(raw) == name && name in KeyedValues(cfg, rawQuery) ==>
                            KeyedValues(cfg, rawQuery)[name] == Parsed(rawQuery)[raw]
  {
    PrivateExactlyWhen(cfg, rawQuery);
    var m := Parsed(rawQuery);
    KeyedNameMeans(cfg, m, name);
    if name in KeyedNames(ViewsOf(cfg, m)) {
      var owner := OwnerOf(ViewsOf(cfg, m), name);
      assert VarName(owner) == name != [] && owner in m;
    }
  }

  lemma KeyedNameMeans(cfg: QueryConfig, m: Values, name: Bytes)
    ensures name in KeyedNames(ViewsOf(cfg, m)) <==>
            exists raw :: raw in m && VarNameArray(raw) == (name, false) && name != [] &&
                          (|| MatchesQueryList(cfg.keyList, name)
                           || (KeyAllQueries(cfg.keyList) && !MatchesQueryList(cfg.ignoreList, name)))
  {
    var v := ViewsOf(cfg, m);
    if name in KeyedNames(v) {
      var raw :| raw in v && v[raw].role == Keyed && v[raw].name == name;
      assert raw in m && VarNameArray(raw) == (name, false);
    }
    if raw :| raw in m && VarNameArray(raw) == (name, false) && name != [] &&
              (|| MatchesQueryList(cfg.keyList, name)
               || (KeyAllQueries(cfg.keyList) && !MatchesQueryList(cfg.ignoreList, name)))
    {
      assert v[raw] == View(name, Keyed);
    }
  }

  /**
   A query is read-only exactly when it is not private and a variable that is ignored, and not
   keyed, carries a value that is no click ID.
   */
  lemma ReadOnlyExactlyWhen(cfg: QueryConfig, rawQuery: Bytes)
    requires Class(cfg, rawQuery).reason != ReasonPrivate
    ensures ParseQuery(rawQuery).Some?
    ensures Class(cfg, rawQuery).readOnly <==>
            exists raw, v :: raw in Parsed(rawQuery) && v in Parsed(rawQuery)[raw] && !ClickIDValueOK(v) &&
                             Tolerated(cfg, raw)
  {
    NotPrivate(cfg, rawQuery);
    UncleanMeans(cfg, Parsed(rawQuery));
  }

  lemma UncleanMeans(cfg: QueryConfig, m: Values)
    ensures Unclean(ViewsOf(cfg, m), m) <==>
            exists raw, v :: raw in m && v in m[raw] && !ClickIDValueOK(v) && Tolerated(cfg, raw)
  {
    var views := ViewsOf(cfg, m);
    if Unclean(views, m) {
      var raw :| raw in views && views[raw].role == Ignored && !AllClean(m[raw]);
      RolesMean(cfg, raw);
      var i :| 0 <= i < |m[raw]| && !ClickIDValueOK(m[raw][i]);
      assert raw in m && m[raw][i] in m[raw];
    }
    if raw, v :| raw in m && v in m[raw] && !ClickIDValueOK(v) && Tolerated(cfg, raw) {
      RolesMean(cfg, raw);
      assert raw in views && views[raw].role == Ignored && !AllClean(m[raw]);
    }
  }

  /** The name is one whose values tell cache entries apart. */
  predicate VariesBy(cfg: QueryConfig, name: Bytes) {
    && name != []
    && (|| MatchesQueryList(cfg.keyList, name)
        || (KeyAllQueries(cfg.keyList) && !MatchesQueryList(cfg.ignoreList, name)))
  }

  ghost predicate Sends(m: Values, name: Bytes, values: seq<Bytes>) {
    exists raw :: raw in m && VarNameArray(raw) == (name, false) && m[raw] == values
  }

  /** Two queries give every variable that varies the page the same values, or both do not give it. */
  ghost predicate SameVariables(cfg: QueryConfig, a: Bytes, b: Bytes) {
    && ParseQuery(a).Some? && ParseQuery(b).Some?
    && forall name, values :: VariesBy(cfg, name) ==>
         (Sends(Parsed(a), name, values) <==> Sends(Parsed(b), name, values))
  }

  /** Two cacheable queries have one canonical form exactly when they give the same variables the same values. */
  lemma SameCanonicalExactlyWhen(cfg: QueryConfig, a: Bytes, b: Bytes)
    requires Class(cfg, a).reason == ReasonNone && Class(cfg, b).reason == ReasonNone
    ensures Class(cfg, a).canonical == Class(cfg, b).canonical <==> SameVariables(cfg, a, b)
  {
    CanonicalDeterminesKeyedValues(cfg, a, b);
    if KeyedValues(cfg, a) == KeyedValues(cfg, b) {
      SameKeyedSameVariables(cfg, a, b);
    }
    if SameVariables(cfg, a, b) {
      SwapVariables(cfg, a, b);
      KeyedWithin(cfg, a, b);
      KeyedWithin(cfg, b, a);
      WithinBoth(KeyedValues(cfg, a), KeyedValues(cfg, b));
    }
  }

  ghost predicate Within(x: Values, y: Values) {
    forall name :: name in x ==> name in y && y[name] == x[name]
  }

  lemma WithinBoth(x: Values, y: Values)
    requires Within(x, y) && Within(y, x)
    ensures x == y
  {
  }

  lemma KeyedWithin(cfg: QueryConfig, a: Bytes, b: Bytes)
    requires Class(cfg, a).reason == ReasonNone && Class(cfg, b).reason == ReasonNone && SameVariables(cfg, a, b)
    ensures Within(KeyedValues(cfg, a), KeyedValues(cfg, b))
  {
    forall name | name in KeyedValues(cfg, a)
      ensures name in KeyedValues(cfg, b) && KeyedValues(cfg, b)[name] == KeyedValues(cfg, a)[name]
    {
      KeyedFollows(cfg, a, b, name);
    }
  }

  lemma SwapVariables(cfg: QueryConfig, a: Bytes, b: Bytes)
    requires SameVariables(cfg, a, b)
    ensures SameVariables(cfg, b, a)
  {
    forall name, values | VariesBy(cfg, name)
      ensures Sends(Parsed(b), name, values) <==> Sends(Parsed(a), name, values)
    {
    }
  }

  lemma SameKeyedSameVariables(cfg: QueryConfig, a: Bytes, b: Bytes)
    requires Class(cfg, a).reason == ReasonNone && Class(cfg, b).reason == ReasonNone
    requires ParseQuery(a).Some? && ParseQuery(b).Some? && KeyedValues(cfg, a) == KeyedValues(cfg, b)
    ensures SameVariables(cfg, a, b)
  {
    forall name, values | VariesBy(cfg, name)
      ensures Sends(Parsed(a), name, values) <==> Sends(Parsed(b), name, values)
    {
      SendsIsKeyed(cfg, a, name, values);
      SendsIsKeyed(cfg, b, name, values);
    }
  }

  lemma KeyedFollows(cfg: QueryConfig, a: Bytes, b: Bytes, name: Bytes)
    requires Class(cfg, a).reason == ReasonNone && Class(cfg, b).reason == ReasonNone && SameVariables(cfg, a, b)
    ensures ParseQuery(a).Some? && ParseQuery(b).Some?
    ensures name in KeyedValues(cfg, a) ==>
              name in KeyedValues(cfg, b) && KeyedValues(cfg, b)[name] == KeyedValues(cfg, a)[name]
  {
    if name in KeyedValues(cfg, a) {
      var values := KeyedValues(cfg, a)[name];
      KeyedVaries(cfg, a, name);
      SendsIsKeyed(cfg, a, name, values);
      SendsIsKeyed(cfg, b, name, values);
    }
  }

  lemma KeyedVaries(cfg: QueryConfig, rawQuery: Bytes, name: Bytes)
    requires Class(cfg, rawQuery).reason == ReasonNone
    ensures ParseQuery(rawQuery).Some? && (name in KeyedValues(cfg, rawQuery) ==> VariesBy(cfg, name))
  {
    KeyedExactlyWhen(cfg, rawQuery, name);
  }

  lemma SendsIsKeyed(cfg: QueryConfig, rawQuery: Bytes, name: Bytes, values: seq<Bytes>)
    requires Class(cfg, rawQuery).reason == ReasonNone && VariesBy(cfg, name)
    ensures ParseQuery(rawQuery).Some?
    ensures Sends(Parsed(rawQuery), name, values) <==>
            name in KeyedValues(cfg, rawQuery) && KeyedValues(cfg, rawQuery)[name] == values
  {
    KeyedExactlyWhen(cfg, rawQuery, name);
  }

  lemma ClassReasons(cfg: QueryConfig, rawQuery: Bytes)
    ensures Class(cfg, rawQuery).reason in {ReasonNone, ReasonPrivate, ReasonQuery}
  {
  }

  lemma CanonicalIsEncoded(cfg: QueryConfig, rawQuery: Bytes)
    requires Class(cfg, rawQuery).reason == ReasonNone
    ensures ParseQuery(rawQuery).Some? && Class(cfg, rawQuery).canonical == Encoded(KeyedValues(cfg, rawQuery))
  {
    NotPrivate(cfg, rawQuery);
  }

  lemma KeyedValuesNonEmpty(cfg: QueryConfig, rawQuery: Bytes)
    requires ParseQuery(rawQuery).Some?
    ensures forall n :: n in KeyedValues(cfg, rawQuery) ==> KeyedValues(cfg, rawQuery)[n] != []
  {
    CollectedNonEmpty(ParseQuery(rawQuery).value);
  }

  /** Two cacheable queries have the same canonical form exactly when their keyed values agree. */
  lemma CanonicalDeterminesKeyedValues(cfg: QueryConfig, a: Bytes, b: Bytes)
    requires Class(cfg, a).reason == ReasonNone && Class(cfg, b).reason == ReasonNone
    ensures ParseQuery(a).Some? && ParseQuery(b).Some?
    ensures Class(cfg, a).canonical == Class(cfg, b).canonical <==> KeyedValues(cfg, a) == KeyedValues(cfg, b)
  {
    CanonicalIsEncoded(cfg, a);
    CanonicalIsEncoded(cfg, b);
    KeyedValuesNonEmpty(cfg, a);
    KeyedValuesNonEmpty(cfg, b);
    EncodedInjective(KeyedValues(cfg, a), KeyedValues(cfg, b));
  }

  // Reordering.

  /** The values given to one raw name, in order. */
  function ValuesOf(ps: Pairs, k: Bytes): seq<Bytes> {
    if ps == [] then []
    else ValuesOf(ps[..|ps| - 1], k) + if ps[|ps| - 1].0 == k then [ps[|ps| - 1].1] else []
  }

  lemma {:induction false} CollectIsValuesOf(ps: Pairs, k: Bytes)
    ensures (k in Collect(ps) <==> ValuesOf(ps, k) != []) && (k in Collect(ps) ==> Collect(ps)[k] == ValuesOf(ps, k))
  {
    if ps != [] {
      CollectIsValuesOf(ps[..|ps| - 1], k);
      assert ps[|ps| - 1].0 == k ==> |ValuesOf(ps, k)| == |ValuesOf(ps[..|ps| - 1], k)| + 1;
    }
  }

  lemma {:induction false} PairNamesAre(ps: Pairs, name: Bytes)
    ensures name in PairNames(ps) <==> name != [] && exists i :: 0 <= i < |ps| && VarName(ps[i].0) == name
  {
    if ps != [] {
      PairNamesAre(ps[1..], name);
      assert forall i :: 0 < i < |ps| ==> ps[i] == ps[1..][i - 1];
      assert forall i :: 0 <= i < |ps[1..]| ==> ps[1..][i] == ps[i + 1];
    }
  }

  lemma SameNames(ps: Pairs, qs: Pairs, name: Bytes)
    requires Collect(ps) == Collect(qs) && name in PairNames(ps)
    ensures name in PairNames(qs)
  {
    PairNamesAre(ps, name);
    PairNamesAre(qs, name);
    CollectedNonEmpty(ps);
    CollectedNonEmpty(qs);
    var i :| 0 <= i < |ps| && VarName(ps[i].0) == name;
    assert ps[i].0 in Collect(qs);
    var j :| 0 <= j < |qs| && qs[j].0 == ps[i].0;
  }

  lemma MatchesNoCacheAny(names: seq<Bytes>, a: seq<Bytes>, b: seq<Bytes>)
    requires (forall n :: n in a ==> n in b) && MatchesNoCache(names, a)
    ensures MatchesNoCache(names, b)
  {
    var i, j :| 0 <= i < |a| && 0 <= j < |names| && EntryMatches(names[j], a[i]);
    assert a[i] in b;
    var k :| 0 <= k < |b| && b[k] == a[i];
    assert EntryMatches(names[j], b[k]);
  }

  lemma NoCacheFollows(cfg: QueryConfig, first: seq<Bytes>, second: seq<Bytes>)
    requires ParseTokens(first).Some? && ParseTokens(second).Some?
    requires Collect(ParseTokens(first).value) == Collect(ParseTokens(second).value)
    requires MatchesNoCache(cfg.noCacheNames, QueryNames(first))
    ensures MatchesNoCache(cfg.noCacheNames, QueryNames(second))
  {
    NamesAgree(first);
    NamesAgree(second);
    forall n | n in QueryNames(first) ensures n in QueryNames(second) {
      SameNames(ParseTokens(first).value, ParseTokens(second).value, n);
    }
    MatchesNoCacheAny(cfg.noCacheNames, QueryNames(first), QueryNames(second));
  }

  /**
   Reordering changes nothing: two queries that Go rejects, or that give every raw name the
   same values in the same order, wherever the pairs stand, have the same reason, read-only flag and
   canonical form.
   */
  lemma ReorderingChangesNothing(cfg: QueryConfig, first: Bytes, second: Bytes)
    requires ParseQuery(first).Some? == ParseQuery(second).Some?
    requires ParseQuery(first).Some? ==>
             forall k :: ValuesOf(ParseQuery(first).value, k) == ValuesOf(ParseQuery(second).value, k)
    ensures Class(cfg, first) == Class(cfg, second)
  {
    if ParseQuery(first).Some? {
      AcceptedReordering(cfg, first, second);
    }
  }

  lemma AcceptedReordering(cfg: QueryConfig, first: Bytes, second: Bytes)
    requires ParseQuery(first).Some? && ParseQuery(second).Some?
    requires forall k :: ValuesOf(ParseQuery(first).value, k) == ValuesOf(ParseQuery(second).value, k)
    ensures Class(cfg, first) == Class(cfg, second)
  {
    var ps, qs := ParseQuery(first).value, ParseQuery(second).value;
    forall k ensures k in Collect(ps) <==> k in Collect(qs)
      ensures k in Collect(ps) ==> Collect(ps)[k] == Collect(qs)[k]
    {
      CollectIsValuesOf(ps, k);
      CollectIsValuesOf(qs, k);
    }
    assert Collect(ps) == Collect(qs);
    if MatchesNoCache(cfg.noCacheNames, QueryNames(Split(first, '&'))) {
      NoCacheFollows(cfg, Split(first, '&'), Split(second, '&'));
    }
    if MatchesNoCache(cfg.noCacheNames, QueryNames(Split(second, '&'))) {
      NoCacheFollows(cfg, Split(second, '&'), Split(first, '&'));
    }
  }
}
