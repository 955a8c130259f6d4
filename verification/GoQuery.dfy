/**
 The parts of Go's net/url that query keys rely on: ParseQuery, QueryUnescape, QueryEscape
 and Values.Encode. A query value is a map from each name to its values in request order.
 */
module GoQuery {
  import opened Basics

  type Values = map<Bytes, seq<Bytes>>

  type Pairs = seq<(Bytes, Bytes)>

  predicate IsHexDigit(c: byte) {
    '0' <= c <= '9' || 'a' <= c <= 'f' || 'A' <= c <= 'F'
  }

  function UnhexDigit(c: byte): (n: int)
    requires IsHexDigit(c)
    ensures 0 <= n < 16
  {
    if '0' <= c <= '9' then c as int - '0' as int
    else if 'a' <= c <= 'f' then c as int - 'a' as int + 10
    else c as int - 'A' as int + 10
  }

  function HexByte(hi: byte, lo: byte): byte
    requires IsHexDigit(hi) && IsHexDigit(lo)
  {
    (16 * UnhexDigit(hi) + UnhexDigit(lo)) as char
  }

  /** The pieces between separators; there is always at least one. */
  function Split(s: Bytes, sep: byte): (r: seq<Bytes>)
    ensures r != []
  {
    if s == [] then [[]]
    else
      var r := Split(s[1..], sep);
      if s[0] == sep then [[]] + r else [[s[0]] + r[0]] + r[1..]
  }

  /** What precedes and what follows the first separator; all of s and nothing when there is none. */
  function Cut(s: Bytes, sep: byte): (Bytes, Bytes) {
    if s == [] then ([], [])
    else if s[0] == sep then ([], s[1..])
    else var (a, b) := Cut(s[1..], sep); ([s[0]] + a, b)
  }

  /** url.QueryUnescape; None is its error for a malformed escape. */
  function Unescape(s: Bytes): Option<Bytes> {
    if s == [] then Some([])
    else if s[0] == '%' then
      if |s| > 2 && IsHexDigit(s[1]) && IsHexDigit(s[2]) then
        match Unescape(s[3..])
        case None => None
        case Some(r) => Some([HexByte(s[1], s[2])] + r)
      else None
    else
      match Unescape(s[1..])
      case None => None
      case Some(r) => Some([if s[0] == '+' then ' ' else s[0]] + r)
  }

  /** One token of the query; a ';' in it is an error. */
  function ParsePair(token: Bytes): Option<(Bytes, Bytes)> {
    if ';' in token then None
    else
      var (k, v) := Cut(token, '=');
      if Unescape(k).Some? && Unescape(v).Some? then Some((Unescape(k).value, Unescape(v).value)) else None
  }

  /** The pairs of all non-empty tokens in order, or None when url.ParseQuery reports an error. */
  function ParseTokens(tokens: seq<Bytes>): Option<Pairs> {
    if tokens == [] then Some([])
    else if tokens[0] == [] then ParseTokens(tokens[1..])
    else
      match ParsePair(tokens[0])
      case None => None
      case Some(p) =>
        match ParseTokens(tokens[1..])
        case None => None
        case Some(ps) => Some([p] + ps)
  }

  function ParseQuery(raw: Bytes): Option<Pairs> {
    ParseTokens(Split(raw, '&'))
  }

  /** Every pair appended to the values of its name. */
  function Collect(ps: Pairs): Values {
    if ps == [] then map[]
    else
      var m, (k, v) := Collect(ps[..|ps| - 1]), ps[|ps| - 1];
      m[k := (if k in m then m[k] else []) + [v]]
  }

  predicate Unreserved(c: byte) {
    'a' <= c <= 'z' || 'A' <= c <= 'Z' || '0' <= c <= '9' || c == '-' || c == '_' || c == '.' || c == '~'
  }

  function HexDigit(n: int): byte
    requires 0 <= n < 16
  {
    if n < 10 then (n + '0' as int) as char else (n - 10 + 'A' as int) as char
  }

  /** url.QueryEscape. */
  function Escape(s: Bytes): Bytes {
    if s == [] then [] else EscapeByte(s[0]) + Escape(s[1..])
  }

  function EscapeByte(c: byte): Bytes {
    if Unreserved(c) then [c]
    else if c == ' ' then ['+']
    else ['%', HexDigit(c as int / 16), HexDigit(c as int % 16)]
  }

  function Token(p: (Bytes, Bytes)): Bytes {
    Escape(p.0) + ['='] + Escape(p.1)
  }

  function JoinTokens(ps: Pairs): Bytes {
    if ps == [] then [] else if |ps| == 1 then Token(ps[0]) else Token(ps[0]) + ['&'] + JoinTokens(ps[1..])
  }

  function Tagged(k: Bytes, vs: seq<Bytes>): Pairs {
    seq(|vs|, i requires 0 <= i < |vs| => (k, vs[i]))
  }

  /** The pairs of the names ks, name by name. */
  function Flatten(ks: seq<Bytes>, m: Values): Pairs
    requires forall k :: k in ks ==> k in m
  {
    if ks == [] then [] else Flatten(ks[..|ks| - 1], m) + Tagged(ks[|ks| - 1], m[ks[|ks| - 1]])
  }

  // Byte-wise order, for sort.Strings.

  predicate LessEq(a: Bytes, b: Bytes) {
    a == [] || (b != [] && (a[0] < b[0] || (a[0] == b[0] && LessEq(a[1..], b[1..]))))
  }

  lemma {:induction false} LessEqTotal(a: Bytes, b: Bytes)
    ensures LessEq(a, b) || LessEq(b, a)
    ensures LessEq(a, b) && LessEq(b, a) ==> a == b
  {
    if a != [] && b != [] && a[0] == b[0] {
      LessEqTotal(a[1..], b[1..]);
      assert a == [a[0]] + a[1..] && b == [b[0]] + b[1..];
    }
  }

  lemma {:induction false} LessEqTransitive(a: Bytes, b: Bytes, c: Bytes)
    requires LessEq(a, b) && LessEq(b, c)
    ensures LessEq(a, c)
  {
    if a != [] && a[0] == b[0] == c[0] {
      LessEqTransitive(a[1..], b[1..], c[1..]);
    }
  }

  predicate Ascending(ks: seq<Bytes>) {
    forall i, j :: 0 <= i < j < |ks| ==> LessEq(ks[i], ks[j]) && ks[i] != ks[j]
  }

  ghost predicate Enumerates(ks: seq<Bytes>, names: set<Bytes>) {
    Ascending(ks) && forall k :: k in names <==> k in ks
  }

  /** There is only one ascending list of a set of names. */
  lemma {:induction false} AscendingUnique(a: seq<Bytes>, b: seq<Bytes>, names: set<Bytes>)
    requires Enumerates(a, names) && Enumerates(b, names)
    ensures a == b
    decreases |a|
  {
    assert b == [] || b[0] in b;
    if a != [] {
      assert a[0] in names;
      var i :| 0 <= i < |b| && b[i] == a[0];
      assert b[0] in names;
      var j :| 0 <= j < |a| && a[j] == b[0];
      LessEqTotal(a[0], b[0]);
      assert a[0] == b[0];
      forall k ensures k in names - {a[0]} <==> k in a[1..] {
        if k in a[1..] { var n :| 0 <= n < |a[1..]| && a[1..][n] == k; assert a[n + 1] == k; }
        if k in a && k != a[0] { var n :| 0 <= n < |a| && a[n] == k; assert a[1..][n - 1] == k; }
      }
      forall k ensures k in names - {a[0]} <==> k in b[1..] {
        if k in b[1..] { var n :| 0 <= n < |b[1..]| && b[1..][n] == k; assert b[n + 1] == k; }
        if k in b && k != b[0] { var n :| 0 <= n < |b| && b[n] == k; assert b[1..][n - 1] == k; }
      }
      AscendingUnique(a[1..], b[1..], names - {a[0]});
    }
  }

  /** The list with one more name, where the order wants it. */
  function Inserted(ks: seq<Bytes>, k: Bytes): seq<Bytes> {
    if ks == [] || !LessEq(ks[0], k) then [k] + ks else [ks[0]] + Inserted(ks[1..], k)
  }

  lemma {:induction false} InsertedEnumerates(ks: seq<Bytes>, k: Bytes, names: set<Bytes>)
    requires Enumerates(ks, names) && k !in names
    ensures Enumerates(Inserted(ks, k), names + {k})
  {
    var r := Inserted(ks, k);
    if ks == [] {
    } else if !LessEq(ks[0], k) {
      forall j | 0 <= j < |ks| ensures LessEq(k, ks[j]) {
        LessEqTotal(ks[0], k);
        if j > 0 { LessEqTransitive(k, ks[0], ks[j]); }
      }
    } else {
      var rest := ks[1..];
      assert ks == [ks[0]] + rest;
      assert ks[0] !in rest;
      InsertedEnumerates(rest, k, names - {ks[0]});
      forall j | 0 < j < |r| ensures LessEq(r[0], r[j]) && r[0] != r[j] {
        assert r[j] in Inserted(rest, k);
      }
    }
  }

  /** Collects the names of a map in some order and sorts them by insertion. */
  method SortedNames(m: Values) returns (ks: seq<Bytes>)
    ensures Enumerates(ks, m.Keys)
  {
    ks := [];
    var todo := m.Keys;
    while todo != {}
      invariant todo <= m.Keys && Enumerates(ks, m.Keys - todo)
      decreases |todo|
    {
      var k :| k in todo;
      InsertedEnumerates(ks, k, m.Keys - todo);
      assert m.Keys - todo + {k} == m.Keys - (todo - {k});
      ks := Inserted(ks, k);
      todo := todo - {k};
    }
  }

  lemma {:induction false} SortedExists(names: set<Bytes>)
    ensures exists ks :: Enumerates(ks, names)
  {
    if names == {} {
      assert Enumerates([], names);
    } else {
      var k :| k in names;
      SortedExists(names - {k});
      var ks :| Enumerates(ks, names - {k});
      InsertedEnumerates(ks, k, names - {k});
      assert names - {k} + {k} == names;
    }
  }

  ghost function Sorted(names: set<Bytes>): (ks: seq<Bytes>)
    ensures Enumerates(ks, names)
  {
    SortedExists(names);
    var ks :| Enumerates(ks, names);
    ks
  }

  /** Values.Encode: the pairs, name by name in ascending order. */
  ghost function Encoded(m: Values): Bytes {
    JoinTokens(Flatten(Sorted(m.Keys), m))
  }

  method Encode(m: Values) returns (s: Bytes)
    ensures s == Encoded(m)
  {
    var ks := SortedNames(m);
    AscendingUnique(ks, Sorted(m.Keys), m.Keys);
    s := [];
    for i := 0 to |ks|
      invariant s == JoinTokens(Flatten(ks[..i], m))
    {
      FlattenOneMore(ks, m, i);
      s := AppendValues(s, Flatten(ks[..i], m), ks[i], m[ks[i]]);
    }
    assert ks[..|ks|] == ks;
  }

  lemma FlattenOneMore(ks: seq<Bytes>, m: Values, i: nat)
    requires i < |ks| && forall k :: k in ks ==> k in m
    ensures Flatten(ks[..i + 1], m) == Flatten(ks[..i], m) + Tagged(ks[i], m[ks[i]])
  {
    assert ks[..i + 1][..i] == ks[..i];
  }

  /** The inner loop of Encode: the values of one name. */
  method AppendValues(buf: Bytes, ghost done: Pairs, k: Bytes, vs: seq<Bytes>) returns (s: Bytes)
    requires buf == JoinTokens(done)
    ensures s == JoinTokens(done + Tagged(k, vs))
  {
    s := buf;
    assert done + Tagged(k, vs[..0]) == done;
    for j := 0 to |vs|
      invariant s == JoinTokens(done + Tagged(k, vs[..j]))
    {
      TaggedOneMore(k, vs, j);
      Regroup(done, Tagged(k, vs[..j]), [(k, vs[j])]);
      JoinOneMore(done + Tagged(k, vs[..j]), (k, vs[j]));
      s := (if |s| > 0 then s + ['&'] else s) + Token((k, vs[j]));
    }
    assert vs[..|vs|] == vs;
  }

  lemma TaggedOneMore(k: Bytes, vs: seq<Bytes>, j: nat)
    requires j < |vs|
    ensures Tagged(k, vs[..j + 1]) == Tagged(k, vs[..j]) + [(k, vs[j])]
  {
  }

  /** A token always has its '=', so the buffer is empty only before the first pair. */
  lemma {:induction false} JoinOneMore(ps: Pairs, p: (Bytes, Bytes))
    ensures JoinTokens(ps) == [] <==> ps == []
    ensures JoinTokens(ps + [p]) == (if ps == [] then [] else JoinTokens(ps) + ['&']) + Token(p)
  {
    if |ps| > 0 {
      JoinOneMore(ps[1..], p);
      assert (ps + [p])[1..] == ps[1..] + [p];
      if |ps| == 1 { assert ps[1..] == []; }
    }
  }

  // Decoding undoes encoding.

  lemma EscapedByte(c: byte, rest: Bytes)
    ensures Unescape(EscapeByte(c) + rest) == match Unescape(rest) { case None => None case Some(r) => Some([c] + r) }
    ensures forall i :: 0 <= i < |EscapeByte(c)| ==> EscapeByte(c)[i] !in {'&', '=', ';'}
  {
    var e := EscapeByte(c);
    if Unreserved(c) || c == ' ' {
      assert (e + rest)[1..] == rest;
    } else {
      assert (e + rest)[3..] == rest;
      assert HexByte(e[1], e[2]) == c;
    }
  }

  lemma {:induction false} EscapeRoundTrip(s: Bytes)
    ensures Unescape(Escape(s)) == Some(s)
    ensures forall i :: 0 <= i < |Escape(s)| ==> Escape(s)[i] !in {'&', '=', ';'}
  {
    if s != [] {
      EscapeRoundTrip(s[1..]);
      assert s == [s[0]] + s[1..];
      EscapedByte(s[0], Escape(s[1..]));
    }
  }

  lemma {:induction false} CutAt(a: Bytes, b: Bytes, sep: byte)
    requires sep !in a
    ensures Cut(a + [sep] + b, sep) == (a, b)
  {
    var s := a + [sep] + b;
    if a == [] {
      assert s[1..] == b;
    } else {
      assert s[1..] == a[1..] + [sep] + b;
      CutAt(a[1..], b, sep);
      assert a == [a[0]] + a[1..];
    }
  }

  lemma TokenRoundTrip(p: (Bytes, Bytes))
    ensures ParsePair(Token(p)) == Some(p) && '&' !in Token(p)
  {
    EscapeRoundTrip(p.0);
    EscapeRoundTrip(p.1);
    CutAt(Escape(p.0), Escape(p.1), '=');
  }

  lemma {:induction false} SplitToken(t: Bytes)
    requires '&' !in t
    ensures Split(t, '&') == [t]
    ensures forall rest: Bytes :: Split(t + ['&'] + rest, '&') == [t] + Split(rest, '&')
  {
    if t == [] {
      forall rest: Bytes ensures Split(t + ['&'] + rest, '&') == [t] + Split(rest, '&') {
        assert (t + ['&'] + rest)[1..] == rest;
      }
    } else {
      SplitToken(t[1..]);
      assert t == [t[0]] + t[1..];
      forall rest: Bytes ensures Split(t + ['&'] + rest, '&') == [t] + Split(rest, '&') {
        assert (t + ['&'] + rest)[1..] == t[1..] + ['&'] + rest;
      }
    }
  }

  lemma {:induction false} ParseJoined(ps: Pairs)
    ensures ParseQuery(JoinTokens(ps)) == Some(ps)
  {
    if ps == [] {
      assert Split([], '&') == [[]];
    } else {
      TokenRoundTrip(ps[0]);
      SplitToken(Token(ps[0]));
      ParseJoined(ps[1..]);
      assert ps == [ps[0]] + ps[1..];
      if |ps| == 1 {
        assert [Token(ps[0])] == [Token(ps[0])] + [];
        ParseCons(Token(ps[0]), ps[0], []);
      } else {
        assert JoinTokens(ps) == Token(ps[0]) + ['&'] + JoinTokens(ps[1..]);
        ParseCons(Token(ps[0]), ps[0], Split(JoinTokens(ps[1..]), '&'));
      }
    }
  }

  lemma ParseCons(token: Bytes, p: (Bytes, Bytes), rest: seq<Bytes>)
    requires token != [] && ParsePair(token) == Some(p)
    ensures ParseTokens([token] + rest) ==
            match ParseTokens(rest) { case None => None case Some(ps) => Some([p] + ps) }
  {
    assert ([token] + rest)[1..] == rest;
  }

  lemma CollectOneMore(ps: Pairs, k: Bytes, v: Bytes)
    ensures Collect(ps + [(k, v)]) == Collect(ps)[k := (if k in Collect(ps) then Collect(ps)[k] else []) + [v]]
  {
    assert (ps + [(k, v)])[..|ps|] == ps;
  }

  lemma {:induction false} CollectTagged(ps: Pairs, k: Bytes, vs: seq<Bytes>)
    requires k !in Collect(ps)
    ensures Collect(ps + Tagged(k, vs)) == if vs == [] then Collect(ps) else Collect(ps)[k := vs]
    decreases |vs|
  {
    TaggedSplit(ps, k, vs);
    if vs != [] {
      var n := |vs| - 1;
      CollectTagged(ps, k, vs[..n]);
      CollectOneMore(ps + Tagged(k, vs[..n]), k, vs[n]);
      GrowValue(Collect(ps), k, vs[..n], vs[n]);
    }
  }

  lemma TaggedSplit(ps: Pairs, k: Bytes, vs: seq<Bytes>)
    ensures if vs == [] then ps + Tagged(k, vs) == ps
            else
              var n := |vs| - 1;
              ps + Tagged(k, vs) == (ps + Tagged(k, vs[..n])) + [(k, vs[n])] && vs == vs[..n] + [vs[n]]
  {
    if vs != [] {
      var n := |vs| - 1;
      assert vs[..n + 1] == vs;
      TaggedOneMore(k, vs, n);
      Regroup(ps, Tagged(k, vs[..n]), [(k, vs[n])]);
    }
  }

  lemma GrowValue(m: Values, k: Bytes, vs: seq<Bytes>, v: Bytes)
    requires k !in m
    ensures var grown := if vs == [] then m else m[k := vs];
            grown[k := (if k in grown then grown[k] else []) + [v]] == m[k := vs + [v]]
  {
  }

  lemma {:induction false} CollectFlatten(ks: seq<Bytes>, m: Values)
    requires Ascending(ks) && forall k :: k in ks ==> k in m && m[k] != []
    ensures Collect(Flatten(ks, m)) == map k | k in ks :: m[k]
    decreases |ks|
  {
    if ks != [] {
      var front, last := ks[..|ks| - 1], ks[|ks| - 1];
      CollectFlatten(front, m);
      CollectTagged(Flatten(front, m), last, m[last]);
      MapOneMore(ks, m);
    }
  }

  lemma MapOneMore(ks: seq<Bytes>, m: Values)
    requires ks != [] && forall k :: k in ks ==> k in m
    ensures var front, last := ks[..|ks| - 1], ks[|ks| - 1];
            (map k | k in ks :: m[k]) == (map k | k in front :: m[k])[last := m[last]]
  {
    assert forall k :: k in ks <==> k in ks[..|ks| - 1] || k == ks[|ks| - 1];
  }

  /** The encoder is undone by the parser, for every query value without empty lists. */
  lemma EncodedRoundTrip(m: Values)
    requires forall k :: k in m ==> m[k] != []
    ensures ParseQuery(Encoded(m)).Some? && Collect(ParseQuery(Encoded(m)).value) == m
  {
    var ks := Sorted(m.Keys);
    ParseJoined(Flatten(ks, m));
    CollectFlatten(ks, m);
    assert (map k | k in ks :: m[k]) == m;
  }

  /** So two of them have the same encoding exactly when they are equal. */
  lemma EncodedInjective(m: Values, n: Values)
    requires (forall k :: k in m ==> m[k] != []) && (forall k :: k in n ==> n[k] != [])
    ensures Encoded(m) == Encoded(n) <==> m == n
  {
    EncodedRoundTrip(m);
    EncodedRoundTrip(n);
  }

  lemma {:induction false} CollectedNonEmpty(ps: Pairs)
    ensures forall k :: k in Collect(ps) ==> Collect(ps)[k] != []
    ensures forall k :: k in Collect(ps) <==> exists i :: 0 <= i < |ps| && ps[i].0 == k
  {
    if ps != [] {
      CollectedNonEmpty(ps[..|ps| - 1]);
    }
  }
}
