/**
 PHP's reading of a query string, phpquery.go: its decoder, its variable names, and the proof
 that on every query Go accepts the two readings name the same parameters.
 */
module PhpQuery {
  import opened Basics
  import opened GoQuery

  const NUL: byte := 0 as char

  /** PHP's urldecode: a malformed escape stands for itself. */
  function Decoded(s: Bytes): Bytes {
    if s == [] then []
    else if s[0] == '+' then [' '] + Decoded(s[1..])
    else if s[0] == '%' && |s| > 2 && IsHexDigit(s[1]) && IsHexDigit(s[2]) then [HexByte(s[1], s[2])] + Decoded(s[3..])
    else [s[0]] + Decoded(s[1..])
  }

  method PhpURLDecode(s: Bytes) returns (r: Bytes)
    ensures r == Decoded(s)
  {
    if '+' !in s && '%' !in s {
      PlainDecodes(s);
      return s;
    }
    r := [];
    var i := 0;
    while i < |s|
      invariant 0 <= i <= |s| && r + Decoded(s[i..]) == Decoded(s)
    {
      var c := s[i];
      DecodedFrom(s, i);
      ghost var before := r;
      if c == '+' {
        r := r + [' '];
      } else if c == '%' && i + 2 < |s| && IsHexDigit(s[i + 1]) && IsHexDigit(s[i + 2]) {
        r := r + [HexByte(s[i + 1], s[i + 2])];
        i := i + 2;
      } else {
        r := r + [c];
      }
      i := i + 1;
      Regroup(before, [r[|before|]], Decoded(s[i..]));
    }
    assert s[|s|..] == [];
  }

  lemma DecodedFrom(s: Bytes, i: nat)
    requires i < |s|
    ensures Decoded(s[i..]) ==
            if s[i] == '+' then [' '] + Decoded(s[i + 1..])
            else if s[i] == '%' && i + 2 < |s| && IsHexDigit(s[i + 1]) && IsHexDigit(s[i + 2])
            then [HexByte(s[i + 1], s[i + 2])] + Decoded(s[i + 3..])
            else [s[i]] + Decoded(s[i + 1..])
  {
    assert s[i..][1..] == s[i + 1..];
    if i + 2 < |s| {
      assert s[i..][3..] == s[i + 3..];
    }
  }

  lemma {:induction false} PlainDecodes(s: Bytes)
    requires '+' !in s && '%' !in s
    ensures Decoded(s) == s
  {
    if s != [] {
      PlainDecodes(s[1..]);
    }
  }

  /** Malformed escapes are kept: without '+' and without a complete escape a name decodes to itself. */
  lemma {:induction false} MalformedStays(s: Bytes)
    requires '+' !in s
    requires forall i :: 0 <= i < |s| - 2 && s[i] == '%' ==> !(IsHexDigit(s[i + 1]) && IsHexDigit(s[i + 2]))
    ensures Decoded(s) == s
  {
    if s != [] {
      MalformedStays(s[1..]);
      assert s == [s[0]] + s[1..];
    }
  }

  /** And what Go escapes, PHP reads back. */
  lemma EscapedIsRead(s: Bytes)
    ensures Decoded(Escape(s)) == s
  {
    EscapeRoundTrip(s);
    DecodersAgree(Escape(s));
  }

  function CString(name: Bytes): Bytes {
    if name == [] || name[0] == NUL then [] else [name[0]] + CString(name[1..])
  }

  function TrimLeft(name: Bytes): Bytes {
    if name != [] && name[0] == ' ' then TrimLeft(name[1..]) else name
  }

  function Substituted(c: byte): byte {
    if c == ' ' || c == '.' || c == '[' then '_' else c
  }

  function Substitute(s: Bytes): Bytes {
    seq(|s|, i requires 0 <= i < |s| => Substituted(s[i]))
  }

  /** The position of the first c, or |s|. */
  function Find(s: Bytes, c: byte): (i: nat)
    ensures i <= |s| && c !in s[..i] && (i < |s| ==> s[i] == c)
  {
    if s == [] || s[0] == c then 0
    else
      var i := Find(s[1..], c) + 1;
      assert s[..i] == [s[0]] + s[1..][..i - 1];
      i
  }

  /**
   The variable PHP registers for an already decoded name, and whether it is an array: cut at
   a NUL, trimmed on the left, an array when the first '[' has a ']' somewhere after it.
   */
  function VarNameArray(name: Bytes): (Bytes, bool) {
    var n := TrimLeft(CString(name));
    var i := Find(n, '[');
    if i < |n| && ']' in n[i + 1..] then (Substitute(n[..i]), true) else (Substitute(n), false)
  }

  function VarName(name: Bytes): Bytes {
    VarNameArray(name).0
  }

  method PhpVarNameArray(name: Bytes) returns (r: Bytes, isArray: bool)
    ensures (r, isArray) == VarNameArray(name)
  {
    var n := TrimLeft(CString(name));
    var b := new byte[|n|](i requires 0 <= i < |n| => n[i]);
    var i := 0;
    while i < b.Length
      invariant 0 <= i <= b.Length && '[' !in n[..i]
      invariant forall j :: 0 <= j < i ==> b[j] == Substituted(n[j])
      invariant forall j :: i <= j < b.Length ==> b[j] == n[j]
    {
      if b[i] == ' ' || b[i] == '.' {
        b[i] := '_';
      } else if b[i] == '[' {
        FindIs(n, '[', i);
        if ']' in n[i + 1..] {
          assert b[..i] == Substitute(n[..i]);
          return b[..i], true;
        }
        SubstituteFrom(b, n, i);
        assert b[..] == Substitute(n);
        return b[..], false;
      }
      assert n[..i + 1] == n[..i] + [n[i]];
      i := i + 1;
    }
    FindIs(n, '[', |n|);
    assert n[..|n|] == n;
    assert b[..] == Substitute(n);
    return b[..], false;
  }

  /** The inner loop for an unmatched '[': it and every later ' ', '.' or '[' is rewritten in place. */
  method SubstituteFrom(b: array<byte>, ghost n: Bytes, i: nat)
    requires i <= b.Length == |n|
    requires forall j :: 0 <= j < i ==> b[j] == Substituted(n[j])
    requires forall j :: i <= j < b.Length ==> b[j] == n[j]
    modifies b
    ensures forall j :: 0 <= j < b.Length ==> b[j] == Substituted(n[j])
  {
    for k := i to b.Length
      invariant forall j :: 0 <= j < k ==> b[j] == Substituted(n[j])
      invariant forall j :: k <= j < b.Length ==> b[j] == n[j]
    {
      if b[k] == ' ' || b[k] == '.' || b[k] == '[' {
        b[k] := '_';
      }
    }
  }

  lemma FindIs(s: Bytes, c: byte, i: nat)
    requires i <= |s| && c !in s[..i] && (i < |s| ==> s[i] == c)
    ensures Find(s, c) == i
  {
    var f := Find(s, c);
    assert !(f < i) && !(i < f);
  }

  /** The names PHP registers for a raw query, in request order; a name that becomes empty is dropped. */
  function QueryNames(tokens: seq<Bytes>): seq<Bytes> {
    if tokens == [] then [] else TokenNames(tokens[0]) + QueryNames(tokens[1..])
  }

  function TokenNames(token: Bytes): seq<Bytes> {
    var n := VarName(Decoded(Cut(token, '=').0));
    if token == [] || n == [] then [] else [n]
  }

  method PhpQueryNames(rawQuery: Bytes) returns (names: seq<Bytes>)
    ensures names == QueryNames(Split(rawQuery, '&'))
  {
    names := [];
    if rawQuery == [] {
      assert Split(rawQuery, '&') == [[]];
      return;
    }
    var tokens := Split(rawQuery, '&');
    for i := 0 to |tokens|
      invariant names + QueryNames(tokens[i..]) == QueryNames(tokens)
    {
      ghost var before := names;
      names := AppendName(names, tokens[i]);
      NextToken(tokens, i, before, names);
    }
    assert tokens[|tokens|..] == [];
  }

  /** The body of the loop of phpQueryNames. */
  method AppendName(names: seq<Bytes>, token: Bytes) returns (more: seq<Bytes>)
    ensures more == names + TokenNames(token)
  {
    more := names;
    if token == [] {
      return;
    }
    var decoded := PhpURLDecode(Cut(token, '=').0);
    var n, _ := PhpVarNameArray(decoded);
    if n != [] {
      more := names + [n];
    }
  }

  lemma NextToken(tokens: seq<Bytes>, i: nat, names: seq<Bytes>, more: seq<Bytes>)
    requires i < |tokens| && more == names + TokenNames(tokens[i])
    requires names + QueryNames(tokens[i..]) == QueryNames(tokens)
    ensures more + QueryNames(tokens[i + 1..]) == QueryNames(tokens)
  {
    QueryNamesFrom(tokens, i);
    Regroup(names, TokenNames(tokens[i]), QueryNames(tokens[i + 1..]));
  }

  lemma QueryNamesFrom(tokens: seq<Bytes>, i: nat)
    requires i < |tokens|
    ensures QueryNames(tokens[i..]) == TokenNames(tokens[i]) + QueryNames(tokens[i + 1..])
  {
    assert tokens[i..][1..] == tokens[i + 1..];
  }

  /** The non-empty PHP names of Go's parsed keys, in request order. */
  function PairNames(ps: Pairs): seq<Bytes> {
    if ps == [] then []
    else (if VarName(ps[0].0) == [] then [] else [VarName(ps[0].0)]) + PairNames(ps[1..])
  }

  /** Where Go's decoder accepts, the two decoders agree. */
  lemma {:induction false} DecodersAgree(s: Bytes)
    ensures Unescape(s).Some? ==> Unescape(s).value == Decoded(s)
    decreases |s|
  {
    if s != [] {
      if s[0] == '%' && |s| > 2 {
        DecodersAgree(s[3..]);
      }
      DecodersAgree(s[1..]);
    }
  }

  /** On every query Go's parser accepts, Go and PHP see the same names, in the same order. */
  lemma {:induction false} NamesAgree(tokens: seq<Bytes>)
    ensures ParseTokens(tokens).Some? ==> PairNames(ParseTokens(tokens).value) == QueryNames(tokens)
  {
    if tokens != [] {
      NamesAgree(tokens[1..]);
      DecodersAgree(Cut(tokens[0], '=').0);
      if tokens[0] != [] && ParseTokens(tokens).Some? {
        var ps := ParseTokens(tokens).value;
        assert ps[1..] == ParseTokens(tokens[1..]).value;
      }
    }
  }

  /**
   The registered name, said without the loop. Of a name that is spaces, then n, then nothing or a NUL
   and what follows it, PHP keeps n: an array exactly when some ']' comes after a '[', and then only what
   precedes the first '['; every space, dot and bracket left is an underscore, and nothing else changes.
   */
  lemma VarNameMeans(spaces: Bytes, n: Bytes, rest: Bytes)
    requires (forall c :: c in spaces ==> c == ' ') && NUL !in n && (n == [] || n[0] != ' ')
    requires rest == [] || rest[0] == NUL
    ensures var (r, isArray) := VarNameArray(spaces + n + rest);
            && (isArray <==> exists i, j :: 0 <= i < j < |n| && n[i] == '[' && n[j] == ']')
            && |r| <= |n| && (isArray ==> |r| < |n| && n[|r|] == '[' && '[' !in n[..|r|]) && (!isArray ==> |r| == |n|)
            && forall i :: 0 <= i < |r| ==> r[i] == if n[i] in {' ', '.', '['} then '_' else n[i]
  {
    SpacesTrimmed(spaces, n, rest);
    var i := Find(n, '[');
    if a, b :| 0 <= a < b < |n| && n[a] == '[' && n[b] == ']' {
      assert forall k :: 0 <= k < i ==> n[..i][k] == n[k];
      assert i <= a && n[i + 1..][b - i - 1] == ']';
    }
    if i < |n| && ']' in n[i + 1..] {
      var k :| 0 <= k < |n[i + 1..]| && n[i + 1..][k] == ']';
      assert n[i + 1 + k] == ']';
    }
  }

  lemma {:induction false} SpacesTrimmed(spaces: Bytes, n: Bytes, rest: Bytes)
    requires (forall c :: c in spaces ==> c == ' ') && NUL !in n && (n == [] || n[0] != ' ')
    requires rest == [] || rest[0] == NUL
    ensures TrimLeft(CString(spaces + n + rest)) == n
  {
    if spaces == [] {
      CutAtNul(n, rest);
      assert [] + n == n;
    } else {
      assert spaces[0] in spaces && forall c :: c in spaces[1..] ==> c in spaces;
      SpacesTrimmed(spaces[1..], n, rest);
      assert (spaces + n + rest)[1..] == spaces[1..] + n + rest && (spaces + n + rest)[0] == ' ';
      assert CString(spaces + n + rest)[1..] == CString(spaces[1..] + n + rest);
    }
  }

  lemma {:induction false} CutAtNul(n: Bytes, rest: Bytes)
    requires NUL !in n && (rest == [] || rest[0] == NUL)
    ensures CString(n + rest) == n
  {
    if n == [] {
      assert n + rest == rest;
    } else {
      CutAtNul(n[1..], rest);
      assert (n + rest)[1..] == n[1..] + rest;
    }
  }

  /** A registered name is free of NUL, space, '.' and '[', and registering it again changes nothing. */
  lemma NamesAreNormal(name: Bytes)
    ensures var n := VarName(name);
            && NUL !in n && ' ' !in n && '.' !in n && '[' !in n
            && VarNameArray(n) == (n, false)
  {
    var c := CString(name);
    CStringFree(name);
    TrimmedWithin(c);
    var n := VarName(name);
    assert forall i :: 0 <= i < |n| ==> n[i] == Substituted(TrimLeft(c)[i]);
    assert NUL !in n && ' ' !in n && '.' !in n && '[' !in n;
    CStringSame(n);
    FindIs(n, '[', |n|);
    assert Substitute(n) == n;
  }

  lemma {:induction false} CStringFree(name: Bytes)
    ensures NUL !in CString(name)
  {
    if name != [] { CStringFree(name[1..]); }
  }

  lemma {:induction false} CStringSame(name: Bytes)
    requires NUL !in name
    ensures CString(name) == name
  {
    if name != [] { CStringSame(name[1..]); }
  }

  lemma {:induction false} TrimmedWithin(name: Bytes)
    ensures forall c :: c in TrimLeft(name) ==> c in name
  {
    if name != [] { TrimmedWithin(name[1..]); }
  }
}
