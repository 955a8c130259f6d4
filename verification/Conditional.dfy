/** Conditional requests: etagWeakMatch and shouldReturn304 of sidekick.go. */
module Conditionals {
  import opened Basics
  import opened GoQuery
  import opened Headers
  import opened Metadatas

  predicate Space(c: byte) {
    c in {' ', '\t', '\n', '\r', '\U{0B}', '\U{0C}'}
  }

  function TrimSpace(s: Bytes): Bytes {
    if s == [] then []
    else if Space(s[0]) then TrimSpace(s[1..])
    else if Space(s[|s| - 1]) then TrimSpace(s[..|s| - 1])
    else s
  }

  /** Exactly the white space around is cut off. */
  lemma {:induction false} TrimSpaceMeans(before: Bytes, s: Bytes, after: Bytes)
    requires (forall i :: 0 <= i < |before| ==> Space(before[i])) && (forall i :: 0 <= i < |after| ==> Space(after[i]))
    requires s != [] ==> !Space(s[0]) && !Space(s[|s| - 1])
    ensures TrimSpace(before + s + after) == s
    decreases |before| + |after|
  {
    var all := before + s + after;
    if before != [] {
      TrimSpaceMeans(before[1..], s, after);
      assert all[0] == before[0] && all[1..] == before[1..] + s + after;
    } else if after != [] {
      var front := after[..|after| - 1];
      TrimSpaceMeans([], s, front);
      if s == [] {
        TrimSpaceMeans([], s, after[1..]);
        assert all == after && all[1..] == [] + s + after[1..];
      } else {
        assert all[0] == s[0] && all[..|all| - 1] == [] + s + front && all[|all| - 1] == after[|after| - 1];
      }
    } else {
      assert all == s;
    }
  }

  /** The conditional fields of a request, "" when absent. */
  datatype Validators = Validators(noneMatch: Bytes, modifiedSince: Bytes)

  /** The second of a date, or None when http.ParseTime reports an error. */
  type Dates = string -> Option<int>

  /** time.Time's zero, which an absent Last-Modified also yields. */
  const ZERO_TIME := -62_135_596_800

  const ETAG := "Etag"
  const LAST_MODIFIED := "Last-Modified"

  function WithoutWeak(tag: string): string {
    if "W/" <= tag then tag[2..] else tag
  }

  /** Weak comparison, section 8.8.3.2 of RFC 9110. */
  predicate WeakMatch(candidate: string, stored: string) {
    WithoutWeak(candidate) == WithoutWeak(stored)
  }

  /** The list names the stored tag. */
  predicate Names(list: seq<Bytes>, stored: string) {
    exists i :: 0 <= i < |list| && TrimSpace(list[i]) != [] && WeakMatch(TrimSpace(list[i]), stored)
  }

  predicate MatchesEntity(noneMatch: Bytes, stored: string) {
    stored != "" && (TrimSpace(noneMatch) == ['*'] || Names(Split(noneMatch, ','), stored))
  }

  function ModTime(dates: Dates, meta: Metadata): int {
    var last := HeaderValue(meta.header, LAST_MODIFIED);
    if last == "" || dates(last).None? then ZERO_TIME else dates(last).value
  }

  predicate Unmodified(dates: Dates, since: Bytes, meta: Metadata) {
    ModTime(dates, meta) != ZERO_TIME && dates(since).Some? && ModTime(dates, meta) <= dates(since).value
  }

  /** If-None-Match decides alone when it is there, section 13.2.1 of RFC 9110. */
  predicate NotModifiedFor(dates: Dates, v: Validators, meta: Metadata) {
    if v.noneMatch != [] then MatchesEntity(v.noneMatch, HeaderValue(meta.header, ETAG))
    else v.modifiedSince != [] && Unmodified(dates, v.modifiedSince, meta)
  }

  method ShouldReturn304(dates: Dates, v: Validators, meta: Metadata) returns (r: bool)
    ensures r == NotModifiedFor(dates, v, meta)
  {
    if v.noneMatch != [] {
      var stored := HeaderValue(meta.header, ETAG);
      if stored == "" {
        return false;
      }
      if TrimSpace(v.noneMatch) == ['*'] {
        return true;
      }
      var list := Split(v.noneMatch, ',');
      for i := 0 to |list|
        invariant forall j :: 0 <= j < i ==> TrimSpace(list[j]) == [] || !WeakMatch(TrimSpace(list[j]), stored)
      {
        var candidate := TrimSpace(list[i]);
        if candidate == [] {
          continue;
        }
        if WeakMatch(candidate, stored) {
          return true;
        }
      }
      return false;
    }
    if v.modifiedSince != [] {
      if ModTime(dates, meta) == ZERO_TIME {
        return false;
      }
      var since := dates(v.modifiedSince);
      return since.Some? && ModTime(dates, meta) <= since.value;
    }
    return false;
  }

  lemma {:induction false} SplitWithout(s: Bytes, sep: byte)
    requires sep !in s
    ensures Split(s, sep) == [s]
  {
    if s != [] {
      SplitWithout(s[1..], sep);
      assert [s[0]] + s[1..] == s;
    }
  }

  /**
   A client that sends a single tag, with or without white space around it, gets a 304 exactly
   when that tag is the stored one up to weakness, or "*"; in particular the stored tag itself.
   */
  lemma OneTagDecides(dates: Dates, v: Validators, meta: Metadata)
    requires v.noneMatch != [] && ',' !in v.noneMatch
    ensures var tag, stored := TrimSpace(v.noneMatch), HeaderValue(meta.header, ETAG);
            && (NotModifiedFor(dates, v, meta) <==>
                stored != "" && tag != [] && (tag == ['*'] || WeakMatch(tag, stored)))
            && (stored != "" && (tag == stored || (tag == "W/" + stored && !("W/" <= stored))) ==>
                NotModifiedFor(dates, v, meta))
  {
    SplitWithout(v.noneMatch, ',');
    var tag, stored := TrimSpace(v.noneMatch), HeaderValue(meta.header, ETAG);
    assert ("W/" + stored)[2..] == stored;
    assert Split(v.noneMatch, ',') == [v.noneMatch] && Split(v.noneMatch, ',')[0] == v.noneMatch;
  }

  /** The pieces of two strings with a separator between them. */
  lemma {:induction false} SplitBetween(a: Bytes, b: Bytes, sep: byte)
    ensures Split(a + [sep] + b, sep) == Split(a, sep) + Split(b, sep)
  {
    if a == [] {
      assert a + [sep] + b == [sep] + b;
      SplitCons(sep, b, sep);
    } else {
      SplitBetween(a[1..], b, sep);
      SplitCons(a[0], a[1..] + [sep] + b, sep);
      SplitCons(a[0], a[1..], sep);
      assert a + [sep] + b == [a[0]] + (a[1..] + [sep] + b) && a == [a[0]] + a[1..];
      FirstPiece(a[0], Split(a[1..], sep), Split(b, sep));
    }
  }

  lemma SplitCons(c: byte, s: Bytes, sep: byte)
    ensures var r := Split(s, sep); Split([c] + s, sep) == if c == sep then [[]] + r else [[c] + r[0]] + r[1..]
  {
    assert ([c] + s)[1..] == s;
  }

  lemma FirstPiece(c: byte, r: seq<Bytes>, t: seq<Bytes>)
    requires r != []
    ensures [[c] + (r + t)[0]] + (r + t)[1..] == ([[c] + r[0]] + r[1..]) + t
    ensures [[]] + (r + t) == ([[]] + r) + t
  {
  }

  lemma {:induction false} TrimKeeps(s: Bytes, c: byte)
    requires c in s && !Space(c)
    ensures c in TrimSpace(s)
    decreases |s|
  {
    if Space(s[0]) {
      TrimKeeps(s[1..], c);
    } else if Space(s[|s| - 1]) {
      var i :| 0 <= i < |s| && s[i] == c;
      assert s[..|s| - 1][i] == c;
      TrimKeeps(s[..|s| - 1], c);
    }
  }

  /** A list gives a 304 exactly when the tags before some comma do or those after it do; no "*" is read in it. */
  lemma ListDecides(dates: Dates, first: Bytes, rest: Bytes, since: Bytes, meta: Metadata)
    ensures var stored := HeaderValue(meta.header, ETAG);
            NotModifiedFor(dates, Validators(first + [','] + rest, since), meta) <==>
            stored != "" && (Names(Split(first, ','), stored) || Names(Split(rest, ','), stored))
  {
    var stored, list := HeaderValue(meta.header, ETAG), first + [','] + rest;
    assert list[|first|] == ',';
    TrimKeeps(list, ',');
    SplitBetween(first, rest, ',');
    NamesEither(Split(first, ','), Split(rest, ','), stored);
  }

  lemma NamesEither(a: seq<Bytes>, b: seq<Bytes>, stored: string)
    ensures Names(a + b, stored) <==> Names(a, stored) || Names(b, stored)
  {
    assert forall i :: 0 <= i < |a| ==> (a + b)[i] == a[i];
    assert forall i :: 0 <= i < |b| ==> (a + b)[|a| + i] == b[i];
  }

  /** A client that sends back the date it was given gets a 304 exactly when that is a date, and not the zero time. */
  lemma EchoedDateDecides(dates: Dates, meta: Metadata)
    requires HeaderValue(meta.header, LAST_MODIFIED) != ""
    ensures var last := HeaderValue(meta.header, LAST_MODIFIED);
            forall since: Bytes :: since == last ==>
              (NotModifiedFor(dates, Validators([], since), meta) <==>
               dates(last).Some? && dates(last).value != ZERO_TIME)
  {
  }
}
