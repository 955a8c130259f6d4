/** http.ServeContent of Go 1.25, as far as its callers depend on it. */
module ServedContent {
  import opened Basics
  import opened Headers
  import opened Clients
  import opened Downstream
  import opened Capture

  /** One range of a body. */
  datatype Part = Part(lo: nat, hi: nat)

  /**
   What ServeContent makes of a body: one status line; the ranges of a 206 with what stands
   before, between and after them; the text of an error; and header edits.
   */
  datatype Reply = Reply(status: int, parts: seq<Part>, glue: seq<Bytes>, text: Bytes, edit: Header -> Header)

  predicate Fitting(parts: seq<Part>, glue: seq<Bytes>, size: nat) {
    |glue| == |parts| + 1 && forall i :: 0 <= i < |parts| ==> parts[i].lo <= parts[i].hi <= size
  }

  /** The ranges of the body, with the glue around them: none for a single range, part headings for several. */
  function Woven(all: Bytes, parts: seq<Part>, glue: seq<Bytes>): Bytes
    requires Fitting(parts, glue, |all|)
  {
    if parts == [] then glue[0]
    else glue[0] + all[parts[0].lo..parts[0].hi] + Woven(all, parts[1..], glue[1..])
  }

  function ReplyBody(r: Reply, all: Bytes): Bytes {
    if r.status == 200 then all
    else if r.status == 206 && Fitting(r.parts, r.glue, |all|) then Woven(all, r.parts, r.glue)
    else r.text
  }

  const STATUSES := {200, 206, 304, 412, 416, 500}

  /** The replies that drop Content-Encoding: 304, and the errors that replace the body. */
  const DROPS := {304, 416, 500}

  const TYPE := "Content-Type"
  const ACCEPT_RANGES := "Accept-Ranges"
  const CONTENT_RANGE := "Content-Range"
  const TEXT_PLAIN := "text/plain; charset=utf-8"
  const MULTIPART_TYPE := "multipart/byteranges; boundary="

  /** What decides which fields a reply may change: its status, and whether it holds several ranges. */
  datatype Kind = Kind(status: int, several: bool)

  function KindOf(r: Reply): Kind {
    Kind(r.status, |r.parts| > 1)
  }

  /** The fields a reply of that kind may change on a message, which has a Content-Type or not. */
  predicate TouchedBy(k: Kind, typed: bool, n: string) {
    match k.status
    case 200 => n == LENGTH || n == ACCEPT_RANGES || (n == TYPE && !typed)
    case 206 => n == LENGTH || n == ACCEPT_RANGES || n == CONTENT_RANGE || (n == TYPE && (k.several || !typed))
    case 304 => n == LENGTH || n == TYPE || n == ENCODING || n == "Last-Modified"
    case 412 => false
    case _ => n in {LENGTH, TYPE, ENCODING, CONTENT_RANGE, "Cache-Control", "Etag", "Last-Modified",
                    "X-Content-Type-Options"}
  }

  predicate Touched(r: Reply, h: Header, n: string) {
    TouchedBy(KindOf(r), HasField(h, TYPE), n)
  }

  /** What becomes of the Content-Type. */
  predicate TypeLeft(k: Kind, before: seq<string>, after: seq<string>) {
    match k.status
    case 200 | 412 => before != [] ==> after == before
    case 206 => if k.several then after != [] && MULTIPART_TYPE <= after[0] else before != [] ==> after == before
    case 304 => after == []
    case _ => after == [TEXT_PLAIN]
  }

  /** The edit of a reply on those fields. */
  ghost predicate Edited(r: Reply, h: Header, after: Header) {
    && (forall n :: !Touched(r, h, n) ==> Values(after, n) == Values(h, n))
    && (r.status in DROPS ==> Values(after, ENCODING) == [])
    && TypeLeft(KindOf(r), Values(h, TYPE), Values(after, TYPE))
  }

  /** A 200 is the whole body; a 206 or a 416 answers a Range, and an empty body has no 416. */
  ghost predicate Window(r: Reply, size: nat, ranged: bool) {
    && r.status in STATUSES
    && (r.status == 206 ==>
        ranged && Fitting(r.parts, r.glue, size) && r.parts != [] && (|r.parts| == 1 ==> r.glue == [[], []]))
    && (r.status == 416 ==> ranged && size > 0)
    && forall h :: Edited(r, h, r.edit(h))
  }

  /** ServeContent as an arbitrary choice of such a reply for each body size. */
  ghost predicate Windows(choose: nat -> Reply, ranged: bool) {
    forall size: nat :: Window(choose(size), size, ranged)
  }

  const LABELS := MANAGED + {CACHE_HEADER}

  /** Fields that every reply keeps that does not drop the coding. */
  predicate Kept(n: string) {
    n in LABELS || n == ENCODING
  }

  lemma LengthIsNotKept()
    ensures !Kept(LENGTH)
  {
    assert LENGTH[8] == 'L' && |LENGTH| == 14 && |"Cache-Control"| == 13 && |CACHE_HEADER| == 16 && |ENCODING| == 16;
  }

  lemma EncodingIsNoLabel()
    ensures ENCODING !in LABELS && Kept(ENCODING)
  {
    assert |ENCODING| == 16 && ENCODING[0] == 'C' && |"Cache-Control"| == 13 && CACHE_HEADER[0] == 'X';
  }

  lemma TypeIsPlain()
    ensures !Kept(TYPE) && TYPE != LENGTH && !(MULTIPART_TYPE <= TEXT_PLAIN)
  {
    assert |TYPE| == 12 && |LENGTH| == 14 && |ENCODING| == 16 && |"Cache-Control"| == 13 && |CACHE_HEADER| == 16;
    assert TEXT_PLAIN[0] == 't' && MULTIPART_TYPE[0] == 'm';
  }

  lemma KeptIsNotTouched(r: Reply, h: Header, n: string)
    requires r.status in STATUSES && r.status !in DROPS && Kept(n)
    ensures !Touched(r, h, n)
  {
    LengthIsNotKept();
    TypeIsPlain();
    assert |ACCEPT_RANGES| == 13 && ACCEPT_RANGES[0] == 'A' && |CONTENT_RANGE| == 13 && CONTENT_RANGE[1] == 'o';
    assert |"Cache-Control"| == 13 && "Cache-Control"[0] == 'C' && "Cache-Control"[1] == 'a';
  }

  method ServeContent(client: Client, source: Source, size: nat, choose: nat -> Reply, ghost ranged: bool)
    requires source.Valid() && size == |source.Content()| && Windows(choose, ranged)
    modifies client, client.header, if source.FileSource? then {source.file} else {}
    ensures source.Valid() && source.Content() == old(source.Content())
    ensures client.lines == old(client.lines) + [choose(size).status]
    ensures client.body == old(client.body) + ReplyBody(choose(size), source.Content())
    ensures client.sent == client.header.fields && Edited(choose(size), old(client.header.fields), client.header.fields)
    ensures choose(size).status !in DROPS ==>
              forall n :: Kept(n) ==> Values(client.header.fields, n) == Values(old(client.header.fields), n)
  {
    var reply := choose(size);
    assert Window(reply, size, ranged);
    if reply.status !in DROPS {
      forall n | Kept(n) ensures !Touched(reply, client.header.fields, n) {
        KeptIsNotTouched(reply, client.header.fields, n);
      }
    }
    client.header.fields := reply.edit(client.header.fields);
    client.WriteHeader(reply.status);
    if reply.status == 200 {
      var all := source.ReadFrom(0, size);
      client.Write(all);
    } else if reply.status == 206 {
      WriteParts(client, source, reply.parts, reply.glue);
    } else {
      client.Write(reply.text);
    }
  }

  method WriteParts(client: Client, source: Source, parts: seq<Part>, glue: seq<Bytes>)
    requires source.Valid() && Fitting(parts, glue, |source.Content()|) && Final(client.lines)
    modifies client, if source.FileSource? then {source.file} else {}
    ensures source.Valid() && source.Content() == old(source.Content())
    ensures client.lines == old(client.lines) && client.sent == old(client.sent)
    ensures client.body == old(client.body) + Woven(source.Content(), parts, glue)
  {
    ghost var all := source.Content();
    ghost var goal := client.body + Woven(all, parts, glue);
    for i := 0 to |parts|
      invariant source.Valid() && source.Content() == all
      invariant client.lines == old(client.lines) && client.sent == old(client.sent)
      invariant client.body + Woven(all, parts[i..], glue[i..]) == goal
    {
      NextPart(all, parts, glue, i, client.body);
      client.Write(glue[i]);
      var window := source.ReadFrom(parts[i].lo, parts[i].hi);
      client.Write(window);
    }
    client.Write(glue[|parts|]);
  }

  lemma NextPart(all: Bytes, parts: seq<Part>, glue: seq<Bytes>, i: nat, body: Bytes)
    requires Fitting(parts, glue, |all|) && i < |parts|
    ensures body + Woven(all, parts[i..], glue[i..]) ==
            body + glue[i] + all[parts[i].lo..parts[i].hi] + Woven(all, parts[i + 1..], glue[i + 1..])
  {
    assert parts[i..][1..] == parts[i + 1..] && glue[i..][1..] == glue[i + 1..];
    var g, w, rest := glue[i], all[parts[i].lo..parts[i].hi], Woven(all, parts[i + 1..], glue[i + 1..]);
    Regroup(body, g, w);
    Regroup(body, g + w, rest);
  }
}
