/**
 The capturing response writer of response_writer.go: the body an upstream writes passes
 through to the client, or is held back, while it is collected in memory or in a temporary file.
 */
module Capture {
  import opened Basics
  import opened Headers
  import opened Clients
  import opened Metadatas
  import opened Compression
  import opened Downstream
  import opened ResponseRules
  import opened Storages
  import opened Upstreams

  /** An open file with its cursor. */
  class TempFile {
    var data: Bytes
    var pos: nat

    ghost predicate Valid()
      reads this
    {
      pos <= |data|
    }

    constructor ()
      ensures Valid() && data == [] && pos == 0
    {
      data, pos := [], 0;
    }

    /** Writes at the cursor, over what is there. */
    method Write(b: Bytes)
      requires Valid()
      modifies this
      ensures Valid() && pos == old(pos) + |b|
      ensures data == old(data[..pos]) + b + old(if pos + |b| <= |data| then data[pos + |b|..] else [])
    {
      data := data[..pos] + b + if pos + |b| <= |data| then data[pos + |b|..] else [];
      pos := pos + |b|;
    }

    method Seek(p: nat)
      requires Valid() && p <= |data|
      modifies this`pos
      ensures Valid() && pos == p
    {
      pos := p;
    }

    /** Reads from the cursor to the end of the file. */
    method ReadAll() returns (b: Bytes)
      requires Valid()
      modifies this`pos
      ensures Valid() && b == data[old(pos)..] && pos == |data|
    {
      b := data[pos..];
      pos := |data|;
    }
  }

  const LENGTH := "Content-Length"
  const ENCODING := "Content-Encoding"

  datatype Limits = Limits(codes: seq<string>, maxCacheableSize: int, streamToDiskSize: int)

  class ResponseWriter {
    const limits: Limits
    const policy: Policy
    const dims: KeyDims
    const client: Client
    var status: int
    var needCache: bool
    var captureOnly: bool
    var fillAbandoned: bool
    var isStreaming: bool
    var buffer: Bytes
    var tempFile: TempFile?
    var totalSize: int
    /** Every byte the upstream has written so far. */
    ghost var written: Bytes
    /** The interim lines sent so far. */
    ghost var early: seq<int>

    ghost function Captured(): Bytes
      reads this, tempFile
    {
      if tempFile != null then tempFile.data else buffer
    }

    /** While the response may be stored, what was collected is what was written, within the limit. */
    ghost predicate Collected()
      reads this, tempFile
    {
      && (tempFile != null <==> isStreaming)
      && (tempFile != null ==> tempFile.Valid() && buffer == [])
      && (needCache ==> Captured() == written && totalSize == |written|)
      && (needCache && limits.maxCacheableSize >= 0 ==> |written| <= limits.maxCacheableSize)
      && (!needCache ==> tempFile == null && buffer == [])
    }

    /** No final line has been sent, and no body byte written. */
    ghost predicate Waiting()
      reads this, client
    {
      status < 200 && !Final(client.lines)
    }

    /** What was not held back has been sent: the interim lines, one final line, every byte. */
    ghost predicate Sent()
      reads this, client, client.header
    {
      if Waiting() then
        early != [] && status == early[|early| - 1] && client.lines == early && client.body == [] && written == []
      else
        && client.lines == early + [if status < 200 then 200 else status]
        && client.body == written && client.sent == client.header.fields
    }

    /** The client has received nothing while the body is held back, and otherwise every line and every byte. */
    ghost predicate Delivered()
      reads this, client, client.header
    {
      && (captureOnly ==> client.lines == [] && client.body == [] && !fillAbandoned && early == [])
      && (captureOnly ==> (status == -1 && !needCache) || (status == 200 && needCache))
      && (!captureOnly && status != -1 ==> Sent())
      && (status == -1 || status >= 100)
      && (forall i :: 0 <= i < |early| ==> InterimStatus(early[i]))
      && (status == -1 ==>
          early == [] && written == [] && !needCache && !fillAbandoned && client.lines == [] && client.body == [])
    }

    /** What every step keeps, wherever in the response it happens. */
    ghost predicate Valid()
      reads this, client, client.header, tempFile
    {
      Collected() && Delivered() && (Waiting() ==> tempFile == null && buffer == [] && totalSize == 0)
    }

    /** Valid, and the cursor of the temporary file is where the next write belongs. */
    ghost predicate Open()
      reads this, client, client.header, tempFile
    {
      Valid() && (tempFile != null ==> tempFile.pos == |tempFile.data|)
    }

    constructor (limits: Limits, policy: Policy, dims: KeyDims, client: Client)
      requires client.lines == [] && client.body == []
      ensures Open() && status == -1 && !captureOnly && !needCache && written == [] && early == [] && tempFile == null
      ensures this.limits == limits && this.policy == policy && this.dims == dims
      ensures this.client == client
    {
      this.limits, this.policy, this.dims, this.client := limits, policy, dims, client;
      status, needCache, captureOnly, fillAbandoned, isStreaming := -1, false, false, false, false;
      buffer, tempFile, totalSize, written, early := [], null, 0, [], [];
    }

    /**
     A status line, interim or final. Each runs the whole decision: an interim line too gives
     up a held-back body, labels the fields, and may set needCache, which nothing clears.
     */
    method WriteHeader(code: int, now: int)
      requires Open() && Waiting() && (code >= 200 || InterimStatus(code))
      modifies this, client, client.header
      ensures Open() && status == code && written == [] && tempFile == null
      ensures early == if code < 200 then old(early) + [code] else old(early)
      ensures needCache == (old(needCache) || MayStore(limits, code, old(client.header.fields)))
      ensures captureOnly == (old(captureOnly) && MayStore(limits, code, old(client.header.fields)) && code == 200)
      ensures fillAbandoned == (old(fillAbandoned) || (old(captureOnly) && !captureOnly))
      ensures client.lines == if captureOnly then [] else old(client.lines) + [code]
      ensures MissStamped(limits, policy, dims, code, now, old(client.header.fields), client.header.fields)
    {
      status := code;
      var storable := MarkMiss(code, now);
      SendHeader(code, storable);
    }

    /** Sends the status line, unless the body is to be held back. */
    method SendHeader(code: int, storable: bool)
      requires status == code && (code >= 200 || InterimStatus(code)) && client.lines == early && client.body == []
      requires written == []
      requires totalSize == 0 && buffer == [] && tempFile == null && !isStreaming
      requires captureOnly ==> !fillAbandoned && early == [] && !needCache
      requires forall i :: 0 <= i < |early| ==> InterimStatus(early[i])
      modifies this`captureOnly, this`fillAbandoned, this`needCache, this`early, client
      ensures Open() && client.lines == if captureOnly then [] else old(client.lines) + [code]
      ensures needCache == (old(needCache) || storable)
      ensures early == if code < 200 then old(early) + [code] else old(early)
      ensures captureOnly == (old(captureOnly) && storable && code == 200)
      ensures fillAbandoned == (old(fillAbandoned) || (old(captureOnly) && !captureOnly))
    {
      if storable {
        needCache := true;
      }
      if !storable || code != 200 {
        AbandonCaptureBeforeBody();
      }
      if !captureOnly {
        client.WriteHeader(code);
      }
      if code < 200 {
        early := early + [code];
      }
    }

    /** Decides whether the response may be stored, and labels it accordingly. */
    method MarkMiss(code: int, now: int) returns (storable: bool)
      modifies client.header
      ensures storable == MayStore(limits, code, old(client.header.fields))
      ensures MissStamped(limits, policy, dims, code, now, old(client.header.fields), client.header.fields)
    {
      var bypass := !IsCacheableStatus(limits.codes, code);
      if HasUncacheableHeader(client.header.fields) {
        bypass := true;
      }
      if DeclaredTooLarge(limits.maxCacheableSize, client.header.fields) {
        bypass := true;
      }
      var originPrivate := OriginPrivate(client.header.fields);
      if originPrivate {
        bypass := true;
      }
      if bypass {
        Stamp(policy, client.header, "BYPASS", dims, if originPrivate then BypassPrivate else BypassPolicy, now);
        return false;
      }
      Stamp(policy, client.header, "MISS", dims, Miss, now);
      return true;
    }

    method AbandonCaptureBeforeBody()
      modifies this`captureOnly, this`fillAbandoned
      ensures !captureOnly && fillAbandoned == (old(fillAbandoned) || old(captureOnly))
    {
      if !captureOnly {
        return;
      }
      captureOnly := false;
      fillAbandoned := true;
    }

    /** Gives up a held-back body midway: the status line, then everything captured so far. */
    method ReleaseCapture()
      requires status == 200 && client.lines == [] && client.body == []
      requires (tempFile != null <==> isStreaming) && (tempFile != null ==> tempFile.Valid())
      modifies this`captureOnly, this`fillAbandoned, client, tempFile
      ensures !captureOnly && fillAbandoned
      ensures client.lines == [200] && client.body == old(Captured()) && client.sent == client.header.fields
    {
      captureOnly := false;
      fillAbandoned := true;
      client.WriteHeader(if status < 0 then 200 else status);
      if isStreaming && tempFile != null {
        tempFile.Seek(0);
        var all := tempFile.ReadAll();
        client.Write(all);
        return;
      }
      if |buffer| > 0 {
        client.Write(buffer);
      }
    }

    method Write(b: Bytes, now: int) returns (n: nat)
      requires Open()
      modifies this, client, client.header, tempFile
      ensures Open() && n == |b| && written == old(written) + b && early == old(early)
      ensures status == (if old(status) == -1 then 200 else old(status))
      ensures needCache ==
              ((if old(status) == -1 then MayStore(limits, 200, old(client.header.fields)) else old(needCache)) &&
                            Fits(limits.maxCacheableSize, |written|))
      ensures captureOnly == (old(captureOnly) && needCache)
      ensures fillAbandoned == (old(fillAbandoned) || (old(captureOnly) && !captureOnly))
      ensures isStreaming == (needCache && (old(isStreaming) || 0 < limits.streamToDiskSize < |written|))
      ensures tempFile == old(tempFile) || tempFile == null || fresh(tempFile)
      ensures captureOnly || Final(client.lines)
      ensures old(status) != -1 ==> client.header.fields == old(client.header.fields)
      ensures old(status) == -1 ==>
              MissStamped(limits, policy, dims, 200, now, old(client.header.fields), client.header.fields)
    {
      if status == -1 {
        WriteHeader(200, now);
      }
      n := |b|;
      if !captureOnly {
        client.Write(b);
      }
      written := written + b;
      if needCache {
        Collect(b);
      }
    }

    /** The part of Write that holds bufMu: everything but b is collected, and b has been counted as written. */
    method Collect(b: Bytes)
      requires needCache && (tempFile != null <==> isStreaming)
      requires tempFile != null ==> tempFile.Valid() && tempFile.pos == |tempFile.data| && buffer == []
      requires Captured() + b == written && totalSize == |Captured()| && status >= 100
      requires forall i :: 0 <= i < |early| ==> InterimStatus(early[i])
      requires captureOnly ==> client.lines == [] && client.body == [] && status == 200 && !fillAbandoned && early == []
      requires !captureOnly ==> Sent() && !Waiting()
      modifies this`needCache, this`captureOnly, this`fillAbandoned, this`isStreaming, this`buffer, this`tempFile,
               this`totalSize, client, tempFile
      ensures Open() && !Waiting() && needCache == Fits(limits.maxCacheableSize, |written|)
      ensures captureOnly == (old(captureOnly) && needCache) && (captureOnly || Final(client.lines))
      ensures fillAbandoned == (old(fillAbandoned) || (old(captureOnly) && !captureOnly))
      ensures isStreaming == (needCache && (old(isStreaming) || 0 < limits.streamToDiskSize < |written|))
      ensures tempFile == old(tempFile) || tempFile == null || fresh(tempFile)
    {
      var newSize := totalSize + |b|;
      if limits.maxCacheableSize == 0 || (limits.maxCacheableSize > 0 && newSize > limits.maxCacheableSize) {
        DropCapture(b);
        return;
      }
      if !isStreaming && limits.streamToDiskSize > 0 && newSize > limits.streamToDiskSize {
        SwitchToStreaming();
      }
      if isStreaming {
        tempFile.Write(b);
      } else {
        buffer := buffer + b;
      }
      totalSize := newSize;
    }

    /** Too large to store: a held-back body is released first, then the capture is discarded. */
    method DropCapture(b: Bytes)
      requires (tempFile != null <==> isStreaming) && (tempFile != null ==> tempFile.Valid() && buffer == [])
      requires Captured() + b == written && status >= 100
      requires forall i :: 0 <= i < |early| ==> InterimStatus(early[i])
      requires captureOnly ==> client.lines == [] && client.body == [] && status == 200 && early == []
      requires !captureOnly ==> Sent() && !Waiting()
      modifies this`needCache, this`captureOnly, this`fillAbandoned, this`isStreaming, this`buffer, this`tempFile,
               client, tempFile
      ensures Open() && !Waiting() && !needCache && !captureOnly && Final(client.lines) && !isStreaming &&
              tempFile == null
      ensures fillAbandoned == (old(fillAbandoned) || old(captureOnly))
    {
      needCache := false;
      if captureOnly {
        ReleaseCapture();
        client.Write(b);
      }
      tempFile := null;
      isStreaming := false;
      buffer := [];
    }

    method SwitchToStreaming()
      requires !isStreaming && tempFile == null
      modifies this`tempFile, this`isStreaming, this`buffer
      ensures isStreaming && tempFile != null && fresh(tempFile) && buffer == []
      ensures tempFile.Valid() && tempFile.data == old(buffer) && tempFile.pos == |tempFile.data|
    {
      var file := new TempFile();
      if |buffer| > 0 {
        file.Write(buffer);
      }
      tempFile := file;
      isStreaming := true;
      buffer := [];
    }

    /** The captured body from its start, wherever the cursor was left. */
    method CapturedReader() returns (source: Source, size: nat)
      requires Collected()
      modifies tempFile
      ensures Collected() && Captured() == old(Captured())
      ensures source.Valid() && source.Content() == Captured() && size == |Captured()|
      ensures source.FileSource? ==> source.file == tempFile
    {
      if isStreaming {
        tempFile.Seek(0);
        return FileSource(tempFile), |tempFile.data|;
      }
      return BytesSource(buffer), |buffer|;
    }

    method ReplayCaptured()
      requires Collected() && (status == -1 || status >= 200)
      modifies client, tempFile, client.header
      ensures Collected() && Captured() == old(Captured())
      ensures client.lines == old(client.lines) + [if status < 0 then 200 else status]
      ensures client.body == old(client.body) + Captured()
      ensures client.sent == client.header.fields
      ensures forall n :: n != LENGTH ==> Values(client.header.fields, n) == Values(old(client.header.fields), n)
    {
      var source, size := CapturedReader();
      client.header.Set(LENGTH, Decimal(size));
      client.WriteHeader(if status < 0 then 200 else status);
      var all := source.ReadFrom(0, size);
      client.Write(all);
    }

    /** Stores the response once it is complete, if it may be stored and nobody sharing the fill has. */
    method Close(once: Once, storage: Storage, key: Bytes, path: Bytes, metaSize: nat, now: int)
      returns (ghost meta: Metadata)
      requires Collected() && storage.Valid()
      modifies once, tempFile, storage.memCache, storage.diskCache, storage.diskCache.lru
      ensures storage.Valid() && once.used == (old(once.used) || needCache)
      ensures meta == Metadata(status, Retain(client.header.fields), now / SECOND, path)
      ensures storage.View() == AfterClose(storage.cfg, old(storage.View()),
                                           needCache && !old(once.used) && KeepsEncoding(client.header.fields),
                                           key, meta, written, metaSize, now)
    {
      RetainedIsUnpacked(client.header.fields);
      meta := Metadata(status, Retain(client.header.fields), now / SECOND, path);
      if needCache && !once.used {
        once.used := true;
        var md := NewMetadata(status, client.header.fields, now / SECOND, path);
        if md.Some? {
          var dataToCache;
          if isStreaming && tempFile != null {
            tempFile.Seek(0);
            dataToCache := tempFile.ReadAll();
          } else {
            dataToCache := buffer;
          }
          assert dataToCache == written;
          var _ := storage.SetWithKey(key, md.value, dataToCache, metaSize, now);
        }
      }
    }
  }

  function AfterClose(cfg: Config, c: Contents, stores: bool, key: Bytes, meta: Metadata, data: Bytes, metaSize: nat,
                      now: int): Contents {
    if stores then AfterSet(cfg, c, key, meta, data, metaSize, now) else c
  }

  /** The encodings of a response that NewMetadata agrees to keep. */
  predicate KeepsEncoding(h: Header) {
    KeepsLines(Values(h, ENCODING))
  }

  predicate KeepsLines(lines: seq<string>) {
    lines == [] || lines[0] == "" || lines[0] in CACHED_CONTENT_ENCODING
  }

  lemma KeptCodings(lines: seq<string>)
    ensures KeepsLines(lines) <==> lines == [] || lines[0] in {"", "none", "gzip", "br", "zstd"}
  {
    assert CACHED_CONTENT_ENCODING == ["none", "gzip", "br", "zstd"];
    assert forall i :: 0 <= i < 4 ==> CACHED_CONTENT_ENCODING[i] in CACHED_CONTENT_ENCODING;
  }

  /** The content coding as the store keeps it, several lines joined. */
  function Coding(h: Header): string {
    Join(Values(h, ENCODING), ",")
  }

  /** The sync.Once that everyone sharing a fill uses for the store. */
  class Once {
    var used: bool

    constructor ()
      ensures !used
    {
      used := false;
    }
  }

  /** A seekable reader over a captured body. */
  datatype Source = FileSource(file: TempFile) | BytesSource(bytes: Bytes) {
    ghost predicate Valid()
      reads if FileSource? then {file} else {}
    {
      FileSource? ==> file.Valid()
    }

    ghost function Content(): Bytes
      reads if FileSource? then {file} else {}
    {
      if FileSource? then file.data else bytes
    }

    /** Seeks to lo and copies up to hi; a file's cursor stays where the copy ended. */
    method ReadFrom(lo: nat, hi: nat) returns (b: Bytes)
      requires Valid() && lo <= hi <= |Content()|
      modifies if FileSource? then {file} else {}
      ensures Valid() && Content() == old(Content()) && b == Content()[lo..hi]
    {
      match this
      case FileSource(f) =>
        f.Seek(lo);
        b := f.data[lo..hi];
        f.Seek(hi);
      case BytesSource(all) =>
        b := all[lo..hi];
    }
  }

  // The label of a miss.

  /** The line and the fields alone allow the response to be stored. */
  predicate MayStore(limits: Limits, status: int, h: Header) {
    Storable(limits.codes, limits.maxCacheableSize, status, h)
  }

  function MissState(limits: Limits, status: int, h: Header): CacheState {
    if MayStore(limits, status, h) then Miss else if OriginPrivate(h) then BypassPrivate else BypassPolicy
  }

  function MissMark(limits: Limits, status: int, h: Header): string {
    if MayStore(limits, status, h) then "MISS" else "BYPASS"
  }

  ghost predicate MissStamped(limits: Limits, policy: Policy, dims: KeyDims, status: int, now: int, before: Header,
                              after: Header) {
    Stamped(Decide(policy, dims, MissState(limits, status, before), None, now, before),
            MissMark(limits, status, before),
            dims, before, after)
  }

  ghost predicate MissLabelled(limits: Limits, policy: Policy, dims: KeyDims, status: int, now: int, before: Header,
                               after: Header) {
    Labelled(Decide(policy, dims, MissState(limits, status, before), None, now, before),
             MissMark(limits, status, before),
             dims, before, after)
  }
}
