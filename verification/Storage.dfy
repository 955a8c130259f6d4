/**
 The two-tier store of storage.go. The functions on Contents say what each operation
 answers and leaves behind; the class below swaps and updates the two caches in place and
 is proved to compute them.
 */
module Storages {
  import opened Basics
  import opened Lru
  import opened MemoryCaches
  import opened DiskCaches
  import opened Headers
  import opened Metadatas
  import opened Compression

  datatype MemItem = MemItem(meta: Metadata, data: Bytes)

  datatype Config = Config(
    ttl: int, memItemMaxSize: int, memMaxSize: int, memMaxCount: int,
    diskItemMaxSize: int, diskMaxSize: int, diskMaxCount: int,
    compressMaxSize: int, codecs: Codecs)

  /** Both tiers and the files below the cache directory. */
  datatype Contents = Contents(mem: seq<Item<Bytes, MemItem>>, disk: Index<Bytes>, files: map<Bytes, Dir>)

  const EMPTY := Contents([], [], map[])

  /** Nanoseconds in a second: timestamps are whole seconds, the clock is not. */
  const SECOND := 1_000_000_000

  predicate IsExpired(ttl: int, timestamp: int, now: int) {
    ttl > 0 && timestamp > 0 && now - timestamp * SECOND > ttl * SECOND
  }

  datatype Answer = Hit(data: Bytes, meta: Metadata) | Expired | NotStreamable | NotFound

  /** The answer of Get. */
  function Read(cfg: Config, c: Contents, key: Bytes, now: int): Answer {
    match Lookup(c.mem, key)
    case Some(m) =>
      if IsExpired(cfg.ttl, m.meta.timestamp, now) then Expired else Hit(m.data, m.meta)
    case None =>
      match Lookup(c.disk, key)
      case None => NotFound
      case Some(item) =>
        if item.path !in c.files then NotFound
        else if IsExpired(cfg.ttl, c.files[item.path].meta.timestamp, now) then Expired
        else match Unpack(cfg.codecs, c.files[item.path])
          case None => NotFound
          case Some(data) => Hit(data, c.files[item.path].meta)
  }

  /** The answer of GetReader; the reader is positioned at the start of data. */
  function ReadStream(cfg: Config, c: Contents, key: Bytes, now: int): Answer {
    match Lookup(c.mem, key)
    case Some(m) =>
      if IsExpired(cfg.ttl, m.meta.timestamp, now) then Expired else Hit(m.data, m.meta)
    case None =>
      match Lookup(c.disk, key)
      case None => NotFound
      case Some(item) =>
        if item.path !in c.files then NotFound
        else
          var dir := c.files[item.path];
          var encoding := HeaderValue(dir.meta.header, COMPRESSION_TYPE);
          if IsExpired(cfg.ttl, dir.meta.timestamp, now) then Expired
          else if encoding != "" && encoding != "none" then NotStreamable
          else Hit(dir.data, dir.meta)
  }

  /** A read moves the key to the front of the tier it is found in and drops an expired disk entry. */
  function AfterRead(cfg: Config, c: Contents, key: Bytes, now: int): Contents {
    if Lookup(c.mem, key).Some? then c.(mem := Touch(c.mem, key))
    else
      var t := Touch(c.disk, key);
      if Read(cfg, c, key, now).Expired? then
        c.(disk := Without(t, key), files := Prune(c.files, t, Without(t, key)))
      else c.(disk := t)
  }

  function WithTimestamp(meta: Metadata, now: int): Metadata {
    if meta.timestamp == 0 then meta.(timestamp := now / SECOND) else meta
  }

  predicate GoesToMemory(cfg: Config, size: int) {
    cfg.memMaxSize > 0 && cfg.memItemMaxSize > 0 && size <= cfg.memItemMaxSize
  }

  predicate TooLarge(cfg: Config, size: int) {
    0 < cfg.diskItemMaxSize < size
  }

  /** SetWithKey; metaSize is the size of the metadata.json that is written. */
  function AfterSet(cfg: Config, c: Contents, key: Bytes, meta: Metadata, data: Bytes, metaSize: nat,
                    now: int): Contents
  {
    var md := WithTimestamp(meta, now);
    if TooLarge(cfg, |data|) then c
    else if GoesToMemory(cfg, |data|) then
      c.(mem := AfterPut(c.mem, cfg.memMaxCount, cfg.memMaxSize, Item(key, MemItem(md, data), |data| + 500)))
    else AfterDiskSet(cfg, c, key, Pack(cfg.compressMaxSize, cfg.codecs, data, md), metaSize)
  }

  /** The files are written before the index makes room, and removed again when it refuses the entry. */
  function AfterDiskSet(cfg: Config, c: Contents, key: Bytes, dir: Dir, metaSize: nat): Contents {
    var size := |dir.data| + metaSize;
    var files := c.files[key := dir];
    if TooLarge(cfg, size) then c.(files := files - {key})
    else c.(disk := AfterDiskPut(c.disk, cfg.diskMaxCount, cfg.diskMaxSize, key, size),
            files := Prune(files, c.disk, Evicted(c.disk, cfg.diskMaxCount, cfg.diskMaxSize, size)))
  }

  function AfterPurge(c: Contents, key: Bytes): Contents {
    Contents(Without(c.mem, key), Without(c.disk, key), Prune(c.files, c.disk, Without(c.disk, key)))
  }

  class Storage {
    const cfg: Config
    var memCache: MemoryCache<Bytes, MemItem>
    var diskCache: DiskCache<Bytes, Dir>

    ghost predicate Valid()
      reads this, memCache, diskCache, diskCache.lru
    {
      && memCache.Valid() && diskCache.Valid()
      && memCache.capacityCount == cfg.memMaxCount && memCache.capacityCost == cfg.memMaxSize
      && diskCache.maxItemCount == cfg.diskMaxCount && diskCache.maxDiskSize == cfg.diskMaxSize
      && diskCache.maxItemSize == cfg.diskItemMaxSize
    }

    ghost function View(): Contents
      reads this, memCache, diskCache, diskCache.lru
    {
      Contents(memCache.ll, diskCache.lru.ll, diskCache.files)
    }

    constructor (cfg: Config)
      ensures Valid() && this.cfg == cfg && View() == EMPTY
      ensures fresh(memCache) && fresh(diskCache) && fresh(diskCache.lru)
    {
      this.cfg := cfg;
      memCache := new MemoryCache(cfg.memMaxCount, cfg.memMaxSize);
      diskCache := new DiskCache(cfg.diskMaxCount, cfg.diskMaxSize, cfg.diskItemMaxSize);
    }

    method Get(key: Bytes, now: int) returns (r: Answer)
      requires Valid()
      modifies memCache, diskCache, diskCache.lru
      ensures Valid() && r == Read(cfg, old(View()), key, now)
      ensures View() == AfterRead(cfg, old(View()), key, now)
    {
      var m := memCache.Get(key);
      if m.Some? {
        return if IsExpired(cfg.ttl, m.value.meta.timestamp, now) then Expired else Hit(m.value.data, m.value.meta);
      }
      var item := diskCache.Get(key);
      if item.None? {
        return NotFound;
      }
      r := ReadDiskCacheData(item.value.path, now);
      if r.Expired? {
        diskCache.Delete(key);
      }
    }

    method ReadDiskCacheData(path: Bytes, now: int) returns (r: Answer)
      ensures r == if path !in diskCache.files then NotFound
                   else if IsExpired(cfg.ttl, diskCache.files[path].meta.timestamp, now) then Expired
                   else match Unpack(cfg.codecs, diskCache.files[path])
                     case None => NotFound
                     case Some(data) => Hit(data, diskCache.files[path].meta)
    {
      if path !in diskCache.files {
        return NotFound;
      }
      var dir := diskCache.files[path];
      if IsExpired(cfg.ttl, dir.meta.timestamp, now) {
        return Expired;
      }
      var data := Unpack(cfg.codecs, dir);
      r := if data.Some? then Hit(data.value, dir.meta) else NotFound;
    }

    method GetReader(key: Bytes, now: int) returns (r: Answer)
      requires Valid()
      modifies memCache, diskCache, diskCache.lru
      ensures Valid() && r == ReadStream(cfg, old(View()), key, now)
      ensures View() == AfterRead(cfg, old(View()), key, now)
    {
      var m := memCache.Get(key);
      if m.Some? {
        return if IsExpired(cfg.ttl, m.value.meta.timestamp, now) then Expired else Hit(m.value.data, m.value.meta);
      }
      var item := diskCache.Get(key);
      if item.None? || item.value.path !in diskCache.files {
        return NotFound;
      }
      var dir := diskCache.files[item.value.path];
      if IsExpired(cfg.ttl, dir.meta.timestamp, now) {
        diskCache.Delete(key);
        return Expired;
      }
      var encoding := HeaderValue(dir.meta.header, COMPRESSION_TYPE);
      if encoding != "" && encoding != "none" {
        return NotStreamable;
      }
      r := Hit(dir.data, dir.meta);
    }

    method SetWithKey(key: Bytes, meta: Metadata, data: Bytes, metaSize: nat, now: int) returns (ok: bool)
      requires Valid()
      modifies memCache, diskCache, diskCache.lru
      ensures Valid()
      ensures View() == AfterSet(cfg, old(View()), key, meta, data, metaSize, now)
      ensures var dir := Pack(cfg.compressMaxSize, cfg.codecs, data, WithTimestamp(meta, now));
              ok <==> !TooLarge(cfg, |data|) &&
                      (GoesToMemory(cfg, |data|) || !TooLarge(cfg, |dir.data| + metaSize))
    {
      if cfg.diskItemMaxSize > 0 && |data| > cfg.diskItemMaxSize {
        return false;
      }
      var md := WithTimestamp(meta, now);
      if cfg.memMaxSize > 0 && cfg.memItemMaxSize > 0 && |data| <= cfg.memItemMaxSize {
        StoreInMemory(key, md, data);
        return true;
      }
      var dir := Pack(cfg.compressMaxSize, cfg.codecs, data, md);
      ok := StoreDataToDisk(key, dir, metaSize);
    }

    /** An entry in memory costs its body and an estimate of five hundred bytes for the rest. */
    method StoreInMemory(key: Bytes, meta: Metadata, data: Bytes)
      requires Valid()
      modifies memCache
      ensures Valid() && View() == old(View()).(mem := memCache.ll)
      ensures memCache.ll ==
              AfterPut(old(memCache.ll), cfg.memMaxCount, cfg.memMaxSize, Item(key, MemItem(meta, data), |data| + 500))
    {
      var _ := memCache.Put(key, MemItem(meta, data), |data| + 500);
    }

    /** The files come first; a Put that refuses the entry has them removed again. */
    method StoreDataToDisk(key: Bytes, dir: Dir, metaSize: nat) returns (ok: bool)
      requires Valid()
      modifies diskCache, diskCache.lru
      ensures Valid() && View() == AfterDiskSet(cfg, old(View()), key, dir, metaSize)
      ensures ok == !TooLarge(cfg, |dir.data| + metaSize)
    {
      diskCache.files := diskCache.files[key := dir];
      ok := diskCache.Put(key, |dir.data| + metaSize);
      if !ok {
        diskCache.files := diskCache.files - {key};
      }
    }

    method Purge(key: Bytes)
      requires Valid()
      modifies memCache, diskCache, diskCache.lru
      ensures Valid() && View() == AfterPurge(old(View()), key)
    {
      memCache.Delete(key);
      diskCache.Delete(key);
    }

    /** Both cache pointers are swapped for new, empty caches; the directory is emptied. */
    method Flush()
      requires Valid()
      modifies this, diskCache
      ensures Valid() && View() == EMPTY
      ensures fresh(memCache) && fresh(diskCache) && fresh(diskCache.lru)
    {
      memCache := new MemoryCache(cfg.memMaxCount, cfg.memMaxSize);
      diskCache.files := map[];
      diskCache := new DiskCache(cfg.diskMaxCount, cfg.diskMaxSize, cfg.diskItemMaxSize);
    }
  }
}
