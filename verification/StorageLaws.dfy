/** What the two-tier store promises across its operations. */
module StorageLaws {
  import opened Basics
  import opened Lru
  import opened DiskCaches
  import opened CacheLaws
  import opened Headers
  import opened Metadatas
  import opened Compression
  import opened Storages

  /** What every operation keeps: no key twice in a tier, and no files outside the disk index. */
  ghost predicate Consistent(c: Contents) {
    && Distinct(c.mem) && Distinct(c.disk) && Sized(c.disk) && NonNegative(c.mem)
    && forall k :: k in c.files ==> HasKey(c.disk, k)
  }

  /** A body some tier holds for a key, already decoded. */
  ghost predicate Holds(cfg: Config, c: Contents, key: Bytes, data: Bytes, meta: Metadata) {
    || Lookup(c.mem, key) == Some(MemItem(meta, data))
    || (key in c.files && Unpack(cfg.codecs, c.files[key]) == Some(data) && c.files[key].meta == meta)
  }

  ghost predicate LosslessCodecs(cfg: Config) {
    Lossless(cfg.codecs.gzip) && Lossless(cfg.codecs.br)
  }

  /** The metadata a stored body is given by SetWithKey, in the tier it goes to. */
  function StoredMeta(cfg: Config, meta: Metadata, data: Bytes, now: int): Metadata {
    if GoesToMemory(cfg, |data|) then WithTimestamp(meta, now)
    else Pack(cfg.compressMaxSize, cfg.codecs, data, WithTimestamp(meta, now)).meta
  }

  /** The metadata that ends up in the store keeps the status, the path and every field that was there. */
  lemma StoredMetaKeeps(cfg: Config, meta: Metadata, data: Bytes, now: int)
    ensures var m := StoredMeta(cfg, meta, data, now);
            && m.status == meta.status && m.path == meta.path
            && forall n :: n != COMPRESSION_TYPE ==> Values(m.header, n) == Values(meta.header, n)
  {
    var md := WithTimestamp(meta, now);
    var (out, encoding) := CompressData(cfg.compressMaxSize, cfg.codecs, data, md.header);
    forall n
      ensures n != COMPRESSION_TYPE ==>
                Values(md.header + [(COMPRESSION_TYPE, encoding)], n) == Values(md.header, n)
    {
      ValuesAppended(md.header, (COMPRESSION_TYPE, encoding), n);
    }
  }

  lemma DiskPath(l: Index<Bytes>, key: Bytes)
    requires Sized(l)
    ensures Lookup(l, key).Some? ==> Lookup(l, key).value.path == key
  {
  }

  lemma EvictedDistinct(cfg: Config, l: Index<Bytes>, size: nat, key: Bytes)
    requires Distinct(l) && Sized(l)
    ensures var e := Evicted(l, cfg.diskMaxCount, cfg.diskMaxSize, size);
            var p := AfterDiskPut(l, cfg.diskMaxCount, cfg.diskMaxSize, key, size);
            && e <= l && Distinct(p) && Sized(p) && Lookup(p, key) == Some(DiskItem(key, size))
            && forall k :: k != key ==>
               Lookup(p, k) == Lookup(e, k) && (Lookup(e, k).Some? ==> Lookup(l, k) == Lookup(e, k))
  {
    var e := Evicted(l, cfg.diskMaxCount, cfg.diskMaxSize, size);
    EvictedFacts(l, cfg.diskMaxCount, cfg.diskMaxSize, size);
    PutFacts(l, cfg.diskMaxCount, cfg.diskMaxSize, key, size);
    RemovalKeepsDistinct(e, key);
    var p := AfterDiskPut(l, cfg.diskMaxCount, cfg.diskMaxSize, key, size);
    forall k | k != key
      ensures Lookup(p, k) == Lookup(e, k) && (Lookup(e, k).Some? ==> Lookup(l, k) == Lookup(e, k))
    {
      LookupTail(p, k);
      LookupWithout(e, key, k);
      LookupFront(l, e, k);
    }
  }

  lemma ReadKeepsConsistent(cfg: Config, c: Contents, key: Bytes, now: int)
    requires Consistent(c)
    ensures Consistent(AfterRead(cfg, c, key, now))
  {
    RemovalKeepsDistinct(c.mem, key);
    RemovalKeepsDistinct(c.disk, key);
    TouchSized(c.disk, key);
    var t := Touch(c.disk, key);
    RemovalKeepsDistinct(t, key);
    WithoutSized(t, key);
    forall k | HasKey(c.disk, k) ensures HasKey(t, k) {
      LookupTouch(c.disk, key, k);
    }
  }

  lemma PurgeKeepsConsistent(c: Contents, key: Bytes)
    requires Consistent(c)
    ensures Consistent(AfterPurge(c, key))
  {
    RemovalKeepsDistinct(c.mem, key);
    RemovalKeepsDistinct(c.disk, key);
    WithoutSized(c.disk, key);
  }

  lemma SetKeepsConsistent(cfg: Config, c: Contents, key: Bytes, meta: Metadata, data: Bytes, metaSize: nat, now: int)
    requires Consistent(c)
    ensures Consistent(AfterSet(cfg, c, key, meta, data, metaSize, now))
  {
    var md := WithTimestamp(meta, now);
    if TooLarge(cfg, |data|) {
    } else if GoesToMemory(cfg, |data|) {
      MemoryPutDistinct(c.mem, cfg.memMaxCount, cfg.memMaxSize, Item(key, MemItem(md, data), |data| + 500));
    } else {
      var dir := Pack(cfg.compressMaxSize, cfg.codecs, data, md);
      EvictedDistinct(cfg, c.disk, |dir.data| + metaSize, key);
      var e := Evicted(c.disk, cfg.diskMaxCount, cfg.diskMaxSize, |dir.data| + metaSize);
      var p := AfterDiskPut(c.disk, cfg.diskMaxCount, cfg.diskMaxSize, key, |dir.data| + metaSize);
      forall k | k == key || (HasKey(c.disk, k) && HasKey(e, k)) ensures HasKey(p, k) {
        assert Lookup(p, k).Some?;
      }
    }
  }

  lemma MemoryPutDistinct<V>(l: seq<Item<Bytes, V>>, count: int, cap: int, item: Item<Bytes, V>)
    requires Distinct(l) && NonNegative(l) && 0 <= item.cost
    ensures Distinct(AfterPut(l, count, cap, item)) && NonNegative(AfterPut(l, count, cap, item))
  {
    if IndexOf(l, item.key).Some? {
      var q := [item] + Without(l, item.key);
      RemovalKeepsDistinct(l, item.key);
      ConsKeepsDistinct(item, Without(l, item.key));
      FitIsShortestTail(q, cap);
      PrefixKeepsDistinct(q, FitIf(q, cap));
    } else {
      var e := FitIf(Room(l, count), cap);
      EvictionKeepsFront(l, count, cap);
      PrefixKeepsDistinct(l, e);
      ConsKeepsDistinct(item, e);
    }
  }

  /** Reading twice at one moment gives one answer, unless the first read dropped the expired entry. */
  lemma ReadAgain(cfg: Config, c: Contents, key: Bytes, now: int)
    requires Consistent(c)
    ensures var again := Read(cfg, AfterRead(cfg, c, key, now), key, now);
            again == Read(cfg, c, key, now) || (Read(cfg, c, key, now).Expired? && again.NotFound?)
  {
    LookupTouch(c.mem, key, key);
    LookupTouch(c.disk, key, key);
    TouchSized(c.disk, key);
    RemovalKeepsDistinct(c.disk, key);
    LookupWithout(Touch(c.disk, key), key, key);
    TouchDistinct(c.disk, key);
  }

  lemma TouchDistinct<V>(l: seq<Item<Bytes, V>>, key: Bytes)
    requires Distinct(l)
    ensures Distinct(Touch(l, key))
  {
    RemovalKeepsDistinct(l, key);
  }

  /** Whenever GetReader succeeds, Get answers with the same bytes and metadata. */
  lemma StreamAgreesWithGet(cfg: Config, c: Contents, key: Bytes, now: int)
    ensures ReadStream(cfg, c, key, now).Hit? ==> Read(cfg, c, key, now) == ReadStream(cfg, c, key, now)
    ensures Read(cfg, c, key, now).Hit? ==> ReadStream(cfg, c, key, now) in {Read(cfg, c, key, now), NotStreamable}
  {
  }

  /** GetReader gives up what Get would find exactly when it lies compressed on disk. */
  lemma StreamsExactlyWhen(cfg: Config, c: Contents, key: Bytes, now: int)
    requires Read(cfg, c, key, now).Hit?
    ensures var coded := HeaderValue(Read(cfg, c, key, now).meta.header, COMPRESSION_TYPE) !in {"", "none"};
            ReadStream(cfg, c, key, now) ==
            if Lookup(c.mem, key).None? && coded then NotStreamable else Read(cfg, c, key, now)
  {
  }

  /** What is expired for one is expired for the other, and what one does not find the other does not stream. */
  lemma StreamMisses(cfg: Config, c: Contents, key: Bytes, now: int)
    ensures ReadStream(cfg, c, key, now).Expired? <==> Read(cfg, c, key, now).Expired?
    ensures Read(cfg, c, key, now).NotFound? ==> ReadStream(cfg, c, key, now) in {NotFound, NotStreamable}
  {
  }

  /**
   A read makes its key the most recently used of the tier it was found in, and changes nothing else; but
   an expired disk entry goes, and its files. An expired memory entry stays.
   */
  lemma ReadRefreshes(cfg: Config, c: Contents, key: Bytes, now: int)
    requires Consistent(c)
    ensures var after := AfterRead(cfg, c, key, now);
            if Lookup(c.mem, key).Some? then
              IndexOf(after.mem, key) == Some(0) && after.disk == c.disk && after.files == c.files
            else if Read(cfg, c, key, now).Expired? then
              after.mem == c.mem && Lookup(after.disk, key).None? && key !in after.files
            else if Lookup(c.disk, key).Some? then
              after.mem == c.mem && IndexOf(after.disk, key) == Some(0) && after.files == c.files
            else after == c
    ensures forall k :: Lookup(AfterRead(cfg, c, key, now).mem, k) == Lookup(c.mem, k)
    ensures forall k :: k != key ==> Lookup(AfterRead(cfg, c, key, now).disk, k) == Lookup(c.disk, k)
  {
    var t := Touch(c.disk, key);
    TouchDistinct(c.disk, key);
    LookupTouch(c.disk, key, key);
    LookupWithout(t, key, key);
    forall k ensures Lookup(AfterRead(cfg, c, key, now).mem, k) == Lookup(c.mem, k) {
      LookupTouch(c.mem, key, k);
    }
    forall k | k != key ensures Lookup(AfterRead(cfg, c, key, now).disk, k) == Lookup(c.disk, k) {
      LookupTouch(c.disk, key, k);
      LookupWithout(t, key, k);
    }
  }

  /** Reading invents nothing, and loses at most an expired disk entry of the key it read. */
  lemma ReadInventsNothing(cfg: Config, c: Contents, key: Bytes, now: int, k: Bytes, data: Bytes, meta: Metadata)
    requires Consistent(c)
    ensures Holds(cfg, AfterRead(cfg, c, key, now), k, data, meta) ==> Holds(cfg, c, k, data, meta)
    ensures Holds(cfg, c, k, data, meta) && k != key ==> Holds(cfg, AfterRead(cfg, c, key, now), k, data, meta)
  {
    LookupTouch(c.mem, key, k);
    LookupTouch(c.disk, key, k);
    RemovalKeepsDistinct(c.disk, key);
    var t := Touch(c.disk, key);
    LookupWithout(t, key, k);
  }

  /** Storing invents nothing but the body stored: no tier holds anything else it did not hold before. */
  lemma SetInventsNothing(cfg: Config, c: Contents, key: Bytes, meta: Metadata, data: Bytes, metaSize: nat, now: int,
                          k: Bytes, d: Bytes, m: Metadata)
    requires Consistent(c) && LosslessCodecs(cfg) && Unpacked(meta)
    requires Holds(cfg, AfterSet(cfg, c, key, meta, data, metaSize, now), k, d, m)
    ensures Holds(cfg, c, k, d, m) || (k == key && d == data && m == StoredMeta(cfg, meta, data, now))
  {
    var md := WithTimestamp(meta, now);
    if TooLarge(cfg, |data|) {
    } else if GoesToMemory(cfg, |data|) {
      var item := Item(key, MemItem(md, data), |data| + 500);
      var other := if k == key then key + ['0'] else k;
      assert |key + ['0']| != |key|;
      PutSurvival(c.mem, cfg.memMaxCount, cfg.memMaxSize, item, other);
    } else {
      PackRoundTrip(cfg.compressMaxSize, cfg.codecs, data, md);
    }
  }

  /** After Purge the key is a miss and every other key answers as before. */
  lemma PurgeThenRead(cfg: Config, c: Contents, key: Bytes, k: Bytes, now: int)
    requires Consistent(c)
    ensures Read(cfg, AfterPurge(c, key), k, now) == if k == key then NotFound else Read(cfg, c, k, now)
  {
    LookupWithout(c.mem, key, k);
    LookupWithout(c.disk, key, k);
    DiskPath(c.disk, k);
    WithoutSized(c.disk, key);
    DiskPath(Without(c.disk, key), k);
  }

  /**
   When the body just stored is the one the next read finds. It is not when the body is too
   large, when it replaces a memory entry but cannot stay in memory itself, when it goes to
   disk while memory still answers for the key, or when making room removes the previous
   disk entry of the same key together with the files just written.
   */
  predicate Visible(cfg: Config, c: Contents, key: Bytes, meta: Metadata, data: Bytes, metaSize: nat, now: int) {
    if TooLarge(cfg, |data|) then false
    else if GoesToMemory(cfg, |data|) then
      Lookup(c.mem, key).None? || |data| + 500 <= cfg.memMaxSize
    else
      VisibleOnDisk(cfg, c, key,
                    |Pack(cfg.compressMaxSize, cfg.codecs, data, WithTimestamp(meta, now)).data| + metaSize)
  }

  predicate VisibleOnDisk(cfg: Config, c: Contents, key: Bytes, size: nat) {
    && !TooLarge(cfg, size)
    && Lookup(c.mem, key).None?
    && (Lookup(c.disk, key).None? || Lookup(Evicted(c.disk, cfg.diskMaxCount, cfg.diskMaxSize, size), key).Some?)
  }

  /** What is read instead when the stored body is not Visible. */
  function Shadow(cfg: Config, c: Contents, key: Bytes, data: Bytes, now: int): Answer {
    if TooLarge(cfg, |data|) then Read(cfg, c, key, now)
    else if GoesToMemory(cfg, |data|) then Read(cfg, c.(mem := []), key, now)
    else ShadowOnDisk(cfg, c, key, now)
  }

  function ShadowOnDisk(cfg: Config, c: Contents, key: Bytes, now: int): Answer {
    if Lookup(c.mem, key).Some? then Read(cfg, c, key, now) else NotFound
  }

  /**
   The store round trip, for every store, key and body: through either tier and whichever
   compression was chosen, the body comes back with its status and path exactly when it is
   Visible; a fresh key whose sizes are within the limits always is.
   */
  lemma SetThenGet(cfg: Config, c: Contents, key: Bytes, meta: Metadata, data: Bytes, metaSize: nat, now: int,
                   later: int)
    requires Consistent(c) && LosslessCodecs(cfg) && Unpacked(meta)
    ensures var md := StoredMeta(cfg, meta, data, now);
            && (md.status, md.path) == (meta.status, meta.path)
            && md.timestamp == (if meta.timestamp == 0 then now / SECOND else meta.timestamp)
            && Read(cfg, AfterSet(cfg, c, key, meta, data, metaSize, now), key, later) ==
               if !Visible(cfg, c, key, meta, data, metaSize, now) then Shadow(cfg, c, key, data, later)
               else if IsExpired(cfg.ttl, md.timestamp, later) then Expired
               else Hit(data, md)
  {
    PackRoundTrip(cfg.compressMaxSize, cfg.codecs, data, WithTimestamp(meta, now));
    if TooLarge(cfg, |data|) {
    } else if GoesToMemory(cfg, |data|) {
      SetThenGetInMemory(cfg, c, key, meta, data, metaSize, now, later);
    } else {
      SetThenGetOnDisk(cfg, c, key, meta, data, metaSize, now, later);
    }
  }

  lemma SetThenGetInMemory(cfg: Config, c: Contents, key: Bytes, meta: Metadata, data: Bytes, metaSize: nat, now: int,
                           later: int)
    requires Consistent(c) && !TooLarge(cfg, |data|) && GoesToMemory(cfg, |data|)
    ensures var md := WithTimestamp(meta, now);
            Read(cfg, AfterSet(cfg, c, key, meta, data, metaSize, now), key, later) ==
            if !Visible(cfg, c, key, meta, data, metaSize, now) then Shadow(cfg, c, key, data, later)
            else if IsExpired(cfg.ttl, md.timestamp, later) then Expired
            else Hit(data, md)
  {
    var item := Item(key, MemItem(WithTimestamp(meta, now), data), |data| + 500);
    assert |key + ['0']| != |key|;
    PutSurvival(c.mem, cfg.memMaxCount, cfg.memMaxSize, item, key + ['0']);
  }

  lemma SetThenGetOnDisk(cfg: Config, c: Contents, key: Bytes, meta: Metadata, data: Bytes, metaSize: nat, now: int,
                         later: int)
    requires Consistent(c) && !TooLarge(cfg, |data|) && !GoesToMemory(cfg, |data|)
    requires Unpack(cfg.codecs, Pack(cfg.compressMaxSize, cfg.codecs, data, WithTimestamp(meta, now))) == Some(data)
    ensures var md := StoredMeta(cfg, meta, data, now);
            Read(cfg, AfterSet(cfg, c, key, meta, data, metaSize, now), key, later) ==
            if !Visible(cfg, c, key, meta, data, metaSize, now) then Shadow(cfg, c, key, data, later)
            else if IsExpired(cfg.ttl, md.timestamp, later) then Expired
            else Hit(data, md)
  {
    var dir := Pack(cfg.compressMaxSize, cfg.codecs, data, WithTimestamp(meta, now));
    OnDiskMeans(cfg, c, key, meta, data, metaSize, now, dir);
    OnDiskShows(cfg, c, key, meta, data, metaSize, now, dir);
    DirThenGet(cfg, c, key, dir, metaSize, data, later);
  }

  /** What a store that goes to disk is, in terms of the directory it writes. */
  lemma OnDiskMeans(cfg: Config, c: Contents, key: Bytes, meta: Metadata, data: Bytes, metaSize: nat, now: int,
                    dir: Dir)
    requires !TooLarge(cfg, |data|) && !GoesToMemory(cfg, |data|)
    requires dir == Pack(cfg.compressMaxSize, cfg.codecs, data, WithTimestamp(meta, now))
    ensures AfterSet(cfg, c, key, meta, data, metaSize, now) == AfterDiskSet(cfg, c, key, dir, metaSize)
    ensures StoredMeta(cfg, meta, data, now) == dir.meta
  {
  }

  lemma OnDiskShows(cfg: Config, c: Contents, key: Bytes, meta: Metadata, data: Bytes, metaSize: nat, now: int,
                    dir: Dir)
    requires !TooLarge(cfg, |data|) && !GoesToMemory(cfg, |data|)
    requires dir == Pack(cfg.compressMaxSize, cfg.codecs, data, WithTimestamp(meta, now))
    ensures Visible(cfg, c, key, meta, data, metaSize, now) == VisibleOnDisk(cfg, c, key, |dir.data| + metaSize)
  {
  }

  lemma DirThenGet(cfg: Config, c: Contents, key: Bytes, dir: Dir, metaSize: nat, data: Bytes, later: int)
    requires Consistent(c) && Unpack(cfg.codecs, dir) == Some(data)
    ensures Read(cfg, AfterDiskSet(cfg, c, key, dir, metaSize), key, later) ==
            if !VisibleOnDisk(cfg, c, key, |dir.data| + metaSize) then ShadowOnDisk(cfg, c, key, later)
            else if IsExpired(cfg.ttl, dir.meta.timestamp, later) then Expired
            else Hit(data, dir.meta)
  {
    var size := |dir.data| + metaSize;
    if Lookup(c.mem, key).None? && !TooLarge(cfg, size) {
      EvictedDistinct(cfg, c.disk, size, key);
      FilesAfterSet(cfg, c, key, dir, metaSize);
    } else {
      DiskPath(c.disk, key);
    }
  }

  /** Making room removes the files just written when it removes the previous entry of the key. */
  lemma FilesAfterSet(cfg: Config, c: Contents, key: Bytes, dir: Dir, metaSize: nat)
    requires !TooLarge(cfg, |dir.data| + metaSize)
    ensures var files, e := AfterDiskSet(cfg, c, key, dir, metaSize).files,
                            Evicted(c.disk, cfg.diskMaxCount, cfg.diskMaxSize, |dir.data| + metaSize);
            && (key in files <==> Lookup(c.disk, key).None? || Lookup(e, key).Some?)
            && (key in files ==> files[key] == dir)
  {
  }

  /** There is a place left in the tier, and the new entry fits with all that is there. */
  ghost predicate Roomy<V>(l: seq<Item<Bytes, V>>, count: int, cap: int, cost: int) {
    (count <= 0 || |l| < count) && (cap <= 0 || Cost(l) + cost <= cap)
  }

  lemma RoomyPut<V>(l: seq<Item<Bytes, V>>, count: int, cap: int, item: Item<Bytes, V>)
    requires Distinct(l) && NonNegative(l) && 0 <= item.cost && Roomy(l, count, cap, item.cost)
    ensures AfterPut(l, count, cap, item) == [item] + Without(l, item.key)
  {
    CostNonNegative(l);
    RemovalCost(l, item.key);
    CostCons(item, Without(l, item.key));
  }

  lemma RoomyDiskPut(l: Index<Bytes>, count: int, cap: int, size: nat)
    requires Roomy(l, count, cap, size)
    ensures Evicted(l, count, cap, size) == l
  {
  }

  /** As long as the tier that a body goes to has room for it, every other key answers as before. */
  lemma SetSparesOthers(cfg: Config, c: Contents, key: Bytes, meta: Metadata, data: Bytes, metaSize: nat, now: int,
                        other: Bytes, later: int)
    requires Consistent(c) && other != key
    requires if GoesToMemory(cfg, |data|) then Roomy(c.mem, cfg.memMaxCount, cfg.memMaxSize, |data| + 500)
             else Roomy(c.disk, cfg.diskMaxCount, cfg.diskMaxSize,
                        |Pack(cfg.compressMaxSize, cfg.codecs, data, WithTimestamp(meta, now)).data| + metaSize)
    ensures Read(cfg, AfterSet(cfg, c, key, meta, data, metaSize, now), other, later) == Read(cfg, c, other, later)
  {
    if TooLarge(cfg, |data|) {
    } else if GoesToMemory(cfg, |data|) {
      var item := Item(key, MemItem(WithTimestamp(meta, now), data), |data| + 500);
      RoomyPut(c.mem, cfg.memMaxCount, cfg.memMaxSize, item);
      BeforeTheNew(c.mem, item, other);
    } else {
      var dir := Pack(cfg.compressMaxSize, cfg.codecs, data, WithTimestamp(meta, now));
      OnDiskMeans(cfg, c, key, meta, data, metaSize, now, dir);
      DiskSetSparesOthers(cfg, c, key, dir, metaSize, other, later);
    }
  }

  lemma DiskSetSparesOthers(cfg: Config, c: Contents, key: Bytes, dir: Dir, metaSize: nat, other: Bytes, later: int)
    requires Consistent(c) && other != key
    requires Roomy(c.disk, cfg.diskMaxCount, cfg.diskMaxSize, |dir.data| + metaSize)
    ensures Read(cfg, AfterDiskSet(cfg, c, key, dir, metaSize), other, later) == Read(cfg, c, other, later)
  {
    var size := |dir.data| + metaSize;
    if !TooLarge(cfg, size) {
      RoomyDiskPut(c.disk, cfg.diskMaxCount, cfg.diskMaxSize, size);
      PruneSelf(c.files[key := dir], c.disk);
      BeforeTheNew(c.disk, DiskEntry(key, size), other);
      SameAnswer(cfg, c, AfterDiskSet(cfg, c, key, dir, metaSize), other, later);
    } else {
      DiskPath(c.disk, other);
    }
  }

  /** The answer for a key depends on what the tiers and the files hold for it. */
  lemma SameAnswer(cfg: Config, a: Contents, b: Contents, key: Bytes, now: int)
    requires Sized(a.disk) && Lookup(b.mem, key) == Lookup(a.mem, key) && Lookup(b.disk, key) == Lookup(a.disk, key)
    requires (key in b.files <==> key in a.files) && (key in b.files ==> b.files[key] == a.files[key])
    ensures Read(cfg, b, key, now) == Read(cfg, a, key, now)
  {
    DiskPath(a.disk, key);
  }

  const NO_CODEC := Codec(d => None, d => None)

  /** Memory takes single bytes; everything else goes to disk. */
  const TINY_MEMORY := Config(0, 1, 1000, 0, 0, 0, 0, 0, Codecs(NO_CODEC, NO_CODEC, t => false))

  /** A small body is replaced by a larger one that goes to disk: memory keeps answering with the old one. */
  lemma OldBodyShadowsNew(key: Bytes, meta: Metadata, before: byte, first: byte, second: byte, metaSize: nat)
    requires Unpacked(meta) && meta.timestamp == 0
    ensures var c := AfterSet(TINY_MEMORY, EMPTY, key, meta, [before], 0, 0);
            && !Visible(TINY_MEMORY, c, key, meta, [first, second], metaSize, 0)
            && Read(TINY_MEMORY, AfterSet(TINY_MEMORY, c, key, meta, [first, second], metaSize, 0), key, 0) ==
               Hit([before], meta)
  {
    var cfg := TINY_MEMORY;
    var c := AfterSet(cfg, EMPTY, key, meta, [before], 0, 0);
    FreshKeyIsVisible(cfg, EMPTY, key, meta, [before], 0, 0);
    SetThenGet(cfg, EMPTY, key, meta, [before], 0, 0, 0);
    SetKeepsConsistent(cfg, EMPTY, key, meta, [before], 0, 0);
    SetThenGet(cfg, c, key, meta, [first, second], metaSize, 0, 0);
  }

  lemma FreshKeyIsVisible(cfg: Config, c: Contents, key: Bytes, meta: Metadata, data: Bytes, metaSize: nat, now: int)
    requires !HasKey(c.mem, key) && !HasKey(c.disk, key)
    requires cfg.diskItemMaxSize > 0 ==> |data| + metaSize <= cfg.diskItemMaxSize
    ensures Visible(cfg, c, key, meta, data, metaSize, now)
  {
  }

  // The bodies a store holds, as a set.

  datatype Entry = Entry(key: Bytes, data: Bytes, meta: Metadata)

  ghost function Held(cfg: Config, c: Contents): iset<Entry> {
    iset e: Entry | Holds(cfg, c, e.key, e.data, e.meta)
  }

  lemma ReadShrinks(cfg: Config, c: Contents, key: Bytes, now: int)
    requires Consistent(c)
    ensures Consistent(AfterRead(cfg, c, key, now)) && Held(cfg, AfterRead(cfg, c, key, now)) <= Held(cfg, c)
  {
    ReadKeepsConsistent(cfg, c, key, now);
    forall e: Entry | e in Held(cfg, AfterRead(cfg, c, key, now)) ensures e in Held(cfg, c) {
      ReadInventsNothing(cfg, c, key, now, e.key, e.data, e.meta);
    }
  }

  lemma HitIsHeld(cfg: Config, c: Contents, key: Bytes, now: int)
    requires Consistent(c) && Read(cfg, c, key, now).Hit?
    ensures var a := Read(cfg, c, key, now);
            Entry(key, a.data, a.meta) in Held(cfg, c) && !IsExpired(cfg.ttl, a.meta.timestamp, now)
  {
  }

  lemma SetAddsOne(cfg: Config, c: Contents, key: Bytes, meta: Metadata, data: Bytes, metaSize: nat, now: int)
    requires Consistent(c) && LosslessCodecs(cfg) && Unpacked(meta)
    ensures var after := AfterSet(cfg, c, key, meta, data, metaSize, now);
            Consistent(after) &&
              Held(cfg, after) <= Held(cfg, c) + iset{Entry(key, data, StoredMeta(cfg, meta, data, now))}
  {
    SetKeepsConsistent(cfg, c, key, meta, data, metaSize, now);
    var after := AfterSet(cfg, c, key, meta, data, metaSize, now);
    forall e: Entry | e in Held(cfg, after)
      ensures e in Held(cfg, c) || e == Entry(key, data, StoredMeta(cfg, meta, data, now))
    {
      SetInventsNothing(cfg, c, key, meta, data, metaSize, now, e.key, e.data, e.meta);
    }
  }
}
