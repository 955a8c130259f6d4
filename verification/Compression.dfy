/**
 On-disk compression: compressData, compressionBaseline and the decoding half of readDiskCacheData in
 storage_disk.go.
 */
module Compression {
  import opened Basics
  import opened Headers
  import opened Metadatas

  /** A compressor that may fail and its decompressor. */
  datatype Codec = Codec(compress: Bytes -> Option<Bytes>, decompress: Bytes -> Option<Bytes>)

  datatype Codecs = Codecs(gzip: Codec, br: Codec, incompressible: string -> bool)

  ghost predicate Lossless(c: Codec) {
    forall d: Bytes, out: Bytes :: c.compress(d) == Some(out) ==> c.decompress(out) == Some(d)
  }

  /** What is found below the directory of an entry: metadata.json and data. */
  datatype Dir = Dir(meta: Metadata, data: Bytes)

  function CompressionBaseline(dataSize: nat, gzip: Option<Bytes>): nat {
    if gzip.Some? && |gzip.value| > 0 then |gzip.value| else dataSize
  }

  /** Saves at least ten percent. */
  predicate Worthwhile(out: Bytes, data: Bytes) {
    10 * |out| < 9 * |data|
  }

  function CompressData(maxSize: int, cs: Codecs, data: Bytes, header: Header): (r: (Bytes, string))
    ensures r.1 == "" ==> r.0 == data
    ensures r.1 != "" ==> 1024 <= |data| && Worthwhile(r.0, data)
    ensures r.1 == "gzip" || r.1 == "br" || r.1 == ""
    ensures r.1 == "gzip" ==> cs.gzip.compress(data) == Some(r.0)
    ensures r.1 == "br" ==> cs.br.compress(data) == Some(r.0)
    ensures r.1 == "br" ==>
            match cs.gzip.compress(data) { case Some(gz) => |gz| == 0 || |r.0| < |gz| case None => true }
  {
    var ce := HeaderValue(header, "Content-Encoding");
    if |data| < 1024 then (data, "")
    else if maxSize > 0 && |data| > maxSize then (data, "")
    else if ce != "" && ce != "none" && ce != "identity" then (data, "")
    else if cs.incompressible(HeaderValue(header, "Content-Type")) then (data, "")
    else
      var gz := cs.gzip.compress(data);
      if gz.Some? && |gz.value| < |data| && Worthwhile(gz.value, data) then (gz.value, "gzip")
      else if |data| > 10240 then
        var br := cs.br.compress(data);
        if br.Some? && |br.value| < CompressionBaseline(|data|, gz) && |br.value| < |data| && Worthwhile(br.value, data)
        then (br.value, "br") else (data, "")
      else (data, "")
  }

  /** The compressors look at the body: neither too small nor too large, not encoded, and of a type that pays. */
  predicate Compressible(maxSize: int, cs: Codecs, data: Bytes, header: Header) {
    && 1024 <= |data| && (maxSize <= 0 || |data| <= maxSize)
    && HeaderValue(header, "Content-Encoding") in {"", "none", "identity"}
    && !cs.incompressible(HeaderValue(header, "Content-Type"))
  }

  /**
   What is chosen: gzip whenever it saves a tenth, and otherwise brotli for more than ten kilobytes when
   it saves a tenth and beats what gzip made of them.
   */
  lemma CompressesExactlyWhen(maxSize: int, cs: Codecs, data: Bytes, header: Header)
    ensures var gz, br := cs.gzip.compress(data), cs.br.compress(data);
            var gzip := gz.Some? && 10 * |gz.value| < 9 * |data|;
            var brotli := |data| > 10240 && br.Some? && 10 * |br.value| < 9 * |data| &&
                          (gz.Some? && gz.value != [] ==> |br.value| < |gz.value|);
            CompressData(maxSize, cs, data, header) ==
            if Compressible(maxSize, cs, data, header) && gzip then (gz.value, "gzip")
            else if Compressible(maxSize, cs, data, header) && brotli then (br.value, "br")
            else (data, "")
  {
  }

  /** The directory storeDataToDisk writes: the encoding chosen is recorded in the metadata. */
  function Pack(maxSize: int, cs: Codecs, data: Bytes, meta: Metadata): Dir {
    var (out, encoding) := CompressData(maxSize, cs, data, meta.header);
    Dir(if encoding == "" then meta else meta.(header := meta.header + [(COMPRESSION_TYPE, encoding)]), out)
  }

  /** The body readDiskCacheData returns, or None when it cannot be decoded. */
  function Unpack(cs: Codecs, d: Dir): Option<Bytes> {
    match HeaderValue(d.meta.header, COMPRESSION_TYPE)
    case "gzip" => cs.gzip.decompress(d.data)
    case "br" => cs.br.decompress(d.data)
    case _ => Some(d.data)
  }

  /** Metadata whose encoding field is still unset, as NewMetadata makes it. */
  predicate Unpacked(meta: Metadata) {
    !HasField(meta.header, COMPRESSION_TYPE)
  }

  /** A response cannot bring along a field of that name. */
  lemma RetainedIsUnpacked(h: Header)
    ensures !HasField(Retain(h), COMPRESSION_TYPE)
  {
    CompressionTypeNotRetained();
    RetainedValues(h, COMPRESSION_TYPE);
  }

  /** Packing then unpacking gives back the body, whichever encoding was chosen, and touches nothing else. */
  lemma PackRoundTrip(maxSize: int, cs: Codecs, data: Bytes, meta: Metadata)
    requires Lossless(cs.gzip) && Lossless(cs.br) && Unpacked(meta)
    ensures var d := Pack(maxSize, cs, data, meta);
            && Unpack(cs, d) == Some(data)
            && (d.meta.status, d.meta.timestamp, d.meta.path) == (meta.status, meta.timestamp, meta.path)
            && meta.header <= d.meta.header
            && (HeaderValue(d.meta.header, COMPRESSION_TYPE) == "" ==> d == Dir(meta, data))
  {
    var (out, encoding) := CompressData(maxSize, cs, data, meta.header);
    ValuesAppended(meta.header, (COMPRESSION_TYPE, encoding), COMPRESSION_TYPE);
  }
}
