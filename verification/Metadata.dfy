/** Stored response metadata, metadata.go: the status, the retained header fields, the time and the path. */
module Metadatas {
  import opened Basics
  import opened Headers

  datatype Metadata = Metadata(status: int, header: Header, timestamp: int, path: Bytes)

  const CACHED_CONTENT_ENCODING := ["none", "gzip", "br", "zstd"]

  predicate Retained(name: string) {
    name in {
    "Accept-Ranges", "Cache-Control", "Content-Encoding", "Content-Length", "Content-Type",
    "Location", "Etag", "Last-Modified",
    "Access-Control-Allow-Origin", "Access-Control-Max-Age", "Access-Control-Allow-Headers",
    "Access-Control-Allow-Methods", "Access-Control-Allow-Credentials", "Access-Control-Expose-Headers",
    "Referrer-Policy", "Strict-Transport-Security", "Content-Security-Policy",
    "X-Content-Type-Options", "X-Frame-Options", "X-Robots-Tag", "X-Pingback", "Server-Timing",
    "Server", "X-Powered-By", "Vary", "Link", "Expires", "Age", "Refresh", "Pragma",
    "X-Xss-Protection", "Warning", "X-UA-Compatible"}
  }

  /** The retained fields; several values of one name are stored joined. */
  function Retain(h: Header): Header
    decreases |h|
  {
    if h == [] then []
    else if Retained(h[0].0) then [(h[0].0, Join(Values(h, h[0].0), ","))] + Retain(Removed(h[1..], h[0].0))
    else Retain(h[1..])
  }

  lemma {:induction false} RetainedValues(h: Header, name: string)
    ensures Values(Retain(h), name) == if Retained(name) && HasField(h, name) then [Join(Values(h, name), ",")] else []
    decreases |h|
  {
    if h != [] {
      assert [] + Values(h[1..], name) == Values(h[1..], name);
      if Retained(h[0].0) {
        RemovedOthers(h[1..], h[0].0);
        RetainedValues(Removed(h[1..], h[0].0), name);
      } else {
        RetainedValues(h[1..], name);
      }
    }
  }

  /** The metadata of a response about to be stored, or None when its encoding is not one Sidekick keeps. */
  function NewMetadata(status: int, h: Header, timestamp: int, path: Bytes): Option<Metadata> {
    var ce := HeaderValue(h, "Content-Encoding");
    if (if ce == "" then "none" else ce) in CACHED_CONTENT_ENCODING then
      Some(Metadata(status, Retain(h), timestamp, path))
    else None
  }

  const COMPRESSION_TYPE := "X-Compression-Type"

  /** The name the disk tier appends is not one a stored response can bring along. */
  lemma CompressionTypeNotRetained()
    ensures !Retained(COMPRESSION_TYPE)
  {
    assert |COMPRESSION_TYPE| == 18;
  }
}
