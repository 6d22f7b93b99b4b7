/**
 The discovery payload (`SearchData`): a named, classified blob carried either
 as an owned byte array or as a stream, with a flag telling whether disposing
 the payload must also dispose the stream.
 */
module Payloads {
  import opened Results
  import opened Streams

  /**
   `bytes` and `stream` stand for the two nullable properties of the C#
   `SearchData` record; `disposed` is its private `disposedValue` flag.
   */
  datatype SearchData = SearchData(
    name: string,
    container: string,
    format: string,
    bytes: Option<seq<bv8>>,
    stream: Option<Stream>,
    leaveStreamOpen: bool,
    disposed: bool)

  /** Exactly one of the two sources is present. */
  predicate HasOneSource(d: SearchData) {
    d.bytes.Some? != d.stream.Some?
  }

  /** A stream-backed payload is positioned at the start of its stream. */
  predicate Rewound(d: SearchData) {
    d.stream.Some? ==> d.stream.value.position == 0
  }

  /** The stream, if any, has not been disposed. */
  predicate StreamLive(d: SearchData) {
    d.stream.Some? ==> !d.stream.value.closed
  }

  /** The content of the payload, whichever way it is carried. */
  function Content(d: SearchData): seq<bv8>
    requires d.bytes.Some? || d.stream.Some?
  {
    if d.bytes.Some? then d.bytes.value else d.stream.value.data
  }

  /** The byte-array constructor: it sets `Bytes` and leaves `Stream` null. */
  function FromBytes(name: string, container: string, format: string, bytes: Option<seq<bv8>>): (d: SearchData)
    ensures d.name == name && d.container == container && d.format == format
    ensures d.bytes == bytes && d.stream.None?
    ensures !d.disposed
    ensures bytes.Some? ==> HasOneSource(d) && Rewound(d) && StreamLive(d)
  {
    SearchData(name, container, format, bytes, None, false, false)
  }

  /** The five-argument stream constructor: it sets `Stream` and never assigns `Bytes`. */
  function FromStream(name: string, container: string, format: string, stream: Option<Stream>, leaveStreamOpen: bool): (d: SearchData)
    ensures d.name == name && d.container == container && d.format == format
    ensures d.stream == stream && d.bytes.None?
    ensures d.leaveStreamOpen == leaveStreamOpen && !d.disposed
    ensures stream.Some? ==> HasOneSource(d)
  {
    SearchData(name, container, format, None, stream, leaveStreamOpen, false)
  }

  /** The four-argument stream constructor: the payload owns its stream. */
  function FromOwnedStream(name: string, container: string, format: string, stream: Option<Stream>): (d: SearchData)
    ensures d.stream == stream && d.bytes.None?
    ensures !d.leaveStreamOpen
  {
    FromStream(name, container, format, stream, false)
  }

  /**
   `Dispose()`: the first call disposes the stream unless the payload was told
   to leave it open, then records that disposal happened; later calls change
   nothing. Name, container, format and bytes are never touched.
   */
  function Dispose(d: SearchData): (r: SearchData)
    ensures r.name == d.name && r.container == d.container && r.format == d.format
    ensures r.bytes == d.bytes && r.leaveStreamOpen == d.leaveStreamOpen
    ensures r.disposed
    ensures r.stream.Some? == d.stream.Some?
    ensures r.stream.Some? ==> r.stream.value.data == d.stream.value.data && r.stream.value.position == d.stream.value.position
    ensures !d.disposed && d.stream.Some? ==> (r.stream.value.closed <==> d.stream.value.closed || !d.leaveStreamOpen)
    ensures d.disposed ==> r == d
  {
    if d.disposed then d
    else
      var s := if !d.leaveStreamOpen && d.stream.Some? then Some(d.stream.value.(closed := true)) else d.stream;
      d.(stream := s, disposed := true)
  }

  lemma DisposeIdempotent(d: SearchData)
    ensures Dispose(Dispose(d)) == Dispose(d)
  {
  }

  /** A payload whose stream is left open keeps that stream usable after disposal. */
  lemma DisposeLeavesBorrowedStreamOpen(d: SearchData)
    requires d.leaveStreamOpen && StreamLive(d)
    ensures StreamLive(Dispose(d))
  {
  }

  /**
   `ResetStream`: a stream-backed payload is sought back to the start; a
   byte-backed one is left alone.
   */
  function ResetStream(d: SearchData): (r: SearchData)
    requires StreamLive(d)
    ensures Rewound(r) && StreamLive(r)
    ensures r.name == d.name && r.container == d.container && r.format == d.format
    ensures r.bytes == d.bytes && r.leaveStreamOpen == d.leaveStreamOpen && r.disposed == d.disposed
    ensures r.stream.Some? == d.stream.Some?
    ensures r.stream.Some? ==> r.stream.value.data == d.stream.value.data
    ensures Rewound(d) ==> r == d
  {
    if d.stream.Some? && d.stream.value.position != 0 then
      d.(stream := Some(d.stream.value.(position := 0)))
    else d
  }
}
