/**
 Positional reads on a seekable byte stream (`StreamExtensions.GetByte` and
 `StreamExtensions.GetBytes`). A stream is its content, a current position
 and a flag telling whether it has been disposed; every read returns the
 outcome together with the stream as the read leaves it.
 */
module Streams {
  import opened Results

  datatype Stream = Stream(data: seq<bv8>, position: nat, closed: bool)

  /** The exceptions a positional read can raise. */
  datatype IoError =
    | Disposed          // the stream was already disposed
    | SeekBeforeBegin   // `Seek` to a negative offset
    | NegativeLength    // `new byte[length]` with a negative length
    | EndOfStream       // fewer bytes available than requested

  datatype Read<T> = Read(result: Result<T, IoError>, stream: Stream)

  /** A freshly opened stream over `data`, positioned at its start. */
  function Open(data: seq<bv8>): (s: Stream)
    ensures s.data == data && s.position == 0 && !s.closed
  {
    Stream(data, 0, false)
  }

  /**
   Reads the single byte at `offset` and puts the position back where it
   was, on success and on every failure alike.
   */
  function GetByte(s: Stream, offset: int): (r: Read<bv8>)
    ensures r.stream == s
    ensures r.result.Success? <==> !s.closed && 0 <= offset < |s.data|
    ensures r.result.Success? ==> r.result.value == s.data[offset]
    ensures !s.closed && offset >= |s.data| ==> r.result == Failure(EndOfStream)
    ensures !s.closed && offset < 0 ==> r.result == Failure(SeekBeforeBegin)
  {
    if s.closed then Read(Failure(Disposed), s)
    else if offset < 0 then Read(Failure(SeekBeforeBegin), s)
    else if offset >= |s.data| then Read(Failure(EndOfStream), s)
    else Read(Success(s.data[offset]), s)
  }

  /**
   Reads exactly `length` bytes starting at `offset`. The position is put
   back only when the read succeeds: a failure after the seek leaves the
   stream where the seek and the partial read took it. Seeking past the end
   is allowed, so reading no bytes there succeeds with nothing.
   */
  function GetBytes(s: Stream, offset: int, length: int): (r: Read<seq<bv8>>)
    ensures r.result.Success? <==>
              !s.closed && 0 <= offset && 0 <= length && (length == 0 || offset + length <= |s.data|)
    ensures r.result.Success? ==> |r.result.value| == length
    ensures r.result.Success? ==> forall i :: 0 <= i < length ==> r.result.value[i] == s.data[offset + i]
    ensures r.result.Success? ==> r.stream == s
    ensures r.stream.data == s.data && r.stream.closed == s.closed
    ensures !s.closed && 0 <= offset && offset + length > |s.data| && length > 0 ==>
              r.result == Failure(EndOfStream) && r.stream.position == (if offset <= |s.data| then |s.data| else offset)
  {
    if s.closed then Read(Failure(Disposed), s)
    else if offset < 0 then Read(Failure(SeekBeforeBegin), s)
    else if length < 0 then Read(Failure(NegativeLength), s.(position := offset))
    else if length == 0 then Read(Success([]), s)
    else if offset + length > |s.data| then
      // the exact read consumes whatever lies between the offset and the end
      Read(Failure(EndOfStream), s.(position := if offset <= |s.data| then |s.data| else offset))
    else Read(Success(s.data[offset..offset + length]), s)
  }

  /** A successful `GetBytes` is the same as `GetByte` at each offset in turn. */
  lemma GetBytesAgreesWithGetByte(s: Stream, offset: int, length: int, i: int)
    requires GetBytes(s, offset, length).result.Success?
    requires 0 <= i < length
    ensures GetByte(s, offset + i).result == Success(GetBytes(s, offset, length).result.value[i])
  {
  }
}
