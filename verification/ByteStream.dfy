/**
  A socket as its reader meets it: the bytes the peer will still send, in
  chunks of any size, with time-outs and errors at any moment.
*/
module ByteStream {
  import opened Wrappers

  const NEWLINE: u8 := 10

  datatype ReadError = Interrupted | TimedOut | Broken

  /** The place of the first newline, or the length when there is none. */
  function LineEnd(bytes: seq<u8>): (end: nat)
    ensures end <= |bytes| && NEWLINE !in bytes[..end]
    ensures end < |bytes| ==> bytes[end] == NEWLINE
  {
    if bytes == [] || bytes[0] == NEWLINE then 0 else 1 + LineEnd(bytes[1..])
  }

  lemma {:induction false} LineEndIs(bytes: seq<u8>, end: nat)
    requires end <= |bytes| && NEWLINE !in bytes[..end]
    requires end == |bytes| || bytes[end] == NEWLINE
    ensures LineEnd(bytes) == end
    decreases end
  {
    if end > 0 {
      assert bytes[..end][0] == bytes[0] && bytes[..end][1..] == bytes[1..][..end - 1];
      LineEndIs(bytes[1..], end - 1);
    }
  }

  /** The line of a longer stream, once its first part is known. */
  lemma LineEndOn(head: seq<u8>, rest: seq<u8>)
    requires NEWLINE !in head
    ensures LineEnd(head + rest) == |head| + LineEnd(rest)
  {
    var end := LineEnd(rest);
    assert (head + rest)[..|head| + end] == head + rest[..end];
    LineEndIs(head + rest, |head| + end);
  }

  /** A chunk shows the line end of what is to come, if it reaches that far. */
  lemma LineInChunk(chunk: seq<u8>, incoming: seq<u8>)
    requires chunk <= incoming
    ensures LineEnd(chunk) <= LineEnd(incoming)
    ensures LineEnd(chunk) < |chunk| ==> LineEnd(incoming) == LineEnd(chunk)
  {
    var end := LineEnd(chunk);
    if end < |chunk| {
      assert incoming[..end] == chunk[..end];
      LineEndIs(incoming, end);
    } else {
      assert chunk[..end] == chunk && incoming == chunk + incoming[end..];
      LineEndOn(chunk, incoming[end..]);
    }
  }

  lemma LineEndArrives(pending: seq<u8>, incoming: seq<u8>, chunk: seq<u8>)
    requires NEWLINE !in pending && chunk <= incoming
    ensures LineEnd(pending + incoming) >= |pending| + LineEnd(chunk)
    ensures LineEnd(chunk) < |chunk| ==> LineEnd(pending + incoming) == |pending| + LineEnd(chunk)
  {
    LineEndOn(pending, incoming);
    LineInChunk(chunk, incoming);
  }

  lemma ChunkAppended(pending: seq<u8>, incoming: seq<u8>, chunk: seq<u8>, end: nat)
    requires chunk <= incoming && end <= |chunk|
    ensures chunk[..end] == incoming[..end] && pending + chunk[..end] + incoming[end..] == pending + incoming
  {
  }

  class SocketReader {
    /** Whether the connection may fail altogether. */
    const mayBreak: bool
    var incoming: seq<u8>
    /** How often the reader can still be interrupted or time out. */
    var patience: nat

    constructor (stream: seq<u8>, patience: nat, mayBreak: bool)
      ensures incoming == stream && this.patience == patience && this.mayBreak == mayBreak
    {
      incoming := stream;
      this.patience := patience;
      this.mayBreak := mayBreak;
    }

    /** An empty chunk is the end of the stream. */
    method FillBuf() returns (r: Result<seq<u8>, ReadError>)
      modifies this`patience
      ensures r.Success? ==> r.value <= incoming && (r.value == [] <==> incoming == [])
      ensures if r.Failure? && !r.error.Broken? then patience < old(patience) else patience == old(patience)
      ensures r.Failure? && r.error.Broken? ==> mayBreak
    {
      var failing: bool := *;
      var error: ReadError := *;
      if failing && (if error.Broken? then mayBreak else patience > 0) {
        patience := if error.Broken? then patience else patience - 1;
        return Failure(error);
      }
      var size: nat := *;
      r := Success(if 1 <= size <= |incoming| then incoming[..size] else incoming);
    }

    method Consume(n: nat)
      requires n <= |incoming|
      modifies this`incoming
      ensures incoming == old(incoming)[n..]
    {
      incoming := incoming[n..];
    }
  }
}
