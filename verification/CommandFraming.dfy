/**
  The bounded command decoder of src/daemon.rs. It keeps at most one unfinished
  command across receive time-outs. Whatever the chunks, what it delivers is
  the newline split of the stream, cut at the first command over the limit.
*/
module CommandFraming {
  import opened Wrappers
  import opened ByteStream
  import Utf8

  const MAX_COMMAND_BYTES: nat := 192

  datatype Ending = CleanEof | EndedBeforeNewline | Exceeded

  datatype Cut = Frame(line: seq<u8>, rest: seq<u8>) | End(ending: Ending)

  function NextFrame(stream: seq<u8>): Cut {
    var end := LineEnd(stream);
    if end > MAX_COMMAND_BYTES then End(Exceeded)
    else if end < |stream| then Frame(stream[..end], stream[end + 1..])
    else if stream == [] then End(CleanEof)
    else End(EndedBeforeNewline)
  }

  /** The frames of a whole stream, and how it ends. */
  function Frames(stream: seq<u8>): (seq<seq<u8>>, Ending)
    decreases |stream|
  {
    match NextFrame(stream)
    case End(ending) => ([], ending)
    case Frame(line, rest) =>
      var (lines, ending) := Frames(rest);
      ([line] + lines, ending)
  }

  // ----------------------------------------- what the newline split means

  function Join(lines: seq<seq<u8>>): seq<u8> {
    if lines == [] then [] else lines[0] + [NEWLINE] + Join(lines[1..])
  }

  predicate IsCommand(line: seq<u8>) {
    NEWLINE !in line && |line| <= MAX_COMMAND_BYTES
  }

  /** `lines` and `tail` make up the stream: whole commands of legal size, then
      nothing, an unfinished command, or one that is too long. */
  predicate Splits(stream: seq<u8>, lines: seq<seq<u8>>, tail: seq<u8>, ending: Ending) {
    && stream == Join(lines) + tail
    && (forall line | line in lines :: IsCommand(line))
    && match ending
       case CleanEof => tail == []
       case EndedBeforeNewline => tail != [] && IsCommand(tail)
       case Exceeded => LineEnd(tail) > MAX_COMMAND_BYTES
  }

  lemma NextFrameOfLine(line: seq<u8>, rest: seq<u8>)
    requires IsCommand(line)
    ensures NextFrame(line + [NEWLINE] + rest) == Frame(line, rest)
  {
    var stream := line + [NEWLINE] + rest;
    assert stream[..|line|] == line && stream[|line| + 1..] == rest;
    LineEndIs(stream, |line|);
  }

  lemma {:induction false} FramesSplit(stream: seq<u8>) returns (tail: seq<u8>)
    ensures Splits(stream, Frames(stream).0, tail, Frames(stream).1)
    decreases |stream|
  {
    match NextFrame(stream)
    case End(ending) =>
      tail := stream;
      EndSplits(stream);
    case Frame(line, rest) =>
      tail := FramesSplit(rest);
      FrameSplits(stream, Frames(rest).0, tail, Frames(rest).1);
  }

  lemma EndSplits(stream: seq<u8>)
    requires NextFrame(stream).End?
    ensures Splits(stream, [], stream, NextFrame(stream).ending)
  {
    assert LineEnd(stream) == |stream| ==> stream[..LineEnd(stream)] == stream;
  }

  lemma FrameSplits(stream: seq<u8>, lines: seq<seq<u8>>, tail: seq<u8>, ending: Ending)
    requires NextFrame(stream).Frame? && Splits(NextFrame(stream).rest, lines, tail, ending)
    ensures Splits(stream, [NextFrame(stream).line] + lines, tail, ending)
  {
    var Frame(line, rest) := NextFrame(stream);
    assert ([line] + lines)[1..] == lines;
    assert stream == line + [NEWLINE] + rest;
  }

  lemma FramesOfLine(line: seq<u8>, rest: seq<u8>)
    requires IsCommand(line)
    ensures Frames(line + [NEWLINE] + rest) == ([line] + Frames(rest).0, Frames(rest).1)
  {
    NextFrameOfLine(line, rest);
  }

  lemma FramesOfTail(tail: seq<u8>, ending: Ending)
    requires Splits(tail, [], tail, ending)
    ensures Frames(tail) == ([], ending)
  {
    if ending == EndedBeforeNewline {
      assert tail[..|tail|] == tail;
      LineEndIs(tail, |tail|);
    }
  }

  /** Nothing else splits the stream. */
  lemma {:induction false} SplitIsUnique(stream: seq<u8>, lines: seq<seq<u8>>, tail: seq<u8>, ending: Ending)
    requires Splits(stream, lines, tail, ending)
    ensures Frames(stream) == (lines, ending)
    decreases |lines|
  {
    if lines == [] {
      assert stream == tail;
      FramesOfTail(tail, ending);
    } else {
      var line, rest := lines[0], Join(lines[1..]) + tail;
      assert stream == line + [NEWLINE] + rest;
      SplitIsUnique(rest, lines[1..], tail, ending);
      FramesOfLine(line, rest);
      assert lines == [line] + lines[1..];
    }
  }

  // --------------------------------------------------------- the decoder

  datatype Received =
    | Command(text: Option<string>)     // None: the command is not valid UTF-8
    | Ended(ending: Ending)
    | Waiting(error: ReadError)

  class CommandDecoder {
    var pending: seq<u8>

    constructor ()
      ensures pending == [] && Valid()
    {
      pending := [];
    }

    predicate Valid()
      reads this
    {
      IsCommand(pending)
    }

    method Push(bytes: seq<u8>) returns (withinLimit: bool)
      requires Valid() && NEWLINE !in bytes
      modifies this
      ensures Valid() && withinLimit == (|old(pending)| + |bytes| <= MAX_COMMAND_BYTES)
      ensures pending == if withinLimit then old(pending) + bytes else []
    {
      withinLimit := |bytes| <= MAX_COMMAND_BYTES - |pending|;
      pending := if withinLimit then pending + bytes else [];
    }

    method Finish() returns (text: Option<string>)
      requires Valid()
      modifies this
      ensures pending == [] && text == Utf8.Decode(old(pending))
    {
      text := Utf8.Decode(pending);
      pending := [];
    }

    /** One read: the next frame of everything not yet delivered. A time-out
        loses nothing, an unfinished command is never delivered, and a reader
        that neither times out nor fails delivers the frame or the ending. */
    method Read(reader: SocketReader) returns (r: Received)
      requires Valid()
      modifies this, reader
      ensures Valid()
      ensures match r
              case Command(text) =>
                exists line :: NextFrame(old(pending + reader.incoming)) == Frame(line, pending + reader.incoming)
                               && text == Utf8.Decode(line)
              case Ended(ending) => NextFrame(old(pending + reader.incoming)) == End(ending) && pending == []
              case Waiting(error) =>
                && pending + reader.incoming == old(pending + reader.incoming)
                && (if error.Broken? then reader.mayBreak else reader.patience < old(reader.patience))
      ensures reader.patience <= old(reader.patience)
      ensures !reader.mayBreak && old(reader.patience) == 0 ==> !r.Waiting?
    {
      ghost var stream := pending + reader.incoming;
      while true
        invariant Valid() && pending + reader.incoming == stream && reader.patience == old(reader.patience)
        decreases |reader.incoming|
      {
        var available := reader.FillBuf();
        if available.Failure? {
          return Waiting(available.error);
        }
        var chunk := available.value;
        if chunk == [] {
          var clean := pending == [];
          StreamEnds(pending);
          assert stream == pending;
          pending := [];
          return Ended(if clean then CleanEof else EndedBeforeNewline);
        }
        var end := LineEnd(chunk);
        ChunkArrives(pending, reader.incoming, chunk);
        var withinLimit := Push(chunk[..end]);
        reader.Consume(if end < |chunk| then end + 1 else end);
        if !withinLimit {
          return Ended(Exceeded);
        }
        if end < |chunk| {
          ghost var line := pending;
          var text := Finish();
          assert pending + reader.incoming == reader.incoming;
          assert NextFrame(stream) == Frame(line, pending + reader.incoming);
          return Command(text);
        }
      }
    }
  }

  lemma StreamEnds(pending: seq<u8>)
    requires IsCommand(pending)
    ensures NextFrame(pending) == End(if pending == [] then CleanEof else EndedBeforeNewline)
  {
    LineEndIs(pending, |pending|);
    assert pending[..|pending|] == pending;
  }

  /** What one chunk tells about the frame under way. */
  lemma ChunkArrives(pending: seq<u8>, incoming: seq<u8>, chunk: seq<u8>)
    requires IsCommand(pending) && chunk <= incoming
    ensures var end, stream := LineEnd(chunk), pending + incoming;
            if |pending| + end > MAX_COMMAND_BYTES then NextFrame(stream) == End(Exceeded)
            else if end < |chunk| then NextFrame(stream) == Frame(pending + chunk[..end], incoming[end + 1..])
            else pending + chunk[..end] + incoming[end..] == stream
  {
    var end, stream := LineEnd(chunk), pending + incoming;
    LineEndArrives(pending, incoming, chunk);
    ChunkAppended(pending, incoming, chunk, end);
    if |pending| + end > MAX_COMMAND_BYTES {
      assert LineEnd(stream) > MAX_COMMAND_BYTES;
    } else if end < |chunk| {
      ChunkEndsFrame(pending, incoming, end);
    }
  }

  lemma ChunkEndsFrame(pending: seq<u8>, incoming: seq<u8>, end: nat)
    requires LineEnd(pending + incoming) == |pending| + end <= MAX_COMMAND_BYTES && end < |incoming|
    ensures NextFrame(pending + incoming) == Frame(pending + incoming[..end], incoming[end + 1..])
  {
    var stream := pending + incoming;
    assert stream[..|pending| + end] == pending + incoming[..end];
    assert stream[|pending| + end + 1..] == incoming[end + 1..];
  }

  /** The texts that a stream delivers, and how it ends. */
  function Delivers(stream: seq<u8>): (seq<Option<string>>, Ending)
    decreases |stream|
  {
    match NextFrame(stream)
    case End(ending) => ([], ending)
    case Frame(line, rest) =>
      var (texts, ending) := Delivers(rest);
      ([Utf8.Decode(line)] + texts, ending)
  }

  lemma {:induction false} DeliversFrames(stream: seq<u8>)
    ensures var (lines, ending) := Frames(stream);
            && Delivers(stream).1 == ending && |Delivers(stream).0| == |lines|
            && forall i | 0 <= i < |lines| :: Delivers(stream).0[i] == Utf8.Decode(lines[i])
    decreases |stream|
  {
    if NextFrame(stream).Frame? {
      DeliversFrames(NextFrame(stream).rest);
    }
  }

  /** `commands` came first, and what `left` delivers comes after them. */
  ghost predicate Delivered(stream: seq<u8>, commands: seq<Option<string>>, left: seq<u8>) {
    Delivers(stream) == (commands + Delivers(left).0, Delivers(left).1)
  }

  lemma DeliveredOn(stream: seq<u8>, commands: seq<Option<string>>, left: seq<u8>, text: Option<string>, rest: seq<u8>)
    requires Delivered(stream, commands, left)
    requires exists line :: NextFrame(left) == Frame(line, rest) && text == Utf8.Decode(line)
    ensures Delivered(stream, commands + [text], rest)
  {
    assert commands + ([text] + Delivers(rest).0) == commands + [text] + Delivers(rest).0;
  }

  lemma DeliveredAll(stream: seq<u8>, commands: seq<Option<string>>, left: seq<u8>, ending: Ending)
    requires Delivered(stream, commands, left) && NextFrame(left) == End(ending)
    ensures Delivers(stream) == (commands, ending)
  {
    assert commands + [] == commands;
  }

  /** A client loop over one connection: reads, with time-outs anywhere among
      them, until the stream ends or the calls are used up. Every call that ends
      nothing costs a time-out or a byte, so enough calls reach the end. */
  method ReadAll(decoder: CommandDecoder, reader: SocketReader, calls: nat)
    returns (commands: seq<Option<string>>, end: Option<Ending>)
    requires decoder.pending == []
    modifies decoder, reader
    ensures decoder.Valid()
    ensures end.Some? ==> Delivers(old(reader.incoming)) == (commands, end.value)
    ensures end.None? ==> Delivered(old(reader.incoming), commands, decoder.pending + reader.incoming)
    ensures !reader.mayBreak && calls > old(reader.patience) + |old(reader.incoming)| ==> end.Some?
  {
    commands := [];
    ghost var stream := reader.incoming;
    assert decoder.pending + reader.incoming == stream && [] + Delivers(stream).0 == Delivers(stream).0;
    for i := 0 to calls
      invariant decoder.Valid() && Delivered(stream, commands, decoder.pending + reader.incoming)
      invariant !reader.mayBreak ==>
                  i + reader.patience + |decoder.pending + reader.incoming| <= old(reader.patience) + |stream|
    {
      ghost var left := decoder.pending + reader.incoming;
      var r := decoder.Read(reader);
      match r
      case Command(text) =>
        DeliveredOn(stream, commands, left, text, decoder.pending + reader.incoming);
        commands := commands + [text];
      case Ended(ending) =>
        DeliveredAll(stream, commands, left, ending);
        return commands, Some(ending);
      case Waiting(_) =>
    }
    end := None;
  }
}
