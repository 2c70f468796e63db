/**
  One response on its way from the daemon (src/daemon.rs) to a client
  (src/control.rs): made safe and short enough to be one line, sent, read back
  in chunks of any size, and parsed.
*/
module ResponseLine {
  import opened Wrappers
  import opened ByteStream
  import opened Text
  import Utf8

  const MAX_LINE_BYTES: nat := 32768
  const MAX_PAYLOAD_BYTES: nat := 32764

  // ---------------------------------------------------------- the daemon

  /** The Unicode category Cc. */
  predicate Control(c: char) {
    (c as int) < 0x20 || 0x7f <= (c as int) < 0xa0
  }

  function Clean(c: char): char {
    if c == '\r' || c == '\n' then ' ' else if Control(c) then '?' else c
  }

  function CleanAll(s: string): string {
    seq(|s|, i requires 0 <= i < |s| => Clean(s[i]))
  }

  function Size(s: string): nat {
    |Utf8.Encode(CleanAll(s))|
  }

  lemma SizeGrows(s: string, n: nat)
    requires n < |s|
    ensures CleanAll(s[..n + 1]) == CleanAll(s[..n]) + [Clean(s[n])]
    ensures Size(s[..n + 1]) == Size(s[..n]) + |Utf8.EncodeChar(Clean(s[n]))|
  {
    assert CleanAll(s[..n + 1]) == CleanAll(s[..n]) + [Clean(s[n])];
    Utf8.EncodeConcat(CleanAll(s[..n]), [Clean(s[n])]);
    assert Utf8.Encode([Clean(s[n])]) == Utf8.EncodeChar(Clean(s[n])) + Utf8.Encode([]);
  }

  /** The longest beginning of the payload that fits, cleaned. */
  ghost predicate Sanitised(payload: string, sanitised: string) {
    exists n ::
      && 0 <= n <= |payload| && sanitised == CleanAll(payload[..n]) && Size(payload[..n]) <= MAX_PAYLOAD_BYTES
      && (n < |payload| ==> Size(payload[..n + 1]) > MAX_PAYLOAD_BYTES)
  }

  method SanitizeResponsePayload(value: string) returns (sanitized: string)
    ensures Sanitised(value, sanitized)
  {
    sanitized := "";
    var bytes := 0;
    for n := 0 to |value|
      invariant sanitized == CleanAll(value[..n]) && bytes == Size(value[..n]) <= MAX_PAYLOAD_BYTES
    {
      var character := Clean(value[n]);
      var width := |Utf8.EncodeChar(character)|;
      SizeGrows(value, n);
      if bytes + width > MAX_PAYLOAD_BYTES {
        return;
      }
      sanitized := sanitized + [character];
      bytes := bytes + width;
    }
    assert value[..|value|] == value;
  }

  /** No control character survives, so nothing in it can end the line. */
  lemma SanitisedIsSafe(payload: string, sanitised: string)
    requires Sanitised(payload, sanitised)
    ensures forall c | c in sanitised :: !Control(c)
    ensures |Utf8.Encode(sanitised)| <= MAX_PAYLOAD_BYTES && NEWLINE !in Utf8.Encode(sanitised)
  {
    var n :| 0 <= n <= |payload| && sanitised == CleanAll(payload[..n]) && Size(payload[..n]) <= MAX_PAYLOAD_BYTES;
    CleanHasNoControl(payload[..n]);
    NoNewlineByte(sanitised);
  }

  lemma CleanHasNoControl(s: string)
    ensures forall c | c in CleanAll(s) :: !Control(c)
  {
    forall i | 0 <= i < |s| ensures !Control(CleanAll(s)[i]) {
      assert CleanAll(s)[i] == Clean(s[i]);
    }
  }

  lemma NoNewlineByte(s: string)
    requires forall c | c in s :: !Control(c)
    ensures NEWLINE !in Utf8.Encode(s)
  {
    Utf8.AsciiByte(s, NEWLINE);
    assert Control('\n') && (NEWLINE as char) == '\n';
  }

  /** Line ends become spaces, every other control character a question mark,
      and the rest of a payload stays as it is, character by character. */
  lemma SanitisedCharacters(payload: string, sanitised: string)
    requires Sanitised(payload, sanitised)
    ensures |sanitised| <= |payload|
    ensures forall i | 0 <= i < |sanitised| ::
              sanitised[i] == if payload[i] in "\r\n" then ' '
                              else if payload[i] as int < 0x20 || 0x7f <= payload[i] as int < 0xa0 then '?' else payload[i]
  {
    var n :| 0 <= n <= |payload| && sanitised == CleanAll(payload[..n]);
    forall i | 0 <= i < n ensures sanitised[i] == Clean(payload[i]) {
      assert payload[..n][i] == payload[i];
    }
  }

  lemma CleanIsKept(payload: string, k: nat)
    requires k <= |payload| && forall c | c in payload :: !Control(c)
    ensures CleanAll(payload[..k]) == payload[..k] && Size(payload[..k]) <= |Utf8.Encode(payload)|
  {
    assert forall c | c in payload :: Clean(c) == c;
    assert CleanAll(payload[..k]) == payload[..k];
    assert payload == payload[..k] + payload[k..];
    Utf8.EncodeConcat(payload[..k], payload[k..]);
  }

  /** A payload that is already clean and short enough is sent as it is. */
  lemma CleanPayloadIsKept(payload: string, sanitised: string)
    requires Sanitised(payload, sanitised)
    requires (forall c | c in payload :: !Control(c)) && |Utf8.Encode(payload)| <= MAX_PAYLOAD_BYTES
    ensures sanitised == payload
  {
    forall k: nat | k <= |payload|
      ensures CleanAll(payload[..k]) == payload[..k] && Size(payload[..k]) <= MAX_PAYLOAD_BYTES {
      CleanIsKept(payload, k);
    }
    assert payload[..|payload|] == payload;
  }

  function Prefix(ok: bool): string {
    if ok then "OK " else "ERR "
  }

  /** The line that the daemon writes, without its newline. */
  function Line(ok: bool, sanitised: string): string {
    Prefix(ok) + sanitised
  }

  function LineBytes(ok: bool, sanitised: string): seq<u8> {
    Utf8.Encode(Line(ok, sanitised)) + [NEWLINE]
  }

  lemma LineIsOneLine(ok: bool, payload: string, sanitised: string)
    requires Sanitised(payload, sanitised)
    ensures var bytes := Utf8.Encode(Line(ok, sanitised));
            |bytes| <= MAX_LINE_BYTES && NEWLINE !in bytes
  {
    SanitisedIsSafe(payload, sanitised);
    Utf8.EncodeConcat(Prefix(ok), sanitised);
    Utf8.EncodeAscii(Prefix(ok));
    Utf8.AsciiByte(Prefix(ok), NEWLINE);
  }

  // ---------------------------------------------------------- the client

  datatype Reply = Accepted(payload: string) | Rejected(message: string) | Malformed

  function ParseResponse(line: string): Reply {
    var response := Trim(line);
    if response == "OK" then Accepted("")
    else if "OK " <= response then Accepted(Trim(response[3..]))
    else if response == "ERR" then Rejected("")
    else if "ERR " <= response then Rejected(Trim(response[4..]))
    else Malformed
  }

  /** The client recovers exactly the trimmed payload. */
  lemma ParseLine(ok: bool, sanitised: string)
    ensures ParseResponse(Line(ok, sanitised)) == if ok then Accepted(Trim(sanitised)) else Rejected(Trim(sanitised))
  {
    var line, bare := Line(ok, sanitised), if ok then "OK" else "ERR";
    assert TrimStart(line) == line;
    TrimEndConcat(Prefix(ok), sanitised);
    TrimAfterTrimEnd(sanitised);
    if TrimEnd(sanitised) == "" {
      AllSpace(sanitised);
      assert Prefix(ok) == bare + " ";
      TrimEndConcat(bare, " ");
      assert " "[..0] == "";
      assert Trim(line) == bare;
    } else {
      var n := |Prefix(ok)|;
      assert Trim(line)[..n] == Prefix(ok) && Trim(line)[n..] == TrimEnd(sanitised);
    }
  }

  datatype Received =
    | Text(line: string)
    | NotUtf8
    | Oversized
    | Closed              // before the first byte
    | ClosedEarly
    | Timeout
    | ReadFailed

  /** What the stream holds for one read. */
  function LineOf(stream: seq<u8>): Received {
    var end := LineEnd(stream);
    if end > MAX_LINE_BYTES then Oversized
    else if end < |stream| then TextOf(stream[..end])
    else if stream == [] then Closed
    else ClosedEarly
  }

  function AfterLine(stream: seq<u8>): seq<u8> {
    var end := LineEnd(stream);
    if end < |stream| then stream[end + 1..] else []
  }

  /** The part of a line that was read so far. */
  ghost predicate Taken(stream: seq<u8>, head: seq<u8>, incoming: seq<u8>, response: seq<u8>, oversized: bool) {
    && stream == head + incoming && NEWLINE !in head
    && (if oversized then |head| > MAX_LINE_BYTES && response == [] else response == head && |head| <= MAX_LINE_BYTES)
  }

  /** The text that a complete line within the limit gives. */
  function TextOf(line: seq<u8>): Received {
    var text := Utf8.Decode(line);
    if text.Some? then Text(text.value) else NotUtf8
  }

  /** Whatever the chunks, one read takes exactly one line, an over-long one
      included, or it reports the time-out or the failure that really was. */
  method ReadResponseLine(reader: SocketReader) returns (r: Received)
    modifies reader
    ensures !r.Timeout? && !r.ReadFailed? ==> r == LineOf(old(reader.incoming)) && reader.incoming == AfterLine(old(reader.incoming))
    ensures r.Timeout? ==> reader.patience < old(reader.patience)
    ensures r.ReadFailed? ==> reader.mayBreak
  {
    ghost var stream, head := reader.incoming, [];
    var response: seq<u8> := [];
    var oversized := false;
    assert [] + reader.incoming == stream;
    while true
      invariant Taken(stream, head, reader.incoming, response, oversized) && reader.patience <= old(reader.patience)
      decreases |reader.incoming|, reader.patience
    {
      var available := reader.FillBuf();
      if available.Failure? {
        var beforeDeadline: bool := *;
        match available.error
        case Interrupted => continue;
        case TimedOut =>
          if beforeDeadline {
            continue;
          }
          return Timeout;
        case Broken => return ReadFailed;
      }
      var chunk := available.value;
      if chunk == [] {
        StreamEnds(stream, head, response, oversized);
        return if oversized then Oversized else if response == [] then Closed else ClosedEarly;
      }
      var end := LineEnd(chunk);
      ChunkTaken(stream, head, reader.incoming, response, oversized, chunk);
      head := head + chunk[..end];
      response, oversized := Append(response, oversized, chunk[..end]);
      reader.Consume(if end < |chunk| then end + 1 else end);
      if end < |chunk| {
        return if oversized then Oversized else TextOf(response);
      }
    }
  }

  /** Keeps a line while it is within the limit and forgets it beyond. */
  method Append(response: seq<u8>, oversized: bool, part: seq<u8>) returns (response': seq<u8>, oversized': bool)
    requires |response| <= MAX_LINE_BYTES
    ensures oversized' == (oversized || |response| + |part| > MAX_LINE_BYTES)
    ensures response' == if oversized then response else if oversized' then [] else response + part
  {
    response', oversized' := response, oversized;
    if !oversized {
      if |part| > MAX_LINE_BYTES - |response| {
        response', oversized' := [], true;
      } else {
        response' := response + part;
      }
    }
  }

  lemma StreamEnds(stream: seq<u8>, head: seq<u8>, response: seq<u8>, oversized: bool)
    requires Taken(stream, head, [], response, oversized)
    ensures LineOf(stream) == if oversized then Oversized else if response == [] then Closed else ClosedEarly
    ensures AfterLine(stream) == []
  {
    assert stream == head && stream[..|stream|] == stream;
    LineEndIs(stream, |stream|);
  }

  lemma ChunkTaken(stream: seq<u8>, head: seq<u8>, incoming: seq<u8>, response: seq<u8>, oversized: bool, chunk: seq<u8>)
    requires Taken(stream, head, incoming, response, oversized) && chunk <= incoming
    ensures var end := LineEnd(chunk);
            var head', over := head + chunk[..end], |head| + end > MAX_LINE_BYTES;
            if end == |chunk| then Taken(stream, head', incoming[end..], if over then [] else head', over)
            else LineOf(stream) == (if over then Oversized else TextOf(head')) && AfterLine(stream) == incoming[end + 1..]
  {
    var end := LineEnd(chunk);
    LineEndArrives(head, incoming, chunk);
    ChunkAppended(head, incoming, chunk, end);
    if end < |chunk| {
      LineIsTaken(stream, head, incoming, end);
    }
  }

  /** The line ends in what comes in. */
  lemma LineIsTaken(stream: seq<u8>, head: seq<u8>, incoming: seq<u8>, end: nat)
    requires stream == head + incoming && LineEnd(stream) == |head| + end && end < |incoming|
    ensures AfterLine(stream) == incoming[end + 1..]
    ensures LineOf(stream) == if |head| + end > MAX_LINE_BYTES then Oversized else TextOf(head + incoming[..end])
  {
    assert stream[..|head| + end] == head + incoming[..end];
    assert stream[|head| + end + 1..] == incoming[end + 1..];
  }

  // ------------------------------------------------------------ both ends

  lemma LineArrives(ok: bool, payload: string, sanitised: string, later: seq<u8>)
    requires Sanitised(payload, sanitised)
    ensures var stream := LineBytes(ok, sanitised) + later;
            LineOf(stream) == Text(Line(ok, sanitised)) && AfterLine(stream) == later
  {
    var bytes, stream := Utf8.Encode(Line(ok, sanitised)), LineBytes(ok, sanitised) + later;
    LineIsOneLine(ok, payload, sanitised);
    assert stream[..|bytes|] == bytes && stream[|bytes| + 1..] == later;
    LineEndIs(stream, |bytes|);
    Utf8.DecodeEncode(Line(ok, sanitised));
  }

  /** A response over the wire: the client recovers the trimmed sanitised
      payload and is left at the start of whatever the daemon sends later. */
  method Exchange(ok: bool, payload: string, later: seq<u8>, patience: nat, mayBreak: bool) returns (reply: Option<Reply>)
    ensures patience == 0 && !mayBreak ==> reply.Some?
    ensures exists sanitised :: Sanitised(payload, sanitised)
              && (reply.Some? ==> reply.value == if ok then Accepted(Trim(sanitised)) else Rejected(Trim(sanitised)))
  {
    var sanitised := SanitizeResponsePayload(payload);
    var reader := new SocketReader(LineBytes(ok, sanitised) + later, patience, mayBreak);
    LineArrives(ok, payload, sanitised, later);
    var r := ReadResponseLine(reader);
    if r.Timeout? || r.ReadFailed? {
      return None;
    }
    assert reader.incoming == later;
    ParseLine(ok, sanitised);
    reply := Some(ParseResponse(r.line));
  }
}
