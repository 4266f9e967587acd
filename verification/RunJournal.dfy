/** The bytes of a run's event journal (`packages/switchboard/src/blobs.ts`): JSON lines, read in
    full, read with the byte span of every event, or read span by span.

    JSON itself is a printer and a parser that agree; a line is read only if it parses. */
module RunJournal {
  import opened Basics
  import opened Utf8
  import opened TranscriptIndexModel
  import Residency = ResidencyProtocol

  type WireEvent = Residency.WireEvent

  datatype Json = Json(stringify: WireEvent -> Text, parse: Text -> Option<WireEvent>)

  predicate IsBlank(line: Text) {
    forall i | 0 <= i < |line| :: IsSpace(line[i])
  }

  /** What is used of JSON: an event prints as one line that parses back. */
  predicate PrintsWell(j: Json, e: WireEvent) {
    var text := j.stringify(e);
    IsWellFormed(text) && IsLine(text) && !IsBlank(text) && j.parse(text) == Some(e)
  }

  // ---------------------------------------------------------------- reading

  /** Blank lines and lines that do not parse are skipped. */
  function ParseLine(j: Json, line: Text): (r: seq<WireEvent>)
    ensures |r| <= 1
  {
    if IsBlank(line) then []
    else if j.parse(line).None? then []
    else [j.parse(line).value]
  }

  /** `indexOf` a newline from `i` on; the length when there is none. */
  function NextNewline(s: seq<int>, i: nat): (r: nat)
    requires i <= |s|
    ensures i <= r <= |s| && forall k | i <= k < r :: s[k] != NEWLINE
    ensures r < |s| ==> s[r] == NEWLINE
    decreases |s| - i
  {
    if i == |s| || s[i] == NEWLINE then i else NextNewline(s, i + 1)
  }

  function LineEnd(s: seq<int>): nat {
    NextNewline(s, 0)
  }

  /** `split('\\n')`. */
  function Split(s: seq<int>): seq<seq<int>> {
    if LineEnd(s) == |s| then [s] else [s[..LineEnd(s)]] + Split(s[LineEnd(s) + 1..])
  }

  function ParseLines(j: Json, lines: seq<Text>): seq<WireEvent> {
    if lines == [] then [] else ParseLine(j, lines[0]) + ParseLines(j, lines[1..])
  }

  /** `read`: decode the whole file, then split it. */
  function Read(j: Json, content: seq<Byte>): seq<WireEvent> {
    ParseLines(j, Split(Decode(content)))
  }

  // The loop of `readWithSpans` splits the bytes and decodes each line on its own.

  function FirstLine(s: seq<Byte>): seq<Byte> {
    s[..LineEnd(s)]
  }

  function AfterLine(s: seq<Byte>): seq<Byte> {
    if LineEnd(s) == |s| then [] else s[LineEnd(s) + 1..]
  }

  function ByteLines(content: seq<Byte>): seq<seq<Byte>>
    decreases |content|
  {
    if content == [] then [] else [FirstLine(content)] + ByteLines(AfterLine(content))
  }

  /** What one line of bytes holds: at most one event. */
  type Reader = seq<Byte> -> seq<WireEvent>

  function LineReader(j: Json): Reader {
    (line: seq<Byte>) => ParseLine(j, Decode(line))
  }

  function Events(read: Reader, lines: seq<seq<Byte>>): seq<WireEvent> {
    if lines == [] then []
    else Events(read, lines[..|lines| - 1]) + read(lines[|lines| - 1])
  }

  /** The bytes of some lines, with their newlines. */
  function Width(lines: seq<seq<Byte>>): nat {
    if lines == [] then 0 else Width(lines[..|lines| - 1]) + |lines[|lines| - 1]| + 1
  }

  /** A line that holds an event has a span, numbered by the events before it. */
  function Spans(read: Reader, lines: seq<seq<Byte>>): seq<Span> {
    if lines == [] then []
    else
      var before, last := lines[..|lines| - 1], lines[|lines| - 1];
      Spans(read, before) + if read(last) == [] then [] else [Span(|Events(read, before)|, Width(before), |last|)]
  }

  datatype Scanned = Scanned(events: seq<WireEvent>, spans: seq<Span>)

  /** `readWithSpans`. */
  function ReadWithSpans(j: Json, content: seq<Byte>): Scanned {
    Scanned(Events(LineReader(j), ByteLines(content)), Spans(LineReader(j), ByteLines(content)))
  }

  /** What `readSync` gets of a span. */
  function SpanBytes(content: seq<Byte>, span: Span): seq<Byte> {
    if span.offset + span.length <= |content| then content[span.offset..span.offset + span.length]
    else if span.offset <= |content| then content[span.offset..]
    else []
  }

  /** `readSpans`; nothing stands for the error on a short read or a line that does not parse. */
  function ReadSpans(j: Json, content: seq<Byte>, spans: seq<Span>): Option<seq<WireEvent>> {
    if spans == [] then Some([])
    else
      var bytes := SpanBytes(content, spans[0]);
      if |bytes| != spans[0].length then None
      else
        var event := j.parse(Decode(bytes));
        var rest := ReadSpans(j, content, spans[1..]);
        if event.None? || rest.None? then None else Some([event.value] + rest.value)
  }

  // ---------------------------------------------------------------- writing

  function Record(j: Json, e: WireEvent): seq<Byte>
    requires PrintsWell(j, e)
  {
    Encode(j.stringify(e)) + [NEWLINE]
  }

  /** Empty, or ended by a newline. */
  predicate IsClean(content: seq<Byte>) {
    content == [] || content[|content| - 1] == NEWLINE
  }
}
