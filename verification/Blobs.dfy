/** `BlobStore`: the run journals on disk, one file a run.  A path is named by its room and
    reference; the files are the bytes they hold. */
module Blobs {
  import opened Basics
  import opened Utf8
  import opened TranscriptIndexModel
  import opened RunJournal
  import opened RunJournalResults

  datatype Path = Path(room: string, ref: string)

  class BlobStore {
    const json: Json
    var files: map<Path, seq<Byte>>

    constructor (json: Json)
      ensures this.json == json && files == map[]
    {
      this.json := json;
      files := map[];
    }

    /** A file that is not there reads as an empty one. */
    function Content(path: Path): seq<Byte>
      reads this`files
    {
      if path in files then files[path] else []
    }

    method Append(path: Path, event: WireEvent)
      requires PrintsWell(json, event)
      modifies this`files
      ensures files == old(files)[path := old(Content(path)) + Record(json, event)]
      ensures IsClean(old(Content(path))) ==>
                Read(json, Content(path)) == Read(json, old(Content(path))) + [event]
    {
      ghost var was := Content(path);
      var content := if path in files then files[path] else [];
      files := files[path := content + (Encode(json.stringify(event)) + [NEWLINE])];
      if IsClean(was) { AppendAddsOneEvent(json, was, event); }
    }

    method ReadAll(path: Path) returns (events: seq<WireEvent>)
      ensures events == Read(json, Content(path))
    {
      if path !in files {
        NothingReads(json);
        return [];
      }
      events := ParseLines(json, Split(Decode(files[path])));
    }

    method ReadOne(line: seq<Byte>) returns (event: Option<WireEvent>)
      ensures LineReader(json)(line) == if event.Some? then [event.value] else []
    {
      event := None;
      if !IsBlank(Decode(line)) {
        event := json.parse(Decode(line));
      }
    }

    /** Both full reads return the same events. */
    method ReadAllWithSpans(path: Path) returns (events: seq<WireEvent>, spans: seq<Span>)
      ensures events == Read(json, Content(path))
      ensures spans == ReadWithSpans(json, Content(path)).spans
    {
      if path !in files {
        NothingReads(json);
        return [], [];
      }
      var content := files[path];
      events, spans := [], [];
      var offset := 0;
      ghost var read: seq<seq<Byte>> := [];
      assert content[0..] == content && [] + ByteLines(content) == ByteLines(content);
      while offset < |content|
        invariant IsAtLine(content, offset, read)
        invariant events == Events(LineReader(json), read)
        invariant spans == Spans(LineReader(json), read)
        decreases |content| - offset
      {
        var end := NextNewline(content, offset);
        var line := content[offset..end];
        NextLine(content, offset, end, read);
        var event := ReadOne(line);
        ghost var span := Span(|events|, offset, |line|);
        OneMoreRead(LineReader(json), read, line, event, span);
        if event.Some? {
          events := events + [event.value];
          assert Span(|events| - 1, offset, end - offset) == span;
          spans := spans + [Span(|events| - 1, offset, end - offset)];
        }
        offset := end + 1;
        read := read + [line];
      }
      AllRead(json, content, offset, read);
    }

    /** Nothing stands for the error on a span the file does not hold. */
    method ReadSelected(path: Path, spans: seq<Span>) returns (events: Option<seq<WireEvent>>)
      ensures spans == [] ==> events == Some([])
      ensures spans != [] && path !in files ==> events == None
      ensures path in files ==> events == ReadSpans(json, files[path], spans)
    {
      if |spans| == 0 {
        return Some([]);
      }
      if path !in files {
        return None;
      }
      var content := files[path];
      var read: seq<WireEvent> := [];
      BehindNothing(ReadSpans(json, content, spans));
      assert spans[0..] == spans;
      for k := 0 to |spans|
        invariant ReadSpans(json, content, spans) == Behind(read, ReadSpans(json, content, spans[k..]))
      {
        ReadsOneSpan(json, content, spans, k, read);
        var bytes := SpanBytes(content, spans[k]);
        if |bytes| != spans[k].length {
          return None;
        }
        var event := json.parse(Decode(bytes));
        if event.None? {
          return None;
        }
        read := read + [event.value];
      }
      assert spans[|spans|..] == [] && read + [] == read;
      events := Some(read);
    }

    /** Spans taken from a file read back its events after any number of further appends. */
    lemma SelectedAfterGrowth(path: Path, was: seq<Byte>)
      requires path in files && was <= files[path]
      ensures ReadSpans(json, files[path], ReadWithSpans(json, was).spans) == Some(Read(json, was))
    {
      SpansReadBack(json, was, files[path][|was|..]);
      assert was + files[path][|was|..] == files[path];
    }
  }

  // ---------------------------------------------------------------- the loops

  function Left(content: seq<Byte>, offset: nat): seq<Byte> {
    if offset <= |content| then content[offset..] else []
  }

  /** The loop has read some lines and stands behind them. */
  predicate IsAtLine(content: seq<Byte>, offset: nat, read: seq<seq<Byte>>) {
    offset == Width(read) && ByteLines(content) == read + ByteLines(Left(content, offset))
  }

  /** The first newline at or after `offset` ends the line there. */
  lemma LineIsCut(content: seq<Byte>, offset: nat, end: nat)
    requires offset <= end <= |content| && offset < |content| && IsLine(content[offset..end])
    requires end < |content| ==> content[end] == NEWLINE
    ensures FirstLine(content[offset..]) == content[offset..end]
    ensures AfterLine(content[offset..]) == Left(content, end + 1)
  {
    var left, line, rest := content[offset..], content[offset..end], content[end..];
    assert left == line + rest;
    LineEndFound(line, rest);
    if end < |content| {
      assert left[|line| + 1..] == content[end + 1..];
    }
  }

  lemma NextLine(content: seq<Byte>, offset: nat, end: nat, read: seq<seq<Byte>>)
    requires IsAtLine(content, offset, read) && offset < |content| && end == NextNewline(content, offset)
    ensures IsAtLine(content, end + 1, read + [content[offset..end]])
  {
    var line := content[offset..end];
    LineIsCut(content, offset, end);
    LinesUnfold(content[offset..], line, Left(content, end + 1));
    Associates(read, [line], ByteLines(Left(content, end + 1)));
    assert (read + [line])[..|read|] == read;
  }

  lemma OneMoreRead(reader: Reader, read: seq<seq<Byte>>, line: seq<Byte>, event: Option<WireEvent>, span: Span)
    requires reader(line) == if event.Some? then [event.value] else []
    requires span == Span(|Events(reader, read)|, Width(read), |line|)
    ensures Events(reader, read + [line]) ==
              if event.Some? then Events(reader, read) + [event.value] else Events(reader, read)
    ensures Spans(reader, read + [line]) ==
              if event.Some? then Spans(reader, read) + [span] else Spans(reader, read)
  {
    OneMoreOf(reader, read, line);
    assert Events(reader, read) + [] == Events(reader, read) && Spans(reader, read) + [] == Spans(reader, read);
  }

  lemma AllRead(j: Json, content: seq<Byte>, offset: nat, read: seq<seq<Byte>>)
    requires IsAtLine(content, offset, read) && |content| <= offset
    ensures Events(LineReader(j), read) == Read(j, content)
    ensures Spans(LineReader(j), read) == ReadWithSpans(j, content).spans
  {
    assert Left(content, offset) == [] && read + [] == read;
    FullReadsAgree(j, content);
  }

  /** Events read before the rest. */
  function Behind(read: seq<WireEvent>, rest: Option<seq<WireEvent>>): Option<seq<WireEvent>> {
    if rest.Some? then Some(read + rest.value) else None
  }

  lemma BehindNothing(rest: Option<seq<WireEvent>>)
    ensures Behind([], rest) == rest
  {
    if rest.Some? { assert [] + rest.value == rest.value; }
  }

  lemma ReadsOneSpan(j: Json, content: seq<Byte>, spans: seq<Span>, k: nat, read: seq<WireEvent>)
    requires k < |spans|
    ensures
      var bytes := SpanBytes(content, spans[k]);
      Behind(read, ReadSpans(j, content, spans[k..])) ==
        if |bytes| != spans[k].length || j.parse(Decode(bytes)).None? then None
        else Behind(read + [j.parse(Decode(bytes)).value], ReadSpans(j, content, spans[k + 1..]))
  {
    assert spans[k..][0] == spans[k] && spans[k..][1..] == spans[k + 1..];
    var event, rest := j.parse(Decode(SpanBytes(content, spans[k]))), ReadSpans(j, content, spans[k + 1..]);
    if event.Some? && rest.Some? { Associates(read, [event.value], rest.value); }
  }
}
