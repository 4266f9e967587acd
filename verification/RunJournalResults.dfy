/** The fast reads of a journal agree with the slow one, and stay right while it grows. */
module RunJournalResults {
  import opened Basics
  import opened Utf8
  import opened TranscriptIndexModel
  import opened RunJournal

  // ---------------------------------------------------------------- lines

  /** There is one first newline. */
  lemma LineEndFound(a: seq<int>, rest: seq<int>)
    requires IsLine(a) && (rest == [] || rest[0] == NEWLINE)
    ensures LineEnd(a + rest) == |a|
  {
    var n := LineEnd(a + rest);
    assert forall k | 0 <= k < |a| :: (a + rest)[k] == a[k];
    assert |a| <= n;
    assert rest != [] ==> (a + rest)[|a|] == NEWLINE;
  }

  lemma SplitAt(s: seq<Byte>, n: nat)
    requires n < |s| && s[n] == NEWLINE
    ensures s == s[..n] + [NEWLINE] + s[n + 1..]
  {
  }

  /** The first line, its newline, and the lines after it. */
  lemma LineSplits(s: seq<Byte>)
    ensures IsLine(FirstLine(s))
    ensures LineEnd(s) < |s| ==> s == FirstLine(s) + [NEWLINE] + AfterLine(s)
    ensures LineEnd(s) == |s| ==> s == FirstLine(s) && AfterLine(s) == []
  {
    if LineEnd(s) < |s| { SplitAt(s, LineEnd(s)); }
  }

  lemma SplitFirst(line: Text, rest: Text)
    requires IsLine(line)
    ensures Split(line + [NEWLINE as int] + rest) == [line] + Split(rest)
    ensures Split(line) == [line]
  {
    var all := line + [NEWLINE as int] + rest;
    assert all == line + ([NEWLINE as int] + rest);
    LineEndFound(line, [NEWLINE as int] + rest);
    assert all[..|line|] == line && all[|line| + 1..] == rest;
    LineEndFound(line, []);
    assert line + [] == line;
  }

  lemma ParseFirst(j: Json, line: Text, lines: seq<Text>)
    ensures ParseLines(j, [line] + lines) == ParseLine(j, line) + ParseLines(j, lines)
    ensures ParseLines(j, [line]) == ParseLine(j, line)
  {
    assert ([line] + lines)[1..] == lines && [line][1..] == [];
  }

  /** A file is read line by line. */
  lemma FirstLineReads(j: Json, line: seq<Byte>, rest: seq<Byte>)
    requires IsLine(line)
    ensures Read(j, line + [NEWLINE] + rest) == LineReader(j)(line) + Read(j, rest)
    ensures Read(j, line) == LineReader(j)(line)
  {
    DecodedLine(READY, line);
    DecodeSplits(READY, line, rest);
    SplitFirst(Decode(line), Decode(rest));
    ParseFirst(j, Decode(line), Split(Decode(rest)));
  }

  lemma NothingReads(j: Json)
    ensures Read(j, []) == []
  {
    FirstLineReads(j, [], []);
  }

  lemma ReadsFirst(j: Json, content: seq<Byte>)
    ensures Read(j, content) == LineReader(j)(FirstLine(content)) + Read(j, AfterLine(content))
  {
    LineSplits(content);
    FirstLineReads(j, FirstLine(content), AfterLine(content));
    NothingReads(j);
  }

  lemma {:induction false} EventsFirst(read: Reader, line: seq<Byte>, lines: seq<seq<Byte>>)
    ensures Events(read, [line] + lines) == read(line) + Events(read, lines)
  {
    var all, n := [line] + lines, |lines|;
    assert all[|all| - 1] == if n == 0 then line else lines[n - 1];
    if n == 0 {
      assert all[..|all| - 1] == [];
    } else {
      assert all[..|all| - 1] == [line] + lines[..n - 1];
      EventsFirst(read, line, lines[..n - 1]);
    }
  }

  lemma {:induction false} LoopReads(j: Json, content: seq<Byte>)
    ensures Events(LineReader(j), ByteLines(content)) == Read(j, content)
    decreases |content|
  {
    if content == [] {
      NothingReads(j);
    } else {
      LoopReads(j, AfterLine(content));
      EventsFirst(LineReader(j), FirstLine(content), ByteLines(AfterLine(content)));
      ReadsFirst(j, content);
    }
  }

  /** The two full reads agree on every byte file: splitting the decoded text, and decoding the
      split bytes, give the same events. */
  lemma FullReadsAgree(j: Json, content: seq<Byte>)
    ensures ReadWithSpans(j, content).events == Read(j, content)
  {
    LoopReads(j, content);
  }

  // ---------------------------------------------------------------- where lines are

  lemma {:induction false} WidthFirst(line: seq<Byte>, lines: seq<seq<Byte>>)
    ensures Width([line] + lines) == |line| + 1 + Width(lines)
  {
    var all, n := [line] + lines, |lines|;
    if n == 0 {
      assert all[..|all| - 1] == [];
    } else {
      assert all[..|all| - 1] == [line] + lines[..n - 1];
      WidthFirst(line, lines[..n - 1]);
    }
  }

  predicate IsLineAt(content: seq<Byte>, line: seq<Byte>, offset: nat) {
    offset + |line| <= |content| && content[offset..offset + |line|] == line
  }

  lemma LinesUnfold(content: seq<Byte>, line: seq<Byte>, rest: seq<Byte>)
    requires content != [] && FirstLine(content) == line && AfterLine(content) == rest
    ensures ByteLines(content) == [line] + ByteLines(rest)
  {
  }

  lemma LineLater(content: seq<Byte>, first: seq<Byte>, rest: seq<Byte>, line: seq<Byte>, offset: nat)
    requires content == first + [NEWLINE] + rest && IsLineAt(rest, line, offset)
    ensures IsLineAt(content, line, |first| + 1 + offset)
  {
    assert content[|first| + 1..] == rest;
    assert content[|first| + 1..][offset..offset + |line|] == content[|first| + 1 + offset..|first| + 1 + offset + |line|];
  }

  /** The i-th of some lines, behind a first one. */
  lemma NextLineIsThere(content: seq<Byte>, line: seq<Byte>, rest: seq<Byte>, lines: seq<seq<Byte>>, i: nat)
    requires content == line + [NEWLINE] + rest && i < |lines| && IsLineAt(rest, lines[i], Width(lines[..i]))
    ensures IsLineAt(content, ([line] + lines)[i + 1], Width(([line] + lines)[..i + 1]))
  {
    assert ([line] + lines)[..i + 1] == [line] + lines[..i];
    WidthFirst(line, lines[..i]);
    LineLater(content, line, rest, lines[i], Width(lines[..i]));
  }

  /** Every line lies where the widths of the lines before it say. */
  lemma {:induction false} LineIsThere(content: seq<Byte>, i: nat)
    requires i < |ByteLines(content)|
    ensures IsLineAt(content, ByteLines(content)[i], Width(ByteLines(content)[..i]))
    decreases i
  {
    var line, rest := FirstLine(content), AfterLine(content);
    LinesUnfold(content, line, rest);
    if i == 0 {
      assert ByteLines(content)[..0] == [];
    } else {
      LineSplits(content);
      LineIsThere(rest, i - 1);
      NextLineIsThere(content, line, rest, ByteLines(rest), i - 1);
    }
  }

  // ---------------------------------------------------------------- spans

  /** The span holds the line of the event. */
  predicate SpanHolds(read: Reader, content: seq<Byte>, span: Span, event: WireEvent) {
    && span.offset + span.length <= |content|
    && read(content[span.offset..span.offset + span.length]) == [event]
  }

  /** Spans are numbered from zero, hold their events, leave a gap for the newline and end
      before `end`. */
  predicate AreSpansOf(read: Reader, content: seq<Byte>, spans: seq<Span>, events: seq<WireEvent>, end: nat) {
    && |spans| == |events|
    && (forall k | 0 <= k < |spans| :: spans[k].index == k && spans[k].offset + spans[k].length < end)
    && (forall k | 0 <= k < |spans| :: SpanHolds(read, content, spans[k], events[k]))
    && (forall i, k | 0 <= i < k < |spans| :: spans[i].offset + spans[i].length < spans[k].offset)
  }

  lemma OneMoreSpan(read: Reader, content: seq<Byte>, spans: seq<Span>, events: seq<WireEvent>, end: nat, line: seq<Byte>)
    requires AreSpansOf(read, content, spans, events, end) && IsLineAt(content, line, end) && |read(line)| <= 1
    ensures AreSpansOf(
              read, content, spans + (if read(line) == [] then [] else [Span(|events|, end, |line|)]),
              events + read(line), end + |line| + 1)
  {
    if read(line) != [] {
      assert read(line) == [read(line)[0]];
      assert SpanHolds(read, content, Span(|events|, end, |line|), read(line)[0]);
    }
  }

  lemma OneMoreOf(read: Reader, lines: seq<seq<Byte>>, line: seq<Byte>)
    ensures Events(read, lines + [line]) == Events(read, lines) + read(line)
    ensures Spans(read, lines + [line]) ==
              Spans(read, lines) + if read(line) == [] then [] else [Span(|Events(read, lines)|, Width(lines), |line|)]
    ensures Width(lines + [line]) == Width(lines) + |line| + 1
  {
    assert (lines + [line])[..|lines|] == lines;
  }

  lemma SpansOfOneMore(read: Reader, content: seq<Byte>, before: seq<seq<Byte>>, line: seq<Byte>, lines: seq<seq<Byte>>)
    requires lines == before + [line] && |read(line)| <= 1 && IsLineAt(content, line, Width(before))
    requires AreSpansOf(read, content, Spans(read, before), Events(read, before), Width(before))
    ensures AreSpansOf(read, content, Spans(read, lines), Events(read, lines), Width(lines))
  {
    OneMoreSpan(read, content, Spans(read, before), Events(read, before), Width(before), line);
    OneMoreOf(read, before, line);
  }

  lemma {:induction false} SpansOfLines(j: Json, content: seq<Byte>, i: nat)
    requires i <= |ByteLines(content)|
    ensures
      var lines := ByteLines(content)[..i];
      AreSpansOf(LineReader(j), content, Spans(LineReader(j), lines), Events(LineReader(j), lines), Width(lines))
  {
    if i > 0 {
      var before, line := ByteLines(content)[..i - 1], ByteLines(content)[i - 1];
      assert ByteLines(content)[..i] == before + [line];
      SpansOfLines(j, content, i - 1);
      LineIsThere(content, i - 1);
      SpansOfOneMore(LineReader(j), content, before, line, ByteLines(content)[..i]);
    }
  }

  lemma SpansAreSound(j: Json, content: seq<Byte>)
    ensures AreSpansOf(
              LineReader(j), content, ReadWithSpans(j, content).spans, Read(j, content), Width(ByteLines(content)))
  {
    var lines := ByteLines(content);
    SpansOfLines(j, content, |lines|);
    assert lines[..|lines|] == lines;
    FullReadsAgree(j, content);
  }

  lemma {:induction false} HeldSpansRead(j: Json, content: seq<Byte>, spans: seq<Span>, events: seq<WireEvent>)
    requires |spans| == |events| && forall k | 0 <= k < |spans| :: SpanHolds(LineReader(j), content, spans[k], events[k])
    ensures ReadSpans(j, content, spans) == Some(events)
  {
    if spans != [] {
      assert forall k | 0 <= k < |spans[1..]| :: spans[1..][k] == spans[k + 1] && events[1..][k] == events[k + 1];
      HeldSpansRead(j, content, spans[1..], events[1..]);
      assert SpanHolds(LineReader(j), content, spans[0], events[0]);
      assert events == [events[0]] + events[1..];
    }
  }

  lemma HoldsInGrowth(read: Reader, content: seq<Byte>, more: seq<Byte>, span: Span, event: WireEvent)
    requires SpanHolds(read, content, span, event)
    ensures SpanHolds(read, content + more, span, event)
  {
    var from, to := span.offset, span.offset + span.length;
    assert (content + more)[from..to] == content[from..to];
  }

  lemma AllHoldInGrowth(read: Reader, content: seq<Byte>, more: seq<Byte>, spans: seq<Span>, events: seq<WireEvent>, end: nat)
    requires AreSpansOf(read, content, spans, events, end)
    ensures forall k | 0 <= k < |spans| :: SpanHolds(read, content + more, spans[k], events[k])
  {
    forall k | 0 <= k < |spans| ensures SpanHolds(read, content + more, spans[k], events[k]) {
      HoldsInGrowth(read, content, more, spans[k], events[k]);
    }
  }

  /** The spans of a file read back its events, from that file and from whatever it grows into. */
  lemma SpansReadBack(j: Json, content: seq<Byte>, more: seq<Byte>)
    ensures ReadSpans(j, content + more, ReadWithSpans(j, content).spans) == Some(Read(j, content))
  {
    var spans, events := ReadWithSpans(j, content).spans, Read(j, content);
    SpansAreSound(j, content);
    AllHoldInGrowth(LineReader(j), content, more, spans, events, Width(ByteLines(content)));
    HeldSpansRead(j, content + more, spans, events);
  }

  /** Spans are the positions of the events: dense from zero, increasing, apart, and inside. */
  lemma SpansAreDisjoint(j: Json, content: seq<Byte>, i: nat, k: nat)
    requires i < k < |ReadWithSpans(j, content).spans|
    ensures
      var spans := ReadWithSpans(j, content).spans;
      && |spans| == |Read(j, content)|
      && spans[i].index == i && spans[k].index == k
      && spans[i].offset + spans[i].length < spans[k].offset
      && spans[k].offset + spans[k].length <= |content|
  {
    SpansAreSound(j, content);
    assert SpanHolds(LineReader(j), content, ReadWithSpans(j, content).spans[k], Read(j, content)[k]);
  }

  // ---------------------------------------------------------------- appending

  lemma Regroup(head: seq<Byte>, line: seq<Byte>, rest: seq<Byte>, more: seq<Byte>)
    requires head == line + [NEWLINE] + rest
    ensures head + more == line + ([NEWLINE] + rest + more)
  {
  }

  /** A line of a clean part ends inside it, and is the same line when more follows. */
  lemma LineOfCleanPart(head: seq<Byte>, more: seq<Byte>)
    requires IsClean(head) && head != []
    ensures LineEnd(head) < |head|
    ensures FirstLine(head + more) == FirstLine(head) && AfterLine(head + more) == AfterLine(head) + more
    ensures IsClean(AfterLine(head))
  {
    assert head[|head| - 1] == NEWLINE;
    LineSplits(head);
    var line, rest := FirstLine(head), AfterLine(head);
    Regroup(head, line, rest, more);
    LineEndFound(line, [NEWLINE] + rest + more);
  }

  lemma Associates<T>(a: seq<T>, b: seq<T>, c: seq<T>)
    ensures a + (b + c) == (a + b) + c
  {
  }

  lemma LinesJoin(head: seq<Byte>, more: seq<Byte>, line: seq<Byte>, rest: seq<Byte>)
    requires head != [] && FirstLine(head) == line && AfterLine(head) == rest
    requires FirstLine(head + more) == line && AfterLine(head + more) == rest + more
    requires ByteLines(rest + more) == ByteLines(rest) + ByteLines(more)
    ensures ByteLines(head + more) == ByteLines(head) + ByteLines(more)
  {
    LinesUnfold(head, line, rest);
    LinesUnfold(head + more, line, rest + more);
    Associates([line], ByteLines(rest), ByteLines(more));
  }

  /** Behind a clean part, the lines of what follows are lines of their own. */
  lemma {:induction false} LinesGoOn(head: seq<Byte>, more: seq<Byte>)
    requires IsClean(head)
    ensures ByteLines(head + more) == ByteLines(head) + ByteLines(more)
    decreases |head|
  {
    if head == [] {
      assert head + more == more;
    } else {
      LineOfCleanPart(head, more);
      LinesGoOn(AfterLine(head), more);
      LinesJoin(head, more, FirstLine(head), AfterLine(head));
    }
  }

  lemma {:induction false} CleanWidth(head: seq<Byte>)
    requires IsClean(head)
    ensures Width(ByteLines(head)) == |head|
    decreases |head|
  {
    if head != [] {
      var line, rest := FirstLine(head), AfterLine(head);
      LineOfCleanPart(head, []);
      LineSplits(head);
      CleanWidth(rest);
      LinesUnfold(head, line, rest);
      WidthFirst(line, ByteLines(rest));
    }
  }

  /** A single line, ended or not. */
  lemma OneLine(line: seq<Byte>, end: seq<Byte>)
    requires IsLine(line) && line != [] && (end == [] || end == [NEWLINE])
    ensures ByteLines(line + end) == [line]
  {
    LineEndFound(line, end);
    assert FirstLine(line + end) == line && AfterLine(line + end) == [];
  }

  /** One more line behind a clean part, ended or not. */
  lemma OneMoreLine(j: Json, head: seq<Byte>, line: seq<Byte>, end: seq<Byte>)
    requires IsClean(head) && IsLine(line) && line != [] && (end == [] || end == [NEWLINE])
    ensures Read(j, head + (line + end)) == Read(j, head) + LineReader(j)(line)
    ensures ReadWithSpans(j, head + (line + end)).spans == ReadWithSpans(j, head).spans +
              if LineReader(j)(line) == [] then [] else [Span(|Read(j, head)|, |head|, |line|)]
  {
    var lines := ByteLines(head);
    LinesGoOn(head, line + end);
    OneLine(line, end);
    FullReadsAgree(j, head);
    FullReadsAgree(j, head + (line + end));
    CleanWidth(head);
    OneMoreOf(LineReader(j), lines, line);
  }

  lemma RecordReads(j: Json, e: WireEvent)
    requires PrintsWell(j, e)
    ensures IsLine(Encode(j.stringify(e))) && Encode(j.stringify(e)) != []
    ensures LineReader(j)(Encode(j.stringify(e))) == [e]
  {
    var text := j.stringify(e);
    EncodedLine(text);
    EncodeRoundTrips(text, []);
    assert Encode(text) + [] == Encode(text) && text + [] == text;
    assert Decode([]) == [] && !IsBlank(text);
  }

  /** Appending to a clean file adds one event behind the others and leaves every span in place. */
  lemma AppendAddsOneEvent(j: Json, content: seq<Byte>, e: WireEvent)
    requires PrintsWell(j, e) && IsClean(content)
    ensures IsClean(content + Record(j, e))
    ensures Read(j, content + Record(j, e)) == Read(j, content) + [e]
    ensures ReadWithSpans(j, content + Record(j, e)).spans ==
              ReadWithSpans(j, content).spans + [Span(|Read(j, content)|, |content|, |Record(j, e)| - 1)]
  {
    RecordReads(j, e);
    OneMoreLine(j, content, Encode(j.stringify(e)), [NEWLINE]);
  }

  /** The bytes of a span, if the file holds them all. */
  function WholeSpan(content: seq<Byte>, span: Span): Option<seq<Byte>> {
    if span.length == 0 then Some([])
    else if span.offset + span.length <= |content| then Some(content[span.offset..][..span.length])
    else None
  }

  /** The span is whole and its line parses to this event. */
  predicate SpanIs(j: Json, content: seq<Byte>, span: Span, e: WireEvent) {
    WholeSpan(content, span).Some? && j.parse(Decode(WholeSpan(content, span).value)) == Some(e)
  }

  predicate AreSelected(j: Json, content: seq<Byte>, spans: seq<Span>, events: seq<WireEvent>) {
    |events| == |spans| && forall k | 0 <= k < |spans| :: SpanIs(j, content, spans[k], events[k])
  }

  lemma HoldsBehind(j: Json, content: seq<Byte>, spans: seq<Span>, events: seq<WireEvent>)
    requires spans != [] && events != []
    ensures AreSelected(j, content, spans, events) <==>
              SpanIs(j, content, spans[0], events[0]) && AreSelected(j, content, spans[1..], events[1..])
  {
    if SpanIs(j, content, spans[0], events[0]) && AreSelected(j, content, spans[1..], events[1..]) {
      forall k | 0 <= k < |spans| ensures SpanIs(j, content, spans[k], events[k]) {
        if k > 0 { assert SpanIs(j, content, spans[1..][k - 1], events[1..][k - 1]); }
      }
    }
  }

  /** Reading spans gives these events exactly when every span lies whole in the file and its line
      parses to the event; anything else is an error, not a shorter list. */
  lemma {:induction false} SelectedExactly(j: Json, content: seq<Byte>, spans: seq<Span>, events: seq<WireEvent>)
    ensures ReadSpans(j, content, spans) == Some(events) <==> AreSelected(j, content, spans, events)
    decreases |spans|
  {
    if spans != [] {
      var span := spans[0];
      assert WholeSpan(content, span).Some? <==> |SpanBytes(content, span)| == span.length;
      assert WholeSpan(content, span).Some? ==> WholeSpan(content, span).value == SpanBytes(content, span);
      if events != [] {
        SelectedExactly(j, content, spans[1..], events[1..]);
        assert events == [events[0]] + events[1..];
        HoldsBehind(j, content, spans, events);
      }
    }
  }
}
