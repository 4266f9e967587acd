/** The event log of the resident protocol is what its journal file reads as.

    A crash may cut an append anywhere.  An attempt keeps the log and how its last record ends;
    here the file is kept as bytes, and every run of whole and cut appends leaves a file that
    reads as exactly that log. */
module JournalFile {
  import opened Basics
  import opened Utf8
  import opened RunJournal
  import opened RunJournalResults
  import opened ResidencyProtocol

  // ---------------------------------------------------------------- what joins

  /** The bytes of a record without its newline. */
  function Body(j: Json, e: WireEvent): seq<Byte>
    requires PrintsWell(j, e)
  {
    Encode(j.stringify(e))
  }

  /** The first `n` bytes of a record. */
  datatype Piece = Piece(event: WireEvent, n: nat)

  predicate IsPiece(j: Json, p: Piece) {
    PrintsWell(j, p.event) && 0 < p.n <= |Body(j, p.event)|
  }

  predicate ArePieces(j: Json, pieces: seq<Piece>) {
    forall i | 0 <= i < |pieces| :: IsPiece(j, pieces[i])
  }

  function Bytes(j: Json, p: Piece): seq<Byte>
    requires IsPiece(j, p)
  {
    Body(j, p.event)[..p.n]
  }

  function Joined(j: Json, pieces: seq<Piece>): seq<Byte>
    requires ArePieces(j, pieces)
  {
    if pieces == [] then [] else Joined(j, pieces[..|pieces| - 1]) + Bytes(j, pieces[|pieces| - 1])
  }

  predicate IsOneRecord(j: Json, pieces: seq<Piece>)
    requires ArePieces(j, pieces)
  {
    |pieces| == 1 && pieces[0].n == |Body(j, pieces[0].event)|
  }

  /** What a JSON object has: its beginning never parses, neither alone nor with others behind
      it, and a record with another behind it does not parse either. */
  ghost predicate NeverJoins(j: Json) {
    forall pieces | ArePieces(j, pieces) && pieces != [] && !IsOneRecord(j, pieces) ::
      LineReader(j)(Joined(j, pieces)) == []
  }

  // ---------------------------------------------------------------- the file of an attempt

  function TailOf(j: Json, pieces: seq<Piece>): Tail
    requires ArePieces(j, pieces)
  {
    if pieces == [] then Clean else if IsOneRecord(j, pieces) then Unterminated else Partial
  }

  /** What an unfinished line adds to the log. */
  function Pending(j: Json, pieces: seq<Piece>): seq<WireEvent>
    requires ArePieces(j, pieces)
  {
    if IsOneRecord(j, pieces) then [pieces[0].event] else []
  }

  /** The file is a clean part and an unfinished line, and the attempt says so. */
  predicate FileOf(j: Json, a: Attempt, head: seq<Byte>, pieces: seq<Piece>) {
    && IsClean(head) && ArePieces(j, pieces)
    && a.tail == TailOf(j, pieces)
    && a.log == Read(j, head) + Pending(j, pieces)
  }

  lemma JoinedMore(j: Json, pieces: seq<Piece>, p: Piece)
    requires ArePieces(j, pieces) && IsPiece(j, p)
    ensures ArePieces(j, pieces + [p]) && Joined(j, pieces + [p]) == Joined(j, pieces) + Bytes(j, p)
  {
    assert (pieces + [p])[..|pieces|] == pieces;
  }

  lemma PieceIsLine(j: Json, p: Piece)
    requires IsPiece(j, p)
    ensures IsLine(Bytes(j, p)) && Bytes(j, p) != []
  {
    RecordReads(j, p.event);
  }

  lemma {:induction false} JoinedIsLine(j: Json, pieces: seq<Piece>)
    requires ArePieces(j, pieces)
    ensures IsLine(Joined(j, pieces)) && (pieces != [] ==> Joined(j, pieces) != [])
  {
    if pieces != [] {
      var n := |pieces| - 1;
      JoinedIsLine(j, pieces[..n]);
      PieceIsLine(j, pieces[n]);
    }
  }

  /** An unfinished line holds at most the one record it is. */
  lemma LineHolds(j: Json, pieces: seq<Piece>)
    requires NeverJoins(j) && ArePieces(j, pieces) && pieces != []
    ensures LineReader(j)(Joined(j, pieces)) == Pending(j, pieces)
  {
    if IsOneRecord(j, pieces) {
      assert pieces == [] + [pieces[0]];
      JoinedMore(j, [], pieces[0]);
      assert Joined(j, pieces) == Body(j, pieces[0].event);
      RecordReads(j, pieces[0].event);
    }
  }

  /** A clean part with an unfinished line behind it. */
  lemma UnfinishedReads(j: Json, head: seq<Byte>, pieces: seq<Piece>, end: seq<Byte>)
    requires NeverJoins(j) && ArePieces(j, pieces) && pieces != [] && IsClean(head)
    requires end == [] || end == [NEWLINE]
    ensures Read(j, head + (Joined(j, pieces) + end)) == Read(j, head) + Pending(j, pieces)
  {
    JoinedIsLine(j, pieces);
    LineHolds(j, pieces);
    OneMoreLine(j, head, Joined(j, pieces), end);
  }

  /** What such a file reads as. */
  lemma FileReads(j: Json, a: Attempt, head: seq<Byte>, pieces: seq<Piece>)
    requires NeverJoins(j) && FileOf(j, a, head, pieces)
    ensures Read(j, head + Joined(j, pieces)) == a.log
  {
    if pieces == [] {
      assert head + [] == head;
    } else {
      UnfinishedReads(j, head, pieces, []);
      assert Joined(j, pieces) + [] == Joined(j, pieces);
    }
  }

  // ---------------------------------------------------------------- one append

  /** An append of which `n` bytes reach the file. */
  datatype Write = Write(event: WireEvent, n: nat)

  predicate IsWrite(j: Json, w: Write) {
    PrintsWell(j, w.event) && w.n <= |Record(j, w.event)|
  }

  /** The attempt after that append: whole, or cut by a crash. */
  function After(j: Json, a: Attempt, w: Write): Attempt
    requires IsWrite(j, w)
  {
    var size := |Body(j, w.event)|;
    if w.n == size + 1 then a.Append(w.event)
    else if w.n == 0 then a.AppendCut(w.event, Clean)
    else if w.n == size then a.AppendCut(w.event, Unterminated)
    else a.AppendCut(w.event, Partial)
  }

  lemma WholeReads(j: Json, head: seq<Byte>, pieces: seq<Piece>, e: WireEvent)
    requires NeverJoins(j) && IsClean(head) && ArePieces(j, pieces) && PrintsWell(j, e) && 0 < |Body(j, e)|
    ensures ArePieces(j, pieces + [Piece(e, |Body(j, e)|)])
    ensures Read(j, head + Joined(j, pieces) + Record(j, e)) ==
              Read(j, head) + Pending(j, pieces + [Piece(e, |Body(j, e)|)])
  {
    var p := Piece(e, |Body(j, e)|);
    assert Bytes(j, p) == Body(j, e);
    JoinedMore(j, pieces, p);
    UnfinishedReads(j, head, pieces + [p], [NEWLINE]);
    LineEnds(head, Joined(j, pieces), Body(j, e));
  }

  /** The whole record joins whatever was unfinished, and ends the line. */
  lemma WholeAppend(j: Json, a: Attempt, head: seq<Byte>, pieces: seq<Piece>, e: WireEvent)
    requires NeverJoins(j) && FileOf(j, a, head, pieces) && PrintsWell(j, e)
    ensures FileOf(j, a.Append(e), head + Joined(j, pieces) + Record(j, e), [])
  {
    RecordReads(j, e);
    WholeReads(j, head, pieces, e);
    LineEnds(head, Joined(j, pieces), Body(j, e));
    PendingAfterWhole(j, a, pieces, e, Read(j, head));
    var log := Read(j, head + Joined(j, pieces) + Record(j, e));
    assert log + [] == log;
  }

  lemma LineEnds(head: seq<Byte>, line: seq<Byte>, body: seq<Byte>)
    ensures head + line + (body + [NEWLINE]) == head + ((line + body) + [NEWLINE])
    ensures IsClean(head + line + (body + [NEWLINE]))
  {
  }

  lemma PendingAfterWhole(j: Json, a: Attempt, pieces: seq<Piece>, e: WireEvent, log: seq<WireEvent>)
    requires PrintsWell(j, e) && ArePieces(j, pieces) && 0 < |Body(j, e)|
    requires a.tail == TailOf(j, pieces) && a.log == log + Pending(j, pieces)
    ensures ArePieces(j, pieces + [Piece(e, |Body(j, e)|)])
    ensures a.Append(e).tail == Clean && a.Append(e).log == log + Pending(j, pieces + [Piece(e, |Body(j, e)|)])
  {
    if pieces == [] {
      assert pieces + [Piece(e, |Body(j, e)|)] == [Piece(e, |Body(j, e)|)];
    }
  }

  /** A cut record makes the line unfinished, or leaves it so. */
  lemma CutAppend(j: Json, a: Attempt, head: seq<Byte>, pieces: seq<Piece>, w: Write)
    requires FileOf(j, a, head, pieces) && IsWrite(j, w) && 0 < w.n <= |Body(j, w.event)|
    ensures FileOf(j, After(j, a, w), head, pieces + [Piece(w.event, w.n)])
  {
    var all := pieces + [Piece(w.event, w.n)];
    if pieces == [] {
      assert all == [Piece(w.event, w.n)];
    }
  }

  // ---------------------------------------------------------------- any run of appends

  predicate AreWrites(j: Json, writes: seq<Write>) {
    forall i | 0 <= i < |writes| :: IsWrite(j, writes[i])
  }

  function FileAfter(j: Json, writes: seq<Write>): seq<Byte>
    requires AreWrites(j, writes)
  {
    if writes == [] then []
    else
      var w := writes[|writes| - 1];
      FileAfter(j, writes[..|writes| - 1]) + Record(j, w.event)[..w.n]
  }

  function AttemptAfter(j: Json, a: Attempt, writes: seq<Write>): Attempt
    requires AreWrites(j, writes)
  {
    if writes == [] then a
    else After(j, AttemptAfter(j, a, writes[..|writes| - 1]), writes[|writes| - 1])
  }

  lemma OneMoreWrite(j: Json, a: Attempt, head: seq<Byte>, pieces: seq<Piece>, w: Write)
      returns (h: seq<Byte>, p: seq<Piece>)
    requires NeverJoins(j) && FileOf(j, a, head, pieces) && IsWrite(j, w)
    ensures FileOf(j, After(j, a, w), h, p)
    ensures head + Joined(j, pieces) + Record(j, w.event)[..w.n] == h + Joined(j, p)
  {
    if w.n == |Body(j, w.event)| + 1 {
      WholeAppend(j, a, head, pieces, w.event);
      h, p := head + Joined(j, pieces) + Record(j, w.event), [];
      assert Record(j, w.event)[..w.n] == Record(j, w.event);
      assert h + Joined(j, p) == h;
    } else if w.n == 0 {
      h, p := head, pieces;
      assert head + Joined(j, pieces) + [] == head + Joined(j, pieces);
    } else {
      CutAppend(j, a, head, pieces, w);
      var piece := Piece(w.event, w.n);
      JoinedMore(j, pieces, piece);
      h, p := head, pieces + [piece];
      assert Record(j, w.event)[..w.n] == Bytes(j, piece);
      Associates(head, Joined(j, pieces), Bytes(j, piece));
    }
  }

  lemma {:induction false} FileFollowsTheAttempt(j: Json, a: Attempt, writes: seq<Write>)
      returns (head: seq<Byte>, pieces: seq<Piece>)
    requires NeverJoins(j) && AreWrites(j, writes) && a.log == [] && a.tail == Clean
    ensures FileOf(j, AttemptAfter(j, a, writes), head, pieces)
    ensures FileAfter(j, writes) == head + Joined(j, pieces)
  {
    if writes == [] {
      head, pieces := [], [];
      NothingReads(j);
    } else {
      var before := writes[..|writes| - 1];
      head, pieces := FileFollowsTheAttempt(j, a, before);
      head, pieces := OneMoreWrite(j, AttemptAfter(j, a, before), head, pieces, writes[|writes| - 1]);
    }
  }

  /** After any run of appends, whole or cut by crashes, the file reads as the attempt's log. */
  lemma JournalFileIsTheLog(j: Json, a: Attempt, writes: seq<Write>)
    requires NeverJoins(j) && AreWrites(j, writes) && a.log == [] && a.tail == Clean
    ensures Read(j, FileAfter(j, writes)) == AttemptAfter(j, a, writes).log
  {
    var head, pieces := FileFollowsTheAttempt(j, a, writes);
    FileReads(j, AttemptAfter(j, a, writes), head, pieces);
  }
}
