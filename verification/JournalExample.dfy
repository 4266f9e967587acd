/** A printer and a parser that are what the run journal asks of JSON: their records print as one
    line that parses back, and neither a record cut short nor joined records ever parse. */
module JournalExample {
  import opened Basics
  import opened Utf8
  import opened RunJournal
  import opened JournalFile
  import opened ResidencyProtocol

  predicate IsLetter(c: int) {
    97 <= c <= 122
  }

  predicate AreLetters(s: seq<int>) {
    forall i | 0 <= i < |s| :: IsLetter(s[i])
  }

  function Codes(s: string): (r: Text)
    ensures |r| == |s|
  {
    seq(|s|, i requires 0 <= i < |s| => s[i] as int)
  }

  function Chars(t: Text): (r: string)
    requires AreLetters(t)
    ensures |r| == |t|
  {
    seq(|t|, i requires 0 <= i < |t| => t[i] as char)
  }

  /** A body of letters in braces; other events do not print. */
  function BracePrint(e: WireEvent): Text {
    if e.OtherEvent? && AreLetters(Codes(e.body)) then [123] + Codes(e.body) + [125] else []
  }

  function BraceParse(t: Text): Option<WireEvent> {
    if 2 <= |t| && t[0] == 123 && t[|t| - 1] == 125 && AreLetters(t[1..|t| - 1])
    then Some(OtherEvent(Chars(t[1..|t| - 1]))) else None
  }

  const BRACES := Json(BracePrint, BraceParse)

  lemma LettersPrintWell(e: WireEvent)
    requires e.OtherEvent? && AreLetters(Codes(e.body))
    ensures PrintsWell(BRACES, e)
  {
    var text := BracePrint(e);
    assert text[0] == 123 && text[1..|text| - 1] == Codes(e.body);
    assert Chars(Codes(e.body)) == e.body;
    assert !IsSpace(text[0]);
  }

  predicate IsAscii(s: seq<int>) {
    forall i | 0 <= i < |s| :: 0 <= s[i] < 0x80
  }

  lemma {:induction false} AsciiIsItself(text: Text)
    requires IsAscii(text)
    ensures IsWellFormed(text) && Encode(text) == text
    ensures var bytes: seq<Byte> := text; Decode(bytes) == text
  {
    if text != [] {
      AsciiIsItself(text[1..]);
      assert [text[0]] + text[1..] == text;
    }
  }

  /** A printed body is its text, byte for byte: a brace, letters, and a brace at the end only. */
  lemma BodyIsText(e: WireEvent)
    requires PrintsWell(BRACES, e)
    ensures 2 <= |Body(BRACES, e)| && IsAscii(Body(BRACES, e)) && Body(BRACES, e)[0] == 123
    ensures forall i | 0 < i < |Body(BRACES, e)| - 1 :: IsLetter(Body(BRACES, e)[i])
  {
    AsciiIsItself(BracePrint(e));
  }

  lemma {:induction false} JoinedIsAscii(pieces: seq<Piece>)
    requires ArePieces(BRACES, pieces)
    ensures IsAscii(Joined(BRACES, pieces)) && |pieces| <= |Joined(BRACES, pieces)|
  {
    if pieces != [] {
      var n := |pieces| - 1;
      JoinedIsAscii(pieces[..n]);
      BodyIsText(pieces[n].event);
    }
  }

  /** Of several pieces the last one brings a brace too many. */
  lemma ManyDoNotParse(before: Text, last: Text, all: Text)
    requires all == before + last && before != [] && last != [] && last[0] == 123
    ensures BraceParse(all).None?
  {
    assert all[|before|] == 123;
    if 2 <= |all| && |before| < |all| - 1 {
      assert all[1..|all| - 1][|before| - 1] == 123;
    }
  }

  /** A record cut short has no brace at its end. */
  lemma CutDoesNotParse(e: WireEvent, n: nat)
    requires PrintsWell(BRACES, e) && 0 < n < |Body(BRACES, e)|
    ensures BraceParse(Body(BRACES, e)[..n]).None?
  {
    BodyIsText(e);
    assert 1 < n ==> IsLetter(Body(BRACES, e)[n - 1]);
  }

  lemma PiecesDoNotParse(pieces: seq<Piece>)
    requires ArePieces(BRACES, pieces) && pieces != [] && !IsOneRecord(BRACES, pieces)
    ensures BraceParse(Joined(BRACES, pieces)).None?
  {
    var n := |pieces| - 1;
    if n > 0 {
      JoinedIsAscii(pieces[..n]);
      BodyIsText(pieces[n].event);
      ManyDoNotParse(Joined(BRACES, pieces[..n]), Bytes(BRACES, pieces[n]), Joined(BRACES, pieces));
    } else {
      assert pieces == [] + [pieces[0]];
      JoinedMore(BRACES, [], pieces[0]);
      assert Joined(BRACES, pieces) == Body(BRACES, pieces[0].event)[..pieces[0].n];
      CutDoesNotParse(pieces[0].event, pieces[0].n);
    }
  }

  /** What is asked of JSON can be had: for a printer and a parser of infinitely many events. */
  lemma BracesNeverJoin()
    ensures NeverJoins(BRACES)
    ensures forall e: WireEvent | e.OtherEvent? && AreLetters(Codes(e.body)) :: PrintsWell(BRACES, e)
  {
    forall pieces | ArePieces(BRACES, pieces) && pieces != [] && !IsOneRecord(BRACES, pieces)
      ensures LineReader(BRACES)(Joined(BRACES, pieces)) == []
    {
      JoinedIsAscii(pieces);
      AsciiIsItself(Joined(BRACES, pieces));
      PiecesDoNotParse(pieces);
    }
    forall e: WireEvent | e.OtherEvent? && AreLetters(Codes(e.body)) ensures PrintsWell(BRACES, e) {
      LettersPrintWell(e);
    }
  }
}
