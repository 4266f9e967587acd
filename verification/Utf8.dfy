/** UTF-8 as the runtime writes and reads it: the encoder and the replacing decoder of the WHATWG
    Encoding Standard (sections 8.1.2 and 8.1.1), on sequences of code points. */
module Utf8 {
  import opened Basics

  type Text = seq<int>

  const NEWLINE: Byte := 0x0a
  const REPLACEMENT: int := 0xFFFD

  /** A line is what holds no newline, of bytes or of code points. */
  predicate IsLine(s: seq<int>) {
    forall k | 0 <= k < |s| :: s[k] != NEWLINE
  }

  // ---------------------------------------------------------------- encoding

  predicate IsScalar(c: int) {
    0 <= c < 0x11_0000 && !(0xD800 <= c < 0xE000)
  }

  predicate IsWellFormed(text: Text) {
    forall i | 0 <= i < |text| :: IsScalar(text[i])
  }

  function EncodeOne(c: int): seq<Byte>
    requires IsScalar(c)
  {
    if c < 0x80 then [c]
    else if c < 0x800 then [0xC0 + c / 64, 0x80 + c % 64]
    else if c < 0x1_0000 then [0xE0 + c / 4096, 0x80 + c / 64 % 64, 0x80 + c % 64]
    else [0xF0 + c / 262144, 0x80 + c / 4096 % 64, 0x80 + c / 64 % 64, 0x80 + c % 64]
  }

  function Encode(text: Text): seq<Byte>
    requires IsWellFormed(text)
  {
    if text == [] then [] else EncodeOne(text[0]) + Encode(text[1..])
  }

  // ---------------------------------------------------------------- decoding

  /** Between two bytes: how many are still needed, what they may be, and the value so far. */
  datatype State = State(needed: nat, lower: int, upper: int, value: int)

  const READY := State(0, 0x80, 0xBF, 0)

  /** The state after the first byte of a character; nothing for a byte that cannot be one. */
  function Lead(b: Byte): (r: State)
    requires 0xC2 <= b <= 0xF4
    ensures IsReachable(r) && r.needed > 0
  {
    if b <= 0xDF then State(1, 0x80, 0xBF, b - 0xC0)
    else if b <= 0xEF then
      State(2, if b == 0xE0 then 0xA0 else 0x80, if b == 0xED then 0x9F else 0xBF, b - 0xE0)
    else
      State(3, if b == 0xF0 then 0x90 else 0x80, if b == 0xF4 then 0x8F else 0xBF, b - 0xF0)
  }

  /** What the decoder's states have in common: a finished character is never a single byte's. */
  predicate IsReachable(s: State) {
    && 0x80 <= s.lower && s.upper <= 0xBF && s.needed <= 3 && 0 <= s.value
    && (s.needed == 0 ==> s == READY)
    && (s.needed == 1 ==> 2 <= s.value)
    && (s.needed == 2 ==> 1 <= s.value || s.lower == 0xA0)
    && (s.needed == 3 ==> 1 <= s.value || s.lower == 0x90)
  }

  /** One byte from a clean state. */
  function Fresh(b: Byte): (State, Text) {
    if b < 0x80 then (READY, [b])
    else if 0xC2 <= b <= 0xF4 then (Lead(b), [])
    else (READY, [REPLACEMENT])
  }

  /** One byte; a byte that does not fit ends the character and is looked at again. */
  function Step(s: State, b: Byte): (State, Text) {
    if s.needed == 0 then Fresh(b)
    else if !(s.lower <= b <= s.upper) then (Fresh(b).0, [REPLACEMENT] + Fresh(b).1)
    else
      var value := s.value * 64 + (b - 0x80);
      if s.needed == 1 then (READY, [value]) else (State(s.needed - 1, 0x80, 0xBF, value), [])
  }

  function DecodeFrom(s: State, bytes: seq<Byte>): Text
    decreases |bytes|
  {
    if bytes == [] then if s.needed == 0 then [] else [REPLACEMENT]
    else Step(s, bytes[0]).1 + DecodeFrom(Step(s, bytes[0]).0, bytes[1..])
  }

  /** `toString('utf8')`. */
  function Decode(bytes: seq<Byte>): Text {
    DecodeFrom(READY, bytes)
  }

  // ---------------------------------------------------------------- lines

  lemma StepIsReachable(s: State, b: Byte)
    requires IsReachable(s)
    ensures IsReachable(Step(s, b).0)
    ensures b != NEWLINE ==> IsLine(Step(s, b).1)
    ensures b == NEWLINE ==> Step(s, b).0 == READY
  {
  }

  /** A newline byte ends whatever character was begun, so decoding goes line by line. */
  lemma {:induction false} DecodeSplits(s: State, a: seq<Byte>, b: seq<Byte>)
    requires IsReachable(s)
    ensures DecodeFrom(s, a + [NEWLINE] + b) == DecodeFrom(s, a) + [NEWLINE as int] + Decode(b)
    decreases |a|
  {
    var all := a + [NEWLINE] + b;
    if a == [] {
      assert all[0] == NEWLINE && all[1..] == b;
    } else {
      StepIsReachable(s, a[0]);
      DecodeSplits(Step(s, a[0]).0, a[1..], b);
      assert all[0] == a[0] && all[1..] == a[1..] + [NEWLINE] + b;
    }
  }

  lemma {:induction false} DecodedLine(s: State, a: seq<Byte>)
    requires IsReachable(s) && IsLine(a)
    ensures IsLine(DecodeFrom(s, a))
    decreases |a|
  {
    if a != [] {
      StepIsReachable(s, a[0]);
      DecodedLine(Step(s, a[0]).0, a[1..]);
    }
  }

  // ---------------------------------------------------------------- the round trip

  lemma TakeOne(s: State, b: Byte, rest: seq<Byte>)
    ensures DecodeFrom(s, [b] + rest) == Step(s, b).1 + DecodeFrom(Step(s, b).0, rest)
  {
    assert ([b] + rest)[0] == b && ([b] + rest)[1..] == rest;
  }

  lemma TakeLead(b: Byte, rest: seq<Byte>)
    requires 0xC2 <= b <= 0xF4
    ensures Decode([b] + rest) == DecodeFrom(Lead(b), rest)
  {
    TakeOne(READY, b, rest);
  }

  lemma TakeMiddle(s: State, b: Byte, rest: seq<Byte>)
    requires 1 < s.needed && s.lower <= b <= s.upper
    ensures DecodeFrom(s, [b] + rest) == DecodeFrom(State(s.needed - 1, 0x80, 0xBF, s.value * 64 + (b - 0x80)), rest)
  {
    TakeOne(s, b, rest);
  }

  lemma TakeLast(s: State, b: Byte, rest: seq<Byte>)
    requires s.needed == 1 && s.lower <= b <= s.upper
    ensures DecodeFrom(s, [b] + rest) == [s.value * 64 + (b - 0x80)] + Decode(rest)
  {
    TakeOne(s, b, rest);
  }

  lemma TwoRoundTrip(c: int, rest: seq<Byte>)
    requires 0x80 <= c < 0x800
    ensures Decode(EncodeOne(c) + rest) == [c] + Decode(rest)
  {
    var b0, b1 := 0xC0 + c / 64, 0x80 + c % 64;
    assert EncodeOne(c) + rest == [b0] + ([b1] + rest);
    TakeLead(b0, [b1] + rest);
    TakeLast(Lead(b0), b1, rest);
  }

  lemma ThreeRoundTrip(c: int, rest: seq<Byte>)
    requires 0x800 <= c < 0x1_0000 && IsScalar(c)
    ensures Decode(EncodeOne(c) + rest) == [c] + Decode(rest)
  {
    var b0, b1, b2 := 0xE0 + c / 4096, 0x80 + c / 64 % 64, 0x80 + c % 64;
    assert EncodeOne(c) + rest == [b0] + ([b1] + ([b2] + rest));
    assert c / 64 == (c / 4096) * 64 + c / 64 % 64;
    TakeLead(b0, [b1] + ([b2] + rest));
    TakeMiddle(Lead(b0), b1, [b2] + rest);
    TakeLast(State(1, 0x80, 0xBF, c / 64), b2, rest);
  }

  lemma FourRoundTrip(c: int, rest: seq<Byte>)
    requires 0x1_0000 <= c && IsScalar(c)
    ensures Decode(EncodeOne(c) + rest) == [c] + Decode(rest)
  {
    var b0, b1, b2, b3 := 0xF0 + c / 262144, 0x80 + c / 4096 % 64, 0x80 + c / 64 % 64, 0x80 + c % 64;
    assert EncodeOne(c) + rest == [b0] + ([b1] + ([b2] + ([b3] + rest)));
    assert c / 4096 == (c / 262144) * 64 + c / 4096 % 64;
    assert c / 64 == (c / 4096) * 64 + c / 64 % 64;
    TakeLead(b0, [b1] + ([b2] + ([b3] + rest)));
    TakeMiddle(Lead(b0), b1, [b2] + ([b3] + rest));
    TakeMiddle(State(2, 0x80, 0xBF, c / 4096), b2, [b3] + rest);
    TakeLast(State(1, 0x80, 0xBF, c / 64), b3, rest);
  }

  /** A character reads back, whatever follows it. */
  lemma OneRoundTrips(c: int, rest: seq<Byte>)
    requires IsScalar(c)
    ensures Decode(EncodeOne(c) + rest) == [c] + Decode(rest)
  {
    if c < 0x80 {
      TakeOne(READY, c, rest);
    } else if c < 0x800 {
      TwoRoundTrip(c, rest);
    } else if c < 0x1_0000 {
      ThreeRoundTrip(c, rest);
    } else {
      FourRoundTrip(c, rest);
    }
  }

  /** What was encoded reads back, whatever follows it. */
  lemma {:induction false} EncodeRoundTrips(text: Text, rest: seq<Byte>)
    requires IsWellFormed(text)
    ensures Decode(Encode(text) + rest) == text + Decode(rest)
  {
    if text == [] {
      assert Encode(text) + rest == rest;
    } else {
      OneRoundTrips(text[0], Encode(text[1..]) + rest);
      EncodeRoundTrips(text[1..], rest);
      assert Encode(text) + rest == EncodeOne(text[0]) + (Encode(text[1..]) + rest);
      assert text == [text[0]] + text[1..];
    }
  }

  /** Encoding makes newline bytes of newlines only. */
  lemma {:induction false} EncodedLine(text: Text)
    requires IsWellFormed(text) && IsLine(text)
    ensures IsLine(Encode(text))
  {
    if text != [] {
      EncodedLine(text[1..]);
      assert IsLine(EncodeOne(text[0]));
    }
  }
}
