/** The terminal key decoder (`packages/cli/src/terminal-keys.ts`): however a terminal cuts its
    input into reads, the same keys come out. */
module TerminalKeys {
  import opened Basics

  /** A UTF-16 code unit, by which the program indexes its input. */
  type Unit = u: int | 0 <= u < 0x1_0000

  type Text = seq<Unit>

  const ESC: Unit := 0x1B
  const CTRL_C: Unit := 0x03
  const BRACKET: Unit := 0x5B

  datatype SetupKey = Up | Down | Left | Right | Enter | Space | Cancel | Char(value: Unit)

  /** Carriage return and line feed, the space, and q in either case. */
  function DecodeSingle(c: Unit): SetupKey {
    if c == CTRL_C then Cancel
    else if c == 0x0D || c == 0x0A then Enter
    else if c == 0x20 then Space
    else if c == 0x71 || c == 0x51 then Cancel
    else Char(c)
  }

  /** From `@` to `~`. */
  predicate IsFinal(c: Unit) {
    0x40 <= c <= 0x7E
  }

  /** The letters A to D. */
  function CsiKey(c: Unit): Option<SetupKey> {
    if c == 0x41 then Some(Up)
    else if c == 0x42 then Some(Down)
    else if c == 0x43 then Some(Right)
    else if c == 0x44 then Some(Left)
    else None
  }

  // ---------------------------------------------------------------- what input means

  /** Terminal input is made of these. */
  datatype Token = Plain(c: Unit) | Escape | Csi(parameters: Text, final: Unit)

  predicate IsToken(t: Token) {
    match t
    case Plain(c) => c != ESC
    case Escape => true
    case Csi(parameters, final) => IsFinal(final) && NoFinal(parameters)
  }

  predicate NoFinal(s: Text) {
    forall i | 0 <= i < |s| :: !IsFinal(s[i])
  }

  function TokenText(t: Token): Text {
    match t
    case Plain(c) => [c]
    case Escape => [ESC]
    case Csi(parameters, final) => [ESC, BRACKET] + parameters + [final]
  }

  function TokenKeys(t: Token): seq<SetupKey> {
    match t
    case Plain(c) => [DecodeSingle(c)]
    case Escape => [Cancel]
    case Csi(_, final) => if CsiKey(final).Some? then [CsiKey(final).value] else []
  }

  /** What may wait for more input: nothing, an escape, or an unfinished control sequence. */
  predicate IsUnfinished(s: Text) {
    s == [] || s == [ESC] || (2 <= |s| && s[0] == ESC && s[1] == BRACKET && NoFinal(s[2..]))
  }

  /** The first token of the input, if the input holds one that no later input can change. */
  function FirstToken(s: Text): (r: Option<Token>)
    ensures r.Some? ==> IsToken(r.value) && TokenText(r.value) <= s
    ensures r.None? <==> IsUnfinished(s)
  {
    if s == [] then None
    else if s[0] != ESC then Some(Plain(s[0]))
    else if |s| == 1 then None
    else if s[1] != BRACKET then Some(Escape)
    else
      var k := FinalIndex(s, 2);
      if k == |s| then
        assert s[2..k] == s[2..];
        None
      else
        assert s[2..][k - 2] == s[k];
        assert s[..k + 1] == [ESC, BRACKET] + s[2..k] + [s[k]];
        Some(Csi(s[2..k], s[k]))
  }

  function FinalIndex(s: Text, i: nat): (r: nat)
    requires i <= |s|
    ensures i <= r <= |s| && NoFinal(s[i..r])
    ensures r < |s| ==> IsFinal(s[r])
    decreases |s| - i
  {
    if i == |s| || IsFinal(s[i]) then i
    else
      var r := FinalIndex(s, i + 1);
      assert forall k | i < k < r :: s[i + 1..r][k - (i + 1)] == s[k];
      r
  }

  function Rest(s: Text, t: Token): (r: Text)
    requires TokenText(t) <= s
    ensures |r| < |s|
  {
    s[|TokenText(t)|..]
  }

  datatype Decoded = Decoded(keys: seq<SetupKey>, pending: Text)

  /** All tokens of the input, and what is left waiting. */
  function DecodeText(s: Text): Decoded
    decreases |s|
  {
    var t := FirstToken(s);
    if t.None? then Decoded([], s)
    else
      var rest := DecodeText(Rest(s, t.value));
      Decoded(TokenKeys(t.value) + rest.keys, rest.pending)
  }

  /** Keys read before the rest. */
  function Behind(keys: seq<SetupKey>, rest: Decoded): Decoded {
    Decoded(keys + rest.keys, rest.pending)
  }

  lemma BehindBehind(a: seq<SetupKey>, b: seq<SetupKey>, rest: Decoded)
    ensures Behind(a, Behind(b, rest)) == Behind(a + b, rest)
    ensures Behind([], rest) == rest
  {
  }

  lemma DecodeUnfolds(s: Text, t: Token, rest: Text)
    requires FirstToken(s) == Some(t) && rest == Rest(s, t)
    ensures DecodeText(s) == Behind(TokenKeys(t), DecodeText(rest))
  {
  }

  lemma TakesToken(input: Text, keys: seq<SetupKey>, pending: Text, t: Token, rest: Text)
    requires FirstToken(pending) == Some(t) && rest == Rest(pending, t)
    requires DecodeText(input) == Behind(keys, DecodeText(pending))
    ensures DecodeText(input) == Behind(keys + TokenKeys(t), DecodeText(rest))
  {
    DecodeUnfolds(pending, t, rest);
    BehindBehind(keys, TokenKeys(t), DecodeText(rest));
  }

  lemma TakesPlain(input: Text, keys: seq<SetupKey>, pending: Text)
    requires pending != [] && DecodeText(input) == Behind(keys, DecodeText(pending))
    requires pending[0] != ESC || (1 < |pending| && pending[1] != BRACKET)
    ensures DecodeText(input) ==
            Behind(keys + [if pending[0] != ESC then DecodeSingle(pending[0]) else Cancel], DecodeText(pending[1..]))
  {
    TakesToken(input, keys, pending, if pending[0] != ESC then Plain(pending[0]) else Escape, pending[1..]);
  }

  lemma TakesCsi(input: Text, keys: seq<SetupKey>, pending: Text, k: nat, key: Option<SetupKey>)
    requires 2 <= |pending| && pending[0] == ESC && pending[1] == BRACKET
    requires k == FinalIndex(pending, 2) && k < |pending| && key == CsiKey(pending[k])
    requires DecodeText(input) == Behind(keys, DecodeText(pending))
    ensures DecodeText(input) ==
            Behind(if key.Some? then keys + [key.value] else keys, DecodeText(pending[k + 1..]))
  {
    TakesToken(input, keys, pending, Csi(pending[2..k], pending[k]), pending[k + 1..]);
    assert keys + [] == keys;
  }

  // ---------------------------------------------------------------- the decoder

  class TerminalKeyDecoder {
    var pending: Text

    constructor ()
      ensures pending == []
    {
      pending := [];
    }

    predicate HasPending()
      reads this
    {
      |pending| > 0
    }

    method Decode(chunk: Text) returns (keys: seq<SetupKey>)
      modifies this
      ensures Decoded(keys, pending) == DecodeText(old(pending) + chunk)
      ensures IsUnfinished(pending)
    {
      pending := pending + chunk;
      keys := [];
      ghost var input := pending;
      BehindBehind([], [], DecodeText(pending));
      while |pending| > 0
        invariant DecodeText(input) == Behind(keys, DecodeText(pending))
        decreases |pending|
      {
        var c := pending[0];
        if c != ESC {
          TakesPlain(input, keys, pending);
          keys := keys + [DecodeSingle(c)];
          pending := pending[1..];
          continue;
        }
        if |pending| == 1 {
          break;
        }
        if pending[1] != BRACKET {
          TakesPlain(input, keys, pending);
          keys := keys + [Cancel];
          pending := pending[1..];
          continue;
        }
        var finalIndex := FindCsiFinal();
        if finalIndex == -1 {
          break;
        }
        var key := CsiKey(pending[finalIndex]);
        TakesCsi(input, keys, pending, finalIndex, key);
        if key.Some? {
          keys := keys + [key.value];
        }
        pending := pending[finalIndex + 1..];
      }
      assert FirstToken(pending).None? && keys + [] == keys;
    }

    /** Gives up on what is waiting: an escape that nothing completed is a cancel. */
    method Flush() returns (keys: seq<SetupKey>)
      modifies this
      ensures pending == [] && !HasPending()
      ensures IsUnfinished(old(pending)) ==> keys == if old(HasPending()) then [Cancel] else []
      ensures !IsUnfinished(old(pending)) && old(pending)[0] != ESC ==> |keys| == |old(pending)|
    {
      if |pending| == 0 {
        return [];
      }
      var retained := pending;
      pending := [];
      if retained[0] == ESC {
        return [Cancel];
      }
      keys := seq(|retained|, i requires 0 <= i < |retained| => DecodeSingle(retained[i]));
    }

    method FindCsiFinal() returns (index: int)
      requires 2 <= |pending|
      ensures index == if FinalIndex(pending, 2) == |pending| then -1 else FinalIndex(pending, 2)
    {
      for i := 2 to |pending|
        invariant FinalIndex(pending, 2) == FinalIndex(pending, i)
      {
        if 0x40 <= pending[i] <= 0x7E {
          return i;
        }
      }
      index := -1;
    }
  }

  // ---------------------------------------------------------------- main results

  /** Nothing that comes later changes a token already there. */
  lemma TokenStays(s: Text, more: Text)
    requires FirstToken(s).Some?
    ensures FirstToken(s + more) == FirstToken(s)
    ensures Rest(s + more, FirstToken(s).value) == Rest(s, FirstToken(s).value) + more
  {
    var all := s + more;
    if s[0] == ESC && s[1] == BRACKET {
      FinalStays(s, more, 2);
      var k := FinalIndex(s, 2);
      assert all[2..k] == s[2..k];
    }
    assert TokenText(FirstToken(s).value) <= s <= all;
  }

  lemma {:induction false} FinalStays(s: Text, more: Text, i: nat)
    requires i <= |s| && FinalIndex(s, i) < |s|
    ensures FinalIndex(s + more, i) == FinalIndex(s, i)
    decreases |s| - i
  {
    if !IsFinal(s[i]) { FinalStays(s, more, i + 1); }
  }

  lemma TwoReadsStep(a: Text, b: Text, t: Token, rest: Text, first: Decoded, second: Decoded)
    requires FirstToken(a) == Some(t) && rest == Rest(a, t)
    requires first == DecodeText(rest) && DecodeText(rest + b) == Behind(first.keys, second)
    ensures DecodeText(a).pending == first.pending && DecodeText(a + b) == Behind(DecodeText(a).keys, second)
  {
    TokenStays(a, b);
    DecodeUnfolds(a, t, rest);
    DecodeUnfolds(a + b, t, rest + b);
    BehindBehind(TokenKeys(t), first.keys, second);
  }

  /** Decoding in two reads is decoding in one. */
  lemma {:induction false} TwoReads(a: Text, b: Text)
    ensures DecodeText(a + b) == Behind(DecodeText(a).keys, DecodeText(DecodeText(a).pending + b))
    decreases |a|
  {
    if FirstToken(a).Some? {
      var t := FirstToken(a).value;
      var rest := Rest(a, t);
      TwoReads(rest, b);
      TwoReadsStep(a, b, t, rest, DecodeText(rest), DecodeText(DecodeText(rest).pending + b));
    } else {
      BehindBehind([], [], DecodeText(a + b));
    }
  }

  function Concat(chunks: seq<Text>): Text {
    if chunks == [] then [] else Concat(chunks[..|chunks| - 1]) + chunks[|chunks| - 1]
  }

  /** What a decoder gives for some reads in turn. */
  function DecodeReads(chunks: seq<Text>): Decoded {
    if chunks == [] then Decoded([], [])
    else
      var before := DecodeReads(chunks[..|chunks| - 1]);
      Behind(before.keys, DecodeText(before.pending + chunks[|chunks| - 1]))
  }

  /** However the input is cut into reads, the keys and what is left waiting are the same. */
  lemma {:induction false} ReadsDoNotMatter(chunks: seq<Text>)
    ensures DecodeReads(chunks) == DecodeText(Concat(chunks))
  {
    if chunks != [] {
      ReadsDoNotMatter(chunks[..|chunks| - 1]);
      TwoReads(Concat(chunks[..|chunks| - 1]), chunks[|chunks| - 1]);
    }
  }

  function TokensText(tokens: seq<Token>): Text {
    if tokens == [] then [] else TokenText(tokens[0]) + TokensText(tokens[1..])
  }

  function TokensKeys(tokens: seq<Token>): seq<SetupKey> {
    if tokens == [] then [] else TokenKeys(tokens[0]) + TokensKeys(tokens[1..])
  }

  predicate AreTokens(tokens: seq<Token>) {
    forall i | 0 <= i < |tokens| :: IsToken(tokens[i])
  }

  /** Decoding loses no character: the input is tokens and an unfinished rest, and the keys are
      the tokens' keys. */
  lemma {:induction false} InputIsTokens(s: Text) returns (tokens: seq<Token>)
    ensures AreTokens(tokens) && s == TokensText(tokens) + DecodeText(s).pending
    ensures DecodeText(s).keys == TokensKeys(tokens) && IsUnfinished(DecodeText(s).pending)
    decreases |s|
  {
    if FirstToken(s).None? {
      tokens := [];
    } else {
      var t := FirstToken(s).value;
      var rest := InputIsTokens(Rest(s, t));
      tokens := [t] + rest;
      OneMoreToken(s, t, Rest(s, t), rest, DecodeText(Rest(s, t)).pending);
    }
  }

  lemma OneMoreToken(s: Text, t: Token, rest: Text, tokens: seq<Token>, pending: Text)
    requires TokenText(t) <= s && rest == Rest(s, t) && rest == TokensText(tokens) + pending
    ensures s == TokensText([t] + tokens) + pending
    ensures TokensKeys([t] + tokens) == TokenKeys(t) + TokensKeys(tokens)
  {
    assert s == TokenText(t) + rest;
    assert ([t] + tokens)[1..] == tokens;
    assert TokenText(t) + (TokensText(tokens) + pending) == TokenText(t) + TokensText(tokens) + pending;
  }

  /** The other way round: printed tokens decode to their keys, as long as no lone escape runs
      into a bracket. */
  lemma {:induction false} TokensRoundTrip(tokens: seq<Token>, rest: Text)
    requires AreTokens(tokens) && IsUnfinished(rest)
    requires forall i | 0 <= i < |tokens| && tokens[i].Escape? ::
               var after := TokensText(tokens[i + 1..]) + rest;
               after != [] && after[0] != BRACKET
    ensures DecodeText(TokensText(tokens) + rest) == Decoded(TokensKeys(tokens), rest)
  {
    if tokens != [] {
      var t, others := tokens[0], tokens[1..];
      var after := TokensText(others) + rest;
      assert TokensText(tokens) + rest == TokenText(t) + after;
      forall i | 0 <= i < |others| && others[i].Escape?
        ensures
          var behind := TokensText(others[i + 1..]) + rest;
          behind != [] && behind[0] != BRACKET
      {
        assert tokens[i + 1] == others[i] && tokens[i + 2..] == others[i + 1..];
      }
      TokensRoundTrip(others, rest);
      TokenComesFirst(t, after);
    } else {
      assert TokensText(tokens) + rest == rest;
    }
  }

  lemma TokenComesFirst(t: Token, after: Text)
    requires IsToken(t) && (t.Escape? ==> after != [] && after[0] != BRACKET)
    ensures FirstToken(TokenText(t) + after) == Some(t) && Rest(TokenText(t) + after, t) == after
  {
    var s := TokenText(t) + after;
    if t.Csi? {
      var k := 2 + |t.parameters|;
      assert s[2..k] == t.parameters && s[k] == t.final;
      FinalIsThere(s, 2, k);
    }
  }

  lemma {:induction false} FinalIsThere(s: Text, i: nat, k: nat)
    requires i <= k < |s| && IsFinal(s[k]) && NoFinal(s[i..k])
    ensures FinalIndex(s, i) == k
    decreases k - i
  {
    if i < k {
      assert s[i..k][0] == s[i] && s[i..k][1..] == s[i + 1..k];
      FinalIsThere(s, i + 1, k);
    }
  }

  // ---------------------------------------------------------------- the keys of the terminal

  predicate EndsASequence(c: Unit) {
    '@' as int <= c <= '~' as int
  }

  /** `ESC [`, any parameters and a letter: the arrows are A, B, C and D, and every other sequence is
      swallowed. */
  lemma ControlSequenceMeans(parameters: Text, final: Unit, rest: Text)
    requires EndsASequence(final) && forall i | 0 <= i < |parameters| :: !EndsASequence(parameters[i])
    ensures DecodeText([0x1B, '[' as int] + parameters + [final] + rest) ==
              Behind(if final == 'A' as int then [Up] else if final == 'B' as int then [Down]
                     else if final == 'C' as int then [Right] else if final == 'D' as int then [Left] else [],
                     DecodeText(rest))
  {
    var t := Csi(parameters, final);
    TokenComesFirst(t, rest);
    DecodeUnfolds(TokenText(t) + rest, t, rest);
  }

  /** Any other character is a key of its own: control-C and q cancel, whatever the case; carriage
      return and line feed are enter. */
  lemma CharacterMeans(c: Unit, rest: Text)
    requires c != 0x1B
    ensures DecodeText([c] + rest) ==
              Behind([if c == 3 || c == 'q' as int || c == 'Q' as int then Cancel
                      else if c == '\r' as int || c == '\n' as int then Enter
                      else if c == ' ' as int then Space else Char(c)],
                     DecodeText(rest))
  {
    TokenComesFirst(Plain(c), rest);
    DecodeUnfolds([c] + rest, Plain(c), rest);
  }

  /** An escape before anything but a bracket cancels, and what follows keeps its own meaning; one
      that ends the input, and a sequence without its letter, wait. */
  lemma EscapeMeans(rest: Text)
    ensures rest != [] && rest[0] != '[' as int ==> DecodeText([0x1B] + rest) == Behind([Cancel], DecodeText(rest))
    ensures rest == [] ==> DecodeText([0x1B] + rest) == Decoded([], [0x1B])
    ensures rest != [] && rest[0] == '[' as int && (forall i | 1 <= i < |rest| :: !EndsASequence(rest[i])) ==>
              DecodeText([0x1B] + rest) == Decoded([], [0x1B] + rest)
  {
    if rest != [] {
      if rest[0] != BRACKET {
        TokenComesFirst(Escape, rest);
        DecodeUnfolds([ESC] + rest, Escape, rest);
      } else if forall i | 1 <= i < |rest| :: !EndsASequence(rest[i]) {
        var s := [ESC] + rest;
        assert forall i | 0 <= i < |s| - 2 :: s[2..][i] == rest[i + 1];
        assert IsUnfinished(s);
      }
    }
  }
}
