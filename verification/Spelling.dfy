/** Which bit layouts the pattern language can express. */
module Spelling {
  import opened Bits
  import opened Patterns

  const CHAR_X: u8 := 120

  predicate AllDigits(s: seq<u8>) {
    forall i :: 0 <= i < |s| ==> IsDigit(s[i])
  }

  function SpellToken(t: Token): (s: seq<u8>)
    ensures |s| > 0
  {
    match t
    case One => [CHAR_1]
    case Zero => [CHAR_0]
    case Address(digits) => [CHAR_A] + digits
    case Input => [CHAR_I]
    case Ignored => [CHAR_X]
  }

  function Spell(toks: seq<Token>): seq<u8> {
    if |toks| == 0 then [] else SpellToken(toks[0]) + Spell(toks[1..])
  }

  /** A constant right behind an address bit would be read as one of its digits. */
  predicate Follows(t: Token, next: Token) {
    t.Address? ==> !next.One? && !next.Zero?
  }

  predicate Spellable(toks: seq<Token>) {
    && (forall i :: 0 <= i < |toks| && toks[i].Address? ==> AllDigits(toks[i].digits))
    && (forall i :: 0 <= i < |toks| - 1 ==> Follows(toks[i], toks[i + 1]))
  }

  /** The digit run of digits followed by something else. */
  lemma RunThenOther(digits: seq<u8>, rest: seq<u8>)
    requires AllDigits(digits) && (|rest| > 0 ==> !IsDigit(rest[0]))
    ensures DigitRun(digits + rest) == |digits|
  {
    var s := digits + rest;
    assert forall i :: 0 <= i < |digits| ==> s[i] == digits[i];
    if |rest| > 0 { assert s[|digits|] == rest[0]; }
  }

  /** The first token of a spelled layout. */
  lemma FirstSpelled(t: Token, rest: seq<u8>, s: seq<u8>)
    requires t.Address? ==> AllDigits(t.digits) && (|rest| > 0 ==> !IsDigit(rest[0]))
    requires s == SpellToken(t) + rest
    ensures FirstToken(s) == t && FirstLength(s) == |SpellToken(t)|
  {
    hide Tokens, DigitRun;
    assert s[0] == SpellToken(t)[0];
    if t.Address? {
      assert s[1..] == t.digits + rest;
      RunThenOther(t.digits, rest);
      assert s[1..][..|t.digits|] == t.digits;
    }
  }

  lemma ReadFirst(t: Token, rest: seq<u8>)
    requires t.Address? ==> AllDigits(t.digits) && (|rest| > 0 ==> !IsDigit(rest[0]))
    ensures Tokens(SpellToken(t) + rest) == [t] + Tokens(rest)
  {
    var s := SpellToken(t) + rest;
    FirstSpelled(t, rest, s);
    hide FirstToken, FirstLength, SpellToken;
    assert s[FirstLength(s)..] == rest;
  }

  /** Spelling a layout and reading it back. */
  lemma {:induction false} SpellRoundTrip(toks: seq<Token>)
    requires Spellable(toks)
    ensures Tokens(Spell(toks)) == toks
  {
    if |toks| > 0 {
      var rest := Spell(toks[1..]);
      SpellRoundTrip(toks[1..]);
      if |toks| > 1 {
        assert Follows(toks[0], toks[1]);
        assert rest[0] == SpellToken(toks[1])[0];
      }
      hide Tokens;
      ReadFirst(toks[0], rest);
      assert toks == [toks[0]] + toks[1..];
    }
  }

  /** What is read from any text is such a layout. */
  lemma {:induction false} TokensSpellable(text: seq<u8>)
    ensures Spellable(Tokens(text))
    decreases |text|
  {
    if |text| > 0 {
      var rest := text[FirstLength(text)..];
      TokensSpellable(rest);
      var toks := Tokens(text);
      assert toks[1..] == Tokens(rest);
      if |rest| > 0 {
        assert toks[1] == FirstToken(rest);
        assert text[0] == CHAR_A ==> !IsDigit(rest[0]) by {
          if text[0] == CHAR_A { assert rest[0] == text[1..][DigitRun(text[1..])]; }
        }
        assert Follows(toks[0], toks[1]);
      }
      forall i | 0 <= i < |toks| - 1 ensures Follows(toks[i], toks[i + 1]) {
        if i > 0 { assert Follows(toks[1..][i - 1], toks[1..][i]); }
      }
      forall i | 0 <= i < |toks| && toks[i].Address? ensures AllDigits(toks[i].digits) {
        if i > 0 { assert toks[i] == toks[1..][i - 1]; }
      }
    }
  }

  /** A layout can be written as a pattern exactly when no constant bit comes right behind an
      address bit (and shifts are decimal). */
  lemma ExpressibleIff(toks: seq<Token>)
    ensures (exists text :: Tokens(text) == toks) <==> Spellable(toks)
  {
    if Spellable(toks) {
      SpellRoundTrip(toks);
      assert Tokens(Spell(toks)) == toks;
    }
    forall text | Tokens(text) == toks ensures Spellable(toks) {
      TokensSpellable(text);
    }
  }
}
