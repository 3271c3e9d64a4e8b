/** A small target that meets every assumption made about targets: four words of flash, four
    bytes of EEPROM, and six commands told apart by three leading constant bits. */
module ExampleChip {
  import opened Bits
  import opened Patterns
  import opened Decoding
  import opened Spelling
  import opened McuInfo
  import opened Spi
  import opened Commands
  import opened AvrTarget
  import opened MemoryLaws
  import EndToEnd

  function Constant(bit: bool): Token { if bit then One else Zero }

  /** Three constant bits, a two-bit address, a byte. */
  function Layout(a: bool, b: bool, c: bool): (toks: seq<Token>)
    ensures |toks| == 13
  {
    [Constant(a), Constant(b), Constant(c), Address([CHAR_1]), Address([CHAR_0]),
     Input, Input, Input, Input, Input, Input, Input, Input]
  }

  /** n input tokens behind a prefix. */
  lemma {:induction false} InputsTail(toks: seq<Token>, p: nat)
    requires p <= |toks| && forall i :: p <= i < |toks| ==> toks[i].Input?
    ensures Inputs(toks) == Inputs(toks[..p]) + |toks| - p
    decreases |toks|
  {
    if p == |toks| {
      assert toks[..p] == toks;
    } else {
      InputsTail(toks[..|toks| - 1], p);
      assert toks[..|toks| - 1][..p] == toks[..p];
    }
  }

  lemma {:induction false} NoInputs(toks: seq<Token>)
    requires forall i :: 0 <= i < |toks| ==> !toks[i].Input?
    ensures Inputs(toks) == 0
  {
    if |toks| > 0 { NoInputs(toks[..|toks| - 1]); }
  }

  lemma OneDigit(d: u8)
    requires IsDigit(d)
    ensures Atoi([d]) == d - CHAR_0
  {
    assert DigitRun([d]) == 1;
    assert [d][..1] == [d];
    assert Decimal([d]) == 10 * Decimal([]) + (d - CHAR_0) by { assert [d][..0] == []; }
  }

  lemma LayoutMentions(a: bool, b: bool, c: bool)
    ensures Mentions(Layout(a, b, c), 2)
  {
    var toks := Layout(a, b, c);
    OneDigit(CHAR_0);
    OneDigit(CHAR_1);
    forall s: nat | s < 2 ensures FindAddress(toks, s) < |toks| {
      var p := if s == 0 then 4 else 3;
      assert toks[p].Address? && Shift(toks[p]) == s;
    }
  }

  lemma LayoutWellFormed(a: bool, b: bool, c: bool)
    ensures WellFormed(Layout(a, b, c)) && Inputs(Layout(a, b, c)) == 8
  {
    var toks := Layout(a, b, c);
    NoInputs(toks[..5]);
    InputsTail(toks, 5);
    OneDigit(CHAR_0);
    OneDigit(CHAR_1);
    forall t | t in toks && t.Address? ensures |t.digits| <= 2 && Shift(t) < 32 {
      assert t == Address([CHAR_1]) || t == Address([CHAR_0]);
    }
  }

  lemma {:induction false} SpellLength(toks: seq<Token>)
    requires forall i :: 0 <= i < |toks| ==> |SpellToken(toks[i])| <= 2
    ensures |Spell(toks)| <= 2 * |toks|
  {
    if |toks| > 0 { SpellLength(toks[1..]); }
  }

  lemma LayoutSpellable(a: bool, b: bool, c: bool)
    ensures Spellable(Layout(a, b, c))
    ensures forall i :: 0 <= i < 13 ==> |SpellToken(Layout(a, b, c)[i])| <= 2
  {}

  lemma LayoutText(a: bool, b: bool, c: bool) returns (t: Text)
    ensures Tokens(t) == Layout(a, b, c) && |t| <= 26
  {
    LayoutSpellable(a, b, c);
    hide Layout, Spellable, SpellToken, Spell, Tokens;
    SpellLength(Layout(a, b, c));
    SpellRoundTrip(Layout(a, b, c));
    t := Spell(Layout(a, b, c));
  }

  lemma LayoutsApart(a: bool, b: bool, c: bool, a': bool, b': bool, c': bool)
    requires a != a' || b != b' || c != c'
    ensures Separated(Layout(a, b, c), Layout(a', b', c'))
  {
    var p := if a != a' then 0 else if b != b' then 1 else 2;
    var x, y := Layout(a, b, c), Layout(a', b', c');
    assert (x[p].One? && y[p].Zero?) || (x[p].Zero? && y[p].One?);
  }

  /** A frame of zeros is no command of a layout that begins with a one bit, or has one in second place. */
  lemma ZerosDoNotMatch(b: bool, c: bool)
    ensures !Matches(Layout(true, b, c), [0, 0, 0, 0]) && !Matches(Layout(b, true, c), [0, 0, 0, 0])
  {
    ZeroBit(7);
    ZeroBit(6);
    assert Layout(true, b, c)[0].One? && CmdBit([0, 0, 0, 0], 0) == 0;
    assert Layout(b, true, c)[1].One? && CmdBit([0, 0, 0, 0], 1) == 0;
  }

  /** The assumptions about targets can all be met at once. */
  lemma SomeTargetIsDescribed() returns (chip: Chip)
    ensures FlashWritable(chip) && FlashReadable(chip) && EepromWritable(chip) && EepromReadable(chip)
    ensures chip.flashBits == 2 && chip.eepromBits == 2
    ensures !IsWrite(chip, chip.info.pgmEnable) && WireLength(chip.info) <= 168
  {
    hide Layout, Tokens, WellFormed, Mentions, Separated, Inputs, Matches;
    forall b, c ensures !Matches(Layout(true, b, c), [0, 0, 0, 0]) && !Matches(Layout(b, true, c), [0, 0, 0, 0]) {
      ZerosDoNotMatch(b, c);
    }
    var lo := LayoutText(false, true, false);
    var hi := LayoutText(false, true, true);
    var readLo := LayoutText(false, false, false);
    var readHi := LayoutText(false, false, true);
    var write := LayoutText(true, true, false);
    var read := LayoutText(true, false, false);
    forall a, b, c
      ensures WellFormed(Layout(a, b, c)) && Inputs(Layout(a, b, c)) == 8 && Mentions(Layout(a, b, c), 2)
    {
      LayoutWellFormed(a, b, c);
      LayoutMentions(a, b, c);
    }
    forall a, b, c, a', b', c' | a != a' || b != b' || c != c'
      ensures Separated(Layout(a, b, c), Layout(a', b', c'))
    {
      LayoutsApart(a, b, c, a', b', c');
    }
    chip := Chip(AvrMcuInfo(lo, hi, readLo, readHi, 0, write, read, 0, [0, 0, 0, 0]), 2, 2);
  }

  /** So whole sessions with such a target are possible. */
  lemma SomeSessionIsPossible() returns (chip: Chip)
    ensures EndToEnd.Described(chip) && EndToEnd.Proper(chip, EndToEnd.Load(chip.info))
  {
    hide FlashWritable, FlashReadable, EepromWritable, EepromReadable, IsWrite;
    chip := SomeTargetIsDescribed();
    PutLength(chip.info, []);
  }

  /** A described target and memories on which both reads fail as the code is written. */
  lemma SomeReadsFail() returns (chip: Chip, mem: Memory, mem': Memory)
    ensures FlashReadable(chip) && EepromReadable(chip) && Fits(chip, mem) && Fits(chip, mem')
    ensures Accepted(AvrDevice(chip, mem), [], FlashReads(chip.info, 0, 2), AVR_CMD_SIZE) == 0
    ensures Accepted(AvrDevice(chip, mem'), [], EepromReads(chip.info, 0, 1), AVR_CMD_SIZE) == 0
  {
    hide FlashReadable, EepromReadable, Accepted, AvrDevice;
    chip := SomeTargetIsDescribed();
    mem := FlashReadCanFail(chip, 0, 2);
    mem' := EepromReadCanFail(chip, 0, 1);
  }
}
