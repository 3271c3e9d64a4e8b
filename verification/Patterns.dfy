/** The command pattern language of `programmer_parser.c`: its meaning, the in-place
    compiler `create_memory_cmd`, and the decoding that a target performs.

    A pattern describes the 32 bits of a serial programming command, most significant
    bit of the first byte first, one token a bit. */
module Patterns {
  import opened Bits

  const AVR_CMD_SIZE := 4

  /** A command or an answer on the wire. */
  type Frame = f: seq<u8> | |f| == 4 witness [0, 0, 0, 0]

  const CHAR_0: u8 := 48
  const CHAR_1: u8 := 49
  const CHAR_9: u8 := 57
  const CHAR_A: u8 := 97
  const CHAR_I: u8 := 105

  // ---------------------------------------------------------------- Meaning

  /** `Ignored` is any other character ('x', 'o', ...). Its bit stays zero. */
  datatype Token = Zero | One | Address(digits: seq<u8>) | Input | Ignored

  predicate IsDigit(c: u8) { CHAR_0 <= c <= CHAR_9 }

  /** How many leading characters are digits. */
  function DigitRun(s: seq<u8>): (n: nat)
    ensures n <= |s|
    ensures forall i :: 0 <= i < n ==> IsDigit(s[i])
    ensures n < |s| ==> !IsDigit(s[n])
  {
    if |s| == 0 || !IsDigit(s[0]) then 0 else 1 + DigitRun(s[1..])
  }

  function FirstToken(s: seq<u8>): Token
    requires |s| > 0
  {
    if s[0] == CHAR_1 then One
    else if s[0] == CHAR_0 then Zero
    else if s[0] == CHAR_A then Address(s[1..][..DigitRun(s[1..])])
    else if s[0] == CHAR_I then Input
    else Ignored
  }

  /** How many characters the first token takes. */
  function FirstLength(s: seq<u8>): (n: nat)
    requires |s| > 0
    ensures 0 < n <= |s|
  {
    if s[0] == CHAR_A then 1 + DigitRun(s[1..]) else 1
  }

  function Tokens(s: seq<u8>): seq<Token> {
    if |s| == 0 then [] else [FirstToken(s)] + Tokens(s[FirstLength(s)..])
  }

  /** The decimal number spelled by `digits`; 0 when there are none. */
  function Decimal(digits: seq<u8>): nat
    requires forall i :: 0 <= i < |digits| ==> IsDigit(digits[i])
  {
    if |digits| == 0 then 0
    else
      assert IsDigit(digits[|digits| - 1]);
      10 * Decimal(digits[..|digits| - 1]) + (digits[|digits| - 1] - CHAR_0)
  }

  /** The C library's `atoi` on an unsigned digit string with a terminator. */
  function Atoi(s: seq<u8>): nat {
    Decimal(s[..DigitRun(s)])
  }

  function Shift(t: Token): nat
    requires t.Address?
  {
    Atoi(t.digits)
  }

  function Inputs(toks: seq<Token>): (n: nat)
    ensures n <= |toks|
  {
    if |toks| == 0 then 0
    else Inputs(toks[..|toks| - 1]) + (if toks[|toks| - 1].Input? then 1 else 0)
  }

  /** The patterns on which every store and shift of the compiler is defined: the bits fit
      the command, the digits fit `ch_address_shift`, shifts stay below the width of the
      address, and input bits are taken from an eight-bit byte. Ignored characters behind the
      command store nothing. */
  predicate Compilable(toks: seq<Token>) {
    && (forall p :: 32 <= p < |toks| ==> toks[p].Ignored?)
    && Inputs(toks) <= 8
    && forall t :: t in toks && t.Address? ==> |t.digits| <= 2 && Shift(t) < 32
  }

  /** The same without anything behind the command. */
  predicate WellFormed(toks: seq<Token>) {
    |toks| <= 32 && Compilable(toks)
  }

  /** The bit that token `p` stands for. The k-th input token carries bit 7-k of the byte. */
  function TokenBit(toks: seq<Token>, p: nat, addr: u32, input: u8): (b: nat)
    requires p < |toks|
    ensures b <= 1
  {
    match toks[p]
    case One => 1
    case Address(_) => Bit(addr, Shift(toks[p]))
    case Input => if Inputs(toks[..p]) < 8 then Bit(input, 7 - Inputs(toks[..p])) else 0
    case _ => 0
  }

  /** Bit `p` of the compiled command. */
  function BitAt(toks: seq<Token>, p: nat, addr: u32, input: u8): (b: nat)
    ensures b <= 1
  {
    if p < |toks| then TokenBit(toks, p, addr, input) else 0
  }

  /** Bit `p` of a command, counted from the most significant bit of its first byte. */
  function CmdBit(cmd: Frame, p: nat): (b: nat)
    requires p < 32
    ensures b <= 1
  {
    Bit(cmd[p / 8], 7 - p % 8)
  }

  /** A command is determined by its 32 bits. */
  lemma FrameExtensional(a: Frame, b: Frame)
    requires forall p :: 0 <= p < 32 ==> CmdBit(a, p) == CmdBit(b, p)
    ensures a == b
  {
    Pow2Consts();
    forall i | 0 <= i < 4 ensures a[i] == b[i] {
      forall k: nat | k < 8 ensures Bit(a[i], k) == Bit(b[i], k) {
        assert CmdBit(a, 8 * i + 7 - k) == CmdBit(b, 8 * i + 7 - k);
      }
      SameBits(a[i], b[i], 8);
    }
  }

  function ByteBits(toks: seq<Token>, i: nat, addr: u32, input: u8): (bits: seq<nat>)
    ensures |bits| == 8
    ensures forall k :: 0 <= k < 8 ==> bits[k] <= 1 && bits[k] == BitAt(toks, 8 * i + 7 - k, addr, input)
  {
    seq(8, k requires 0 <= k < 8 => BitAt(toks, 8 * i + 7 - k, addr, input))
  }

  function PackByte(toks: seq<Token>, i: nat, addr: u32, input: u8): u8 {
    ValueBits(ByteBits(toks, i, addr, input));
    Pow2Consts();
    Value(ByteBits(toks, i, addr, input))
  }

  /** The command whose bits are the meanings of the tokens. */
  function Render(toks: seq<Token>, addr: u32, input: u8): (f: Frame) {
    seq(AVR_CMD_SIZE, i requires 0 <= i < AVR_CMD_SIZE => PackByte(toks, i, addr, input))
  }

  /** Bit p of a rendered command is the meaning of token p, and zero past the last token. */
  lemma RenderBits(toks: seq<Token>, addr: u32, input: u8, p: nat)
    requires p < 32
    ensures CmdBit(Render(toks, addr, input), p) == BitAt(toks, p, addr, input)
  {
    ValueBits(ByteBits(toks, p / 8, addr, input));
    var k := 7 - p % 8;
    assert 8 * (p / 8) + 7 - k == p;
    assert Render(toks, addr, input)[p / 8] == PackByte(toks, p / 8, addr, input);
  }

  // ------------------------------------------- The same, character by character

  predicate DecimalDigit(c: u8) { 48 <= c <= 57 }

  /** How many digits follow the `a` in front of `text`, up to two. */
  function ShiftDigits(text: seq<u8>): (n: nat)
    requires |text| > 0
    ensures n < |text| && n <= 2
  {
    if |text| < 2 || !DecimalDigit(text[1]) then 0
    else if |text| < 3 || !DecimalDigit(text[2]) then 1
    else 2
  }

  /** The address bit that an `a` with its digits stands for. */
  function ShiftOf(text: seq<u8>): nat
    requires |text| > 0
  {
    match ShiftDigits(text)
    case 0 => 0
    case 1 => if DecimalDigit(text[1]) then text[1] - 48 else 0
    case _ => if DecimalDigit(text[1]) && DecimalDigit(text[2]) then 10 * (text[1] - 48) + (text[2] - 48) else 0
  }

  /** The bits of a pattern read from the left: 1 for a `1`, a bit of the address for an `a` and
      its decimal digits, the next bit of the byte for an `i`, and 0 for anything else. `used` bits
      of the byte have been taken before. */
  function Reading(text: seq<u8>, addr: u32, input: u8, used: nat): seq<nat> {
    if |text| == 0 then []
    else if text[0] == 97 then
      [Digit(addr, ShiftOf(text))] + Reading(text[1 + ShiftDigits(text)..], addr, input, used)
    else if text[0] == 105 then
      [if used < 8 then Digit(input, 7 - used) else 0] + Reading(text[1..], addr, input, used + 1)
    else [if text[0] == 49 then 1 else 0] + Reading(text[1..], addr, input, used)
  }

  /** The bits of a command, from the highest bit of its first byte. */
  predicate HasBits(cmd: Frame, bits: seq<nat>) {
    forall p :: 0 <= p < 32 ==> Digit(cmd[p / 8], 7 - p % 8) == if p < |bits| then bits[p] else 0
  }

  predicate ShortShifts(toks: seq<Token>) {
    forall t :: t in toks && t.Address? ==> |t.digits| <= 2
  }

  /** One and two decimal digits. */
  lemma {:induction false} DecimalDigits(x: u8, y: u8)
    requires IsDigit(x) && IsDigit(y)
    ensures Decimal([x]) == x - 48 && Decimal([x, y]) == 10 * (x - 48) + (y - 48)
  {
    assert [x][..0] == [] && [x, y][..1] == [x];
  }

  /** A short digit run is what the scan sees behind an `a`. */
  lemma {:induction false} ShiftIs(text: seq<u8>)
    requires |text| > 0 && DigitRun(text[1..]) <= 2
    ensures DigitRun(text[1..]) == ShiftDigits(text)
    ensures Atoi(text[1..][..DigitRun(text[1..])]) == ShiftOf(text)
  {
    var rest, n := text[1..], DigitRun(text[1..]);
    var digits := rest[..n];
    assert |rest| > 0 ==> rest[0] == text[1];
    assert |rest| > 1 ==> rest[1] == text[2] && rest[1..][0] == rest[1];
    assert DigitRun(digits) == n && digits[..n] == digits;
    if n == 1 {
      assert digits == [text[1]];
      DecimalDigits(text[1], text[1]);
    } else if n == 2 {
      assert digits == [text[1], text[2]];
      DecimalDigits(text[1], text[2]);
    }
  }

  lemma {:induction false} InputsFront(t: Token, toks: seq<Token>)
    ensures Inputs([t] + toks) == (if t.Input? then 1 else 0) + Inputs(toks)
  {
    if |toks| == 0 {
      assert ([t] + toks)[..0] == [];
    } else {
      assert ([t] + toks)[..|toks|] == [t] + toks[..|toks| - 1];
      InputsFront(t, toks[..|toks| - 1]);
    }
  }

  /** The bit of token p when `used` bits of the byte have been taken before. */
  function BitAfter(toks: seq<Token>, p: nat, addr: u32, input: u8, used: nat): nat
    requires p < |toks|
  {
    match toks[p]
    case One => 1
    case Address(_) => Bit(addr, Shift(toks[p]))
    case Input => if used + Inputs(toks[..p]) < 8 then Bit(input, 7 - (used + Inputs(toks[..p]))) else 0
    case _ => 0
  }

  lemma {:induction false} BitAfterFirst(t: Token, toks: seq<Token>, p: nat, addr: u32, input: u8, used: nat)
    requires p < |toks|
    ensures BitAfter([t] + toks, p + 1, addr, input, used)
         == BitAfter(toks, p, addr, input, used + if t.Input? then 1 else 0)
  {
    assert ([t] + toks)[..p + 1] == [t] + toks[..p];
    InputsFront(t, toks[..p]);
  }

  lemma {:induction false} FirstReading(text: seq<u8>, addr: u32, input: u8, used: nat)
    requires |text| > 0 && ShortShifts(Tokens(text))
    ensures Reading(text, addr, input, used)
         == [BitAfter(Tokens(text), 0, addr, input, used)]
            + Reading(text[FirstLength(text)..], addr, input, used + if FirstToken(text).Input? then 1 else 0)
  {
    var t := FirstToken(text);
    assert t == Tokens(text)[0] && t in Tokens(text);
    assert Tokens(text)[..0] == [];
    if text[0] == CHAR_A {
      assert |t.digits| <= 2;
      ShiftIs(text);
      BitDiv(addr, Shift(t));
    } else if used < 8 {
      BitDiv(input, 7 - used);
    }
  }

  /** Reading character by character gives the bits of the tokens. */
  lemma {:induction false} ReadingIsTokens(text: seq<u8>, addr: u32, input: u8, used: nat)
    requires ShortShifts(Tokens(text))
    ensures |Reading(text, addr, input, used)| == |Tokens(text)|
    ensures forall p :: 0 <= p < |Tokens(text)| ==>
              Reading(text, addr, input, used)[p] == BitAfter(Tokens(text), p, addr, input, used)
    decreases |text|
  {
    if |text| > 0 {
      var rest, t := text[FirstLength(text)..], FirstToken(text);
      var after := used + if t.Input? then 1 else 0;
      FirstReading(text, addr, input, used);
      assert Tokens(text) == [t] + Tokens(rest);
      hide Reading, BitAfter, Tokens;
      assert forall u :: u in Tokens(rest) ==> u in Tokens(text);
      ReadingIsTokens(rest, addr, input, after);
      forall p | 0 <= p < |Tokens(rest)|
        ensures Reading(rest, addr, input, after)[p] == BitAfter(Tokens(text), p + 1, addr, input, used)
      {
        BitAfterFirst(t, Tokens(rest), p, addr, input, used);
      }
    }
  }

  /** So the compiled command has the bits that the pattern spells. */
  lemma {:induction false} RenderReads(text: seq<u8>, addr: u32, input: u8)
    requires Compilable(Tokens(text))
    ensures HasBits(Render(Tokens(text), addr, input), Reading(text, addr, input, 0))
  {
    var toks := Tokens(text);
    var cmd, bits := Render(toks, addr, input), Reading(text, addr, input, 0);
    ReadingIsTokens(text, addr, input, 0);
    forall p | 0 <= p < 32 ensures Digit(cmd[p / 8], 7 - p % 8) == if p < |bits| then bits[p] else 0 {
      RenderBits(toks, addr, input, p);
      BitDiv(cmd[p / 8], 7 - p % 8);
    }
  }

  // --------------------------------------------------------------- Compiler

  /** `cmd[byte] |= v << off` sets one bit of the command and leaves the others. */
  lemma OrSetsBit(cmd: Frame, i: nat, off: nat, v: nat)
    requires i < 4 && off < 8 && v <= 1
    ensures Or(cmd[i], Shl(v, off)) < 0x100
    ensures var p := 8 * i + 7 - off;
            var cmd' := cmd[i := Or(cmd[i], Shl(v, off))];
            forall q :: 0 <= q < 32 ==>
              CmdBit(cmd', q) == if q == p && v == 1 then 1 else CmdBit(cmd, q)
  {
    Pow2Consts();
    ShlBound(v, off, 8);
    OrBound(cmd[i], Shl(v, off), 8);
    var cmd' := cmd[i := Or(cmd[i], Shl(v, off))];
    forall q | 0 <= q < 32
      ensures CmdBit(cmd', q) == if q == 8 * i + 7 - off && v == 1 then 1 else CmdBit(cmd, q)
    {
      OrBit(cmd[i], Shl(v, off), 7 - q % 8);
      ShlBit(v, off, 7 - q % 8);
    }
  }

  lemma {:induction false} InputsSplit(toks: seq<Token>, p: nat)
    requires p <= |toks|
    ensures Inputs(toks[..p]) <= Inputs(toks)
  {
    if p < |toks| {
      InputsSplit(toks[..|toks| - 1], p);
      assert toks[..|toks| - 1][..p] == toks[..p];
    } else {
      assert toks[..p] == toks;
    }
  }

  lemma InputsStep(toks: seq<Token>, p: nat)
    requires p < |toks|
    ensures Inputs(toks[..p + 1]) == Inputs(toks[..p]) + (if toks[p].Input? then 1 else 0)
    ensures Inputs(toks[..p + 1]) <= Inputs(toks)
  {
    assert toks[..p + 1][..p] == toks[..p];
    InputsSplit(toks, p + 1);
  }

  /** `cmd_input_offset` after `done` tokens: it wraps around once all eight bits are used. */
  function NextInput(toks: seq<Token>, done: nat): u8
    requires done <= |toks| && Inputs(toks) <= 8
  {
    InputsSplit(toks, done);
    if Inputs(toks[..done]) < 8 then 7 - Inputs(toks[..done]) else 255
  }

  /** Digits followed by a terminator read back as the digits. */
  lemma AtoiTerminated(digits: seq<u8>, rest: seq<u8>)
    requires forall i :: 0 <= i < |digits| ==> IsDigit(digits[i])
    requires |rest| > 0 && !IsDigit(rest[0])
    ensures DigitRun(digits + rest) == |digits|
    ensures Atoi(digits + rest) == Atoi(digits)
  {
    var s := digits + rest;
    var n := DigitRun(s);
    assert s[|digits|] == rest[0];
    assert forall i :: 0 <= i < |digits| ==> s[i] == digits[i];
    assert s[..n] == digits;
    assert DigitRun(digits) == |digits|;
    assert digits[..|digits|] == digits;
  }

  /** The first `done` tokens have been compiled and the remaining bits are clear. */
  ghost predicate Built(cmd: seq<u8>, toks: seq<Token>, done: nat, addr: u32, input: u8) {
    && |cmd| == AVR_CMD_SIZE
    && forall q :: 0 <= q < 32 ==> CmdBit(cmd, q) == if q < done then BitAt(toks, q, addr, input) else 0
  }

  lemma BuiltStart(cmd: Frame, toks: seq<Token>, addr: u32, input: u8)
    requires forall k :: 0 <= k < 4 ==> cmd[k] == 0
    ensures Built(cmd, toks, 0, addr, input)
  {
    forall q | 0 <= q < 32 ensures CmdBit(cmd, q) == 0 { ZeroBit(7 - q % 8); }
  }

  /** OR-ing in the bit of token `p` compiles it; a zero bit needs no store. */
  lemma BuiltStep(cmd: Frame, toks: seq<Token>, p: nat, addr: u32, input: u8, i: nat, off: nat, bit: nat)
    requires p < |toks| && i < 4 && off < 8 && p == 8 * i + 7 - off
    requires Built(cmd, toks, p, addr, input)
    requires bit == TokenBit(toks, p, addr, input)
    ensures Or(cmd[i], Shl(bit, off)) < 0x100
    ensures Built(cmd[i := Or(cmd[i], Shl(bit, off))], toks, p + 1, addr, input)
    ensures bit == 0 ==> Built(cmd, toks, p + 1, addr, input)
  {
    OrSetsBit(cmd, i, off, bit);
    assert BitAt(toks, p, addr, input) == bit;
  }

  /** All 32 bits of the command are settled. */
  lemma BuiltBeyond(cmd: Frame, toks: seq<Token>, done: nat, addr: u32, input: u8)
    requires 32 <= done && Built(cmd, toks, done, addr, input)
    ensures Built(cmd, toks, done + 1, addr, input)
  {}

  lemma BuiltAll(cmd: Frame, toks: seq<Token>, addr: u32, input: u8)
    requires Built(cmd, toks, |toks|, addr, input)
    ensures cmd == Render(toks, addr, input)
  {
    forall p | 0 <= p < 32 ensures CmdBit(cmd, p) == CmdBit(Render(toks, addr, input), p) {
      RenderBits(toks, addr, input, p);
    }
    FrameExtensional(cmd, Render(toks, addr, input));
  }

  lemma {:induction false} ScannedShift(pattern: seq<u8>, patternLen: u8, start: u8)
    requires 0 < start <= patternLen < |pattern| && DigitRun(pattern[start..patternLen]) <= 2
    ensures var d := DigitRun(pattern[start..patternLen]);
            start + d <= patternLen
            && Atoi(pattern[start..patternLen][..d])
            == match d
               case 0 => 0
               case 1 => pattern[start] - 48
               case _ => 10 * (pattern[start] - 48) + (pattern[start + 1] - 48)
  {
    var text := pattern[start - 1..patternLen];
    assert text[1..] == pattern[start..patternLen];
    ShiftIs(text);
  }

  /** The digit scan after an `a` at `start - 1`: it stops at the first non-digit, which is
      the terminator at the latest, and steps back so that the loop's own increment lands there. */
  method ScanShift(pattern: seq<u8>, patternLen: u8, start: u8) returns (addressShift: nat, j: u8)
    requires 0 < start <= patternLen < |pattern| && pattern[patternLen] == 0
    requires DigitRun(pattern[start..patternLen]) <= 2
    ensures var d := DigitRun(pattern[start..patternLen]);
            && j == start + d - 1 && addressShift == Atoi(pattern[start..patternLen][..d])
            && addressShift == match d
                               case 0 => 0
                               case 1 => pattern[start] - 48
                               case _ => 10 * (pattern[start] - 48) + (pattern[start + 1] - 48)
  {
    ghost var text := pattern[start..patternLen];
    ghost var d := DigitRun(text);
    assert forall i :: 0 <= i < |text| ==> text[i] == pattern[start + i];
    j := start;
    var k: u8 := 0;
    var shiftText := new u8[3];
    while IsDigit(pattern[j])
      invariant j == start + k <= patternLen
      invariant k <= d
      invariant shiftText[..k] == text[..k]
      decreases patternLen - j
    {
      shiftText[k] := pattern[j];
      k := k + 1;
      j := j + 1;
    }
    j := j - 1;
    shiftText[k] := 0;
    assert shiftText[..] == shiftText[..k] + shiftText[k..];
    AtoiTerminated(text[..k], shiftText[k..]);
    addressShift := Atoi(shiftText[..]);
    hide Atoi, DigitRun, IsDigit;
    ScannedShift(pattern, patternLen, start);
  }

  /** What the loop sees at character `j` is the next token, and what follows it. */
  lemma NextToken(text: seq<u8>, toks: seq<Token>, done: nat)
    requires done <= |toks| && toks[done..] == Tokens(text)
    requires |text| > 0
    ensures done < |toks| && toks[done] == Tokens(text)[0]
    ensures toks[done + 1..] == Tokens(text[FirstLength(text)..])
    ensures Inputs(toks[..done + 1]) == Inputs(toks[..done]) + (if toks[done].Input? then 1 else 0)
    ensures Inputs(toks[..done + 1]) <= Inputs(toks)
  {
    assert toks[done] == toks[done..][0];
    assert toks[done + 1..] == toks[done..][1..];
    InputsStep(toks, done);
  }

  /** `cmd[byteOffset] |= v << bitOffset` */
  method StoreBit(cmd: array<u8>, byteOffset: u8, bitOffset: int, v: nat)
    requires cmd.Length == AVR_CMD_SIZE && byteOffset < 4 && 0 <= bitOffset < 8
    requires Or(cmd[byteOffset], Shl(v, bitOffset)) < 0x100
    modifies cmd
    ensures cmd[..] == old(cmd[..])[byteOffset := Or(old(cmd[byteOffset]), Shl(v, bitOffset))]
  {
    cmd[byteOffset] := Or(cmd[byteOffset], Shl(v, bitOffset));
  }

  /** The bit of the next token, by its first character. */
  lemma NextBit(text: seq<u8>, toks: seq<Token>, done: nat, addr: u32, input: u8)
    requires done <= |toks| && toks[done..] == Tokens(text) && Compilable(toks)
    requires |text| > 0
    ensures done < |toks|
    ensures text[0] == CHAR_A ==> DigitRun(text[1..]) <= 2
    ensures text[0] == CHAR_A || text[0] == CHAR_1 || text[0] == CHAR_0 || text[0] == CHAR_I ==> done < 32
    ensures TokenBit(toks, done, addr, input)
         == if text[0] == CHAR_A then Bit(addr, Atoi(text[1..][..DigitRun(text[1..])]))
            else if text[0] == CHAR_1 then 1
            else if text[0] == CHAR_I then Bit(input, NextInput(toks, done))
            else 0
    ensures NextInput(toks, done + 1)
         == if text[0] != CHAR_I then NextInput(toks, done)
            else if NextInput(toks, done) == 0 then 255
            else NextInput(toks, done) - 1
  {
    NextToken(text, toks, done);
    assert toks[done] in toks;
  }

  /** `memset(cmd, 0, AVR_CMD_SIZE)` */
  method ClearCmd(cmd: array<u8>, ghost toks: seq<Token>, ghost addr: u32, ghost input: u8)
    requires cmd.Length == AVR_CMD_SIZE
    modifies cmd
    ensures cmd[..] == [0, 0, 0, 0]
    ensures Built(cmd[..], toks, 0, addr, input)
  {
    for i := 0 to AVR_CMD_SIZE
      invariant forall k :: 0 <= k < i ==> cmd[k] == 0
    {
      cmd[i] := 0;
    }
    BuiltStart(cmd[..], toks, addr, input);
  }

  /** Where the compiler stands after `done` tokens. */
  ghost predicate Progress(text: seq<u8>, toks: seq<Token>, done: nat,
                           byteOffset: u8, bitOffset: int, inputOffset: u8) {
    && Compilable(toks) && done <= |toks| && done + |text| <= 255
    && toks[done..] == Tokens(text)
    && 0 <= bitOffset <= 7 && done == 8 * byteOffset + 7 - bitOffset
    && inputOffset == NextInput(toks, done)
  }

  /** One round of the compiler: consumes the token at character `j0` and stores its bit.
      Returns the index of the token's last character. */
  method CompileToken(pattern: seq<u8>, patternLen: u8, j0: u8, addr: u32, input: u8, cmd: array<u8>,
                      byteOffset: u8, bitOffset: int, inputOffset0: u8, ghost toks: seq<Token>, ghost done: nat)
    returns (j: u8, inputOffset: u8)
    requires j0 < patternLen < |pattern| && pattern[patternLen] == 0
    requires Progress(pattern[j0..patternLen], toks, done, byteOffset, bitOffset, inputOffset0)
    requires cmd.Length == AVR_CMD_SIZE && Built(cmd[..], toks, done, addr, input)
    modifies cmd
    ensures j0 <= j < patternLen
    ensures Built(cmd[..], toks, done + 1, addr, input)
    ensures j + 1 == j0 + FirstLength(pattern[j0..patternLen])
    ensures done < |toks| && inputOffset == NextInput(toks, done + 1)
  {
    ghost var text := pattern[j0..patternLen];
    assert text[1..] == pattern[j0 + 1..patternLen];
    assert text[0] == pattern[j0];
    NextBit(text, toks, done, addr, input);
    if done < 32 {
      BuiltStep(cmd[..], toks, done, addr, input, byteOffset, bitOffset, TokenBit(toks, done, addr, input));
    } else {
      BuiltBeyond(cmd[..], toks, done, addr, input);
    }

    j, inputOffset := j0, inputOffset0;
    if pattern[j] == CHAR_1 {
      StoreBit(cmd, byteOffset, bitOffset, 1);
    } else if pattern[j] == CHAR_0 {
      // `cmd[byte] &= ~(0 << bit)` keeps every bit.
    } else if pattern[j] == CHAR_A {
      var addressShift;
      addressShift, j := ScanShift(pattern, patternLen, j + 1);
      StoreBit(cmd, byteOffset, bitOffset, Bit(addr, addressShift));
    } else if pattern[j] == CHAR_I {
      StoreBit(cmd, byteOffset, bitOffset, Bit(input, inputOffset));
      inputOffset := if inputOffset == 0 then 255 else inputOffset - 1;
    }
  }

  /** The compiler starts at the first token and ends after the last one. */
  lemma ProgressEnds(text: seq<u8>, toks: seq<Token>, done: nat, byteOffset: u8, bitOffset: int, inputOffset: u8)
    requires Progress(text, toks, done, byteOffset, bitOffset, inputOffset)
    ensures done < |toks| <==> |text| > 0
    ensures byteOffset < 255
  {
    if |text| > 0 { NextToken(text, toks, done); }
  }

  lemma ProgressStep(text: seq<u8>, toks: seq<Token>, done: nat, byteOffset: u8, bitOffset: int, inputOffset: u8,
                     byteOffset': u8, bitOffset': int, inputOffset': u8)
    requires |text| > 0 && Progress(text, toks, done, byteOffset, bitOffset, inputOffset)
    requires done < |toks| && inputOffset' == NextInput(toks, done + 1)
    requires 0 <= bitOffset' <= 7 && 8 * byteOffset' - bitOffset' == 8 * byteOffset - bitOffset + 1
    ensures Progress(text[FirstLength(text)..], toks, done + 1, byteOffset', bitOffset', inputOffset')
  {
    NextToken(text, toks, done);
  }

  /** `if(--cmd_bit_offset < 0)`: on to the next byte. */
  method NextOffsets(byteOffset0: u8, bitOffset0: int) returns (byteOffset: u8, bitOffset: int)
    requires byteOffset0 < 255 && 0 <= bitOffset0 <= 7
    ensures 0 <= bitOffset <= 7 && 8 * byteOffset - bitOffset == 8 * byteOffset0 - bitOffset0 + 1
  {
    byteOffset, bitOffset := byteOffset0, bitOffset0 - 1;
    if bitOffset < 0 {
      bitOffset := 7;
      byteOffset := byteOffset + 1;
    }
  }

  /** The body of the compiler's loop, with the loop's own `j++`. */
  method CompileRound(pattern: seq<u8>, patternLen: u8, j0: u8, addr: u32, input: u8, cmd: array<u8>,
                      byteOffset0: u8, bitOffset0: int, inputOffset0: u8, ghost toks: seq<Token>, ghost done: nat)
    returns (j: u8, byteOffset: u8, bitOffset: int, inputOffset: u8)
    requires j0 < patternLen < |pattern| && pattern[patternLen] == 0
    requires Progress(pattern[j0..patternLen], toks, done, byteOffset0, bitOffset0, inputOffset0)
    requires cmd.Length == AVR_CMD_SIZE && Built(cmd[..], toks, done, addr, input)
    modifies cmd
    ensures j0 < j <= patternLen
    ensures Built(cmd[..], toks, done + 1, addr, input)
    ensures Progress(pattern[j..patternLen], toks, done + 1, byteOffset, bitOffset, inputOffset)
  {
    ghost var text := pattern[j0..patternLen];
    ProgressEnds(text, toks, done, byteOffset0, bitOffset0, inputOffset0);
    j, inputOffset := CompileToken(pattern, patternLen, j0, addr, input, cmd,
                                   byteOffset0, bitOffset0, inputOffset0, toks, done);
    byteOffset, bitOffset := NextOffsets(byteOffset0, bitOffset0);
    j := j + 1;
    assert text[FirstLength(text)..] == pattern[j..patternLen];
    ProgressStep(text, toks, done, byteOffset0, bitOffset0, inputOffset0, byteOffset, bitOffset, inputOffset);
  }

  /** Compiles a pattern into `cmd`. Neither the scan nor the 8-bit index `j` passes the
      terminator, even for 255 characters. */
  method CreateMemoryCmd(pattern: seq<u8>, patternLen: u8, addr: u32, input: u8, cmd: array<u8>)
    requires patternLen < |pattern| && pattern[patternLen] == 0
    requires Compilable(Tokens(pattern[..patternLen]))
    requires cmd.Length == AVR_CMD_SIZE
    modifies cmd
    ensures cmd[..] == Render(Tokens(pattern[..patternLen]), addr, input)
    ensures HasBits(cmd[..], Reading(pattern[..patternLen], addr, input, 0))
  {
    ghost var toks := Tokens(pattern[..patternLen]);
    ghost var done := 0;
    ClearCmd(cmd, toks, addr, input);
    var byteOffset: u8 := 0;
    var bitOffset := 7;
    var inputOffset: u8 := 7;
    var j: u8 := 0;
    assert pattern[0..patternLen] == pattern[..patternLen];
    assert Progress(pattern[j..patternLen], toks, done, byteOffset, bitOffset, inputOffset);
    while j < patternLen
      invariant j <= patternLen
      invariant Progress(pattern[j..patternLen], toks, done, byteOffset, bitOffset, inputOffset)
      invariant Built(cmd[..], toks, done, addr, input)
      decreases patternLen - j
    {
      j, byteOffset, bitOffset, inputOffset :=
        CompileRound(pattern, patternLen, j, addr, input, cmd, byteOffset, bitOffset, inputOffset, toks, done);
      done := done + 1;
    }
    ProgressEnds(pattern[j..patternLen], toks, done, byteOffset, bitOffset, inputOffset);
    BuiltAll(cmd[..], toks, addr, input);
    RenderReads(pattern[..patternLen], addr, input);
  }

  // ------------------------------------------------- One character anywhere

  /** Reading two texts one behind the other, when the second does not go on with digits. */
  lemma {:induction false} TokensAppend(pre: seq<u8>, rest: seq<u8>)
    requires |rest| > 0 ==> !IsDigit(rest[0])
    ensures Tokens(pre + rest) == Tokens(pre) + Tokens(rest)
    decreases |pre|
  {
    hide FirstToken, FirstLength, Tokens, DigitRun;
    if |pre| == 0 {
      NoTokens();
      assert pre + rest == rest && [] + Tokens(rest) == Tokens(rest);
    } else {
      var n := FirstLength(pre);
      FirstAppend(pre, rest);
      assert (pre + rest)[n..] == pre[n..] + rest;
      TokensNext(pre + rest, n);
      TokensNext(pre, n);
      TokensAppend(pre[n..], rest);
      assert Tokens(pre + rest) == [FirstToken(pre)] + (Tokens(pre[n..]) + Tokens(rest));
    }
  }

  lemma NoTokens()
    ensures Tokens([]) == [] && Inputs([]) == 0
  {}

  lemma {:induction false} TokensNext(text: seq<u8>, n: nat)
    requires |text| > 0 && n == FirstLength(text)
    ensures Tokens(text) == [FirstToken(text)] + Tokens(text[n..])
  {}

  lemma {:induction false} FirstAppend(pre: seq<u8>, rest: seq<u8>)
    requires |pre| > 0 && (|rest| > 0 ==> !IsDigit(rest[0]))
    ensures FirstToken(pre + rest) == FirstToken(pre) && FirstLength(pre + rest) == FirstLength(pre)
  {
    if pre[0] == CHAR_A {
      var a, s := pre[1..], (pre + rest)[1..];
      assert s == a + rest;
      var n := DigitRun(a);
      assert forall i :: 0 <= i < |a| ==> s[i] == a[i];
      assert n == |a| && |rest| > 0 ==> s[n] == rest[0];
      assert DigitRun(s) == n;
      assert s[..n] == a[..n];
    }
  }

  /** The decimal digits of s, without or with a leading zero. */
  predicate SpellsShift(digits: seq<u8>, s: nat) {
    (s < 10 && digits == [48 + s]) || (s < 32 && digits == [48 + s / 10, 48 + s % 10])
  }

  lemma {:induction false} SpelledShift(digits: seq<u8>, s: nat, post: seq<u8>, rest: seq<u8>)
    requires SpellsShift(digits, s) && (|post| > 0 ==> !DecimalDigit(post[0]))
    requires rest == [97] + digits + post
    ensures FirstToken(rest).Address? && Shift(FirstToken(rest)) == s
  {
    assert rest[1..] == digits + post;
    assert rest[1] == digits[0];
    if |digits| == 2 { assert rest[2] == digits[1]; }
    assert |post| > 0 ==> rest[1 + |digits|] == post[0];
    var run := DigitRun(rest[1..]);
    assert forall i :: 0 <= i < |digits| ==> rest[1..][i] == digits[i];
    assert |post| > 0 ==> rest[1..][|digits|] == post[0];
    assert run == |digits|;
    ShiftIs(rest);
  }

  /** The bit of a compiled command at a token's place. */
  lemma {:induction false} BitAtToken(text: seq<u8>, p: nat, addr: u32, input: u8)
    requires Compilable(Tokens(text)) && p < 32 && p < |Tokens(text)|
    ensures Digit(Render(Tokens(text), addr, input)[p / 8], 7 - p % 8)
         == BitAfter(Tokens(text), p, addr, input, 0)
  {
    RenderReads(text, addr, input);
    ReadingIsTokens(text, addr, input, 0);
  }

  /** Wherever an `a` with the decimal digits of s stands in a pattern, the bit of the command at
      its place is bit s of the address. */
  lemma {:induction false} AddressCharacter(pre: seq<u8>, digits: seq<u8>, s: nat, post: seq<u8>, addr: u32, input: u8)
    requires SpellsShift(digits, s) && (|post| > 0 ==> !DecimalDigit(post[0]))
    requires Compilable(Tokens(pre + ([97] + digits + post))) && |Tokens(pre)| < 32
    ensures var cmd, p := Render(Tokens(pre + ([97] + digits + post)), addr, input), |Tokens(pre)|;
            Digit(cmd[p / 8], 7 - p % 8) == Digit(addr, s)
  {
    var rest := [97] + digits + post;
    var text, p := pre + rest, |Tokens(pre)|;
    TokensAppend(pre, rest);
    SpelledShift(digits, s, post, rest);
    TokensNext(rest, FirstLength(rest));
    hide Tokens, Compilable, Render, Shift, FirstToken, FirstLength, SpellsShift, Digit;
    assert Tokens(text)[p] == FirstToken(rest);
    BitAtToken(text, p, addr, input);
    BitDiv(addr, s);
  }

  /** An `i` carries the next bit of the byte, the highest first: bit 7-k when k of them precede it. */
  lemma {:induction false} InputCharacter(pre: seq<u8>, post: seq<u8>, addr: u32, input: u8)
    requires Compilable(Tokens(pre + ([105] + post))) && |Tokens(pre)| < 32
    ensures multiset(pre)[105] < 8
    ensures var cmd, p := Render(Tokens(pre + ([105] + post)), addr, input), |Tokens(pre)|;
            Digit(cmd[p / 8], 7 - p % 8) == Digit(input, 7 - multiset(pre)[105])
  {
    var text, p := pre + ([105] + post), |Tokens(pre)|;
    InputPlace(pre, post);
    InputsStep(Tokens(text), p);
    hide Tokens, Render, Digit, Inputs;
    BitAtToken(text, p, addr, input);
    BitDiv(input, 7 - multiset(pre)[105]);
  }

  lemma {:induction false} InputPlace(pre: seq<u8>, post: seq<u8>)
    ensures var toks, p := Tokens(pre + ([105] + post)), |Tokens(pre)|;
            p < |toks| && toks[p] == Input && Inputs(toks[..p]) == multiset(pre)[105]
  {
    var rest := [105] + post;
    TokensAppend(pre, rest);
    TokensNext(rest, 1);
    InputsAreCharacters(pre);
    hide Tokens, Inputs;
    assert Tokens(pre + rest)[..|Tokens(pre)|] == Tokens(pre);
  }

  lemma {:induction false} InputsAreCharacters(text: seq<u8>)
    ensures Inputs(Tokens(text)) == multiset(text)[105]
    decreases |text|
  {
    NoTokens();
    hide Tokens, Inputs, FirstToken, FirstLength;
    if |text| > 0 {
      var n := FirstLength(text);
      InputsAreCharacters(text[n..]);
      TokensNext(text, n);
      InputsFront(FirstToken(text), Tokens(text[n..]));
      FirstCounts(text);
      assert text == text[..n] + text[n..];
    }
  }

  lemma {:induction false} FirstCounts(text: seq<u8>)
    requires |text| > 0
    ensures multiset(text[..FirstLength(text)])[105] == if FirstToken(text).Input? then 1 else 0
  {
    var n := FirstLength(text);
    assert text[..n] == [text[0]] + text[1..n];
    forall i | 1 <= i < n ensures IsDigit(text[i]) {
      assert text[i] == text[1..][i - 1];
    }
    assert forall c :: c in text[1..n] ==> IsDigit(c);
    assert multiset(text[1..n])[105] == 0;
  }
}
