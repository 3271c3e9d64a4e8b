/** Reading a command back: the inverse of the pattern compiler, as a target performs it. */
module Decoding {
  import opened Bits
  import opened Patterns

  /** The first token carrying address bit `s`, or |toks|. */
  function FindAddress(toks: seq<Token>, s: nat): (p: nat)
    ensures p <= |toks|
    ensures p < |toks| ==> toks[p].Address? && Shift(toks[p]) == s
    ensures forall q :: 0 <= q < p ==> !(toks[q].Address? && Shift(toks[q]) == s)
  {
    if |toks| == 0 || (toks[0].Address? && Shift(toks[0]) == s) then 0
    else 1 + FindAddress(toks[1..], s)
  }

  /** The k-th input token, counted from 0, or |toks|. */
  function FindInput(toks: seq<Token>, k: nat): (p: nat)
    ensures p <= |toks|
    ensures p < |toks| ==> toks[p].Input? && Inputs(toks[..p]) == k
    ensures k < Inputs(toks) ==> p < |toks|
    decreases |toks|
  {
    if |toks| == 0 then 0
    else
      var init, last := toks[..|toks| - 1], toks[|toks| - 1];
      if last.Input? && Inputs(init) == k then |toks| - 1
      else
        var p := FindInput(init, k);
        assert p < |init| ==> init[..p] == toks[..p];
        if p < |init| then p else |toks|
  }

  /** The pattern mentions every address bit below n. */
  predicate Mentions(toks: seq<Token>, n: nat) {
    forall s: nat :: s < n ==> FindAddress(toks, s) < |toks|
  }

  function AddressBit(toks: seq<Token>, frame: Frame, s: nat): (b: nat)
    requires |toks| <= 32 && FindAddress(toks, s) < |toks|
    ensures b <= 1
  {
    CmdBit(frame, FindAddress(toks, s))
  }

  function InputBit(toks: seq<Token>, frame: Frame, k: nat): (b: nat)
    requires |toks| <= 32 && k < Inputs(toks)
    ensures b <= 1
  {
    CmdBit(frame, FindInput(toks, k))
  }

  function AddressBits(toks: seq<Token>, frame: Frame, n: nat): (bits: seq<nat>)
    requires |toks| <= 32 && Mentions(toks, n)
    ensures |bits| == n
    ensures forall s :: 0 <= s < n ==> bits[s] <= 1 && bits[s] == AddressBit(toks, frame, s)
  {
    seq(n, s requires 0 <= s < n => AddressBit(toks, frame, s))
  }

  /** The byte's bits, least significant first; the first input token carries the highest. */
  function InputBits(toks: seq<Token>, frame: Frame): (bits: seq<nat>)
    requires |toks| <= 32
    ensures |bits| == Inputs(toks)
    ensures forall k :: 0 <= k < |bits| ==> bits[k] <= 1 && bits[k] == InputBit(toks, frame, |bits| - 1 - k)
  {
    var n := Inputs(toks);
    seq(n, k requires 0 <= k < n => InputBit(toks, frame, n - 1 - k))
  }

  /** The n-bit address carried by a command. */
  function DecodeAddress(toks: seq<Token>, frame: Frame, n: nat): (a: nat)
    requires |toks| <= 32 && Mentions(toks, n)
    ensures a < Pow2(n)
  {
    ValueBits(AddressBits(toks, frame, n));
    Value(AddressBits(toks, frame, n))
  }

  /** The byte carried by a command. */
  function DecodeInput(toks: seq<Token>, frame: Frame): u8
    requires |toks| <= 32 && Inputs(toks) == 8
  {
    ValueBits(InputBits(toks, frame));
    Pow2Consts();
    Value(InputBits(toks, frame))
  }

  /** Decoding inverts compilation, up to the address bits the target has. */
  lemma DecodeRenderedAddress(toks: seq<Token>, addr: u32, input: u8, n: nat, f: Frame)
    requires WellFormed(toks) && Mentions(toks, n)
    requires f == Render(toks, addr, input)
    ensures DecodeAddress(toks, f, n) == addr % Pow2(n)
  {
    forall s | 0 <= s < n ensures AddressBits(toks, f, n)[s] == Bit(addr, s) {
      RenderBits(toks, addr, input, FindAddress(toks, s));
    }
    ValueOfBits(addr, AddressBits(toks, f, n));
  }

  /** On an address the target has, decoding returns the address itself. */
  lemma DecodeExact(toks: seq<Token>, addr: u32, input: u8, n: nat, f: Frame)
    requires WellFormed(toks) && Mentions(toks, n) && Inputs(toks) == 8
    requires f == Render(toks, addr, input) && addr < Pow2(n)
    ensures DecodeAddress(toks, f, n) == addr && DecodeInput(toks, f) == input
  {
    DecodeRenderedAddress(toks, addr, input, n, f);
    DecodeRenderedInput(toks, addr, input, f);
    SmallMod(addr, Pow2(n));
  }

  lemma InputRendered(toks: seq<Token>, addr: u32, input: u8, f: Frame, k: nat)
    requires WellFormed(toks) && Inputs(toks) == 8 && k < 8
    requires f == Render(toks, addr, input)
    ensures InputBit(toks, f, 7 - k) == Bit(input, k)
  {
    RenderBits(toks, addr, input, FindInput(toks, 7 - k));
    hide Render, CmdBit;
  }

  lemma DecodeRenderedInput(toks: seq<Token>, addr: u32, input: u8, f: Frame)
    requires WellFormed(toks) && Inputs(toks) == 8
    requires f == Render(toks, addr, input)
    ensures DecodeInput(toks, f) == input
  {
    hide Inputs, InputBit, Render;
    forall k | 0 <= k < 8 ensures InputBits(toks, f)[k] == Bit(input, k) {
      InputRendered(toks, addr, input, f, k);
    }
    assert input < Pow2(|InputBits(toks, f)|) by { Pow2Consts(); }
    ValueExact(input, InputBits(toks, f));
  }

  /** No two n-bit addresses and no two bytes share a command. */
  ghost predicate Injective(toks: seq<Token>, n: nat) {
    forall a: u32, b: u32, x: u8, y: u8 ::
      a < Pow2(n) && b < Pow2(n) && Render(toks, a, x) == Render(toks, b, y) ==> a == b && x == y
  }

  /** An address bit that the pattern does not mention is lost. */
  lemma UnmentionedBitIsLost(toks: seq<Token>, s: nat)
    requires WellFormed(toks) && s < 32 && FindAddress(toks, s) == |toks|
    ensures Shl(1, s) < Pow2(32) == 0x1_0000_0000
    ensures Render(toks, Shl(1, s), 0) == Render(toks, 0, 0)
  {
    Pow2Consts();
    ShlBound(1, s, 32);
    forall p | 0 <= p < 32
      ensures CmdBit(Render(toks, Shl(1, s), 0), p) == CmdBit(Render(toks, 0, 0), p)
    {
      RenderBits(toks, Shl(1, s), 0, p);
      RenderBits(toks, 0, 0, p);
      if p < |toks| && toks[p].Address? {
        ShlBit(1, s, Shift(toks[p]));
        ZeroBit(Shift(toks[p]));
      }
    }
    FrameExtensional(Render(toks, Shl(1, s), 0), Render(toks, 0, 0));
  }

  /** The k-th input token with k < 7 does not carry the last bit. */
  lemma LastBitOnly(k: nat)
    requires k < 7
    ensures Bit(1, 7 - k) == Bit(0, 7 - k)
  {
    ZeroBit(6 - k);
    ZeroBit(7 - k);
  }

  /** With fewer than eight input tokens the last bit of the byte is lost. */
  lemma MissingInputIsLost(toks: seq<Token>)
    requires WellFormed(toks) && Inputs(toks) < 8
    ensures Render(toks, 0, 1) == Render(toks, 0, 0)
  {
    forall p | 0 <= p < 32
      ensures CmdBit(Render(toks, 0, 1), p) == CmdBit(Render(toks, 0, 0), p)
    {
      RenderBits(toks, 0, 1, p);
      RenderBits(toks, 0, 0, p);
      if p < |toks| && toks[p].Input? {
        InputsStep(toks, p);
        LastBitOnly(Inputs(toks[..p]));
      }
    }
    FrameExtensional(Render(toks, 0, 1), Render(toks, 0, 0));
  }

  lemma CompleteIsInjective(toks: seq<Token>, n: nat, a: u32, b: u32, x: u8, y: u8)
    requires WellFormed(toks) && Mentions(toks, n) && Inputs(toks) == 8
    requires a < Pow2(n) && b < Pow2(n) && Render(toks, a, x) == Render(toks, b, y)
    ensures a == b && x == y
  {
    var f := Render(toks, a, x);
    DecodeExact(toks, a, x, n, f);
    DecodeExact(toks, b, y, n, f);
  }

  lemma IncompleteIsNotInjective(toks: seq<Token>, n: nat, s: nat)
    requires WellFormed(toks) && s < n <= 32 && FindAddress(toks, s) == |toks|
    ensures !Injective(toks, n)
  {
    UnmentionedBitIsLost(toks, s);
    ShlBound(1, s, n);
    ShlBit(1, s, s);
    ZeroBit(s);
  }

  /** Exactly the patterns with all n address bits and eight input bits give distinct commands. */
  lemma InjectiveIff(toks: seq<Token>, n: nat)
    requires WellFormed(toks) && n <= 32
    ensures Injective(toks, n) <==> Mentions(toks, n) && Inputs(toks) == 8
  {
    if !Mentions(toks, n) {
      var s: nat :| s < n && FindAddress(toks, s) == |toks|;
      IncompleteIsNotInjective(toks, n, s);
    } else if Inputs(toks) < 8 {
      MissingInputIsLost(toks);
    } else {
      forall a: u32, b: u32, x: u8, y: u8
        | a < Pow2(n) && b < Pow2(n) && Render(toks, a, x) == Render(toks, b, y)
        ensures a == b && x == y
      {
        CompleteIsInjective(toks, n, a, b, x, y);
      }
    }
  }

  // ------------------------------------------------------------- Recognition

  /** The frame agrees with the constant bits of the pattern. */
  predicate Matches(toks: seq<Token>, frame: Frame)
    requires |toks| <= 32
  {
    forall p :: 0 <= p < |toks| ==>
      && (toks[p].One? ==> CmdBit(frame, p) == 1)
      && (toks[p].Zero? ==> CmdBit(frame, p) == 0)
  }

  /** Some bit is constant in both patterns, with opposite values. */
  predicate Separated(a: seq<Token>, b: seq<Token>) {
    exists p :: 0 <= p < |a| && p < |b| && ((a[p].One? && b[p].Zero?) || (a[p].Zero? && b[p].One?))
  }

  lemma RenderedMatches(toks: seq<Token>, addr: u32, input: u8)
    requires WellFormed(toks)
    ensures Matches(toks, Render(toks, addr, input))
  {
    forall p | 0 <= p < |toks|
      ensures CmdBit(Render(toks, addr, input), p) == TokenBit(toks, p, addr, input)
    {
      RenderBits(toks, addr, input, p);
    }
  }

  lemma SeparatedNoMatch(a: seq<Token>, b: seq<Token>, addr: u32, input: u8)
    requires WellFormed(a) && |b| <= 32 && Separated(a, b)
    ensures !Matches(b, Render(a, addr, input))
  {
    var p :| 0 <= p < |a| && p < |b| && ((a[p].One? && b[p].Zero?) || (a[p].Zero? && b[p].One?));
    RenderBits(a, addr, input, p);
  }
}
