/** A target that understands commands by inverting the patterns it was described with,
    and what programming and reading do to it. */
module AvrTarget {
  import opened Bits
  import opened Patterns
  import opened Decoding
  import opened McuInfo
  import opened Spi
  import opened Commands

  /** A described target with 2^flashBits words of flash and 2^eepromBits bytes of EEPROM. */
  datatype Chip = Chip(info: AvrMcuInfo, flashBits: nat, eepromBits: nat)

  /** Flash is kept as its low bytes and its high bytes. */
  datatype Memory = Memory(lo: seq<u8>, hi: seq<u8>, eeprom: seq<u8>)

  predicate Fits(chip: Chip, mem: Memory) {
    |mem.lo| == |mem.hi| == Pow2(chip.flashBits) && |mem.eeprom| == Pow2(chip.eepromBits)
  }

  /** A pattern whose commands determine an n-bit address. */
  predicate Addresses(t: Text, n: nat) {
    WellFormed(Tokens(t)) && Mentions(Tokens(t), n)
  }

  /** A pattern whose commands determine an n-bit address and a byte. */
  predicate Stores(t: Text, n: nat) {
    Addresses(t, n) && Inputs(Tokens(t)) == 8
  }

  predicate Apart(a: Text, b: Text) {
    Separated(Tokens(a), Tokens(b))
  }

  predicate IsStore(t: Text, n: nat, f: Frame) {
    Stores(t, n) && Matches(Tokens(t), f)
  }

  predicate IsFetch(t: Text, n: nat, f: Frame) {
    Addresses(t, n) && Matches(Tokens(t), f)
  }

  function StoreInto(t: Text, n: nat, cells: seq<u8>, f: Frame): (r: seq<u8>)
    requires Stores(t, n) && |cells| == Pow2(n)
    ensures |r| == |cells|
  {
    cells[DecodeAddress(Tokens(t), f, n) := DecodeInput(Tokens(t), f)]
  }

  /** The effect of a command on the memories. */
  function Execute(chip: Chip, mem: Memory, f: Frame): (r: Memory)
    requires Fits(chip, mem)
    ensures Fits(chip, r)
  {
    var info := chip.info;
    if IsStore(info.flashLoadLo, chip.flashBits, f) then
      mem.(lo := StoreInto(info.flashLoadLo, chip.flashBits, mem.lo, f))
    else if IsStore(info.flashLoadHi, chip.flashBits, f) then
      mem.(hi := StoreInto(info.flashLoadHi, chip.flashBits, mem.hi, f))
    else if IsStore(info.eepromWrite, chip.eepromBits, f) then
      mem.(eeprom := StoreInto(info.eepromWrite, chip.eepromBits, mem.eeprom, f))
    else mem
  }

  function Run(chip: Chip, mem: Memory, frames: seq<Frame>): (r: Memory)
    requires Fits(chip, mem)
    ensures Fits(chip, r)
  {
    if |frames| == 0 then mem
    else Execute(chip, Run(chip, mem, frames[..|frames| - 1]), frames[|frames| - 1])
  }

  predicate IsWrite(chip: Chip, f: Frame) {
    || IsStore(chip.info.flashLoadLo, chip.flashBits, f)
    || IsStore(chip.info.flashLoadHi, chip.flashBits, f)
    || IsStore(chip.info.eepromWrite, chip.eepromBits, f)
  }

  /** The byte the target puts last in its answer: memory contents for a read, else the echo. */
  function Data(chip: Chip, mem: Memory, f: Frame): u8
    requires Fits(chip, mem)
  {
    var info := chip.info;
    if IsWrite(chip, f) then f[2]
    else if IsFetch(info.flashReadLo, chip.flashBits, f) then
      mem.lo[DecodeAddress(Tokens(info.flashReadLo), f, chip.flashBits)]
    else if IsFetch(info.flashReadHi, chip.flashBits, f) then
      mem.hi[DecodeAddress(Tokens(info.flashReadHi), f, chip.flashBits)]
    else if IsFetch(info.eepromRead, chip.eepromBits, f) then
      mem.eeprom[DecodeAddress(Tokens(info.eepromRead), f, chip.eepromBits)]
    else f[2]
  }

  function Answer(chip: Chip, mem: Memory, f: Frame): Frame
    requires Fits(chip, mem)
  {
    [0, f[0], f[1], Data(chip, mem, f)]
  }

  function HistoryAnswer(chip: Chip, mem: Memory, h: seq<Frame>): Frame
    requires Fits(chip, mem)
  {
    if |h| == 0 then [0, 0, 0, 0]
    else Answer(chip, Run(chip, mem, h[..|h| - 1]), h[|h| - 1])
  }

  /** The target on the wire: it shifts out each command byte one byte later, and the data
      byte in the last place. */
  function AvrDevice(chip: Chip, mem: Memory): Device
    requires Fits(chip, mem)
  {
    (h: seq<Frame>) => HistoryAnswer(chip, mem, h)
  }

  // ------------------------------------------------------ One command at a time

  /** A compiled write command stores its byte at its address, reduced to the cells there are. */
  lemma StoreRendered(t: Text, n: nat, cells: seq<u8>, addr: u32, input: u8)
    requires Stores(t, n) && |cells| == Pow2(n)
    ensures IsStore(t, n, Command(t, addr, input))
    ensures StoreInto(t, n, cells, Command(t, addr, input)) == cells[addr % |cells| := input]
  {
    var f := Command(t, addr, input);
    RenderedMatches(Tokens(t), addr, input);
    DecodeRenderedAddress(Tokens(t), addr, input, n, f);
    DecodeRenderedInput(Tokens(t), addr, input, f);
  }

  lemma NotAStore(a: Text, b: Text, n: nat, addr: u32, input: u8)
    requires WellFormed(Tokens(a)) && Apart(a, b)
    ensures !IsStore(b, n, Command(a, addr, input)) && !IsFetch(b, n, Command(a, addr, input))
  {
    if WellFormed(Tokens(b)) {
      SeparatedNoMatch(Tokens(a), Tokens(b), addr, input);
    }
  }

  /** The load commands of flash are understood, and told apart. */
  predicate FlashWritable(chip: Chip) {
    && Stores(chip.info.flashLoadLo, chip.flashBits)
    && Stores(chip.info.flashLoadHi, chip.flashBits)
    && Apart(chip.info.flashLoadHi, chip.info.flashLoadLo)
  }

  predicate EepromWritable(chip: Chip) {
    && Stores(chip.info.eepromWrite, chip.eepromBits)
    && Apart(chip.info.eepromWrite, chip.info.flashLoadLo)
    && Apart(chip.info.eepromWrite, chip.info.flashLoadHi)
  }

  /** A read pattern that is never taken for a write. */
  predicate Reads(chip: Chip, t: Text, n: nat) {
    && Addresses(t, n)
    && Apart(t, chip.info.flashLoadLo) && Apart(t, chip.info.flashLoadHi) && Apart(t, chip.info.eepromWrite)
  }

  predicate FlashReadable(chip: Chip) {
    && Reads(chip, chip.info.flashReadLo, chip.flashBits)
    && Reads(chip, chip.info.flashReadHi, chip.flashBits)
    && Apart(chip.info.flashReadHi, chip.info.flashReadLo)
  }

  predicate EepromReadable(chip: Chip) {
    && Reads(chip, chip.info.eepromRead, chip.eepromBits)
    && Apart(chip.info.eepromRead, chip.info.flashReadLo)
    && Apart(chip.info.eepromRead, chip.info.flashReadHi)
  }

  lemma LoadLo(chip: Chip, mem: Memory, addr: u32, input: u8)
    requires Fits(chip, mem) && FlashWritable(chip)
    ensures var f := Command(chip.info.flashLoadLo, addr, input);
            Execute(chip, mem, f) == mem.(lo := mem.lo[addr % |mem.lo| := input]) && IsWrite(chip, f)
  {
    StoreRendered(chip.info.flashLoadLo, chip.flashBits, mem.lo, addr, input);
  }

  lemma LoadHi(chip: Chip, mem: Memory, addr: u32, input: u8)
    requires Fits(chip, mem) && FlashWritable(chip)
    ensures var f := Command(chip.info.flashLoadHi, addr, input);
            Execute(chip, mem, f) == mem.(hi := mem.hi[addr % |mem.hi| := input]) && IsWrite(chip, f)
  {
    NotAStore(chip.info.flashLoadHi, chip.info.flashLoadLo, chip.flashBits, addr, input);
    StoreRendered(chip.info.flashLoadHi, chip.flashBits, mem.hi, addr, input);
  }

  lemma WriteEeprom(chip: Chip, mem: Memory, addr: u32, input: u8)
    requires Fits(chip, mem) && EepromWritable(chip)
    ensures var f := Command(chip.info.eepromWrite, addr, input);
            Execute(chip, mem, f) == mem.(eeprom := mem.eeprom[addr % |mem.eeprom| := input]) && IsWrite(chip, f)
  {
    NotAStore(chip.info.eepromWrite, chip.info.flashLoadLo, chip.flashBits, addr, input);
    NotAStore(chip.info.eepromWrite, chip.info.flashLoadHi, chip.flashBits, addr, input);
    StoreRendered(chip.info.eepromWrite, chip.eepromBits, mem.eeprom, addr, input);
  }

  /** A read command changes nothing and is recognised as a fetch. */
  lemma FetchRendered(chip: Chip, mem: Memory, t: Text, n: nat, addr: u32)
    requires Fits(chip, mem) && Reads(chip, t, n)
    ensures var f := Command(t, addr, 0);
            && Execute(chip, mem, f) == mem && !IsWrite(chip, f) && IsFetch(t, n, f)
            && DecodeAddress(Tokens(t), f, n) == addr % Pow2(n)
  {
    NotAStore(t, chip.info.flashLoadLo, chip.flashBits, addr, 0);
    NotAStore(t, chip.info.flashLoadHi, chip.flashBits, addr, 0);
    NotAStore(t, chip.info.eepromWrite, chip.eepromBits, addr, 0);
    RenderedMatches(Tokens(t), addr, 0);
    DecodeRenderedAddress(Tokens(t), addr, 0, n, Command(t, addr, 0));
  }

  // ----------------------------------------------------------- Writing in bulk

  /** The cell that address `start + w` falls on. */
  function Cell(start: nat, w: nat, size: nat): (c: nat)
    requires size > 0
    ensures c < size
  {
    (start + w) % size
  }

  /** Writing `bytes` to consecutive cells from `start`, wrapping around at the end. */
  function WriteAll(cells: seq<u8>, start: nat, bytes: seq<u8>): (r: seq<u8>)
    requires |cells| > 0
    ensures |r| == |cells|
  {
    if |bytes| == 0 then cells
    else
      var last := |bytes| - 1;
      WriteAll(cells, start, bytes[..last])[Cell(start, last, |cells|) := bytes[last]]
  }

  /** Each of the last |cells| bytes ends up in its own cell; with no more bytes than cells
      that is all of them. */
  lemma {:induction false} WrittenCell(cells: seq<u8>, start: nat, bytes: seq<u8>, w: nat)
    requires |cells| > 0 && w < |bytes| <= w + |cells|
    ensures WriteAll(cells, start, bytes)[Cell(start, w, |cells|)] == bytes[w]
  {
    var last := |bytes| - 1;
    if w < last {
      WrittenCell(cells, start, bytes[..last], w);
      ModDistinct(start + w, start + last, |cells|);
    }
  }

  /** Cells that no byte is addressed to keep their contents. */
  lemma {:induction false} UntouchedCell(cells: seq<u8>, start: nat, bytes: seq<u8>, c: nat)
    requires |cells| > 0 && c < |cells|
    requires forall w :: 0 <= w < |bytes| ==> Cell(start, w, |cells|) != c
    ensures WriteAll(cells, start, bytes)[c] == cells[c]
  {
    if |bytes| > 0 {
      UntouchedCell(cells, start, bytes[..|bytes| - 1], c);
    }
  }

  function Evens(data: seq<u8>): (r: seq<u8>)
    ensures |r| == (|data| + 1) / 2 && forall w :: 0 <= w < |r| ==> r[w] == data[2 * w]
  {
    seq((|data| + 1) / 2, w requires 0 <= w < (|data| + 1) / 2 => data[2 * w])
  }

  function Odds(data: seq<u8>): (r: seq<u8>)
    ensures |r| == |data| / 2 && forall w :: 0 <= w < |r| ==> r[w] == data[2 * w + 1]
  {
    seq(|data| / 2, w requires 0 <= w < |data| / 2 => data[2 * w + 1])
  }

  lemma SplitLast(data: seq<u8>, k: nat)
    requires k < |data|
    ensures k % 2 == 0 ==> Evens(data[..k + 1]) == Evens(data[..k]) + [data[k]]
    ensures k % 2 == 0 ==> Odds(data[..k + 1]) == Odds(data[..k])
    ensures k % 2 == 1 ==> Evens(data[..k + 1]) == Evens(data[..k])
    ensures k % 2 == 1 ==> Odds(data[..k + 1]) == Odds(data[..k]) + [data[k]]
  {}

  lemma WriteOneMore(cells: seq<u8>, start: u32, bytes: seq<u8>, b: u8, n: nat)
    requires |cells| == Pow2(n) && n <= 32
    ensures WriteAll(cells, start, bytes + [b])
         == WriteAll(cells, start, bytes)[ToU32(start + |bytes|) % |cells| := b]
  {
    assert (bytes + [b])[..|bytes|] == bytes;
    ToU32Mod(start + |bytes|, n);
  }

  /** An address of more than 32 bits cannot be mentioned. */
  lemma AddressWidth(t: Text, n: nat)
    requires Addresses(t, n)
    ensures n <= 32
  {
    if n > 0 {
      var p := FindAddress(Tokens(t), n - 1);
      assert Tokens(t)[p] in Tokens(t);
    }
  }

  lemma RunNext(chip: Chip, mem: Memory, frames: seq<Frame>, k: nat)
    requires Fits(chip, mem) && k < |frames|
    ensures Run(chip, mem, frames[..k + 1]) == Execute(chip, Run(chip, mem, frames[..k]), frames[k])
  {
    assert frames[..k + 1][..k] == frames[..k];
  }

  lemma RunNone(chip: Chip, mem: Memory, frames: seq<Frame>)
    requires Fits(chip, mem)
    ensures Run(chip, mem, frames[..0]) == mem
  {}

  /** Flash after the first k bytes of `data` have been loaded. */
  function Loaded(mem: Memory, start: u32, data: seq<u8>, k: nat): Memory
    requires k <= |data| && |mem.lo| > 0 && |mem.hi| > 0
  {
    mem.(lo := WriteAll(mem.lo, start, Evens(data[..k])), hi := WriteAll(mem.hi, start, Odds(data[..k])))
  }

  lemma LoadedNone(chip: Chip, mem: Memory, start: u32, data: seq<u8>)
    requires Fits(chip, mem)
    ensures Loaded(mem, start, data, 0) == mem
  {
    assert |Evens(data[..0])| == 0 && |Odds(data[..0])| == 0;
  }

  lemma LoadedEven(chip: Chip, mem: Memory, start: u32, data: seq<u8>, k: nat)
    requires Fits(chip, mem) && k < |data| && k % 2 == 0 && chip.flashBits <= 32
    ensures var before := Loaded(mem, start, data, k);
            Loaded(mem, start, data, k + 1) == before.(lo := before.lo[ToU32(start + k / 2) % |before.lo| := data[k]])
  {
    hide WriteAll;
    SplitLast(data, k);
    WriteOneMore(mem.lo, start, Evens(data[..k]), data[k], chip.flashBits);
  }

  lemma LoadedOdd(chip: Chip, mem: Memory, start: u32, data: seq<u8>, k: nat)
    requires Fits(chip, mem) && k < |data| && k % 2 == 1 && chip.flashBits <= 32
    ensures var before := Loaded(mem, start, data, k);
            Loaded(mem, start, data, k + 1) == before.(hi := before.hi[ToU32(start + k / 2) % |before.hi| := data[k]])
  {
    hide WriteAll;
    SplitLast(data, k);
    WriteOneMore(mem.hi, start, Odds(data[..k]), data[k], chip.flashBits);
  }

  lemma LoadedStep(chip: Chip, mem: Memory, start: u32, data: seq<u8>, k: nat)
    requires Fits(chip, mem) && FlashWritable(chip) && k < |data|
    ensures Fits(chip, Loaded(mem, start, data, k))
    ensures Execute(chip, Loaded(mem, start, data, k), FlashWrite(chip.info, start, data, k))
         == Loaded(mem, start, data, k + 1)
  {
    AddressWidth(chip.info.flashLoadLo, chip.flashBits);
    var before := Loaded(mem, start, data, k);
    if k % 2 == 0 {
      LoadedEven(chip, mem, start, data, k);
      LoadLo(chip, before, ToU32(start + k / 2), data[k]);
    } else {
      LoadedOdd(chip, mem, start, data, k);
      LoadHi(chip, before, ToU32(start + k / 2), data[k]);
    }
  }

  /** The programming commands, or any part of them that was sent, write exactly the bytes
      they carry: low bytes to the low plane, high bytes to the high plane, nothing else. */
  lemma {:induction false} FlashProgrammed(chip: Chip, mem: Memory, start: u32, data: seq<u8>, k: nat)
    requires Fits(chip, mem) && FlashWritable(chip) && k <= |data|
    ensures Run(chip, mem, FlashWrites(chip.info, start, data)[..k]) == Loaded(mem, start, data, k)
  {
    hide *;
    if k == 0 {
      LoadedNone(chip, mem, start, data);
      RunNone(chip, mem, FlashWrites(chip.info, start, data));
    } else {
      FlashProgrammed(chip, mem, start, data, k - 1);
      RunNext(chip, mem, FlashWrites(chip.info, start, data), k - 1);
      LoadedStep(chip, mem, start, data, k - 1);
    }
  }

  lemma EepromStep(chip: Chip, mem: Memory, start: u32, data: seq<u8>, k: nat)
    requires Fits(chip, mem) && EepromWritable(chip) && k < |data|
    ensures Execute(chip, mem.(eeprom := WriteAll(mem.eeprom, start, data[..k])),
                    EepromWrite(chip.info, start, data, k))
         == mem.(eeprom := WriteAll(mem.eeprom, start, data[..k + 1]))
  {
    hide WriteAll, Execute, Command;
    AddressWidth(chip.info.eepromWrite, chip.eepromBits);
    assert data[..k + 1] == data[..k] + [data[k]];
    WriteOneMore(mem.eeprom, start, data[..k], data[k], chip.eepromBits);
    WriteEeprom(chip, mem.(eeprom := WriteAll(mem.eeprom, start, data[..k])), ToU32(start + k), data[k]);
  }

  /** The same for EEPROM. */
  lemma {:induction false} EepromProgrammed(chip: Chip, mem: Memory, start: u32, data: seq<u8>, k: nat)
    requires Fits(chip, mem) && EepromWritable(chip) && k <= |data|
    ensures Run(chip, mem, EepromWrites(chip.info, start, data)[..k])
         == mem.(eeprom := WriteAll(mem.eeprom, start, data[..k]))
  {
    if k > 0 {
      EepromProgrammed(chip, mem, start, data, k - 1);
      RunNext(chip, mem, EepromWrites(chip.info, start, data), k - 1);
      EepromStep(chip, mem, start, data, k - 1);
    }
  }
}
