/** What programming and reading amount to on the wire: the laws that join the programmer's
    loops, the pattern compiler and the target. */
module MemoryLaws {
  import opened Bits
  import opened Patterns
  import opened Decoding
  import opened Spi
  import opened Commands
  import opened AvrTarget

  lemma {:induction false} RunAppend(chip: Chip, mem: Memory, a: seq<Frame>, b: seq<Frame>)
    requires Fits(chip, mem)
    ensures Run(chip, mem, a + b) == Run(chip, Run(chip, mem, a), b)
  {
    if |b| == 0 {
      assert a + b == a;
    } else {
      var last := |b| - 1;
      assert (a + b)[..|a + b| - 1] == a + b[..last];
      RunAppend(chip, mem, a, b[..last]);
    }
  }

  lemma AvrAnswerAt(chip: Chip, mem: Memory, sent: seq<Frame>, frames: seq<Frame>, t: nat)
    requires Fits(chip, mem) && t < |frames|
    ensures AnswerAt(AvrDevice(chip, mem), sent, frames, t)
         == Answer(chip, Run(chip, Run(chip, mem, sent), frames[..t]), frames[t])
  {
    hide Run, Execute, Answer, Data;
    var h := sent + frames[..t + 1];
    assert h[|h| - 1] == frames[t];
    assert h[..|h| - 1] == sent + frames[..t];
    RunAppend(chip, mem, sent, frames[..t]);
  }

  // ------------------------------------------------------------- Programming

  /** Whatever the target answers: if its memory understands the load commands, then after
      `program_flash_memory` it holds exactly the bytes of the commands that were sent. */
  lemma FlashWriteEffect(chip: Chip, mem: Memory, device: Device, sent: seq<Frame>, start: u32, data: seq<u8>)
    requires Fits(chip, mem) && FlashWritable(chip)
    ensures var frames := FlashWrites(chip.info, start, data);
            var k := FramesSent(Accepted(device, sent, frames, AVR_CMD_SIZE), |frames|);
            Run(chip, mem, sent + frames[..k]) == Loaded(Run(chip, mem, sent), start, data, k)
  {
    var frames := FlashWrites(chip.info, start, data);
    var k := FramesSent(Accepted(device, sent, frames, AVR_CMD_SIZE), |frames|);
    RunAppend(chip, mem, sent, frames[..k]);
    FlashProgrammed(chip, Run(chip, mem, sent), start, data, k);
  }

  lemma EepromWriteEffect(chip: Chip, mem: Memory, device: Device, sent: seq<Frame>, start: u32, data: seq<u8>)
    requires Fits(chip, mem) && EepromWritable(chip)
    ensures var frames := EepromWrites(chip.info, start, data);
            var k := FramesSent(Accepted(device, sent, frames, AVR_CMD_SIZE), |frames|);
            var before := Run(chip, mem, sent);
            Run(chip, mem, sent + frames[..k])
            == before.(eeprom := WriteAll(before.eeprom, start, data[..k]))
  {
    var frames := EepromWrites(chip.info, start, data);
    var k := FramesSent(Accepted(device, sent, frames, AVR_CMD_SIZE), |frames|);
    RunAppend(chip, mem, sent, frames[..k]);
    EepromProgrammed(chip, Run(chip, mem, sent), start, data, k);
  }

  /** The cells after a page of whole words no longer than the flash: word w of the page is
      at (start + w) mod 2^n, and no other cell has changed. */
  lemma LoadedCells(chip: Chip, mem: Memory, start: u32, data: seq<u8>)
    requires Fits(chip, mem) && |data| % 2 == 0 && |data| / 2 <= Pow2(chip.flashBits)
    ensures var after, size := Loaded(mem, start, data, |data|), Pow2(chip.flashBits);
            && Fits(chip, after) && after.eeprom == mem.eeprom
            && (forall w :: 0 <= w < |data| / 2 ==>
                  && after.lo[Cell(start, w, size)] == data[2 * w]
                  && after.hi[Cell(start, w, size)] == data[2 * w + 1])
            && (forall c :: 0 <= c < size && (forall w :: 0 <= w < |data| / 2 ==> Cell(start, w, size) != c) ==>
                  after.lo[c] == mem.lo[c] && after.hi[c] == mem.hi[c])
  {
    var after, size := Loaded(mem, start, data, |data|), Pow2(chip.flashBits);
    assert data[..|data|] == data;
    forall w | 0 <= w < |data| / 2
      ensures after.lo[Cell(start, w, size)] == data[2 * w]
      ensures after.hi[Cell(start, w, size)] == data[2 * w + 1]
    {
      WrittenCell(mem.lo, start, Evens(data), w);
      WrittenCell(mem.hi, start, Odds(data), w);
    }
    forall c | 0 <= c < size && (forall w :: 0 <= w < |data| / 2 ==> Cell(start, w, size) != c)
      ensures after.lo[c] == mem.lo[c] && after.hi[c] == mem.hi[c]
    {
      UntouchedCell(mem.lo, start, Evens(data), c);
      UntouchedCell(mem.hi, start, Odds(data), c);
    }
  }

  /** Write commands are always echoed by the target, so programming it succeeds. */
  lemma WritesEcho(chip: Chip, mem: Memory, sent: seq<Frame>, frames: seq<Frame>)
    requires Fits(chip, mem)
    requires forall t :: 0 <= t < |frames| ==> IsWrite(chip, frames[t])
    ensures Accepted(AvrDevice(chip, mem), sent, frames, AVR_CMD_SIZE) == |frames|
  {
    hide Run, Execute, AvrDevice, AnswerAt;
    forall t | 0 <= t < |frames| ensures EchoAt(AvrDevice(chip, mem), sent, frames, AVR_CMD_SIZE, t) {
      AvrAnswerAt(chip, mem, sent, frames, t);
    }
    AcceptedIs(AvrDevice(chip, mem), sent, frames, AVR_CMD_SIZE, |frames|);
  }

  lemma FlashWritesEcho(chip: Chip, mem: Memory, sent: seq<Frame>, start: u32, data: seq<u8>)
    requires Fits(chip, mem) && FlashWritable(chip)
    ensures Accepted(AvrDevice(chip, mem), sent, FlashWrites(chip.info, start, data), AVR_CMD_SIZE) == |data|
  {
    var frames := FlashWrites(chip.info, start, data);
    forall t | 0 <= t < |frames| ensures IsWrite(chip, frames[t]) {
      var addr := ToU32(start + t / 2);
      LoadLo(chip, mem, addr, data[t]);
      LoadHi(chip, mem, addr, data[t]);
    }
    WritesEcho(chip, mem, sent, frames);
  }

  lemma EepromWritesEcho(chip: Chip, mem: Memory, sent: seq<Frame>, start: u32, data: seq<u8>)
    requires Fits(chip, mem) && EepromWritable(chip)
    ensures Accepted(AvrDevice(chip, mem), sent, EepromWrites(chip.info, start, data), AVR_CMD_SIZE) == |data|
  {
    var frames := EepromWrites(chip.info, start, data);
    forall t | 0 <= t < |frames| ensures IsWrite(chip, frames[t]) {
      WriteEeprom(chip, mem, ToU32(start + t), data[t]);
    }
    WritesEcho(chip, mem, sent, frames);
  }

  // ----------------------------------------------------------------- Reading

  /** What the t-th byte of a flash read should be: high byte first. */
  function FlashByte(mem: Memory, start: u32, t: nat): u8
    requires |mem.lo| == |mem.hi| > 0
  {
    if t % 2 == 0 then mem.hi[Cell(start, t / 2, |mem.hi|)] else mem.lo[Cell(start, t / 2, |mem.lo|)]
  }

  function EepromByte(mem: Memory, start: u32, t: nat): u8
    requires |mem.eeprom| > 0
  {
    mem.eeprom[Cell(start, t, |mem.eeprom|)]
  }

  /** A 32-bit address wraps to the same cell as an unbounded one. */
  lemma CellOf32(start: nat, w: nat, n: nat)
    requires n <= 32
    ensures ToU32(start + w) % Pow2(n) == Cell(start, w, Pow2(n))
  {
    ToU32Mod(start + w, n);
  }

  lemma FlashFetch(chip: Chip, mem: Memory, start: u32, t: nat)
    requires Fits(chip, mem) && FlashReadable(chip)
    ensures Execute(chip, mem, FlashRead(chip.info, start, t)) == mem
    ensures Data(chip, mem, FlashRead(chip.info, start, t)) == FlashByte(mem, start, t)
  {
    hide Execute, Stores, Apart, Command, Cell, IsWrite, WellFormed, Mentions, Tokens, DecodeAddress;
    var addr := ToU32(start + t / 2);
    AddressWidth(chip.info.flashReadLo, chip.flashBits);
    CellOf32(start, t / 2, chip.flashBits);
    FetchRendered(chip, mem, chip.info.flashReadLo, chip.flashBits, addr);
    FetchRendered(chip, mem, chip.info.flashReadHi, chip.flashBits, addr);
    NotAStore(chip.info.flashReadHi, chip.info.flashReadLo, chip.flashBits, addr, 0);
  }

  lemma EepromFetch(chip: Chip, mem: Memory, start: u32, t: nat)
    requires Fits(chip, mem) && EepromReadable(chip)
    ensures Execute(chip, mem, EepromRead(chip.info, start, t)) == mem
    ensures Data(chip, mem, EepromRead(chip.info, start, t)) == EepromByte(mem, start, t)
  {
    hide Execute, Stores, Apart, Command, Cell, IsWrite, WellFormed, Mentions, Tokens, DecodeAddress;
    var addr := ToU32(start + t);
    AddressWidth(chip.info.eepromRead, chip.eepromBits);
    CellOf32(start, t, chip.eepromBits);
    FetchRendered(chip, mem, chip.info.eepromRead, chip.eepromBits, addr);
    NotAStore(chip.info.eepromRead, chip.info.flashReadLo, chip.flashBits, addr, 0);
    NotAStore(chip.info.eepromRead, chip.info.flashReadHi, chip.flashBits, addr, 0);
  }

  /** Commands that change nothing leave the memory as it was. */
  lemma {:induction false} RunReads(chip: Chip, mem: Memory, frames: seq<Frame>, k: nat)
    requires Fits(chip, mem) && k <= |frames|
    requires forall t :: 0 <= t < k ==> Execute(chip, mem, frames[t]) == mem
    ensures Run(chip, mem, frames[..k]) == mem
  {
    if k > 0 {
      RunReads(chip, mem, frames, k - 1);
      RunNext(chip, mem, frames, k - 1);
    }
  }

  /** A read never disturbs the memory; the answers carry the memory's bytes behind the echo
      of the first two command bytes. */
  lemma FlashReadAnswers(chip: Chip, mem: Memory, sent: seq<Frame>, start: u32, n: nat, t: nat)
    requires Fits(chip, mem) && FlashReadable(chip) && t < RoundUp(n)
    ensures var frames := FlashReads(chip.info, start, n);
            AnswerAt(AvrDevice(chip, mem), sent, frames, t)
            == [0, frames[t][0], frames[t][1], FlashByte(Run(chip, mem, sent), start, t)]
  {
    var frames := FlashReads(chip.info, start, n);
    var before := Run(chip, mem, sent);
    forall i | 0 <= i < |frames| ensures Execute(chip, before, frames[i]) == before {
      FlashFetch(chip, before, start, i);
    }
    RunReads(chip, before, frames, t);
    FlashFetch(chip, before, start, t);
    AvrAnswerAt(chip, mem, sent, frames, t);
  }

  lemma EepromReadAnswers(chip: Chip, mem: Memory, sent: seq<Frame>, start: u32, n: nat, t: nat)
    requires Fits(chip, mem) && EepromReadable(chip) && t < n
    ensures var frames := EepromReads(chip.info, start, n);
            AnswerAt(AvrDevice(chip, mem), sent, frames, t)
            == [0, frames[t][0], frames[t][1], EepromByte(Run(chip, mem, sent), start, t)]
  {
    var frames := EepromReads(chip.info, start, n);
    var before := Run(chip, mem, sent);
    forall i | 0 <= i < |frames| ensures Execute(chip, before, frames[i]) == before {
      EepromFetch(chip, before, start, i);
    }
    RunReads(chip, before, frames, t);
    EepromFetch(chip, before, start, t);
    AvrAnswerAt(chip, mem, sent, frames, t);
  }

  /** With the echo check limited to the bytes a read does echo, every read is accepted and
      delivers the memory. */
  lemma IntendedFlashRead(chip: Chip, mem: Memory, sent: seq<Frame>, start: u32, n: nat)
    requires Fits(chip, mem) && FlashReadable(chip)
    ensures var device, frames := AvrDevice(chip, mem), FlashReads(chip.info, start, n);
            && Accepted(device, sent, frames, 3) == |frames|
            && (forall t :: 0 <= t < |frames| ==>
                  DataBytes(device, sent, frames, |frames|)[t] == FlashByte(Run(chip, mem, sent), start, t))
  {
    hide Run, AvrDevice, AnswerAt, FlashByte, EepromByte, FlashRead, EepromRead;
    hide FlashReadable, EepromReadable, Accepted, AcceptedFrom;
    var device, frames := AvrDevice(chip, mem), FlashReads(chip.info, start, n);
    forall t | 0 <= t < |frames|
      ensures EchoAt(device, sent, frames, 3, t)
      ensures AnswerAt(device, sent, frames, t)[3] == FlashByte(Run(chip, mem, sent), start, t)
    {
      FlashReadAnswers(chip, mem, sent, start, n, t);
    }
    AcceptedIs(device, sent, frames, 3, |frames|);
  }

  lemma IntendedEepromRead(chip: Chip, mem: Memory, sent: seq<Frame>, start: u32, n: nat)
    requires Fits(chip, mem) && EepromReadable(chip)
    ensures var device, frames := AvrDevice(chip, mem), EepromReads(chip.info, start, n);
            && Accepted(device, sent, frames, 3) == n
            && (forall t :: 0 <= t < n ==>
                  DataBytes(device, sent, frames, n)[t] == EepromByte(Run(chip, mem, sent), start, t))
  {
    hide Run, AvrDevice, AnswerAt, FlashByte, EepromByte, FlashRead, EepromRead;
    hide FlashReadable, EepromReadable, Accepted, AcceptedFrom;
    var device, frames := AvrDevice(chip, mem), EepromReads(chip.info, start, n);
    forall t | 0 <= t < n
      ensures EchoAt(device, sent, frames, 3, t)
      ensures AnswerAt(device, sent, frames, t)[3] == EepromByte(Run(chip, mem, sent), start, t)
    {
      EepromReadAnswers(chip, mem, sent, start, n, t);
    }
    AcceptedIs(device, sent, frames, 3, n);
  }

  // ------------------------------------------------ The echo check as written

  /** Whatever the target is: every byte stored by an accepted read is the third byte of the
      read command itself. */
  lemma AsWrittenReadLaw(device: Device, sent: seq<Frame>, frames: seq<Frame>)
    ensures var k := Accepted(device, sent, frames, AVR_CMD_SIZE);
            forall j :: 0 <= j < k ==> DataBytes(device, sent, frames, k)[j] == frames[j][2]
  {
    var k := Accepted(device, sent, frames, AVR_CMD_SIZE);
    forall j | 0 <= j < k ensures AnswerAt(device, sent, frames, j)[3] == frames[j][2] {
      assert EchoAt(device, sent, frames, AVR_CMD_SIZE, j);
    }
  }

  /** So two successful fetches with the same commands store the same bytes, whatever was
      connected. */
  lemma AsWrittenReadIsBlind(d1: Device, s1: seq<Frame>, d2: Device, s2: seq<Frame>, frames: seq<Frame>)
    requires Accepted(d1, s1, frames, AVR_CMD_SIZE) == |frames|
    requires Accepted(d2, s2, frames, AVR_CMD_SIZE) == |frames|
    ensures DataBytes(d1, s1, frames, |frames|) == DataBytes(d2, s2, frames, |frames|)
  {
    AsWrittenReadLaw(d1, s1, frames);
    AsWrittenReadLaw(d2, s2, frames);
  }

  /** A flash read succeeds as written exactly when the memory happens to hold the third
      byte of each read command. */
  lemma AsWrittenFlashReadIff(chip: Chip, mem: Memory, sent: seq<Frame>, start: u32, n: nat)
    requires Fits(chip, mem) && FlashReadable(chip)
    ensures var frames := FlashReads(chip.info, start, n);
            Accepted(AvrDevice(chip, mem), sent, frames, AVR_CMD_SIZE) == |frames|
            <==> forall t :: 0 <= t < |frames| ==> FlashByte(Run(chip, mem, sent), start, t) == frames[t][2]
  {
    hide Run, AvrDevice, AnswerAt, FlashByte, EepromByte, FlashRead, EepromRead;
    hide FlashReadable, EepromReadable, Accepted, AcceptedFrom;
    var device, frames := AvrDevice(chip, mem), FlashReads(chip.info, start, n);
    forall t | 0 <= t < |frames|
      ensures EchoAt(device, sent, frames, AVR_CMD_SIZE, t)
         <==> FlashByte(Run(chip, mem, sent), start, t) == frames[t][2]
    {
      FlashReadAnswers(chip, mem, sent, start, n, t);
      EchoesFull(frames[t], AnswerAt(device, sent, frames, t));
    }
    AllAcceptedIff(device, sent, frames, AVR_CMD_SIZE);
  }

  lemma AsWrittenEepromReadIff(chip: Chip, mem: Memory, sent: seq<Frame>, start: u32, n: nat)
    requires Fits(chip, mem) && EepromReadable(chip)
    ensures var frames := EepromReads(chip.info, start, n);
            Accepted(AvrDevice(chip, mem), sent, frames, AVR_CMD_SIZE) == n
            <==> forall t :: 0 <= t < n ==> EepromByte(Run(chip, mem, sent), start, t) == frames[t][2]
  {
    hide Run, AvrDevice, AnswerAt, FlashByte, EepromByte, FlashRead, EepromRead;
    hide FlashReadable, EepromReadable, Accepted, AcceptedFrom;
    var device, frames := AvrDevice(chip, mem), EepromReads(chip.info, start, n);
    forall t | 0 <= t < n
      ensures EchoAt(device, sent, frames, AVR_CMD_SIZE, t)
         <==> EepromByte(Run(chip, mem, sent), start, t) == frames[t][2]
    {
      EepromReadAnswers(chip, mem, sent, start, n, t);
      EchoesFull(frames[t], AnswerAt(device, sent, frames, t));
    }
    AllAcceptedIff(device, sent, frames, AVR_CMD_SIZE);
  }

  /** For every target there is a flash on which the read as written fails at its first byte. */
  lemma FlashReadCanFail(chip: Chip, start: u32, n: nat) returns (mem: Memory)
    requires FlashReadable(chip) && n > 0
    ensures Fits(chip, mem)
    ensures Accepted(AvrDevice(chip, mem), [], FlashReads(chip.info, start, n), AVR_CMD_SIZE) == 0
  {
    hide Run, AvrDevice, AnswerAt, FlashRead, FlashReadable, Accepted, AcceptedFrom;
    var frames := FlashReads(chip.info, start, n);
    var other: u8 := if frames[0][2] == 0 then 1 else 0;
    var cells: seq<u8> := seq(Pow2(chip.flashBits), _ => other);
    mem := Memory(cells, cells, seq(Pow2(chip.eepromBits), _ => 0));
    RunNothing(chip, mem);
    FlashReadAnswers(chip, mem, [], start, n, 0);
    EchoesFull(frames[0], AnswerAt(AvrDevice(chip, mem), [], frames, 0));
    AcceptedIs(AvrDevice(chip, mem), [], frames, AVR_CMD_SIZE, 0);
  }

  lemma EepromReadCanFail(chip: Chip, start: u32, n: nat) returns (mem: Memory)
    requires EepromReadable(chip) && n > 0
    ensures Fits(chip, mem)
    ensures Accepted(AvrDevice(chip, mem), [], EepromReads(chip.info, start, n), AVR_CMD_SIZE) == 0
  {
    hide Run, AvrDevice, AnswerAt, EepromRead, EepromReadable, Accepted, AcceptedFrom;
    var frames := EepromReads(chip.info, start, n);
    var other: u8 := if frames[0][2] == 0 then 1 else 0;
    var cells: seq<u8> := seq(Pow2(chip.flashBits), _ => 0);
    mem := Memory(cells, cells, seq(Pow2(chip.eepromBits), _ => other));
    RunNothing(chip, mem);
    EepromReadAnswers(chip, mem, [], start, n, 0);
    EchoesFull(frames[0], AnswerAt(AvrDevice(chip, mem), [], frames, 0));
    AcceptedIs(AvrDevice(chip, mem), [], frames, AVR_CMD_SIZE, 0);
  }

  lemma RunNothing(chip: Chip, mem: Memory)
    requires Fits(chip, mem)
    ensures Run(chip, mem, []) == mem
  {}

  // -------------------------------------------------------------- Round trips

  /** Each pair of bytes swapped. */
  function Swapped(data: seq<u8>): (r: seq<u8>)
    requires |data| % 2 == 0
    ensures |r| == |data|
    ensures forall t :: 0 <= t < |data| ==> r[t] == data[if t % 2 == 0 then t + 1 else t - 1]
  {
    seq(|data|, t requires 0 <= t < |data| => data[if t % 2 == 0 then t + 1 else t - 1])
  }

  /** What a read of a freshly loaded page finds. */
  lemma LoadedSwapped(chip: Chip, mem: Memory, start: u32, data: seq<u8>, t: nat)
    requires Fits(chip, mem) && |data| % 2 == 0 && |data| / 2 <= Pow2(chip.flashBits) && t < |data|
    ensures Fits(chip, Loaded(mem, start, data, |data|))
    ensures FlashByte(Loaded(mem, start, data, |data|), start, t) == Swapped(data)[t]
  {
    LoadedCells(chip, mem, start, data);
    hide Loaded, Cell;
    assert t == 2 * (t / 2) || t == 2 * (t / 2) + 1;
  }

  /** Programming a page and reading it back: both succeed and the buffer holds the page with
      the bytes of each word swapped. */
  lemma FlashRoundTrip(chip: Chip, mem: Memory, sent: seq<Frame>, start: u32, data: seq<u8>, buf: seq<u8>)
    requires Fits(chip, mem) && FlashWritable(chip) && FlashReadable(chip)
    requires |data| % 2 == 0 && |data| <= 256 <= |buf| && |data| / 2 <= Pow2(chip.flashBits)
    ensures var device := AvrDevice(chip, mem);
            var stores, fetches := FlashWrites(chip.info, start, data), FlashReads(chip.info, start, |data|);
            && Accepted(device, sent, stores, AVR_CMD_SIZE) == |data| == |fetches|
            && Accepted(device, sent + stores, fetches, 3) == |data|
            && RingStore(buf, DataBytes(device, sent + stores, fetches, |data|)) == Swapped(data) + buf[|data|..]
  {
    hide Run, AvrDevice, AnswerAt, Accepted, FlashWritable, FlashReadable;
    hide FlashWrite, FlashRead, Loaded, Cell, FlashByte, RingStore;
    var device := AvrDevice(chip, mem);
    var stores, fetches := FlashWrites(chip.info, start, data), FlashReads(chip.info, start, |data|);
    var after := Run(chip, mem, sent + stores);
    FlashWritesEcho(chip, mem, sent, start, data);
    FlashWriteEffect(chip, mem, device, sent, start, data);
    assert stores[..|stores|] == stores;
    assert after == Loaded(Run(chip, mem, sent), start, data, |data|);
    IntendedFlashRead(chip, mem, sent + stores, start, |data|);
    var bytes := DataBytes(device, sent + stores, fetches, |data|);
    forall t | 0 <= t < |data| ensures bytes[t] == Swapped(data)[t] {
      LoadedSwapped(chip, Run(chip, mem, sent), start, data, t);
    }
    assert bytes == Swapped(data);
    RingStoreLinear(buf, bytes);
  }

  /** EEPROM comes back unchanged. */
  lemma EepromRoundTrip(chip: Chip, mem: Memory, sent: seq<Frame>, start: u32, data: seq<u8>)
    requires Fits(chip, mem) && EepromWritable(chip) && EepromReadable(chip)
    requires |data| <= Pow2(chip.eepromBits)
    ensures var device := AvrDevice(chip, mem);
            var stores, fetches := EepromWrites(chip.info, start, data), EepromReads(chip.info, start, |data|);
            && Accepted(device, sent, stores, AVR_CMD_SIZE) == |data|
            && Accepted(device, sent + stores, fetches, 3) == |data|
            && DataBytes(device, sent + stores, fetches, |data|) == data
  {
    hide Run, AvrDevice, AnswerAt, EepromWritable, EepromReadable, EepromRead, EepromWrite, Accepted, WriteAll, Cell;
    var device := AvrDevice(chip, mem);
    var stores, fetches := EepromWrites(chip.info, start, data), EepromReads(chip.info, start, |data|);
    EepromWritesEcho(chip, mem, sent, start, data);
    EepromWriteEffect(chip, mem, device, sent, start, data);
    assert stores[..|stores|] == stores && data[..|data|] == data;
    IntendedEepromRead(chip, mem, sent + stores, start, |data|);
    var bytes := DataBytes(device, sent + stores, fetches, |data|);
    var before := Run(chip, mem, sent);
    forall t | 0 <= t < |data| ensures bytes[t] == data[t] {
      assert bytes[t] == EepromByte(Run(chip, mem, sent + stores), start, t);
      WrittenCell(before.eeprom, start, data, t);
    }
    assert bytes == data;
  }
}
