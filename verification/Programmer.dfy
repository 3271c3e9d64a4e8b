/** `programmer.c`: entering programming mode, programming and reading a target's memories. */
module Programmer {
  import opened Bits
  import opened Patterns
  import opened McuInfo
  import opened Results
  import opened Packets
  import opened Spi
  import opened Commands

  const PGM_ENABLE_RETRIES := 30
  const ENTER_PGM_ATTEMPTS := 10
  const MCU_RESET_ON: u8 := 0
  const MCU_RESET_OFF: u8 := 1

  datatype MemoryType = MemoryFlash | MemoryEeprom | MemoryErr

  datatype ProgMemData = ProgMemData(startAddress: u32, memoryType: MemoryType, data: Text)

  datatype ReadMemData = ReadMemData(startAddress: u32, bytesToRead: u32, memoryType: MemoryType)

  function WriteFrames(info: AvrMcuInfo, mem: ProgMemData): seq<Frame>
    requires !mem.memoryType.MemoryErr?
  {
    if mem.memoryType.MemoryFlash? then FlashWrites(info, mem.startAddress, mem.data)
    else EepromWrites(info, mem.startAddress, mem.data)
  }

  function ReadFrames(info: AvrMcuInfo, mem: ReadMemData): seq<Frame>
    requires !mem.memoryType.MemoryErr?
  {
    if mem.memoryType.MemoryFlash? then FlashReads(info, mem.startAddress, mem.bytesToRead)
    else EepromReads(info, mem.startAddress, mem.bytesToRead)
  }

  predicate PatternOk(t: Text) { Compilable(Tokens(t)) }

  /** The reset line after each failed attempt: released, then pulled again. */
  function ResetPulses(n: nat): seq<u8> {
    if n == 0 then [] else ResetPulses(n - 1) + [MCU_RESET_OFF, MCU_RESET_ON]
  }

  /** The third byte of the answer to the k-th frame. */
  function ThirdByte(device: Device, sent: seq<Frame>, k: nat): u8
    requires k <= |sent|
  {
    device(sent[..k])[2]
  }

  /** The levels that follow `before`: the line is pulled (0), and for each failure released (1)
      and pulled again. */
  predicate Pulsed(before: seq<u8>, line: seq<u8>, failures: nat) {
    var n := |before|;
    && |line| == n + 1 + 2 * failures && line[..n] == before && line[n] == 0
    && forall t :: 0 <= t < failures ==> line[n + 1 + 2 * t] == 1 && line[n + 2 + 2 * t] == 0
  }

  lemma {:induction false} PulsesAre(before: seq<u8>, failures: nat)
    ensures Pulsed(before, before + [MCU_RESET_ON] + ResetPulses(failures), failures)
  {
    if failures > 0 {
      PulsesAre(before, failures - 1);
      var line := before + [MCU_RESET_ON] + ResetPulses(failures - 1);
      assert before + [MCU_RESET_ON] + ResetPulses(failures) == line + [MCU_RESET_OFF, MCU_RESET_ON];
    }
  }

  function Repeat(f: Frame, n: nat): (fs: seq<Frame>)
    ensures |fs| == n && forall i :: 0 <= i < n ==> fs[i] == f
  {
    seq(n, _ => f)
  }

  /** Answer t to the repeated enable command shows the target in step. */
  predicate InStep(device: Device, sent: seq<Frame>, enable: Frame, t: nat) {
    device(sent + Repeat(enable, t + 1))[2] == enable[1]
  }

  function FailuresFrom(device: Device, sent: seq<Frame>, enable: Frame, k: nat): (r: nat)
    requires k <= PGM_ENABLE_RETRIES
    ensures k <= r <= PGM_ENABLE_RETRIES
    ensures forall t :: k <= t < r ==> !InStep(device, sent, enable, t)
    ensures r < PGM_ENABLE_RETRIES ==> InStep(device, sent, enable, r)
    decreases PGM_ENABLE_RETRIES - k
  {
    if k == PGM_ENABLE_RETRIES || InStep(device, sent, enable, k) then k
    else FailuresFrom(device, sent, enable, k + 1)
  }

  /** How many of the thirty attempts fail before the first answer in step. */
  function Failures(device: Device, sent: seq<Frame>, enable: Frame): nat {
    FailuresFrom(device, sent, enable, 0)
  }

  lemma FailuresAre(device: Device, sent: seq<Frame>, enable: Frame, k: nat)
    requires k <= PGM_ENABLE_RETRIES
    requires forall t :: 0 <= t < k ==> !InStep(device, sent, enable, t)
    requires k < PGM_ENABLE_RETRIES ==> InStep(device, sent, enable, k)
    ensures Failures(device, sent, enable) == k
  {}

  /** Programming mode is entered exactly when one of the first thirty answers is in step. */
  lemma EntersIff(device: Device, sent: seq<Frame>, enable: Frame)
    ensures Failures(device, sent, enable) < PGM_ENABLE_RETRIES
       <==> exists t :: 0 <= t < PGM_ENABLE_RETRIES && InStep(device, sent, enable, t)
  {
    if forall t :: 0 <= t < PGM_ENABLE_RETRIES ==> !InStep(device, sent, enable, t) {
      FailuresAre(device, sent, enable, PGM_ENABLE_RETRIES);
    }
  }

  /** `address++`, n steps after `start`, with wrap-around at 2^32. */
  function NextAddress(ghost start: u32, ghost n: nat, address: u32): (r: u32)
    requires address == ToU32(start + n)
    ensures r == ToU32(start + (n + 1))
  {
    if address == 0xFFFF_FFFF then 0 else address + 1
  }

  /** k commands were accepted and their data bytes stored through the 8-bit counter. */
  ghost predicate RingRead(bus: SpiBus, sent0: seq<Frame>, frames: seq<Frame>, checked: nat, k: nat,
                           buf0: seq<u8>, buf: seq<u8>)
    requires checked <= AVR_CMD_SIZE && 256 <= |buf0|
    reads bus
  {
    && Driven(bus, sent0, frames, checked, k)
    && buf == RingStore(buf0, DataBytes(bus.device, sent0, frames, k))
  }

  lemma NothingRead(bus: SpiBus, frames: seq<Frame>, checked: nat, buf: seq<u8>)
    requires checked <= AVR_CMD_SIZE && 256 <= |buf|
    ensures RingRead(bus, bus.sent, frames, checked, 0, buf, buf)
  {
    assert bus.sent + frames[..0] == bus.sent;
  }

  lemma RingBound(bus: SpiBus, sent0: seq<Frame>, frames: seq<Frame>, checked: nat, k: nat,
                  buf0: seq<u8>, buf: seq<u8>)
    requires checked <= AVR_CMD_SIZE && 256 <= |buf0| && RingRead(bus, sent0, frames, checked, k, buf0, buf)
    ensures k <= |frames| && k <= Accepted(bus.device, sent0, frames, checked)
  {
    DrivenBound(bus, sent0, frames, checked, k);
  }

  ghost predicate RingStopped(bus: SpiBus, sent0: seq<Frame>, frames: seq<Frame>, checked: nat,
                              buf0: seq<u8>, buf: seq<u8>)
    requires checked <= AVR_CMD_SIZE && 256 <= |buf0|
    reads bus
  {
    && Stopped(bus, sent0, frames, checked)
    && buf == RingStore(buf0, DataBytes(bus.device, sent0, frames, Accepted(bus.device, sent0, frames, checked)))
  }

  /** The same for a buffer filled in order. */
  ghost predicate LinearRead(bus: SpiBus, sent0: seq<Frame>, frames: seq<Frame>, checked: nat, k: nat,
                             buf0: seq<u8>, buf: seq<u8>)
    requires checked <= AVR_CMD_SIZE
    reads bus
  {
    && Driven(bus, sent0, frames, checked, k) && k <= |buf0|
    && buf == DataBytes(bus.device, sent0, frames, k) + buf0[k..]
  }

  ghost predicate LinearStopped(bus: SpiBus, sent0: seq<Frame>, frames: seq<Frame>, checked: nat,
                                buf0: seq<u8>, buf: seq<u8>)
    requires checked <= AVR_CMD_SIZE
    reads bus
  {
    var accepted := Accepted(bus.device, sent0, frames, checked);
    && Stopped(bus, sent0, frames, checked) && accepted <= |buf0|
    && buf == DataBytes(bus.device, sent0, frames, accepted) + buf0[accepted..]
  }

  /** `answer_counter++` on eight bits. */
  function NextCounter(ghost t: nat, counter: u8): (r: u8)
    requires counter == ToU8(t)
    ensures r == ToU8(t + 1)
  {
    if counter == 255 then 0 else counter + 1
  }

  /** Odd flash data and unknown memories are refused without a word on the wire. */
  predicate Refused(mem: ProgMemData) {
    mem.memoryType.MemoryErr? || (mem.memoryType.MemoryFlash? && |mem.data| % 2 != 0)
  }

  /** How many answers a read may accept: the loop counter of a flash read is an int, and the
      bytes of an EEPROM read must fit the packet. */
  function ReadLimit(memory: MemoryType): nat {
    if memory.MemoryFlash? then 0x7FFF_FFFF else PACKET_DATA_SIZE
  }

  /** The read ends, or is stopped by an answer that fails the check, within the limit. */
  ghost predicate Readable(p: Programmer, sent0: seq<Frame>, mem: ReadMemData, checked: nat)
    requires p.mcuInfo.Some? && checked <= AVR_CMD_SIZE
    reads p, p.bus
  {
    mem.memoryType.MemoryErr?
    || Accepted(p.bus.device, sent0, ReadFrames(p.mcuInfo.value, mem), checked) <= ReadLimit(mem.memoryType)
  }

  /** The effect of reading: the read commands are sent up to the first one whose answer fails
      the check, and the buffer gets the data bytes of those that passed. */
  ghost predicate Fetches(p: Programmer, sent0: seq<Frame>, buf0: seq<u8>, buf: seq<u8>,
                          mem: ReadMemData, checked: nat, status: i16)
    requires p.mcuInfo.Some? && checked <= AVR_CMD_SIZE && |buf0| == PACKET_DATA_SIZE
    requires Readable(p, sent0, mem, checked)
    reads p, p.bus
  {
    if mem.memoryType.MemoryErr? then status == -1 && p.bus.sent == sent0 && buf == buf0
    else
      var frames := ReadFrames(p.mcuInfo.value, mem);
      var accepted := Accepted(p.bus.device, sent0, frames, checked);
      var bytes := DataBytes(p.bus.device, sent0, frames, accepted);
      && p.bus.sent == sent0 + frames[..FramesSent(accepted, |frames|)]
      && buf == (if mem.memoryType.MemoryFlash? then RingStore(buf0, bytes) else bytes + buf0[accepted..])
      && status == if accepted < |frames| then -1 else ToI16(mem.bytesToRead)
  }

  /** The effect of programming: the ideal commands are sent up to the first one that is not
      echoed, and the status says whether that happened. */
  ghost predicate Programs(p: Programmer, sent0: seq<Frame>, mem: ProgMemData, uninitialised: i16, status: i16)
    requires p.mcuInfo.Some?
    reads p, p.bus
  {
    if Refused(mem) then status == -1 && p.bus.sent == sent0
    else
      var frames := WriteFrames(p.mcuInfo.value, mem);
      var accepted := Accepted(p.bus.device, sent0, frames, AVR_CMD_SIZE);
      && p.bus.sent == sent0 + frames[..FramesSent(accepted, |frames|)]
      && status == if accepted < |frames| then -1 else if |frames| == 0 then uninitialised else 0
  }

  class Programmer {
    /** `failures` enable commands were answered out of step, each followed by a pulse of the reset
        line; then either one was answered in step, with the second command byte in the third place
        of the answer, or all thirty attempts were used up. */
    ghost predicate Entered(sent0: seq<Frame>, line0: seq<u8>, failures: nat, success: i16)
      reads this, bus
    {
      && mcuInfo.Some? && Pulsed(line0, resetLine, failures) && (success == 1 || success == 0)
      && var enable, total := mcuInfo.value.pgmEnable, failures + success;
         && total <= 30 && (success == 0 ==> failures == 30)
         && |bus.sent| == |sent0| + total && bus.sent[..|sent0|] == sent0
         && (forall t :: |sent0| <= t < |bus.sent| ==> bus.sent[t] == enable)
         && (forall k :: |sent0| < k <= |sent0| + failures ==> ThirdByte(bus.device, bus.sent, k) != enable[1])
         && (success == 1 ==> bus.device(bus.sent)[2] == enable[1])
    }

    const bus: SpiBus
    var mcuInfo: Option<AvrMcuInfo>
    var spiEnabled: bool
    var resetLine: seq<u8>  // every level written to the reset line

    constructor (bus: SpiBus)
      ensures this.bus == bus && mcuInfo == None && !spiEnabled && resetLine == []
    {
      this.bus := bus;
      mcuInfo, spiEnabled, resetLine := None, false, [];
    }

    method SetMcuInfo(info: AvrMcuInfo)
      modifies this`mcuInfo
      ensures mcuInfo == Some(info)
    {
      mcuInfo := Some(info);
    }

    method ResetMcu(level: u8)
      modifies this`resetLine
      ensures resetLine == old(resetLine) + [level]
    {
      resetLine := resetLine + [level];
    }

    method PulseReset(ghost n: nat, ghost line0: seq<u8>)
      requires resetLine == line0 + ResetPulses(n)
      modifies this`resetLine
      ensures resetLine == line0 + ResetPulses(n + 1)
    {
      ResetMcu(MCU_RESET_OFF);
      ResetMcu(MCU_RESET_ON);
      assert ResetPulses(n + 1) == ResetPulses(n) + [MCU_RESET_OFF, MCU_RESET_ON];
    }

    /** `programmer_write_raw_cmd`; `answer` may be null. */
    method WriteRawCmd(cmd: array<u8>, answer: array?<u8>, checked: nat) returns (status: i16)
      requires cmd.Length == AVR_CMD_SIZE && checked <= AVR_CMD_SIZE
      requires answer != null ==> answer.Length == AVR_CMD_SIZE && answer != cmd
      modifies bus`sent, answer
      ensures bus.sent == old(bus.sent) + [cmd[..]]
      ensures answer != null ==> answer[..] == bus.device(bus.sent)
      ensures status == if Echoes(cmd[..], bus.device(bus.sent), checked) then 0 else -1
    {
      var temp := new u8[AVR_CMD_SIZE];
      bus.Transfer(cmd, temp);
      status := CheckCmdStatus(cmd, temp, checked);
      if answer != null {
        forall i | 0 <= i < AVR_CMD_SIZE { answer[i] := temp[i]; }
        assert answer[..] == temp[..];
      }
      assert cmd[..] == old(cmd[..]);
    }

    method LoadMemoryCmd(cmd: array<u8>) returns (status: i16)
      requires cmd.Length == AVR_CMD_SIZE
      modifies bus`sent
      ensures bus.sent == old(bus.sent) + [cmd[..]]
      ensures status == if Echoes(cmd[..], bus.device(bus.sent), AVR_CMD_SIZE) then 0 else -1
    {
      var answer := new u8[AVR_CMD_SIZE];
      status := WriteRawCmd(cmd, answer, AVR_CMD_SIZE);
    }

    /** Compiles one write command and sends it as frame t of `frames`. */
    method SendWrite(text: Text, addr: u32, input: u8, ghost sent0: seq<Frame>, ghost frames: seq<Frame>, ghost t: nat)
      returns (status: i16)
      requires PatternOk(text)
      requires t < |frames| && frames[t] == Command(text, addr, input)
      requires Driven(bus, sent0, frames, AVR_CMD_SIZE, t)
      modifies bus`sent
      ensures status == 0 || status == -1
      ensures status == 0 ==> Driven(bus, sent0, frames, AVR_CMD_SIZE, t + 1)
      ensures status == -1 ==> Stopped(bus, sent0, frames, AVR_CMD_SIZE)
    {
      var cmd := new u8[AVR_CMD_SIZE];
      assert (text + [0])[..|text|] == text;
      CreateMemoryCmd(text + [0], |text|, addr, input, cmd);
      status := LoadMemoryCmd(cmd);
      assert frames[..t + 1] == frames[..t] + [frames[t]];
      assert bus.sent == sent0 + frames[..t + 1];
      if status < 0 {
        AcceptedIs(bus.device, sent0, frames, AVR_CMD_SIZE, t);
      }
    }

    /** Loads the low and then the high byte of one word. */
    method ProgramWord(info: AvrMcuInfo, addr: u32, lo: u8, hi: u8,
                       ghost sent0: seq<Frame>, ghost frames: seq<Frame>, ghost t: nat)
      returns (status: i16)
      requires PatternOk(info.flashLoadLo) && PatternOk(info.flashLoadHi)
      requires t + 1 < |frames| && frames[t] == Command(info.flashLoadLo, addr, lo)
      requires frames[t + 1] == Command(info.flashLoadHi, addr, hi)
      requires Driven(bus, sent0, frames, AVR_CMD_SIZE, t)
      modifies bus`sent
      ensures status == 0 || status == -1
      ensures status == 0 ==> Driven(bus, sent0, frames, AVR_CMD_SIZE, t + 2)
      ensures status == -1 ==> Stopped(bus, sent0, frames, AVR_CMD_SIZE)
    {
      status := SendWrite(info.flashLoadLo, addr, lo, sent0, frames, t);
      if status < 0 {
        return status;
      }
      status := SendWrite(info.flashLoadHi, addr, hi, sent0, frames, t + 1);
    }

    /** The word loop of `program_flash_memory`; its 8-bit counter reaches at most 254. */
    method ProgramWords(mem: ProgMemData, uninitialised: i16, ghost frames: seq<Frame>) returns (status: i16)
      requires mcuInfo.Some? && PatternOk(mcuInfo.value.flashLoadLo) && PatternOk(mcuInfo.value.flashLoadHi)
      requires |mem.data| % 2 == 0 && frames == FlashWrites(mcuInfo.value, mem.startAddress, mem.data)
      modifies bus`sent
      ensures if status < 0 && |mem.data| > 0 then
                status == -1 && Stopped(bus, old(bus.sent), frames, AVR_CMD_SIZE)
              else
                && status == (if |mem.data| == 0 then uninitialised else 0)
                && Driven(bus, old(bus.sent), frames, AVR_CMD_SIZE, |frames|)
    {
      ghost var sent0 := bus.sent;
      ghost var w := 0;
      var info := mcuInfo.value;
      status := uninitialised;
      var address: u32 := mem.startAddress;
      var i: u8 := 0;
      while i < |mem.data|
        invariant i <= |mem.data| && i == 2 * w
        invariant address == ToU32(mem.startAddress + w)
        invariant Driven(bus, sent0, frames, AVR_CMD_SIZE, i)
        invariant status == if i == 0 then uninitialised else 0
        decreases |mem.data| - i
      {
        FlashWord(info, mem.startAddress, mem.data, w);
        status := ProgramWord(info, address, mem.data[i], mem.data[i + 1], sent0, frames, i);
        if status < 0 {
          return status;
        }
        address := NextAddress(mem.startAddress, w, address);
        i := i + 2;
        w := w + 1;
      }
    }

    /** `program_flash_memory`. Sends the ideal commands up to the first one that is not
        echoed. For no data at all the status is whatever its variable held. */
    method ProgramFlashMemory(mem: ProgMemData, uninitialised: i16) returns (status: i16)
      requires mcuInfo.Some? && PatternOk(mcuInfo.value.flashLoadLo) && PatternOk(mcuInfo.value.flashLoadHi)
      modifies bus`sent
      ensures |mem.data| % 2 != 0 ==> status == -1 && bus.sent == old(bus.sent)
      ensures |mem.data| % 2 == 0 ==>
        var frames := FlashWrites(mcuInfo.value, mem.startAddress, mem.data);
        var accepted := Accepted(bus.device, old(bus.sent), frames, AVR_CMD_SIZE);
        && bus.sent == old(bus.sent) + frames[..FramesSent(accepted, |frames|)]
        && status == if accepted < |frames| then -1 else if |frames| == 0 then uninitialised else 0
    {
      if |mem.data| % 2 != 0 {
        return -1;
      }
      ghost var sent0 := bus.sent;
      ghost var frames := FlashWrites(mcuInfo.value, mem.startAddress, mem.data);
      status := ProgramWords(mem, uninitialised, frames);
      if Driven(bus, sent0, frames, AVR_CMD_SIZE, |frames|) {
        DrivenAll(bus, sent0, frames, AVR_CMD_SIZE);
      }
    }

    /** `program_eeprom_memory`: the same law, one byte a command. */
    method ProgramEepromMemory(mem: ProgMemData, uninitialised: i16) returns (status: i16)
      requires mcuInfo.Some? && PatternOk(mcuInfo.value.eepromWrite)
      modifies bus`sent
      ensures var frames := EepromWrites(mcuInfo.value, mem.startAddress, mem.data);
              var accepted := Accepted(bus.device, old(bus.sent), frames, AVR_CMD_SIZE);
              && bus.sent == old(bus.sent) + frames[..FramesSent(accepted, |frames|)]
              && status == if accepted < |frames| then -1 else if |frames| == 0 then uninitialised else 0
    {
      ghost var sent0 := bus.sent;
      ghost var frames := EepromWrites(mcuInfo.value, mem.startAddress, mem.data);
      status := uninitialised;
      var address: u32 := mem.startAddress;
      for i := 0 to |mem.data|
        invariant address == ToU32(mem.startAddress + i)
        invariant Driven(bus, sent0, frames, AVR_CMD_SIZE, i)
        invariant status == if i == 0 then uninitialised else 0
      {
        status := SendWrite(mcuInfo.value.eepromWrite, address, mem.data[i], sent0, frames, i);
        if status < 0 {
          return status;
        }
        address := NextAddress(mem.startAddress, i, address);
      }
      DrivenAll(bus, sent0, frames, AVR_CMD_SIZE);
    }

    /** `programmer_program_memory`. */
    method ProgramMemory(mem: ProgMemData, uninitialised: i16) returns (status: i16)
      requires mcuInfo.Some? && PatternOk(mcuInfo.value.flashLoadLo) && PatternOk(mcuInfo.value.flashLoadHi)
      requires PatternOk(mcuInfo.value.eepromWrite)
      modifies bus`sent
      ensures Programs(this, old(bus.sent), mem, uninitialised, status)
    {
      match mem.memoryType
      case MemoryFlash => status := ProgramFlashMemory(mem, uninitialised);
      case MemoryEeprom => status := ProgramEepromMemory(mem, uninitialised);
      case MemoryErr => status := -1;
    }

    /** Sends one read command as frame t of `frames` and stores the data byte of the answer. */
    method ReadInto(text: Text, addr: u32, checked: nat, buf: array<u8>, at: nat,
                    ghost sent0: seq<Frame>, ghost frames: seq<Frame>, ghost t: nat)
      returns (status: i16)
      requires PatternOk(text) && checked <= AVR_CMD_SIZE
      requires t < |frames| && frames[t] == Command(text, addr, 0)
      requires Driven(bus, sent0, frames, checked, t)
      requires at < buf.Length || !EchoAt(bus.device, sent0, frames, checked, t)
      modifies bus`sent, buf
      ensures status == 0 || status == -1
      ensures status == 0 ==> Driven(bus, sent0, frames, checked, t + 1)
      ensures status == 0 ==>
        at < buf.Length && buf[..] == old(buf[..])[at := AnswerAt(bus.device, sent0, frames, t)[AVR_CMD_SIZE - 1]]
      ensures status == -1 ==> Stopped(bus, sent0, frames, checked) && buf[..] == old(buf[..])
      ensures status == -1 ==> Accepted(bus.device, sent0, frames, checked) == t
    {
      var cmd := new u8[AVR_CMD_SIZE];
      var res := new u8[AVR_CMD_SIZE];
      assert (text + [0])[..|text|] == text;
      CreateMemoryCmd(text + [0], |text|, addr, 0, cmd);
      status := WriteRawCmd(cmd, res, checked);
      assert frames[..t + 1] == frames[..t] + [frames[t]];
      assert bus.sent == sent0 + frames[..t + 1];
      assert buf[..] == old(buf[..]);
      if status < 0 {
        AcceptedIs(bus.device, sent0, frames, checked, t);
        return status;
      }
      assert AnswerAt(bus.device, sent0, frames, t) == res[..];
      buf[at] := res[AVR_CMD_SIZE - 1];
    }

    /** `buf[answer_counter++] = ...` with the 8-bit counter, after one read command. */
    method ReadThroughCounter(text: Text, addr: u32, checked: nat, buf: array<u8>, counter0: u8,
                              ghost sent0: seq<Frame>, ghost frames: seq<Frame>, ghost t: nat, ghost buf0: seq<u8>)
      returns (status: i16, counter: u8)
      requires PatternOk(text) && checked <= AVR_CMD_SIZE && buf.Length == PACKET_DATA_SIZE == |buf0|
      requires t < |frames| && frames[t] == Command(text, addr, 0)
      requires RingRead(bus, sent0, frames, checked, t, buf0, buf[..]) && counter0 == ToU8(t)
      modifies bus`sent, buf
      ensures status == 0 || status == -1
      ensures status == 0 ==> RingRead(bus, sent0, frames, checked, t + 1, buf0, buf[..])
      ensures status == 0 ==> counter == ToU8(t + 1)
      ensures status == -1 ==> RingStopped(bus, sent0, frames, checked, buf0, buf[..])
    {
      counter := counter0;
      status := ReadInto(text, addr, checked, buf, counter, sent0, frames, t);
      if status < 0 {
        return;
      }
      assert counter == t % 256;
      RingStoreNext(bus.device, sent0, frames, t, buf0);
      counter := NextCounter(t, counter);
    }

    /** Reads the high and then the low byte of one word. */
    method ReadWord(info: AvrMcuInfo, addr: u32, checked: nat, buf: array<u8>, counter0: u8,
                    ghost sent0: seq<Frame>, ghost frames: seq<Frame>, ghost t: nat, ghost buf0: seq<u8>)
      returns (status: i16, counter: u8)
      requires PatternOk(info.flashReadLo) && PatternOk(info.flashReadHi)
      requires checked <= AVR_CMD_SIZE && buf.Length == PACKET_DATA_SIZE == |buf0|
      requires t + 1 < |frames| && frames[t] == Command(info.flashReadHi, addr, 0)
      requires frames[t + 1] == Command(info.flashReadLo, addr, 0)
      requires RingRead(bus, sent0, frames, checked, t, buf0, buf[..]) && counter0 == ToU8(t)
      modifies bus`sent, buf
      ensures status == 0 || status == -1
      ensures status == 0 ==> RingRead(bus, sent0, frames, checked, t + 2, buf0, buf[..])
      ensures status == 0 ==> counter == ToU8(t + 2)
      ensures status == -1 ==> RingStopped(bus, sent0, frames, checked, buf0, buf[..])
    {
      status, counter := ReadThroughCounter(info.flashReadHi, addr, checked, buf, counter0, sent0, frames, t, buf0);
      if status < 0 {
        return;
      }
      status, counter := ReadThroughCounter(info.flashReadLo, addr, checked, buf, counter, sent0, frames, t + 1, buf0);
    }

    /** The word loop of `_read_flash_memory`. */
    method ReadWords(info: AvrMcuInfo, mem: ReadMemData, buf: array<u8>, checked: nat, ghost frames: seq<Frame>)
      returns (status: i16)
      requires PatternOk(info.flashReadLo) && PatternOk(info.flashReadHi)
      requires checked <= AVR_CMD_SIZE && buf.Length == PACKET_DATA_SIZE
      requires frames == FlashReads(info, mem.startAddress, mem.bytesToRead)
      requires Accepted(bus.device, bus.sent, frames, checked) <= ReadLimit(MemoryFlash)
      modifies bus`sent, buf
      ensures status == 0 || status == -1
      ensures status == 0 ==>
        RingRead(bus, old(bus.sent), frames, checked, |frames|, old(buf[..]), buf[..])
      ensures status == -1 ==> RingStopped(bus, old(bus.sent), frames, checked, old(buf[..]), buf[..])
    {
      hide Command, EchoAt, AnswerAt, Accepted, RingRead, RingStopped, FlashRead, PatternOk;
      ghost var sent0 := bus.sent;
      ghost var buf0 := buf[..];
      ghost var w := 0;
      status := 0;
      NothingRead(bus, frames, checked, buf0);
      var address := mem.startAddress;
      var counter: u8 := 0;
      var i: i32 := 0;
      while i < mem.bytesToRead
        invariant 0 <= i == 2 * w <= |frames| && status == 0
        invariant address == ToU32(mem.startAddress + w)
        invariant RingRead(bus, sent0, frames, checked, i, buf0, buf[..])
        invariant counter == ToU8(i)
        decreases |frames| - i
      {
        FlashReadWord(info, mem.startAddress, mem.bytesToRead, w);
        status, counter := ReadWord(info, address, checked, buf, counter, sent0, frames, i, buf0);
        if status < 0 {
          return;
        }
        RingBound(bus, sent0, frames, checked, i + 2, buf0, buf[..]);
        address := NextAddress(mem.startAddress, w, address);
        i := i + 2;
        w := w + 1;
      }
    }

    /** `_read_flash_memory`, with the echo check on answer bytes below `checked`.
        The 8-bit counter makes the data start over after 256 bytes. */
    method ReadFlashMemory(mem: ReadMemData, buf: array<u8>, checked: nat) returns (status: i16)
      requires mcuInfo.Some? && PatternOk(mcuInfo.value.flashReadLo) && PatternOk(mcuInfo.value.flashReadHi)
      requires checked <= AVR_CMD_SIZE && buf.Length == PACKET_DATA_SIZE
      requires Accepted(bus.device, bus.sent, FlashReads(mcuInfo.value, mem.startAddress, mem.bytesToRead), checked)
               <= ReadLimit(MemoryFlash)
      modifies bus`sent, buf
      ensures var frames := FlashReads(mcuInfo.value, mem.startAddress, mem.bytesToRead);
              var accepted := Accepted(bus.device, old(bus.sent), frames, checked);
              && bus.sent == old(bus.sent) + frames[..FramesSent(accepted, |frames|)]
              && buf[..] == RingStore(old(buf[..]), DataBytes(bus.device, old(bus.sent), frames, accepted))
              && status == if accepted < |frames| then -1 else ToI16(mem.bytesToRead)
    {
      ghost var sent0 := bus.sent;
      ghost var frames := FlashReads(mcuInfo.value, mem.startAddress, mem.bytesToRead);
      status := ReadWords(mcuInfo.value, mem, buf, checked, frames);
      if status == 0 {
        DrivenAll(bus, sent0, frames, checked);
        status := ToI16(mem.bytesToRead);
      }
    }

    /** The loop of `_read_eeprom_memory`. */
    method ReadBytes(info: AvrMcuInfo, mem: ReadMemData, buf: array<u8>, checked: nat, ghost frames: seq<Frame>)
      returns (status: i16)
      requires PatternOk(info.eepromRead)
      requires checked <= AVR_CMD_SIZE
      requires frames == EepromReads(info, mem.startAddress, mem.bytesToRead)
      requires Accepted(bus.device, bus.sent, frames, checked) <= buf.Length
      modifies bus`sent, buf
      ensures status == 0 || status == -1
      ensures status == 0 ==> LinearRead(bus, old(bus.sent), frames, checked, |frames|, old(buf[..]), buf[..])
      ensures status == -1 ==> LinearStopped(bus, old(bus.sent), frames, checked, old(buf[..]), buf[..])
    {
      hide Command, EchoAt, AnswerAt, Accepted, AcceptedFrom;
      ghost var sent0 := bus.sent;
      ghost var buf0 := buf[..];
      status := 0;
      var address := mem.startAddress;
      for i := 0 to mem.bytesToRead
        invariant address == ToU32(mem.startAddress + i) && status == 0
        invariant LinearRead(bus, sent0, frames, checked, i, buf0, buf[..])
      {
        DrivenStops(bus, sent0, frames, checked, i);
        status := ReadInto(info.eepromRead, address, checked, buf, i, sent0, frames, i);
        if status < 0 {
          return;
        }
        LinearStoreNext(bus.device, sent0, frames, i, buf0);
        address := NextAddress(mem.startAddress, i, address);
      }
    }

    /** `_read_eeprom_memory`, with the echo check on answer bytes below `checked`. */
    method ReadEepromMemory(mem: ReadMemData, buf: array<u8>, checked: nat) returns (status: i16)
      requires mcuInfo.Some? && PatternOk(mcuInfo.value.eepromRead)
      requires checked <= AVR_CMD_SIZE && buf.Length == PACKET_DATA_SIZE
      requires Accepted(bus.device, bus.sent, EepromReads(mcuInfo.value, mem.startAddress, mem.bytesToRead), checked)
               <= ReadLimit(MemoryEeprom)
      modifies bus`sent, buf
      ensures var frames := EepromReads(mcuInfo.value, mem.startAddress, mem.bytesToRead);
              var accepted := Accepted(bus.device, old(bus.sent), frames, checked);
              && bus.sent == old(bus.sent) + frames[..FramesSent(accepted, |frames|)]
              && buf[..] == DataBytes(bus.device, old(bus.sent), frames, accepted) + old(buf[accepted..])
              && status == if accepted < |frames| then -1 else ToI16(mem.bytesToRead)
    {
      ghost var sent0 := bus.sent;
      ghost var buf0 := buf[..];
      ghost var frames := EepromReads(mcuInfo.value, mem.startAddress, mem.bytesToRead);
      status := ReadBytes(mcuInfo.value, mem, buf, checked, frames);
      assert forall k :: 0 <= k <= buf.Length ==> old(buf[k..]) == buf0[k..];
      if status == 0 {
        DrivenAll(bus, sent0, frames, checked);
        status := ToI16(mem.bytesToRead);
      }
    }

    /** `programmer_read_memory`. */
    method ReadMemory(mem: ReadMemData, buf: array<u8>, checked: nat) returns (status: i16)
      requires mcuInfo.Some? && PatternOk(mcuInfo.value.flashReadLo) && PatternOk(mcuInfo.value.flashReadHi)
      requires PatternOk(mcuInfo.value.eepromRead)
      requires checked <= AVR_CMD_SIZE && buf.Length == PACKET_DATA_SIZE
      requires Readable(this, bus.sent, mem, checked)
      modifies bus`sent, buf
      ensures Fetches(this, old(bus.sent), old(buf[..]), buf[..], mem, checked, status)
    {
      ghost var buf0 := buf[..];
      assert forall k :: 0 <= k <= buf.Length ==> old(buf[k..]) == buf0[k..];
      match mem.memoryType
      case MemoryFlash => status := ReadFlashMemory(mem, buf, checked);
      case MemoryEeprom => status := ReadEepromMemory(mem, buf, checked);
      case MemoryErr => status := -1;
    }

    /** `programmer_enable_pgm_mode`: the enable command is sent until an answer is in step, at
        most 30 times, with a reset pulse after each failure. The result is never negative, the
        reset line ends up pulled, and SPI stays enabled only after success. */
    method EnablePgmMode() returns (success: i16)
      requires mcuInfo.Some?
      modifies this`spiEnabled, this`resetLine, bus`sent
      ensures var enable := mcuInfo.value.pgmEnable;
              var failures := Failures(bus.device, old(bus.sent), enable);
              && success == (if failures < PGM_ENABLE_RETRIES then 1 else 0)
              && bus.sent == old(bus.sent) + Repeat(enable, FramesSent(failures, PGM_ENABLE_RETRIES))
              && resetLine == old(resetLine) + [MCU_RESET_ON] + ResetPulses(failures)
      ensures resetLine[|resetLine| - 1] == MCU_RESET_ON
      ensures spiEnabled <==> success == 1
      ensures Entered(old(bus.sent), old(resetLine), Failures(bus.device, old(bus.sent), mcuInfo.value.pgmEnable),
                      success)
    {
      hide InStep, FailuresFrom, ResetPulses, Echoes, Entered;
      var enable := mcuInfo.value.pgmEnable;
      ghost var sent0 := bus.sent;
      spiEnabled := true;
      success := 0;
      ResetMcu(MCU_RESET_ON);
      ghost var line0 := resetLine;
      var cmd := new u8[AVR_CMD_SIZE](i requires 0 <= i < AVR_CMD_SIZE => enable[i]);
      assert cmd[..] == enable;
      var res := new u8[AVR_CMD_SIZE];
      NoPulses(line0);
      for i := 0 to PGM_ENABLE_RETRIES
        invariant success == 0 && cmd[..] == enable && spiEnabled
        invariant bus.sent == sent0 + Repeat(enable, i)
        invariant resetLine == line0 + ResetPulses(i)
        invariant forall t :: 0 <= t < i ==> !InStep(bus.device, sent0, enable, t)
      {
        var status := WriteRawCmd(cmd, res, AVR_CMD_SIZE);
        assert bus.sent == sent0 + Repeat(enable, i + 1);
        InStepIs(bus.device, sent0, enable, i);
        if res[2] == enable[1] {
          FailuresAre(bus.device, sent0, enable, i);
          ResetPulsesEnd(i);
          success := 1;
          EntryDone(this, sent0, old(resetLine), i, 1);
          return 1;
        }
        PulseReset(i, line0);
      }
      FailuresAre(bus.device, sent0, enable, PGM_ENABLE_RETRIES);
      ResetPulsesEnd(PGM_ENABLE_RETRIES);
      spiEnabled := false;
      EntryDone(this, sent0, old(resetLine), PGM_ENABLE_RETRIES, 0);
    }
  }

  lemma EntryDone(p: Programmer, sent0: seq<Frame>, line0: seq<u8>, failures: nat, success: i16)
    requires p.mcuInfo.Some? && (success == 1 || success == 0)
    requires failures + success <= 30 && (success == 0 ==> failures == 30)
    requires p.bus.sent == sent0 + Repeat(p.mcuInfo.value.pgmEnable, failures + success)
    requires p.resetLine == line0 + [MCU_RESET_ON] + ResetPulses(failures)
    requires forall t :: 0 <= t < failures ==> !InStep(p.bus.device, sent0, p.mcuInfo.value.pgmEnable, t)
    requires success == 1 ==> InStep(p.bus.device, sent0, p.mcuInfo.value.pgmEnable, failures)
    ensures p.Entered(sent0, line0, failures, success)
  {
    PulsesAre(line0, failures);
    var enable := p.mcuInfo.value.pgmEnable;
    forall k | |sent0| < k <= |sent0| + failures ensures ThirdByte(p.bus.device, p.bus.sent, k) != enable[1] {
      var t := k - |sent0| - 1;
      assert !InStep(p.bus.device, sent0, enable, t);
      assert p.bus.sent[..k] == sent0 + Repeat(enable, t + 1);
    }
  }

  lemma NoPulses(line: seq<u8>)
    ensures line + ResetPulses(0) == line
  {}

  lemma InStepIs(device: Device, sent: seq<Frame>, enable: Frame, t: nat)
    ensures InStep(device, sent, enable, t) <==> device(sent + Repeat(enable, t + 1))[2] == enable[1]
  {}

  lemma ResetPulsesEnd(n: nat)
    ensures |ResetPulses(n)| == 2 * n
    ensures n > 0 ==> ResetPulses(n)[2 * n - 1] == MCU_RESET_ON
  {
    if n > 0 { ResetPulsesEnd(n - 1); }
  }
}
