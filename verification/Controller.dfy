/** `controller.c`: from a received packet to the target and to the answer. */
module Controller {
  import opened Bits
  import opened Results
  import opened Patterns
  import opened McuInfo
  import opened Spi
  import opened Packets
  import opened Pool
  import Programmer
  import Receiver
  import Requests
  import PacketFlow
  import HandlingTask

  /** `set_ack_data`: on failure only the local pointer is changed, not the byte. */
  function AckData(data: u8, status: i16): u8 {
    if status >= 0 then PacketFlow.PL_ACK_SUCCESS else data
  }

  /** The read request of a packet. */
  function ReadRequest(packetData: seq<u8>): Programmer.ReadMemData
    requires |packetData| == PACKET_DATA_SIZE
  {
    Programmer.ReadMemData(Requests.BigEndian(packetData[1..5]), Requests.BigEndian(packetData[5..9]),
                           Requests.GetMemoryType(packetData[0]))
  }

  /** The programming request of a packet. */
  function ProgramRequest(c: Contents): Programmer.ProgMemData {
    Programmer.ProgMemData(Requests.BigEndian(c.data[..4]), Requests.GetMemoryType(c.data[4]),
                           c.data[Requests.PROG_MEM_FIXED_SIZE..][..Requests.DataLength(c.header.dataSize)])
  }

  predicate ReadSizeOk(c: Contents) {
    c.header.dataSize == Requests.READ_MEM_FIXED_SIZE
  }

  predicate CommandSizeOk(c: Contents) {
    ToU8(c.header.dataSize) == AVR_CMD_SIZE
  }

  /** The request that a received packet makes; the results of the work are free. */
  predicate Makes(c: Contents, m: PacketFlow.Inbound) {
    match c.header.ptype
    case LoadMCUInfoPacket => m.LoadMcuInfo?
    case CMDPacket => m.Command? && (m.sizeOk <==> c.header.dataSize % 256 == 4)
    case ProgramMemoryPacket => m.ProgramMemory?
    case ReadMemoryPacket =>
      && m.ReadMemory? && (m.sizeOk <==> c.header.dataSize == 9)
      && (m.sizeOk ==> m.bytesToRead == ReadRequest(c.data).bytesToRead)
    case CloseConnectionPacket => m.CloseConnection?
    case _ => m.Silent?
  }

  /** The request before any work. */
  function Asked(c: Contents): (m: PacketFlow.Inbound)
    ensures Makes(c, m)
  {
    match c.header.ptype
    case LoadMCUInfoPacket => PacketFlow.LoadMcuInfo
    case CMDPacket => PacketFlow.Command(CommandSizeOk(c), -1, [0, 0, 0, 0])
    case ProgramMemoryPacket => PacketFlow.ProgramMemory(-1)
    case ReadMemoryPacket => PacketFlow.ReadMemory(ReadSizeOk(c), -1, c.data, ReadRequest(c.data).bytesToRead)
    case CloseConnectionPacket => PacketFlow.CloseConnection
    case _ => PacketFlow.Silent
  }

  /** The packet types with a stub for a handler. */
  predicate HasStub(t: PacketType) {
    || t.ProgrammerInitPacket? || t.ProgrammerStopPacket? || t.UartInitPacket? || t.UartStopPacket?
    || t.EnableEncryptionPacket? || t.EnableSignPacket?
  }

  /** What a reset packet does to the reset line: pulls it (0), releases it (1), or nothing. Only the
      first test looks at the first byte. */
  function ResetLevels(c: Contents): seq<u8> {
    if c.data[0] == 1 then [0] else if c.data[1] == 0 then [1] else []
  }

  /** The read ends within the packet and the loop counter. */
  ghost predicate CanFetch(p: Programmer.Programmer, c: Contents, checked: nat)
    requires p.mcuInfo.Some? && checked <= AVR_CMD_SIZE
    reads p, p.bus
  {
    Programmer.Readable(p, p.bus.sent, ReadRequest(c.data), checked)
  }

  /** The packet has a handler, and the handler does not leave its arrays or the pattern language. */
  ghost predicate Ready(p: Programmer.Programmer, c: Contents, checked: nat)
    requires checked <= AVR_CMD_SIZE
    reads p, p.bus
  {
    match c.header.ptype
    case LoadMCUInfoPacket => McuInfo.Get(c.data).Some?
    case CMDPacket => true
    case ProgramMemoryPacket => CanProgram(p)
    case ReadMemoryPacket => CanRead(p) && (ReadSizeOk(c) ==> CanFetch(p, c, checked))
    case CloseConnectionPacket => true
    case ResetPacket => true
    case t => HasStub(t)
  }

  /** There is a packet for the message and one more. */
  predicate TwoPackets(pool: Pool.PoolState) {
    Pool.Get(pool).Some? && Pool.Get(Pool.Get(pool).value.0).Some?
  }

  /** The patterns that programming compiles are well-formed. */
  predicate CanProgram(p: Programmer.Programmer)
    reads p
  {
    && p.mcuInfo.Some? && Programmer.PatternOk(p.mcuInfo.value.flashLoadLo)
    && Programmer.PatternOk(p.mcuInfo.value.flashLoadHi) && Programmer.PatternOk(p.mcuInfo.value.eepromWrite)
  }

  predicate CanRead(p: Programmer.Programmer)
    reads p
  {
    && p.mcuInfo.Some? && Programmer.PatternOk(p.mcuInfo.value.flashReadLo)
    && Programmer.PatternOk(p.mcuInfo.value.flashReadHi) && Programmer.PatternOk(p.mcuInfo.value.eepromRead)
  }

  /** What the firmware holds and has done on the target's side. */
  datatype TargetSide = TargetSide(
    sent: seq<Frame>, mcuInfo: Option<AvrMcuInfo>, spiEnabled: bool, resetLine: seq<u8>)

  class Controller {
    const programmer: Programmer.Programmer
    const task: HandlingTask.Task

    ghost predicate Valid()
      reads this, task, task.packets
    {
      task.Valid()
    }

    ghost function Side(): TargetSide
      reads this, programmer, programmer.bus
    {
      TargetSide(programmer.bus.sent, programmer.mcuInfo, programmer.spiEnabled, programmer.resetLine)
    }

    /** The record of the packet has been installed and programming mode tried once. */
    ghost predicate Installed(s0: TargetSide, c: Contents)
      reads this, programmer, programmer.bus
    {
      && McuInfo.Get(c.data).Some?
      && var info := McuInfo.Get(c.data).value.0;
         var failures := Programmer.Failures(programmer.bus.device, s0.sent, info.pgmEnable);
         && programmer.bus.sent
         == s0.sent + Programmer.Repeat(info.pgmEnable, FramesSent(failures, Programmer.PGM_ENABLE_RETRIES))
         && programmer.mcuInfo == Some(info)
         && (programmer.spiEnabled <==> failures < Programmer.PGM_ENABLE_RETRIES)
         && programmer.resetLine
         == s0.resetLine + [Programmer.MCU_RESET_ON] + Programmer.ResetPulses(failures)
         && programmer.Entered(s0.sent, s0.resetLine, failures, if programmer.spiEnabled then 1 else 0)
    }

    /** The raw command of the packet has been sent once and answered, if its size is right. */
    ghost predicate Commanded(s0: TargetSide, c: Contents, m: PacketFlow.Inbound)
      reads this, programmer, programmer.bus
    {
      && m.Command?
      && if c.header.dataSize % 256 == 4 then
           var cmd := c.data[..4];
           && Side() == s0.(sent := s0.sent + [cmd])
           && m.answer == programmer.bus.device(programmer.bus.sent)
           && m.status == (if m.answer[1] == cmd[0] && m.answer[2] == cmd[1] && m.answer[3] == cmd[2] then 0 else -1)
         else
           Side() == s0 && m.status == -1
    }

    /** The work that the packet asks for has been done, with the results in `m`, and nothing else
        on the target's side. */
    ghost predicate Worked(s0: TargetSide, c: Contents, uninitialised: i16, packetLeft: bool, buf0: PacketData,
                           checked: nat, m: PacketFlow.Inbound)
      reads this, programmer, programmer.bus
    {
      match c.header.ptype
      case LoadMCUInfoPacket => Installed(s0, c)
      case CMDPacket => Commanded(s0, c, m)
      case ProgramMemoryPacket =>
        Programmed(s0.sent, c, uninitialised, m) && Side() == s0.(sent := programmer.bus.sent)
      case ReadMemoryPacket =>
        if ReadSizeOk(c) && packetLeft then
          Fetched(s0.sent, c, buf0, checked, m) && Side() == s0.(sent := programmer.bus.sent)
        else Side() == s0
      case ResetPacket => Side() == s0.(resetLine := s0.resetLine + ResetLevels(c))
      case _ => Side() == s0
    }

    /** The work of a programming request has been done and gave the status in `m`. */
    ghost predicate Programmed(sent0: seq<Frame>, c: Contents, uninitialised: i16, m: PacketFlow.Inbound)
      reads this, programmer, programmer.bus
    {
      && m.ProgramMemory? && programmer.mcuInfo.Some?
      && Programmer.Programs(programmer, sent0, ProgramRequest(c), uninitialised, m.status)
    }

    /** The work of a read request has been done over the data `buf0`. */
    ghost predicate Fetched(sent0: seq<Frame>, c: Contents, buf0: PacketData, checked: nat, m: PacketFlow.Inbound)
      reads this, programmer, programmer.bus
    {
      && m.ReadMemory? && programmer.mcuInfo.Some? && checked <= AVR_CMD_SIZE
      && Programmer.Readable(programmer, sent0, ReadRequest(c.data), checked)
      && Programmer.Fetches(programmer, sent0, buf0, m.fetched, ReadRequest(c.data), checked, m.status)
    }

    constructor (programmer: Programmer.Programmer, task: HandlingTask.Task)
      requires task.Valid()
      ensures this.programmer == programmer && this.task == task && Valid()
    {
      this.programmer, this.task := programmer, task;
    }

    /** `process_load_mcu_info_packet`. Entering programming mode is tried once, because its
        status is never negative, and the client is told "success" even when it failed. */
    method ProcessLoadMcuInfo(inbound: Pool.Obj) returns (ack: u8)
      requires Valid() && McuInfo.Get(task.At(inbound).data).Some?
      modifies programmer, programmer.bus`sent, task, task.packets, task.packets.data
      ensures Valid() && task.packets.data == old(task.packets.data)
      ensures var info := McuInfo.Get(old(task.At(inbound)).data).value.0;
              var failures := Programmer.Failures(programmer.bus.device, old(programmer.bus.sent), info.pgmEnable);
              && programmer.mcuInfo == Some(info)
              && programmer.bus.sent == old(programmer.bus.sent)
                 + Programmer.Repeat(info.pgmEnable, FramesSent(failures, Programmer.PGM_ENABLE_RETRIES))
              && (programmer.spiEnabled <==> failures < Programmer.PGM_ENABLE_RETRIES)
      ensures Installed(old(Side()), old(task.At(inbound)))
      ensures ack == 1 && PacketFlow.ACK.body == [ack]
      ensures ack == PacketFlow.PL_ACK_SUCCESS
      ensures task.Now() == PacketFlow.ProcessLoadMcuInfo(old(task.Now()), task.fixes)
    {
      hide Programmer.Failures, Programmer.ResetPulses;
      var info, k := GetMcuInfo(task.At(inbound).data);
      programmer.SetMcuInfo(info);
      var status: i16 := -1;
      var i := 0;
      while i < Programmer.ENTER_PGM_ATTEMPTS && status < 0
        invariant i <= 1 && (i == 0 <==> status < 0)
        invariant programmer.mcuInfo == Some(info)
        invariant i == 0 ==>
          programmer.bus.sent == old(programmer.bus.sent) && programmer.resetLine == old(programmer.resetLine)
        invariant i == 1 ==>
          var failures := Programmer.Failures(programmer.bus.device, old(programmer.bus.sent), info.pgmEnable);
          && programmer.bus.sent == old(programmer.bus.sent)
             + Programmer.Repeat(info.pgmEnable, FramesSent(failures, Programmer.PGM_ENABLE_RETRIES))
          && (programmer.spiEnabled <==> failures < Programmer.PGM_ENABLE_RETRIES)
          && programmer.resetLine
          == old(programmer.resetLine) + [Programmer.MCU_RESET_ON] + Programmer.ResetPulses(failures)
          && programmer.Entered(old(programmer.bus.sent), old(programmer.resetLine), failures,
                                if programmer.spiEnabled then 1 else 0)
        invariant task.Valid() && task.Now() == old(task.Now())
        invariant task.packets.data == old(task.packets.data)
      {
        status := programmer.EnablePgmMode();
        i := i + 1;
      }
      ack := AckData(0, status);
      task.ProcessLoadMcuInfo();
    }

    /** `process_program_memory_packet` on the packet `inbound`. */
    method ProcessProgramMemory(inbound: Pool.Obj, uninitialised: i16)
      returns (mem: Programmer.ProgMemData, status: i16)
      requires Valid() && CanProgram(programmer)
      modifies programmer.bus`sent, task, task.packets, task.packets.data
      ensures Valid() && task.packets.data == old(task.packets.data)
      ensures mem == ProgramRequest(old(task.At(inbound)))
      ensures Programmer.Programs(programmer, old(programmer.bus.sent), mem, uninitialised, status)
      ensures Programmed(old(programmer.bus.sent), old(task.At(inbound)), uninitialised,
                         PacketFlow.ProgramMemory(status))
      ensures old(task.At(inbound)).data[4] >= 2 ==> status == -1 && programmer.bus.sent == old(programmer.bus.sent)
      ensures old(task.At(inbound)).data[4] == 0 && (old(task.At(inbound)).header.dataSize + 251) % 256 % 2 == 1 ==>
        status == -1 && programmer.bus.sent == old(programmer.bus.sent)
      ensures task.Now()
           == PacketFlow.ProcessProgramMemory(old(task.Now()), task.fixes, PacketFlow.ProgramMemory(status))
    {
      hide Requests.BigEndian, Requests.AddressAt, PacketFlow.ProcessProgramMemory, Spi.Accepted;
      var packet := task.At(inbound);
      mem := Requests.GetProgMemData(packet.data, packet.header.dataSize);
      status := programmer.ProgramMemory(mem, uninitialised);
      task.ProcessProgramMemory(PacketFlow.ProgramMemory(status));
    }

    /** `process_read_memory_packet` on the packet `inbound`, reading into the data of the packet
        it takes from the pool. Without a packet, or for a wrong size, nothing happens. */
    method ProcessReadMemory(inbound: Pool.Obj, checked: nat) returns (request: PacketFlow.Inbound)
      requires Valid() && checked <= AVR_CMD_SIZE && CanRead(programmer)
      requires ReadSizeOk(task.At(inbound)) ==> CanFetch(programmer, task.At(inbound), checked)
      modifies programmer.bus`sent, task, task.packets, task.packets.data
      ensures Valid() && task.packets.data == old(task.packets.data)
      ensures request.ReadMemory? && request.sizeOk == ReadSizeOk(old(task.At(inbound)))
      ensures request.sizeOk ==> request.bytesToRead == ReadRequest(old(task.At(inbound)).data).bytesToRead
      ensures task.Now() == PacketFlow.ProcessReadMemory(old(task.Now()), task.fixes, request, inbound)
      ensures old(task.At(inbound)).data[0] >= 2 ==>
        programmer.bus.sent == old(programmer.bus.sent) && request.status == -1
      ensures if request.sizeOk && Pool.Get(old(task.Now()).pool).Some? then
                var x := Pool.Get(old(task.Now()).pool).value.1;
                Fetched(old(programmer.bus.sent), old(task.At(inbound)), old(task.At(x)).data, checked, request)
              else
                programmer.bus.sent == old(programmer.bus.sent)
    {
      hide Makes, PacketFlow.AnswerRead, Programmer.Fetches, Requests.BigEndian, Spi.Accepted;
      var packet := task.At(inbound);
      var status, mem := Requests.GetReadMemData(packet.data, packet.header.dataSize);
      request := PacketFlow.ReadMemory(false, status, packet.data, 0);
      if status < 0 {
        return request;
      }
      request := PacketFlow.ReadMemory(true, -1, packet.data, mem.bytesToRead);
      var got, x := task.packets.PoolGet(0);
      if got < 0 {
        return request;
      }
      var fetched := task.At(x).data;
      var data := new u8[PACKET_DATA_SIZE](i requires 0 <= i < PACKET_DATA_SIZE => fetched[i]);
      assert data[..] == fetched;
      status := programmer.ReadMemory(mem, data, checked);
      request := PacketFlow.ReadMemory(true, status, data[..], mem.bytesToRead);
      task.AnswerRead(request, x, inbound);
    }

    /** `process_reset` on the packet `inbound`. */
    method ProcessReset(inbound: Pool.Obj) returns (status: i16)
      modifies programmer`resetLine
      ensures status == -1 || status == 0
      ensures task.At(inbound).data[0] == 1 ==>
        status == 0 && programmer.resetLine == old(programmer.resetLine) + [0]
      ensures task.At(inbound).data[0] != 1 && task.At(inbound).data[1] == 0 ==>
        status == 0 && programmer.resetLine == old(programmer.resetLine) + [1]
      ensures task.At(inbound).data[0] != 1 && task.At(inbound).data[1] != 0 ==>
        status == -1 && programmer.resetLine == old(programmer.resetLine)
    {
      var packet := task.At(inbound);
      if packet.data[0] == 1 {
        programmer.ResetMcu(Programmer.MCU_RESET_ON);
      } else if packet.data[1] == 0 {
        programmer.ResetMcu(Programmer.MCU_RESET_OFF);
      } else {
        return -1;
      }
      return 0;
    }

    /** `process_cmd_packet` on the packet `inbound`. The size is compared in eight bits. */
    method ProcessCommand(inbound: Pool.Obj) returns (answer: Frame, status: i16)
      requires Valid()
      modifies programmer.bus`sent, task, task.packets, task.packets.data
      ensures Valid() && task.packets.data == old(task.packets.data)
      ensures CommandSizeOk(old(task.At(inbound))) ==>
        var cmd := old(task.At(inbound)).data[..AVR_CMD_SIZE];
        && programmer.bus.sent == old(programmer.bus.sent) + [cmd]
        && answer == programmer.bus.device(programmer.bus.sent)
        && status == (if Echoes(cmd, answer, AVR_CMD_SIZE) then 0 else -1)
      ensures !CommandSizeOk(old(task.At(inbound))) ==> status == -1 && programmer.bus.sent == old(programmer.bus.sent)
      ensures if old(task.At(inbound)).header.dataSize % 256 == 4 then
                var cmd := old(task.At(inbound)).data[..4];
                && programmer.bus.sent == old(programmer.bus.sent) + [cmd]
                && (status == 0 <==> answer[1] == cmd[0] && answer[2] == cmd[1] && answer[3] == cmd[2])
              else
                programmer.bus.sent == old(programmer.bus.sent) && task.Now() == old(task.Now()) && status == -1
      ensures Commanded(old(Side()), old(task.At(inbound)),
                        PacketFlow.Command(CommandSizeOk(old(task.At(inbound))), status, answer))
      ensures task.Now() == PacketFlow.ProcessCommand(old(task.Now()), task.fixes,
                              PacketFlow.Command(CommandSizeOk(old(task.At(inbound))), status, answer))
    {
      var packet := task.At(inbound);
      answer := [0, 0, 0, 0];
      if ToU8(packet.header.dataSize) != AVR_CMD_SIZE {
        return answer, -1;
      }
      var cmd := new u8[AVR_CMD_SIZE](i requires 0 <= i < AVR_CMD_SIZE => packet.data[i]);
      assert cmd[..] == packet.data[..AVR_CMD_SIZE];
      var res := new u8[AVR_CMD_SIZE];
      status := programmer.WriteRawCmd(cmd, res, AVR_CMD_SIZE);
      answer := res[..];
      EchoesFull(cmd[..], answer);
      task.ProcessCommand(PacketFlow.Command(true, status, answer));
    }

    /** `process_packet` */
    method ProcessPacket(inbound: Pool.Obj, uninitialised: i16, checked: nat)
      returns (request: PacketFlow.Inbound, ghost buf0: PacketData)
      requires Valid() && checked <= AVR_CMD_SIZE && Ready(programmer, task.At(inbound), checked)
      modifies programmer, programmer.bus`sent, task, task.packets, task.packets.data
      ensures Valid() && task.packets.data == old(task.packets.data)
      ensures Makes(old(task.At(inbound)), request)
      ensures task.Now() == PacketFlow.Process(old(task.Now()), task.fixes, request, inbound)
      ensures Worked(old(Side()), old(task.At(inbound)), uninitialised, Pool.Get(old(task.Now()).pool).Some?, buf0,
                     checked, request)
    {
      hide Installed, Commanded, Programmed, Fetched, Programmer.Programs, Programmer.Fetches, Programmer.Readable;
      hide Requests.BigEndian, McuInfo.Get, PacketFlow.ProcessLoadMcuInfo, ProgramRequest, CanFetch;
      hide PacketFlow.ProcessReadMemory, PacketFlow.ProcessCommand, PacketFlow.ProcessProgramMemory;
      var packet := task.At(inbound);
      request, buf0 := Asked(packet), packet.data;
      match packet.header.ptype
      case LoadMCUInfoPacket =>
        var ack := ProcessLoadMcuInfo(inbound);
      case CMDPacket =>
        var answer, status := ProcessCommand(inbound);
        request := PacketFlow.Command(CommandSizeOk(packet), status, answer);
      case ProgramMemoryPacket =>
        var mem, status := ProcessProgramMemory(inbound, uninitialised);
        request := PacketFlow.ProgramMemory(status);
      case ReadMemoryPacket =>
        if Pool.Get(task.Now().pool).Some? {
          buf0 := task.At(Pool.Get(task.Now().pool).value.1).data;
        }
        request := ProcessReadMemory(inbound, checked);
      case ResetPacket =>
        var status := ProcessReset(inbound);
      case _ =>
    }

    /** What follows the reception of a message: processing, release and drain. */
    method ServeReceived(inbound: Pool.Obj, uninitialised: i16, checked: nat)
      returns (request: PacketFlow.Inbound, ghost buf0: PacketData)
      requires Valid() && !task.restarted && !task.fault
      requires checked <= AVR_CMD_SIZE && Ready(programmer, task.At(inbound), checked)
      modifies programmer, programmer.bus`sent, task, task.packets, task.packets.data
      ensures Valid() && task.packets.data == old(task.packets.data) && Makes(old(task.At(inbound)), request)
      ensures task.Now() == AfterReception(old(task.Now()), task.fixes, request, inbound)
      ensures Worked(old(Side()), old(task.At(inbound)), uninitialised, Pool.Get(old(task.Now()).pool).Some?, buf0,
                     checked, request)
    {
      hide Makes, Ready, Worked, PacketFlow.Process, PacketFlow.Drain;
      request, buf0 := ProcessPacket(inbound, uninitialised, checked);
      if task.restarted {
        return;
      }
      var status := task.ReleasePacket(inbound);
      if task.fault || status < 0 {
        return;
      }
      task.DrainQueue();
    }

    /** A visit of the handling task with a message that has been received into a packet from the
        pool: dispatch, work, answer, release and drain. */
    method VisitConnection(received: Contents, uninitialised: i16, checked: nat)
      returns (request: PacketFlow.Inbound, ghost buf0: PacketData)
      requires Valid() && !task.restarted && !task.fault
      requires checked <= AVR_CMD_SIZE && Ready(programmer, received, checked)
      modifies programmer, programmer.bus`sent, task, task.packets, task.packets.data
      ensures Valid() && task.packets.data == old(task.packets.data) && Makes(received, request)
      ensures task.Now() == PacketFlow.Visit(old(task.Now()), task.fixes, Some(PacketFlow.Arrival(received, request)))
      ensures if Pool.Get(old(task.Now()).pool).Some? then
                Worked(old(Side()), received, uninitialised, TwoPackets(old(task.Now()).pool), buf0, checked, request)
              else Side() == old(Side())
    {
      hide Makes, Ready, Worked, AfterReception;
      request, buf0 := Asked(received), received.data;
      var got, inbound := task.packets.PoolGet(0);
      if got < 0 {
        task.fault := true;
        return;
      }
      task.memory := task.memory[inbound := received];
      request, buf0 := ServeReceived(inbound, uninitialised, checked);
      VisitReceives(old(task.Now()), task.fixes, PacketFlow.Arrival(received, request));
    }

    /** The same with the message still in the socket: it is received into a packet from the pool,
        and whatever that packet then holds is processed, the status of the reception aside. */
    method ServeSocket(socket: Receiver.Socket, uninitialised: i16, checked: nat)
      returns (request: PacketFlow.Inbound, ghost buf0: PacketData)
      requires Valid() && !task.restarted && !task.fault && Pool.Get(task.packets.State()).Some?
      requires Receiver.ValidEvents(socket.events) && CanReceive(task.Now(), socket.events)
      requires checked <= AVR_CMD_SIZE && Ready(programmer, Arriving(task.Now(), socket.events).memory, checked)
      modifies socket, programmer, programmer.bus`sent, task, task.packets, task.packets.data
      ensures Valid() && task.packets.data == old(task.packets.data)
      ensures var d := Arriving(old(task.Now()), old(socket.events));
              && socket.events == d.rest && Makes(d.memory, request)
              && task.Now() == PacketFlow.Visit(old(task.Now()), task.fixes,
                                                Some(PacketFlow.Arrival(d.memory, request)))
              && Worked(old(Side()), d.memory, uninitialised, TwoPackets(old(task.Now()).pool), buf0, checked, request)
    {
      hide Makes, Ready, Worked, AfterReception, Receiver.Deliver, Receiver.BodyFits;
      var got, inbound := task.packets.PoolGet(0);
      var packet := new Packet(task.At(inbound));
      var status := Receiver.RecvPacket(socket, packet);
      task.memory := task.memory[inbound := packet.Now()];
      request, buf0 := ServeReceived(inbound, uninitialised, checked);
      VisitReceives(old(task.Now()), task.fixes,
                    PacketFlow.Arrival(Arriving(old(task.Now()), old(socket.events)).memory, request));
    }
  }

  /** Processing a received message, releasing its packet and draining the queue. */
  ghost function AfterReception(f: PacketFlow.Flow, fixes: PacketFlow.Fixes, m: PacketFlow.Inbound, x: Pool.Obj)
    : PacketFlow.Flow
  {
    var g := PacketFlow.Process(f, fixes, m, x);
    if g.restarted then g
    else
      var k := PacketFlow.GiveBack(g, x);
      if k.fault || Pool.Release(g.pool, x).None? then k else PacketFlow.Drain(k, fixes)
  }

  lemma VisitReceives(f: PacketFlow.Flow, fixes: PacketFlow.Fixes, a: PacketFlow.Arrival)
    requires !f.restarted && !f.fault && Pool.Get(f.pool).Some?
    ensures var (p, x) := Pool.Get(f.pool).value;
            PacketFlow.Visit(f, fixes, Some(a))
            == AfterReception(PacketFlow.Put(f.(pool := p), x, a.received), fixes, a.request, x)
  {
    hide PacketFlow.Process, PacketFlow.Drain;
  }

  /** What comes next in the socket fits the packet that it would be received into. */
  predicate CanReceive(f: PacketFlow.Flow, events: seq<Receiver.Event>)
    requires Receiver.ValidEvents(events) && Pool.Get(f.pool).Some?
  {
    Receiver.BodyFits(PacketFlow.Look(f, Pool.Get(f.pool).value.1).raw, events)
  }

  function Arriving(f: PacketFlow.Flow, events: seq<Receiver.Event>): Receiver.Delivery
    requires Receiver.ValidEvents(events) && Pool.Get(f.pool).Some? && CanReceive(f, events)
  {
    Receiver.Deliver(PacketFlow.Look(f, Pool.Get(f.pool).value.1), events)
  }
}
