/** From request frames in a chunked stream to the target's memory and back to the client: the
    firmware serves load, store and fetch requests as a plain memory server would. */
module EndToEnd {
  import opened Bits
  import opened Patterns
  import opened McuInfo
  import opened Results
  import opened Spi
  import opened Commands
  import opened AvrTarget
  import opened MemoryLaws
  import opened Packets
  import opened Programmer
  import opened Requests
  import Pool
  import PacketFlow
  import PacketContents
  import HandlingTask
  import Receiver
  import Controller

  // ------------------------------------------------------------- The requests

  datatype Request =
    | Load(info: AvrMcuInfo)
    | Store(flash: bool, start: u32, data: Text)
    | Fetch(flash: bool, start: u32, count: u32)
    | Command(cmd: Frame)

  function MemoryByte(flash: bool): u8 {
    if flash then 0 else 1
  }

  function Kind(flash: bool): MemoryType {
    if flash then MemoryFlash else MemoryEeprom
  }

  function Payload(r: Request): seq<u8> {
    match r
    case Load(info) => McuInfo.Put(info, [])
    case Store(flash, start, data) => ToBigEndian(start) + [MemoryByte(flash)] + data
    case Fetch(flash, start, count) => [MemoryByte(flash)] + ToBigEndian(start) + ToBigEndian(count)
    case Command(cmd) => cmd
  }

  function RequestType(r: Request): PacketType {
    match r
    case Load(_) => LoadMCUInfoPacket
    case Store(_, _, _) => ProgramMemoryPacket
    case Fetch(_, _, _) => ReadMemoryPacket
    case Command(_) => CMDPacket
  }

  /** The protocol's type byte for the request. */
  function RequestByte(r: Request): u8 {
    match r
    case Load(_) => 0x20
    case Store(_, _, _) => 0x21
    case Fetch(_, _, _) => 0x22
    case Command(_) => 0x24
  }

  /** What a client of this target may ask: its own record, whole words or bytes to store, and no
      more to fetch than the answer's buffer takes in order. */
  predicate Proper(chip: Chip, r: Request) {
    match r
    case Load(info) => info == chip.info && |McuInfo.Put(info, [])| <= PACKET_DATA_SIZE
    case Store(flash, _, data) => 0 < |data| && (flash ==> |data| % 2 == 0)
    case Fetch(flash, _, count) => count <= if flash then 256 else PACKET_DATA_SIZE
    case Command(_) => true
  }

  /** The frame that a client sends for the request. */
  function RequestFrame(r: Request): WireFrame
    requires |Payload(r)| <= PACKET_DATA_SIZE
  {
    WireFrame([0x1B, 0, RequestByte(r), |Payload(r)| / 256, |Payload(r)| % 256], Payload(r))
  }

  lemma PayloadFits(chip: Chip, r: Request)
    requires Proper(chip, r)
    ensures |Payload(r)| <= PACKET_DATA_SIZE
  {}

  lemma FrameAccepted(r: Request)
    requires |Payload(r)| <= PACKET_DATA_SIZE
    ensures var f := RequestFrame(r);
            && Receiver.Acceptable(f) && SizeOf(f.raw) == |Payload(r)|
            && Parsed(f.raw).ptype == RequestType(r) && Parsed(f.raw).dataSize == |Payload(r)|
  {
    hide Payload;
    TypesAgree(RequestByte(r), RequestType(r));
    hide TypeOf;
  }

  /** A packet that holds the request as received: its type, its size, and the payload in front. */
  predicate Asks(c: Contents, r: Request) {
    && c.header.ptype == RequestType(r) && c.header.dataSize == |Payload(r)|
    && Payload(r) <= c.data
  }

  lemma HoldingAsks(m: Contents, r: Request)
    requires |Payload(r)| <= PACKET_DATA_SIZE
    ensures Receiver.Acceptable(RequestFrame(r)) && Asks(Receiver.Holding(m, RequestFrame(r)), r)
  {
    FrameAccepted(r);
    hide Payload, Parsed, Receiver.Acceptable;
  }

  lemma LoadDecodes(c: Contents, r: Request)
    requires r.Load? && Asks(c, r)
    ensures McuInfo.Get(c.data).Some? && McuInfo.Get(c.data).value.0 == r.info
  {
    var payload := Payload(r);
    assert c.data == payload + c.data[|payload|..];
    RoundTrip(r.info, c.data[|payload|..]);
  }

  lemma StoreDecodes(c: Contents, r: Request)
    requires r.Store? && Asks(c, r)
    ensures Controller.ProgramRequest(c) == ProgMemData(r.start, Kind(r.flash), r.data)
  {
    var payload := Payload(r);
    assert c.data[..|payload|] == payload;
    assert c.data[..4] == payload[..4] == ToBigEndian(r.start);
    BigEndianRoundTrip(r.start);
    assert c.data[4] == payload[4];
    PayloadTakenIff(|payload|);
    assert c.data[PROG_MEM_FIXED_SIZE..][..|r.data|] == payload[PROG_MEM_FIXED_SIZE..] == r.data;
  }

  lemma FetchDecodes(c: Contents, r: Request)
    requires r.Fetch? && Asks(c, r)
    ensures Controller.ReadSizeOk(c)
    ensures Controller.ReadRequest(c.data) == ReadMemData(r.start, r.count, Kind(r.flash))
  {
    var payload := Payload(r);
    assert c.data[..|payload|] == payload;
    assert c.data[1..5] == payload[1..5] == ToBigEndian(r.start);
    assert c.data[5..9] == payload[5..9] == ToBigEndian(r.count);
    BigEndianRoundTrip(r.start);
    BigEndianRoundTrip(r.count);
    assert c.data[0] == payload[0];
  }

  // ---------------------------------------------------------- A memory server

  /** The memory after a request. */
  function Stored(chip: Chip, mem: Memory, r: Request): Memory
    requires Fits(chip, mem)
  {
    match r
    case Store(flash, start, data) =>
      if flash then Loaded(mem, start, data, |data|) else mem.(eeprom := WriteAll(mem.eeprom, start, data))
    case Command(cmd) => Execute(chip, mem, cmd)
    case _ => mem
  }

  /** Flash is read high byte first. */
  function ReadBytes(mem: Memory, flash: bool, start: u32, n: nat): (bytes: seq<u8>)
    requires |mem.lo| == |mem.hi| > 0 && |mem.eeprom| > 0
    ensures |bytes| == n
  {
    seq(n, t requires 0 <= t => if flash then FlashByte(mem, start, t) else EepromByte(mem, start, t))
  }

  const ACK: PacketFlow.Answer := PacketFlow.Whole(PacketFlow.ACK)

  /** A raw command is answered with the target's answer, and with an error text before it when the
      target's last byte is not the command's third. */
  function Reply(chip: Chip, mem: Memory, r: Request): seq<PacketFlow.Answer>
    requires Fits(chip, mem)
    requires r.Fetch? ==> r.count < 0x1_0000
  {
    match r
    case Fetch(flash, start, count) => [PacketFlow.Answer(MemoryPacket, count, ReadBytes(mem, flash, start, count))]
    case Command(cmd) =>
      var answer := [0, cmd[0], cmd[1], Data(chip, mem, cmd)];
      (if answer[3] == cmd[2] then [] else [PacketFlow.Whole(PacketFlow.LOAD_COMMAND_FAILED)])
      + [PacketFlow.Answer(CMDPacket, 4, answer)]
    case _ => [ACK]
  }

  predicate AllProper(chip: Chip, rs: seq<Request>) {
    forall i :: 0 <= i < |rs| ==> Proper(chip, rs[i])
  }

  lemma StoredFits(chip: Chip, mem: Memory, r: Request)
    requires Fits(chip, mem)
    ensures Fits(chip, Stored(chip, mem, r))
  {}

  /** The memory after a sequence of requests. */
  function StoredAll(chip: Chip, mem: Memory, rs: seq<Request>): (m: Memory)
    requires Fits(chip, mem)
    ensures Fits(chip, m)
  {
    if |rs| == 0 then mem
    else
      var before := StoredAll(chip, mem, rs[..|rs| - 1]);
      StoredFits(chip, before, rs[|rs| - 1]);
      Stored(chip, before, rs[|rs| - 1])
  }

  /** The replies to a sequence of requests. */
  function Replies(chip: Chip, mem: Memory, rs: seq<Request>): seq<PacketFlow.Answer>
    requires Fits(chip, mem) && AllProper(chip, rs)
  {
    if |rs| == 0 then []
    else
      var init, last := rs[..|rs| - 1], rs[|rs| - 1];
      assert Proper(chip, last);
      Replies(chip, mem, init) + Reply(chip, StoredAll(chip, mem, init), last)
  }

  // ------------------------------------------------------- The work on the target

  /** A programmer connected to a described target. */
  ghost predicate Wired(p: Programmer, chip: Chip, mem: Memory)
    reads p, p.bus
  {
    Fits(chip, mem) && p.bus.device == AvrDevice(chip, mem)
  }

  /** It has been told about it as well. */
  ghost predicate Attached(p: Programmer, chip: Chip, mem: Memory)
    reads p, p.bus
  {
    Wired(p, chip, mem) && p.mcuInfo == Some(chip.info)
  }

  /** The description tells all commands apart, and entering programming mode writes nothing. */
  predicate Described(chip: Chip) {
    && FlashWritable(chip) && FlashReadable(chip) && EepromWritable(chip) && EepromReadable(chip)
    && !IsWrite(chip, chip.info.pgmEnable)
  }

  /** Programming whole words or bytes succeeds, and the memory is then the stored one. */
  lemma StoreWork(p: Programmer, chip: Chip, mem: Memory, sent: seq<Frame>,
                  r: Request, uninitialised: i16, status: i16)
    requires Attached(p, chip, mem) && Described(chip) && r.Store? && Proper(chip, r)
    requires Programs(p, sent, ProgMemData(r.start, Kind(r.flash), r.data), uninitialised, status)
    ensures status == 0
    ensures Run(chip, mem, p.bus.sent) == Stored(chip, Run(chip, mem, sent), r)
  {
    hide Run, Loaded, FlashWritable, EepromWritable, AvrDevice, Accepted, FlashWrite, EepromWrite, WriteAll, IsWrite;
    hide FlashReadable, EepromReadable;
    if r.flash {
      var frames := FlashWrites(chip.info, r.start, r.data);
      FlashWritesEcho(chip, mem, sent, r.start, r.data);
      FlashWriteEffect(chip, mem, p.bus.device, sent, r.start, r.data);
      assert frames[..|frames|] == frames;
    } else {
      var frames := EepromWrites(chip.info, r.start, r.data);
      EepromWritesEcho(chip, mem, sent, r.start, r.data);
      EepromWriteEffect(chip, mem, p.bus.device, sent, r.start, r.data);
      assert frames[..|frames|] == frames && r.data[..|r.data|] == r.data;
    }
  }

  /** Commands that write nothing leave the target as it is. */
  lemma HarmlessRun(chip: Chip, mem: Memory, sent: seq<Frame>, frames: seq<Frame>, k: nat)
    requires Fits(chip, mem) && k <= |frames|
    requires forall t :: 0 <= t < |frames| ==> Execute(chip, Run(chip, mem, sent), frames[t]) == Run(chip, mem, sent)
    ensures Run(chip, mem, sent + frames[..k]) == Run(chip, mem, sent)
  {
    hide Run, Execute;
    RunAppend(chip, mem, sent, frames[..k]);
    RunReads(chip, Run(chip, mem, sent), frames, k);
  }

  lemma LoadWork(chip: Chip, mem: Memory, sent: seq<Frame>, k: nat)
    requires Fits(chip, mem) && Described(chip)
    ensures Run(chip, mem, sent + Repeat(chip.info.pgmEnable, k)) == Run(chip, mem, sent)
  {
    hide Run, FlashWritable, EepromWritable, FlashReadable, EepromReadable;
    var frames := Repeat(chip.info.pgmEnable, k);
    assert frames[..k] == frames;
    hide IsStore, StoreInto;
    HarmlessRun(chip, mem, sent, frames, k);
  }

  /** What a read leaves in the packet: the bytes of the memory, and behind them what the rest of
      the loop and the packet had there. */
  lemma FlashFetchWork(p: Programmer, chip: Chip, mem: Memory, sent: seq<Frame>, start: u32, count: u32,
                       buf0: seq<u8>, buf: seq<u8>, status: i16)
    requires Attached(p, chip, mem) && FlashReadable(chip) && count <= 256 && |buf0| == PACKET_DATA_SIZE
    requires Readable(p, sent, ReadMemData(start, count, MemoryFlash), 3)
    requires Fetches(p, sent, buf0, buf, ReadMemData(start, count, MemoryFlash), 3, status)
    ensures status == count && |buf| == PACKET_DATA_SIZE
    ensures buf[..count] == ReadBytes(Run(chip, mem, sent), true, start, count)
    ensures Run(chip, mem, p.bus.sent) == Run(chip, mem, sent)
  {
    hide Run, Execute, FlashReadable, AvrDevice, Accepted, FlashRead, RingStore, DataBytes, AnswerAt, FlashByte;
    var frames, before := FlashReads(chip.info, start, count), Run(chip, mem, sent);
    IntendedFlashRead(chip, mem, sent, start, count);
    var bytes := DataBytes(p.bus.device, sent, frames, |frames|);
    RingStoreLinear(buf0, bytes);
    assert frames[..|frames|] == frames;
    forall t | 0 <= t < |frames| ensures Execute(chip, before, frames[t]) == before {
      FlashFetch(chip, before, start, t);
    }
    HarmlessRun(chip, mem, sent, frames, |frames|);
  }

  lemma EepromFetchWork(p: Programmer, chip: Chip, mem: Memory, sent: seq<Frame>, start: u32, count: u32,
                        buf0: seq<u8>, buf: seq<u8>, status: i16)
    requires Attached(p, chip, mem) && EepromReadable(chip) && count <= |buf0| == PACKET_DATA_SIZE
    requires Readable(p, sent, ReadMemData(start, count, MemoryEeprom), 3)
    requires Fetches(p, sent, buf0, buf, ReadMemData(start, count, MemoryEeprom), 3, status)
    ensures status == count && |buf| == PACKET_DATA_SIZE
    ensures buf[..count] == ReadBytes(Run(chip, mem, sent), false, start, count)
    ensures Run(chip, mem, p.bus.sent) == Run(chip, mem, sent)
  {
    hide Run, Execute, EepromReadable, AvrDevice, Accepted, EepromRead, DataBytes, AnswerAt, EepromByte;
    var frames, before := EepromReads(chip.info, start, count), Run(chip, mem, sent);
    IntendedEepromRead(chip, mem, sent, start, count);
    assert frames[..|frames|] == frames;
    forall t | 0 <= t < |frames| ensures Execute(chip, before, frames[t]) == before {
      EepromFetch(chip, before, start, t);
    }
    HarmlessRun(chip, mem, sent, frames, |frames|);
  }

  lemma FetchWork(p: Programmer, chip: Chip, mem: Memory, sent: seq<Frame>, r: Request,
                  buf0: seq<u8>, buf: seq<u8>, status: i16)
    requires Attached(p, chip, mem) && Described(chip) && r.Fetch? && Proper(chip, r) && |buf0| == PACKET_DATA_SIZE
    requires Readable(p, sent, ReadMemData(r.start, r.count, Kind(r.flash)), 3)
    requires Fetches(p, sent, buf0, buf, ReadMemData(r.start, r.count, Kind(r.flash)), 3, status)
    ensures status == r.count && |buf| == PACKET_DATA_SIZE
    ensures buf[..r.count] == ReadBytes(Run(chip, mem, sent), r.flash, r.start, r.count)
    ensures Run(chip, mem, p.bus.sent) == Run(chip, mem, sent)
  {
    hide Run, Fetches, Readable, ReadBytes;
    if r.flash {
      FlashFetchWork(p, chip, mem, sent, r.start, r.count, buf0, buf, status);
    } else {
      EepromFetchWork(p, chip, mem, sent, r.start, r.count, buf0, buf, status);
    }
  }

  // --------------------------------------------------------------- The session

  /** The controller serves a described target, with the drain and the read answer corrected. */
  ghost predicate Serving(c: Controller.Controller, chip: Chip, mem: Memory)
    reads c, c.task, c.task.packets, c.task.packets.data, c.programmer, c.programmer.bus
  {
    && c.Valid() && PacketFlow.Settled(c.task.Now()) && c.task.fixes.drain && c.task.fixes.read
    && Wired(c.programmer, chip, mem) && Described(chip)
  }

  /** One visit that neither restarts the device nor asks for too much. */
  lemma VisitServes(f: PacketFlow.Flow, fixes: PacketFlow.Fixes, a: PacketFlow.Arrival)
    requires PacketFlow.Settled(f) && fixes.drain && fixes.read
    requires !PacketFlow.Restarts(a.request) && !PacketFlow.Oversized(a.request)
    ensures var g := PacketFlow.Visit(f, fixes, Some(a));
            && PacketFlow.Settled(g) && f.sent <= g.sent
            && PacketContents.Carry(g.sent[|f.sent|..], PacketFlow.Answers(a.request))
  {
    PacketFlow.VisitClean(f, fixes, Some(a));
    PacketContents.VisitCarries(f, fixes, Some(a));
  }

  lemma PacketsLeft(f: PacketFlow.Flow)
    requires PacketFlow.Settled(f)
    ensures Controller.TwoPackets(f.pool) && !f.fault && !f.restarted
  {
    PacketFlow.GetClean(f, multiset{});
    PacketFlow.GetClean(f.(pool := Pool.Get(f.pool).value.0), multiset{} + multiset{Pool.Get(f.pool).value.1});
  }

  /** Storing and fetching need the record. */
  predicate NeedsRecord(r: Request) {
    r.Store? || r.Fetch?
  }

  /** The patterns of a described target can be compiled. */
  lemma DescribedCompiles(p: Programmer, chip: Chip)
    requires p.mcuInfo == Some(chip.info) && Described(chip)
    ensures Controller.CanRead(p) && Controller.CanProgram(p)
  {}

  /** The handler of a received request keeps within its arrays. */
  lemma RequestReady(p: Programmer, chip: Chip, c: Contents, r: Request)
    requires Described(chip) && Proper(chip, r) && Asks(c, r) && (NeedsRecord(r) ==> p.mcuInfo == Some(chip.info))
    ensures Controller.Ready(p, c, 3)
  {
    hide Described, Payload, Controller.CanRead, Controller.CanProgram, Controller.CanFetch, McuInfo.Get;
    match r
    case Load(_) => LoadDecodes(c, r);
    case Store(_, _, _) => DescribedCompiles(p, chip);
    case Fetch(_, _, _) =>
      DescribedCompiles(p, chip);
      FetchReady(p, chip, c, r);
    case Command(_) =>
  }

  lemma FetchReady(p: Programmer, chip: Chip, c: Contents, r: Request)
    requires Proper(chip, r) && Asks(c, r) && r.Fetch? && p.mcuInfo == Some(chip.info)
    ensures Controller.CanFetch(p, c, 3)
  {
    hide Payload, FlashRead, EepromRead, Accepted;
    FetchDecodes(c, r);
  }

  /** A raw command runs on the target, whose answer repeats its first two bytes. */
  lemma CommandWork(chip: Chip, mem: Memory, sent: seq<Frame>, cmd: Frame)
    requires Fits(chip, mem)
    ensures Run(chip, mem, sent + [cmd]) == Execute(chip, Run(chip, mem, sent), cmd)
    ensures AvrDevice(chip, mem)(sent + [cmd]) == [0, cmd[0], cmd[1], Data(chip, Run(chip, mem, sent), cmd)]
  {
    hide Execute, Data;
    assert (sent + [cmd])[..|sent|] == sent;
  }

  /** The work on a request has changed the target's memory as the server would, and its results
      give the answers that the server would give. */
  ghost predicate AsServer(c: Controller.Controller, chip: Chip, mem: Memory, s0: Controller.TargetSide,
                           m: PacketFlow.Inbound, r: Request)
    requires Fits(chip, mem) && Proper(chip, r)
    reads c, c.programmer, c.programmer.bus
  {
    && c.programmer.mcuInfo == (if r.Load? then Some(chip.info) else s0.mcuInfo)
    && Run(chip, mem, c.programmer.bus.sent) == Stored(chip, Run(chip, mem, s0.sent), r)
    && !PacketFlow.Restarts(m) && !PacketFlow.Oversized(m)
    && PacketFlow.Answers(m) == Reply(chip, Run(chip, mem, s0.sent), r)
  }

  lemma CommandDone(c: Controller.Controller, chip: Chip, mem: Memory, s0: Controller.TargetSide,
                    received: Contents, m: PacketFlow.Inbound, r: Request)
    requires Wired(c.programmer, chip, mem) && Described(chip) && Proper(chip, r) && Asks(received, r)
    requires Controller.Makes(received, m)
    requires r.Command? && c.Commanded(s0, received, m)
    ensures AsServer(c, chip, mem, s0, m, r)
  {
    hide Run, AvrDevice, Execute, Data, Described;
    CommandWork(chip, mem, s0.sent, r.cmd);
    assert received.data[..4] == r.cmd;
  }

  lemma LoadDone(c: Controller.Controller, chip: Chip, mem: Memory, s0: Controller.TargetSide,
                 received: Contents, m: PacketFlow.Inbound, r: Request)
    requires Wired(c.programmer, chip, mem) && Described(chip) && Proper(chip, r) && Asks(received, r)
    requires Controller.Makes(received, m)
    requires r.Load? && c.Installed(s0, received)
    ensures AsServer(c, chip, mem, s0, m, r)
  {
    hide Described, Run, Programs, Fetches, Readable, AvrDevice, Loaded, WriteAll, ReadBytes, Failures;
    hide Payload, ResetPulses, Repeat, Pulsed, McuInfo.Get;
    LoadDecodes(received, r);
    var failures := Failures(c.programmer.bus.device, s0.sent, chip.info.pgmEnable);
    LoadWork(chip, mem, s0.sent, FramesSent(failures, PGM_ENABLE_RETRIES));
  }

  lemma StoreDone(c: Controller.Controller, chip: Chip, mem: Memory, s0: Controller.TargetSide,
                  received: Contents, m: PacketFlow.Inbound, r: Request, uninitialised: i16)
    requires Wired(c.programmer, chip, mem) && Described(chip) && Proper(chip, r) && Asks(received, r)
    requires Controller.Makes(received, m)
    requires r.Store? && s0.mcuInfo == Some(chip.info) && c.Programmed(s0.sent, received, uninitialised, m)
    requires c.Side() == s0.(sent := c.programmer.bus.sent)
    ensures AsServer(c, chip, mem, s0, m, r)
  {
    hide Described, Payload, Run, Programs, Fetches, Readable, AvrDevice, Loaded, WriteAll, ReadBytes, Failures;
    StoreDecodes(received, r);
    StoreWork(c.programmer, chip, mem, s0.sent, r, uninitialised, m.status);
  }

  lemma FetchDone(c: Controller.Controller, chip: Chip, mem: Memory, s0: Controller.TargetSide,
                  received: Contents, m: PacketFlow.Inbound, r: Request, buf0: PacketData)
    requires Wired(c.programmer, chip, mem) && Described(chip) && Proper(chip, r) && Asks(received, r)
    requires Controller.Makes(received, m)
    requires r.Fetch? && s0.mcuInfo == Some(chip.info) && c.Fetched(s0.sent, received, buf0, 3, m)
    requires c.Side() == s0.(sent := c.programmer.bus.sent)
    ensures AsServer(c, chip, mem, s0, m, r)
  {
    hide Described, Payload, Run, Programs, Fetches, Readable, AvrDevice, Loaded, WriteAll, ReadBytes, Failures;
    FetchDecodes(received, r);
    FetchWork(c.programmer, chip, mem, s0.sent, r, buf0, m.fetched, m.status);
  }

  lemma RequestDone(c: Controller.Controller, chip: Chip, mem: Memory, s0: Controller.TargetSide, received: Contents,
                    uninitialised: i16, buf0: PacketData, m: PacketFlow.Inbound, r: Request)
    requires Wired(c.programmer, chip, mem) && Described(chip) && Proper(chip, r) && Asks(received, r)
    requires NeedsRecord(r) ==> s0.mcuInfo == Some(chip.info)
    requires Controller.Makes(received, m) && c.Worked(s0, received, uninitialised, true, buf0, 3, m)
    ensures AsServer(c, chip, mem, s0, m, r)
  {
    hide Described, AsServer, Proper, Controller.Makes, Payload, Run, Fetches, Readable, Programs, Failures, Pulsed;
    hide ResetPulses, McuInfo.Get, Wired;
    match r
    case Load(_) => LoadDone(c, chip, mem, s0, received, m, r);
    case Store(_, _, _) => StoreDone(c, chip, mem, s0, received, m, r, uninitialised);
    case Fetch(_, _, _) =>
      FetchDecodes(received, r);
      FetchDone(c, chip, mem, s0, received, m, r, buf0);
    case Command(_) => CommandDone(c, chip, mem, s0, received, m, r);
  }

  /** One request frame from the stream: its bytes are consumed, the target's memory becomes the
      server's, and the server's reply is sent. */
  method ServeRequest(c: Controller.Controller, socket: Receiver.Socket, ghost chip: Chip, ghost mem: Memory,
                      ghost r: Request, ghost after: seq<u8>, uninitialised: i16)
    requires Serving(c, chip, mem) && Proper(chip, r) && |Payload(r)| <= PACKET_DATA_SIZE
    requires NeedsRecord(r) ==> c.programmer.mcuInfo == Some(chip.info)
    requires Receiver.ValidEvents(socket.events)
    requires Receiver.Bytes(socket.events) == RequestFrame(r).raw + RequestFrame(r).body + after
    modifies socket, c.programmer, c.programmer.bus`sent, c.task, c.task.packets, c.task.packets.data
    ensures Serving(c, chip, mem) && c.task.packets.data == old(c.task.packets.data)
    ensures c.programmer.mcuInfo == if r.Load? then Some(chip.info) else old(c.programmer.mcuInfo)
    ensures Receiver.ValidEvents(socket.events) && Receiver.Bytes(socket.events) == after
    ensures Run(chip, mem, c.programmer.bus.sent) == Stored(chip, Run(chip, mem, old(c.programmer.bus.sent)), r)
    ensures old(c.task.sent) <= c.task.sent
    ensures PacketContents.Carry(c.task.sent[|old(c.task.sent)|..],
                                 Reply(chip, Run(chip, mem, old(c.programmer.bus.sent)), r))
    ensures RepliedInBytes(c.task.sent[|old(c.task.sent)|..], r)
  {
    hide PacketFlow.Visit, PacketFlow.Clean, PacketContents.Carry, Run, AvrDevice, Described, Payload, RequestFrame;
    hide Stored, Reply, Receiver.Deliver, Receiver.BodyFits, Receiver.Bytes, Receiver.Holding, Controller.Makes;
    hide Controller.Ready, PacketFlow.Answers, PacketFlow.Oversized, PacketFlow.Restarts, Asks, Proper;
    ghost var before, side, frame := c.task.Now(), c.Side(), RequestFrame(r);
    PacketsLeft(before);
    ghost var m := PacketFlow.Look(before, Pool.Get(before.pool).value.1);
    HoldingAsks(m, r);
    Receiver.DeliverFrame(m, socket.events, frame, after);
    ghost var received := Receiver.Holding(m, frame);
    RequestReady(c.programmer, chip, received, r);
    var request, buf0 := c.ServeSocket(socket, uninitialised, 3);
    RequestDone(c, chip, mem, side, received, uninitialised, buf0, request, r);
    VisitServes(before, c.task.fixes, PacketFlow.Arrival(received, request));
    ReplyBytes(c.task.sent[|old(c.task.sent)|..], chip, Run(chip, mem, old(c.programmer.bus.sent)), r);
  }

  /** One frame that acknowledges: under any type byte, one byte long, and the byte is 1. */
  predicate Acknowledges(s: PacketFlow.Sending) {
    s.frame.raw == [0x1B, 0, s.frame.raw[2], 0, 1] && s.frame.body == [1]
  }

  /** The replies by their bytes. */
  predicate RepliedInBytes(sent: seq<PacketFlow.Sending>, r: Request) {
    match r
    case Load(_) => |sent| == 1 && Acknowledges(sent[0])
    case Store(_, _, _) => |sent| == 1 && Acknowledges(sent[0])
    case Fetch(_, _, count) =>
      && |sent| == 1 && |sent[0].frame.body| == count
      && sent[0].frame.raw == [0x1B, 0, sent[0].frame.raw[2], count / 256 % 256, count % 256]
    case Command(cmd) =>
      && 1 <= |sent| <= 2
      && var last := sent[|sent| - 1].frame;
         && last.raw == [0x1B, 0, last.raw[2], 0, 4] && |last.body| == 4
         && last.body[..3] == [0, cmd[0], cmd[1]] && (|sent| == 1 <==> last.body[3] == cmd[2])
  }

  lemma ReplyBytes(sent: seq<PacketFlow.Sending>, chip: Chip, mem: Memory, r: Request)
    requires Fits(chip, mem) && Proper(chip, r) && PacketContents.Carry(sent, Reply(chip, mem, r))
    ensures RepliedInBytes(sent, r)
  {
    hide Data, ReadBytes;
    var replies := Reply(chip, mem, r);
    assert PacketContents.Carries(sent[|sent| - 1], replies[|sent| - 1]);
  }

  // ---------------------------------------------------------- Whole sessions

  predicate AllFit(rs: seq<Request>) {
    forall i :: 0 <= i < |rs| ==> |Payload(rs[i])| <= PACKET_DATA_SIZE
  }

  function RequestFrames(rs: seq<Request>): (frames: seq<WireFrame>)
    requires AllFit(rs)
    ensures |frames| == |rs|
  {
    seq(|rs|, i requires 0 <= i < |rs| => RequestFrame(rs[i]))
  }

  /** What a client sends for the requests. */
  function RequestStream(rs: seq<Request>): seq<u8>
    requires AllFit(rs)
  {
    Receiver.Encoded(RequestFrames(rs))
  }

  lemma StreamNext(rs: seq<Request>, i: nat)
    requires AllFit(rs) && i < |rs|
    ensures RequestStream(rs[i..]) == RequestFrame(rs[i]).raw + RequestFrame(rs[i]).body + RequestStream(rs[i + 1..])
  {
    hide RequestFrame;
    assert RequestFrames(rs[i..])[1..] == RequestFrames(rs[i + 1..]);
  }

  lemma StoredAllNext(chip: Chip, mem: Memory, rs: seq<Request>, i: nat)
    requires Fits(chip, mem) && AllProper(chip, rs) && i < |rs|
    ensures var before := StoredAll(chip, mem, rs[..i]);
            && StoredAll(chip, mem, rs[..i + 1]) == Stored(chip, before, rs[i])
            && Proper(chip, rs[i]) && (rs[i].Fetch? ==> rs[i].count < 0x1_0000)
            && Replies(chip, mem, rs[..i + 1]) == Replies(chip, mem, rs[..i]) + Reply(chip, before, rs[i])
  {
    assert Proper(chip, rs[i]);
    hide Stored, Reply, Proper;
    assert rs[..i + 1][..i] == rs[..i];
  }

  lemma CarryOn(a: seq<PacketFlow.Sending>, b: seq<PacketFlow.Sending>, c: seq<PacketFlow.Sending>,
                xs: seq<PacketFlow.Answer>, ys: seq<PacketFlow.Answer>)
    requires a <= b <= c && PacketContents.Carry(b[|a|..], xs) && PacketContents.Carry(c[|b|..], ys)
    ensures a <= c && PacketContents.Carry(c[|a|..], xs + ys)
  {
    PacketContents.CarryAppend(b[|a|..], xs, c[|b|..], ys);
    assert c[|a|..] == b[|a|..] + c[|b|..];
  }

  lemma Nothing(sent: seq<PacketFlow.Sending>)
    ensures PacketContents.Carry(sent[|sent|..], [])
  {}

  /** The record is loaded before it is needed. */
  predicate Told(rs: seq<Request>) {
    forall i :: 0 <= i < |rs| && NeedsRecord(rs[i]) ==> exists j :: 0 <= j < i && rs[j].Load?
  }

  /** A stream of request frames, in any chunks and with any pauses: its requests are served as
      the memory server would serve them, one after the other, and nothing of what follows in the
      stream is touched. The record is told, if it is not known, before anything is stored or fetched. */
  method ServeStream(c: Controller.Controller, socket: Receiver.Socket, ghost chip: Chip, ghost mem: Memory,
                     count: nat, ghost rs: seq<Request>, ghost after: seq<u8>, uninitialised: i16)
    requires Serving(c, chip, mem) && count == |rs| && AllProper(chip, rs) && AllFit(rs)
    requires c.programmer.mcuInfo == Some(chip.info) || Told(rs)
    requires Receiver.ValidEvents(socket.events)
    requires Receiver.Bytes(socket.events) == RequestStream(rs) + after
    modifies socket, c.programmer, c.programmer.bus`sent, c.task, c.task.packets, c.task.packets.data
    ensures Serving(c, chip, mem) && c.task.packets.data == old(c.task.packets.data)
    ensures Receiver.ValidEvents(socket.events) && Receiver.Bytes(socket.events) == after
    ensures Run(chip, mem, c.programmer.bus.sent) == StoredAll(chip, Run(chip, mem, old(c.programmer.bus.sent)), rs)
    ensures old(c.task.sent) <= c.task.sent
    ensures PacketContents.Carry(c.task.sent[|old(c.task.sent)|..],
                                 Replies(chip, Run(chip, mem, old(c.programmer.bus.sent)), rs))
  {
    hide Serving, PacketContents.Carry, Run, Stored, Reply, RequestFrame, RequestStream, Proper, Payload;
    hide Receiver.Bytes;
    ServingFits(c, chip, mem);
    ghost var sent0 := c.task.sent;
    ghost var memory0 := Run(chip, mem, c.programmer.bus.sent);
    Nothing(sent0);
    assert rs[0..] == rs && rs[..0] == [];
    for i := 0 to count
      invariant Serving(c, chip, mem) && c.task.packets.data == old(c.task.packets.data)
      invariant old(c.programmer.mcuInfo) == Some(chip.info) || (exists j :: 0 <= j < i && rs[j].Load?) ==>
                  c.programmer.mcuInfo == Some(chip.info)
      invariant Receiver.ValidEvents(socket.events)
      invariant Receiver.Bytes(socket.events) == RequestStream(rs[i..]) + after
      invariant Run(chip, mem, c.programmer.bus.sent) == StoredAll(chip, memory0, rs[..i])
      invariant sent0 <= c.task.sent
      invariant PacketContents.Carry(c.task.sent[|sent0|..], Replies(chip, memory0, rs[..i]))
    {
      ghost var sent1 := c.task.sent;
      StreamNext(rs, i);
      StoredAllNext(chip, memory0, rs, i);
      ghost var following := RequestStream(rs[i + 1..]) + after;
      ghost var frame := RequestFrame(rs[i]);
      assert RequestStream(rs[i..]) + after == frame.raw + frame.body + following;
      ServeRequest(c, socket, chip, mem, rs[i], following, uninitialised);
      CarryOn(sent0, sent1, c.task.sent, Replies(chip, memory0, rs[..i]),
              Reply(chip, StoredAll(chip, memory0, rs[..i]), rs[i]));
    }
    assert rs[..|rs|] == rs && rs[|rs|..] == [];
    assert [] + after == after;
    EmptyStream();
  }

  lemma EmptyStream()
    ensures RequestStream([]) == []
  {}

  lemma ServingFits(c: Controller.Controller, chip: Chip, mem: Memory)
    requires Serving(c, chip, mem)
    ensures Fits(chip, mem)
  {}

  // ------------------------------------------------------------------- Images

  /** How many cells a store request writes: words of flash or bytes of EEPROM. */
  function Cells(r: Request): nat
    requires r.Store?
  {
    if r.flash then |r.data| / 2 else |r.data|
  }

  function MemorySize(chip: Chip, flash: bool): nat {
    if flash then Pow2(chip.flashBits) else Pow2(chip.eepromBits)
  }

  predicate Covers(r: Request, flash: bool, c: nat, size: nat)
    requires r.Store? && size > 0
  {
    r.flash == flash && exists w :: 0 <= w < Cells(r) && Cell(r.start, w, size) == c
  }

  /** The data of the request is in the cells of its addresses. */
  predicate Holds(mem: Memory, r: Request)
    requires r.Store? && |mem.lo| == |mem.hi| > 0 && |mem.eeprom| > 0
  {
    if r.flash then
      forall w :: 0 <= w < |r.data| / 2 ==>
        && mem.lo[Cell(r.start, w, |mem.lo|)] == r.data[2 * w]
        && mem.hi[Cell(r.start, w, |mem.hi|)] == r.data[2 * w + 1]
    else
      forall w :: 0 <= w < |r.data| ==> mem.eeprom[Cell(r.start, w, |mem.eeprom|)] == r.data[w]
  }

  /** Store requests that each fit their memory. */
  predicate Image(chip: Chip, stores: seq<Request>) {
    forall i :: 0 <= i < |stores| ==>
      stores[i].Store? && Proper(chip, stores[i]) && Cells(stores[i]) <= MemorySize(chip, stores[i].flash)
  }

  predicate SharesNone(chip: Chip, a: Request, b: Request)
    requires a.Store? && b.Store?
  {
    var size := MemorySize(chip, a.flash);
    size > 0 && forall c :: 0 <= c < size && Covers(a, a.flash, c, size) ==> !Covers(b, a.flash, c, size)
  }

  /** No cell belongs to two of the requests. */
  predicate Disjoint(chip: Chip, stores: seq<Request>)
    requires Image(chip, stores)
  {
    forall i, j :: 0 <= i < j < |stores| ==> SharesNone(chip, stores[i], stores[j])
  }

  /** Cells that no request covers are as before. */
  ghost predicate Untouched(chip: Chip, before: Memory, after: Memory, stores: seq<Request>)
    requires Fits(chip, before) && Fits(chip, after) && Image(chip, stores)
  {
    && (forall c :: 0 <= c < |before.lo| && Free(chip, stores, true, c) ==>
          after.lo[c] == before.lo[c] && after.hi[c] == before.hi[c])
    && (forall c :: 0 <= c < |before.eeprom| && Free(chip, stores, false, c) ==> after.eeprom[c] == before.eeprom[c])
  }

  predicate Free(chip: Chip, stores: seq<Request>, flash: bool, c: nat)
    requires Image(chip, stores)
  {
    MemorySize(chip, flash) > 0
    && forall i :: 0 <= i < |stores| ==> !Covers(stores[i], flash, c, MemorySize(chip, flash))
  }

  lemma StoredHolds(chip: Chip, mem: Memory, r: Request)
    requires Fits(chip, mem) && r.Store? && Proper(chip, r) && Cells(r) <= MemorySize(chip, r.flash)
    ensures var after := Stored(chip, mem, r);
            && Fits(chip, after) && Holds(after, r)
            && (forall c :: 0 <= c < |mem.lo| && !Covers(r, true, c, |mem.lo|) ==>
                  after.lo[c] == mem.lo[c] && after.hi[c] == mem.hi[c])
            && (forall c :: 0 <= c < |mem.eeprom| && !Covers(r, false, c, |mem.eeprom|) ==>
                  after.eeprom[c] == mem.eeprom[c])
  {
    if r.flash {
      LoadedCells(chip, mem, r.start, r.data);
      hide Loaded, Cell;
    } else {
      hide Cell;
      var after := Stored(chip, mem, r);
      forall w | 0 <= w < |r.data| ensures after.eeprom[Cell(r.start, w, |mem.eeprom|)] == r.data[w] {
        WrittenCell(mem.eeprom, r.start, r.data, w);
      }
      forall c | 0 <= c < |mem.eeprom| && !Covers(r, false, c, |mem.eeprom|) ensures after.eeprom[c] == mem.eeprom[c] {
        UntouchedCell(mem.eeprom, r.start, r.data, c);
      }
    }
  }

  lemma HoldsElsewhere(chip: Chip, mem: Memory, last: Request, r: Request)
    requires Fits(chip, mem) && r.Store? && last.Store? && Proper(chip, last) && Holds(mem, r)
    requires Cells(last) <= MemorySize(chip, last.flash) && SharesNone(chip, r, last)
    ensures Fits(chip, Stored(chip, mem, last)) && Holds(Stored(chip, mem, last), r)
  {
    StoredHolds(chip, mem, last);
    hide Stored, Cell;
    forall w | 0 <= w < Cells(r)
      ensures Covers(r, r.flash, Cell(r.start, w, MemorySize(chip, r.flash)), MemorySize(chip, r.flash)) {}
  }

  /** Store requests with disjoint cells: afterwards the target holds the data of all of them, and
      in every other cell what it held before. */
  lemma {:induction false} ImageHolds(chip: Chip, mem: Memory, stores: seq<Request>)
    requires Fits(chip, mem) && Image(chip, stores) && Disjoint(chip, stores)
    ensures var after := StoredAll(chip, mem, stores);
            && (forall i :: 0 <= i < |stores| ==> Holds(after, stores[i]))
            && Untouched(chip, mem, after, stores)
  {
    hide Holds, Covers, Stored, Proper, SharesNone;
    if |stores| > 0 {
      var init, last := stores[..|stores| - 1], stores[|stores| - 1];
      var before := StoredAll(chip, mem, init);
      assert forall i :: 0 <= i < |init| ==> init[i] == stores[i];
      ImageHolds(chip, mem, init);
      StoredHolds(chip, before, last);
      forall i | 0 <= i < |init| ensures Holds(StoredAll(chip, mem, stores), stores[i]) {
        HoldsElsewhere(chip, before, last, init[i]);
      }
    }
  }

  /** The request for what a store request has written. */
  function FetchBack(r: Request): Request
    requires r.Store?
  {
    Fetch(r.flash, r.start, |r.data|)
  }

  /** Its reply: words come back with their bytes swapped. */
  function DataAnswer(r: Request): PacketFlow.Answer
    requires r.Store? && (r.flash ==> |r.data| % 2 == 0)
  {
    PacketFlow.Answer(MemoryPacket, |r.data|, if r.flash then Swapped(r.data) else r.data)
  }

  lemma HeldByte(mem: Memory, r: Request, t: nat)
    requires r.Store? && (r.flash ==> |r.data| % 2 == 0) && t < |r.data|
    requires |mem.lo| == |mem.hi| > 0 && |mem.eeprom| > 0 && Holds(mem, r)
    ensures r.flash ==> FlashByte(mem, r.start, t) == Swapped(r.data)[t]
    ensures !r.flash ==> EepromByte(mem, r.start, t) == r.data[t]
  {
    hide Cell;
    assert t == 2 * (t / 2) || t == 2 * (t / 2) + 1;
  }

  lemma FetchedBack(chip: Chip, mem: Memory, r: Request)
    requires r.Store? && (r.flash ==> |r.data| % 2 == 0)
    requires Fits(chip, mem) && Holds(mem, r)
    ensures Reply(chip, mem, FetchBack(r)) == [DataAnswer(r)]
  {
    hide Holds, FlashByte, EepromByte;
    var bytes := ReadBytes(mem, r.flash, r.start, |r.data|);
    forall t | 0 <= t < |r.data| ensures bytes[t] == DataAnswer(r).body[t] {
      HeldByte(mem, r, t);
    }
    assert bytes == DataAnswer(r).body;
  }

  function FetchBacks(stores: seq<Request>): (rs: seq<Request>)
    requires forall i :: 0 <= i < |stores| ==> stores[i].Store?
    ensures |rs| == |stores| && forall i :: 0 <= i < |rs| ==> rs[i] == FetchBack(stores[i])
  {
    seq(|stores|, i requires 0 <= i < |stores| => FetchBack(stores[i]))
  }

  function DataAnswers(chip: Chip, stores: seq<Request>): (answers: seq<PacketFlow.Answer>)
    requires Image(chip, stores)
    ensures |answers| == |stores|
  {
    seq(|stores|, i requires 0 <= i < |stores| => DataAnswer(stores[i]))
  }

  function Acks(n: nat): (answers: seq<PacketFlow.Answer>)
    ensures |answers| == n
  {
    seq(n, _ => ACK)
  }

  lemma ImageProper(chip: Chip, stores: seq<Request>)
    requires Image(chip, stores)
    ensures AllProper(chip, stores) && AllFit(stores)
    ensures AllProper(chip, FetchBacks(stores)) && AllFit(FetchBacks(stores))
  {}

  lemma {:induction false} StoresAcknowledged(chip: Chip, mem: Memory, stores: seq<Request>)
    requires Fits(chip, mem) && Image(chip, stores) && AllProper(chip, stores)
    ensures Replies(chip, mem, stores) == Acks(|stores|)
  {
    if |stores| > 0 {
      var init := stores[..|stores| - 1];
      StoresAcknowledged(chip, mem, init);
      assert stores[|stores| - 1].Store?;
      assert Acks(|stores|) == Acks(|init|) + [ACK];
    }
  }

  lemma {:induction false} AllFetchedBack(chip: Chip, mem: Memory, stores: seq<Request>)
    requires Fits(chip, mem) && Image(chip, stores) && AllProper(chip, FetchBacks(stores))
    requires forall i :: 0 <= i < |stores| ==> Holds(mem, stores[i])
    ensures StoredAll(chip, mem, FetchBacks(stores)) == mem
    ensures Replies(chip, mem, FetchBacks(stores)) == DataAnswers(chip, stores)
  {
    hide Holds, Reply, DataAnswer;
    if |stores| > 0 {
      var init, last := stores[..|stores| - 1], stores[|stores| - 1];
      var rs := FetchBacks(stores);
      assert rs[..|rs| - 1] == FetchBacks(init);
      assert forall i :: 0 <= i < |init| ==> init[i] == stores[i];
      AllFetchedBack(chip, mem, init);
      assert Proper(chip, last);
      FetchedBack(chip, mem, last);
      assert DataAnswers(chip, stores) == DataAnswers(chip, init) + [DataAnswer(last)];
    }
  }

  lemma {:induction false} RepliesAppend(chip: Chip, mem: Memory, a: seq<Request>, b: seq<Request>)
    requires Fits(chip, mem) && AllProper(chip, a) && AllProper(chip, b)
    ensures AllProper(chip, a + b)
    ensures StoredAll(chip, mem, a + b) == StoredAll(chip, StoredAll(chip, mem, a), b)
    ensures Replies(chip, mem, a + b) == Replies(chip, mem, a) + Replies(chip, StoredAll(chip, mem, a), b)
  {
    hide Proper, Reply, Stored;
    if |b| == 0 {
      assert a + b == a;
    } else {
      assert (a + b)[..|a + b| - 1] == a + b[..|b| - 1];
      RepliesAppend(chip, mem, a, b[..|b| - 1]);
      assert Proper(chip, b[|b| - 1]);
      RepliesLast(chip, mem, a + b);
      RepliesLast(chip, StoredAll(chip, mem, a), b);
    }
  }

  lemma RepliesLast(chip: Chip, mem: Memory, rs: seq<Request>)
    requires Fits(chip, mem) && AllProper(chip, rs) && |rs| > 0
    ensures rs[|rs| - 1].Fetch? ==> rs[|rs| - 1].count < 0x1_0000
    ensures var init := rs[..|rs| - 1];
            Replies(chip, mem, rs) == Replies(chip, mem, init) + Reply(chip, StoredAll(chip, mem, init), rs[|rs| - 1])
  {
    assert Proper(chip, rs[|rs| - 1]);
  }

  /** Telling the record, storing an image and fetching it back. */
  function Session(chip: Chip, stores: seq<Request>): seq<Request>
    requires Image(chip, stores)
  {
    [Load(chip.info)] + stores + FetchBacks(stores)
  }

  /** What the session does: the memory after it, and the replies. */
  lemma SessionLaw(chip: Chip, mem: Memory, stores: seq<Request>)
    requires Fits(chip, mem) && Image(chip, stores) && Disjoint(chip, stores) && Proper(chip, Load(chip.info))
    ensures AllProper(chip, Session(chip, stores)) && AllFit(Session(chip, stores))
    ensures var after := StoredAll(chip, mem, Session(chip, stores));
            (forall i :: 0 <= i < |stores| ==> Holds(after, stores[i])) && Untouched(chip, mem, after, stores)
    ensures Replies(chip, mem, Session(chip, stores)) == [ACK] + Acks(|stores|) + DataAnswers(chip, stores)
  {
    hide StoredAll, Replies, Holds, Untouched, Disjoint, Payload, Stored;
    var load, fetches := [Load(chip.info)], FetchBacks(stores);
    ImageProper(chip, stores);
    ImageHolds(chip, mem, stores);
    StoresAcknowledged(chip, mem, stores);
    OnlyLoaded(chip, mem);
    AllFetchedBack(chip, StoredAll(chip, mem, stores), stores);
    hide *;
    RepliesAppend(chip, mem, load, stores);
    RepliesAppend(chip, mem, load + stores, fetches);
  }

  lemma OnlyLoaded(chip: Chip, mem: Memory)
    requires Fits(chip, mem) && Proper(chip, Load(chip.info))
    ensures AllProper(chip, [Load(chip.info)]) && AllFit([Load(chip.info)])
    ensures StoredAll(chip, mem, [Load(chip.info)]) == mem && Replies(chip, mem, [Load(chip.info)]) == [ACK]
  {
    assert [Load(chip.info)][..0] == [];
  }

  /** A whole session over a chunked stream, flash and EEPROM mixed: the target ends up with the
      data of all store requests and otherwise what it had, and the client has received an
      acknowledgement for the record and for each store, and then the data. */
  method StoreAndFetchImage(c: Controller.Controller, socket: Receiver.Socket, ghost chip: Chip, ghost mem: Memory,
                            count: nat, ghost stores: seq<Request>, ghost after: seq<u8>, uninitialised: i16)
    requires Serving(c, chip, mem) && Image(chip, stores) && Disjoint(chip, stores)
    requires Proper(chip, Load(chip.info)) && AllFit(Session(chip, stores)) && count == |Session(chip, stores)|
    requires Receiver.ValidEvents(socket.events)
    requires Receiver.Bytes(socket.events) == RequestStream(Session(chip, stores)) + after
    modifies socket, c.programmer, c.programmer.bus`sent, c.task, c.task.packets, c.task.packets.data
    ensures Serving(c, chip, mem)
    ensures Receiver.ValidEvents(socket.events) && Receiver.Bytes(socket.events) == after
    ensures var before, now := Run(chip, mem, old(c.programmer.bus.sent)), Run(chip, mem, c.programmer.bus.sent);
            (forall i :: 0 <= i < |stores| ==> Holds(now, stores[i])) && Untouched(chip, before, now, stores)
    ensures old(c.task.sent) <= c.task.sent
    ensures PacketContents.Carry(c.task.sent[|old(c.task.sent)|..],
                                 [ACK] + Acks(|stores|) + DataAnswers(chip, stores))
    ensures |c.task.sent| == |old(c.task.sent)| + 1 + 2 * |stores|
    ensures forall i :: |old(c.task.sent)| <= i <= |old(c.task.sent)| + |stores| ==> Acknowledges(c.task.sent[i])
  {
    hide Serving, PacketContents.Carry, Run, Holds, Untouched, Disjoint, StoredAll, Replies, RequestStream, Proper;
    hide Acks, DataAnswers, Receiver.Bytes, AllFit;
    ServingFits(c, chip, mem);
    SessionTold(chip, stores);
    SessionLaw(chip, Run(chip, mem, c.programmer.bus.sent), stores);
    ServeStream(c, socket, chip, mem, count, Session(chip, stores), after, uninitialised);
    SessionAcks(old(c.task.sent), c.task.sent, chip, stores);
  }

  lemma SessionTold(chip: Chip, stores: seq<Request>)
    requires Image(chip, stores)
    ensures Told(Session(chip, stores))
  {
    assert Session(chip, stores)[0].Load?;
  }

  lemma SessionAcks(before: seq<PacketFlow.Sending>, sent: seq<PacketFlow.Sending>, chip: Chip, stores: seq<Request>)
    requires Image(chip, stores) && before <= sent
    requires PacketContents.Carry(sent[|before|..], [ACK] + Acks(|stores|) + DataAnswers(chip, stores))
    ensures |sent| == |before| + 1 + 2 * |stores|
    ensures forall i :: |before| <= i <= |before| + |stores| ==> Acknowledges(sent[i])
  {
    var answers := [ACK] + Acks(|stores|) + DataAnswers(chip, stores);
    forall i | |before| <= i <= |before| + |stores| ensures Acknowledges(sent[i]) {
      assert PacketContents.Carries(sent[|before|..][i - |before|], answers[i - |before|]);
    }
  }

  /** Everything that a session assumes can be set up. */
  method Connect(chip: Chip, mem: Memory, memory: map<Pool.Obj, Contents>) returns (c: Controller.Controller)
    requires Fits(chip, mem) && Described(chip)
    ensures fresh(c) && fresh(c.programmer) && fresh(c.programmer.bus)
    ensures fresh(c.task) && fresh(c.task.packets) && fresh(c.task.packets.data)
    ensures Serving(c, chip, mem) && c.programmer.bus.sent == [] && c.task.sent == []
  {
    hide Described, AvrDevice;
    var bus := new SpiBus(AvrDevice(chip, mem));
    var programmer := new Programmer(bus);
    var packets := new Pool.ObjectPool(PacketFlow.MSG_POOL_SIZE);
    var task := new HandlingTask.Task(packets, PacketFlow.INTENDED, memory);
    c := new Controller.Controller(programmer, task);
    PacketFlow.OwnedStart(memory);
  }

  // ------------------------------------------------ The echo check as written

  /** The third bytes of the first k commands. */
  function ThirdBytes(frames: seq<Frame>, k: nat): (bytes: seq<u8>)
    requires k <= |frames|
    ensures |bytes| == k
  {
    seq(k, j requires 0 <= j < k => frames[j][2])
  }

  /** What a read leaves in the packet when the whole answer is checked: the third bytes of its
      own commands, as many as were accepted. */
  lemma AsWrittenFetches(p: Programmer, sent: seq<Frame>, buf0: seq<u8>, buf: seq<u8>,
                         request: ReadMemData, status: i16)
    requires p.mcuInfo.Some? && |buf0| == PACKET_DATA_SIZE && !request.memoryType.MemoryErr?
    requires Readable(p, sent, request, AVR_CMD_SIZE)
    requires Fetches(p, sent, buf0, buf, request, AVR_CMD_SIZE, status)
    ensures var frames := ReadFrames(p.mcuInfo.value, request);
            var k := Accepted(p.bus.device, sent, frames, AVR_CMD_SIZE);
            buf == if request.memoryType.MemoryFlash? then RingStore(buf0, ThirdBytes(frames, k))
                   else ThirdBytes(frames, k) + buf0[k..]
  {
    hide Accepted, RingStore, AnswerAt;
    var frames := ReadFrames(p.mcuInfo.value, request);
    var k := Accepted(p.bus.device, sent, frames, AVR_CMD_SIZE);
    AsWrittenReadLaw(p.bus.device, sent, frames);
    assert DataBytes(p.bus.device, sent, frames, k) == ThirdBytes(frames, k);
  }
}
