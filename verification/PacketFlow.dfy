/** Who owns a packet and what it carries: the handling task's visits in `packet_handler.c`, the
    responses built by `controller.c` and the pool-to-queue transfer of `packet_manager.c`.

    The functions follow the C functions one by one. `Fixes` selects the code as written or
    with three one-line corrections. */
module PacketFlow {
  import opened Bits
  import opened Patterns
  import opened Results
  import opened Packets
  import opened Pool

  const MSG_QUEUE_SIZE := 5
  const MSG_POOL_SIZE := 10
  const PL_ACK_SUCCESS: u8 := 1

  function Ascii(text: string): (bytes: seq<u8>)
    ensures |bytes| == |text|
  {
    seq(|text|, i requires 0 <= i < |text| => (text[i] as int) % 0x100)
  }

  /** A packet to create: the type it is meant to have, and its body. */
  datatype Message = Message(ptype: PacketType, body: Body)

  const ACK := Message(ACKPacket, [PL_ACK_SUCCESS])
  const LOAD_COMMAND_FAILED := Message(ErrorPacket, Ascii("Failed to load command into MCU\r\n"))
  const PROGRAM_MEMORY_FAILED := Message(ErrorPacket, Ascii("Failed to program memory\r\n"))
  const READ_MEMORY_FAILED := Message(ErrorPacket, Ascii("Failed to read memory\r\n"))

  /** drain: the drain loop no longer takes a packet that it then forgets.
      read: read-memory answers with `memory_packet` and not with the inbound packet.
      send: a send that fails gives its packet back. */
  datatype Fixes = Fixes(drain: bool, read: bool, send: bool)

  const INTENDED := Fixes(true, true, true)
  const AS_WRITTEN := Fixes(false, false, false)

  /** A frame on the wire, the packet it was sent from, and the type that packet was meant to have. */
  datatype Sending = Sending(frame: SentFrame, packet: Obj, meant: PacketType)

  /** The packets, what their memory holds, and the types that `create_packet` was last asked for
      but does not write. `lost` records packets that were dropped on the
      floor, `leaks` how often the drain loop did so. `restarted`: the device has reset itself.
      `fault`: no packet could be had for an inbound message, and the handling loop went on
      with whatever its variable held. */
  datatype Flow = Flow(
    pool: PoolState, queue: seq<Obj>, memory: map<Obj, Contents>, meant: map<Obj, PacketType>,
    sent: seq<Sending>, lost: seq<Obj>, leaks: nat, restarted: bool, fault: bool)

  /** The packets' memory is as `malloc` leaves it: anything. */
  function Start(memory: map<Obj, Contents>): Flow {
    Flow(PoolState(MSG_POOL_SIZE, 0, []), [], memory, map[], [], [], 0, false, false)
  }

  function Blank(): Contents {
    Contents([0, 0, 0, 0, 0], seq(PACKET_DATA_SIZE, _ => 0),
             PacketHeader(ProgrammerInitPacket, ControlGroup, 0, 0, 0, 0))
  }

  function Look(f: Flow, x: Obj): Contents {
    if x in f.memory then f.memory[x] else Blank()
  }

  function Put(f: Flow, x: Obj, c: Contents): Flow {
    f.(memory := f.memory[x := c])
  }

  function Meant(f: Flow, x: Obj): PacketType {
    if x in f.meant then f.meant[x] else ErrorPacket
  }

  /** What sending packet x puts on the wire. */
  function Dispatched(f: Flow, x: Obj): Sending {
    Sending(Outgoing(Look(f, x)), x, Meant(f, x))
  }

  /** What the inbound packet turns out to be, with the results of the work it asks for. */
  datatype Inbound =
    | CloseConnection
    | Silent                                          // handled without an answer
    | LoadMcuInfo
    | Command(sizeOk: bool, status: i16, answer: Frame)
    | ProgramMemory(status: i16)
    | ReadMemory(sizeOk: bool, status: i16, fetched: PacketData, bytesToRead: nat)

  /** What `recv_packet` has left in the inbound packet, and the request in it. */
  datatype Arrival = Arrival(received: Contents, request: Inbound)

  // ------------------------------------------------------- packet_manager.c

  function GiveBack(f: Flow, x: Obj): Flow {
    match Release(f.pool, x)
    case Some(p) => f.(pool := p)
    case None => f
  }

  function Drop(f: Flow, x: Obj): Flow {
    f.(lost := f.lost + [x])
  }

  /** `write_packet`: nobody else reads the queue, so a full queue stays full. */
  function WritePacket(f: Flow, fixes: Fixes, x: Obj): Flow {
    if |f.queue| < MSG_QUEUE_SIZE then f.(queue := f.queue + [x])
    else if fixes.send then GiveBack(f, x)
    else Drop(f, x)
  }

  /** `create_packet` without compression, signature and encryption. */
  function Prepare(f: Flow, x: Obj, ptype: PacketType, body: Option<Body>, length: u16): Flow {
    Put(f, x, Prepared(Look(f, x), 0, 0, 0, body, length)).(meant := f.meant[x := ptype])
  }

  /** `send_packet` on a packet that the caller holds; without a body its data stays. */
  function SendPacket(f: Flow, fixes: Fixes, x: Obj, ptype: PacketType, body: Option<Body>, length: u16): (Flow, int) {
    var g := Prepare(f, x, ptype, body, length);
    if length > PL_MAX_DATA_LENGTH then (if fixes.send then GiveBack(g, x) else Drop(g, x), PACKET_WRONG_SIZE as int)
    else (WritePacket(g, fixes, x), 0)
  }

  /** `create_send_packet` */
  function CreateSendPacket(f: Flow, fixes: Fixes, m: Message): (Flow, int) {
    match Get(f.pool)
    case None => (f, -1)
    case Some((p, x)) => SendPacket(f.(pool := p), fixes, x, m.ptype, Some(m.body), |m.body|)
  }

  // ------------------------------------------------------------- controller.c

  function ProcessLoadMcuInfo(f: Flow, fixes: Fixes): Flow {
    // Entering programming mode never reports a negative status, so only an ack is sent.
    var (g, status) := CreateSendPacket(f, fixes, ACK);
    g.(restarted := g.restarted || status < 0)
  }

  function CommandAnswer(m: Inbound): Message
    requires m.Command?
  {
    Message(CMDPacket, m.answer)
  }

  function ProcessCommand(f: Flow, fixes: Fixes, m: Inbound): Flow
    requires m.Command?
  {
    if !m.sizeOk then f
    else
      var g := if m.status < 0 then CreateSendPacket(f, fixes, LOAD_COMMAND_FAILED).0 else f;
      CreateSendPacket(g, fixes, CommandAnswer(m)).0
  }

  function ProcessProgramMemory(f: Flow, fixes: Fixes, m: Inbound): Flow
    requires m.ProgramMemory?
  {
    if m.status < 0 then CreateSendPacket(f, fixes, PROGRAM_MEMORY_FAILED).0.(restarted := true)
    else
      var (g, status) := CreateSendPacket(f, fixes, ACK);
      g.(restarted := g.restarted || status < 0)
  }

  /** `send_packet` takes the count in sixteen bits. */
  function AnswerLength(m: Inbound): u16
    requires m.ReadMemory?
  {
    m.bytesToRead % 0x1_0000
  }

  /** The answer after the memory has been read into `memoryPacket`; `inbound` is the packet
      that asked. */
  function AnswerRead(f: Flow, fixes: Fixes, m: Inbound, memoryPacket: Obj, inbound: Obj): Flow
    requires m.ReadMemory?
  {
    var filled := Put(f, memoryPacket, Look(f, memoryPacket).(data := m.fetched));
    var (g, status) := if m.status < 0 then CreateSendPacket(filled, fixes, READ_MEMORY_FAILED) else (filled, m.status);
    if status < 0 then (if fixes.send then GiveBack(g, memoryPacket) else Drop(g, memoryPacket))
    else if fixes.read then SendPacket(g, fixes, memoryPacket, MemoryPacket, None, AnswerLength(m)).0
    else SendPacket(Drop(g, memoryPacket), fixes, inbound, MemoryPacket, None, AnswerLength(m)).0
  }

  function ProcessReadMemory(f: Flow, fixes: Fixes, m: Inbound, inbound: Obj): Flow
    requires m.ReadMemory?
  {
    if !m.sizeOk then f
    else match Get(f.pool)
      case None => f
      case Some((p, x)) => AnswerRead(f.(pool := p), fixes, m, x, inbound)
  }

  function Process(f: Flow, fixes: Fixes, m: Inbound, inbound: Obj): Flow {
    match m
    case CloseConnection => f
    case Silent => f
    case LoadMcuInfo => ProcessLoadMcuInfo(f, fixes)
    case Command(_, _, _) => ProcessCommand(f, fixes, m)
    case ProgramMemory(_) => ProcessProgramMemory(f, fixes, m)
    case ReadMemory(_, _, _, _) => ProcessReadMemory(f, fixes, m, inbound)
  }

  // -------------------------------------------------------- packet_handler.c

  /** Sends and releases the packet at the head of the queue. */
  function SendHead(f: Flow): Flow
    requires |f.queue| > 0
  {
    GiveBack(f.(queue := f.queue[1..], sent := f.sent + [Dispatched(f, f.queue[0])]), f.queue[0])
  }

  /** The get in front of the queue read: its packet is forgotten at once. */
  function DrainGet(f: Flow, fixes: Fixes): Flow {
    if fixes.drain then f
    else match Get(f.pool)
      case None => f
      case Some((p, x)) => Drop(f.(pool := p, leaks := f.leaks + 1), x)
  }

  /** The drain loop: it ends with the first read that finds the queue empty. */
  function Drain(f: Flow, fixes: Fixes): Flow
    decreases |f.queue|
  {
    var g := DrainGet(f, fixes);
    assert g.queue == f.queue;
    if |g.queue| == 0 then g else Drain(SendHead(g), fixes)
  }

  /** Receives one message into a packet from the pool, processes it and releases the packet.
      The second result says whether the release, whose status guards the drain, went well. */
  function Serve(f: Flow, fixes: Fixes, a: Arrival): (Flow, bool) {
    match Get(f.pool)
    case None => (f.(fault := true), false)
    case Some((p, x)) =>
      var g := Process(Put(f.(pool := p), x, a.received), fixes, a.request, x);
      if g.restarted then (g, false) else (GiveBack(g, x), Release(g.pool, x).Some?)
  }

  /** One visit to a connection: a message if there is one, then the drain. */
  function Visit(f: Flow, fixes: Fixes, a: Option<Arrival>): Flow {
    if f.restarted || f.fault then f
    else
      var (g, ok) := if a.Some? then Serve(f, fixes, a.value) else (f, true);
      if g.restarted || g.fault || !ok then g else Drain(g, fixes)
  }

  /** Any number of visits with any messages, from any initial memory. */
  function Visits(fixes: Fixes, memory: map<Obj, Contents>, visits: seq<Option<Arrival>>): Flow {
    if |visits| == 0 then Start(memory)
    else Visit(Visits(fixes, memory, visits[..|visits| - 1]), fixes, visits[|visits| - 1])
  }

  // ------------------------------------------------------------- Conservation

  /** Every packet is in exactly one place: the free stack, the queue, the handler's hands, or lost. */
  ghost predicate Owned(f: Flow, held: multiset<Obj>) {
    && f.pool.size <= f.pool.max == MSG_POOL_SIZE
    && multiset(f.pool.free) + multiset(f.queue) + multiset(f.lost) + held == multiset(Upto(f.pool.size))
  }

  lemma OwnedCount(f: Flow, held: multiset<Obj>)
    requires Owned(f, held)
    ensures |f.pool.free| + |f.queue| + |f.lost| + |held| == f.pool.size
  {
    assert |multiset(f.pool.free) + multiset(f.queue) + multiset(f.lost) + held| == |Upto(f.pool.size)|;
  }

  lemma OwnedStart(memory: map<Obj, Contents>)
    ensures Owned(Start(memory), multiset{})
  {
    assert Upto(0) == {};
  }

  lemma GetOwned(f: Flow, held: multiset<Obj>)
    requires Owned(f, held) && Get(f.pool).Some?
    ensures Owned(f.(pool := Get(f.pool).value.0), held + multiset{Get(f.pool).value.1})
  {
    if |f.pool.free| == 0 {
      UptoNext(f.pool.size);
    } else {
      var (p, x) := Get(f.pool).value;
      assert f.pool.free == p.free + [x];
    }
  }

  lemma UptoNext(n: nat)
    ensures multiset(Upto(n + 1)) == multiset(Upto(n)) + multiset{n}
  {}

  lemma GiveBackOwned(f: Flow, held: multiset<Obj>, x: Obj)
    requires Owned(f, held + multiset{x})
    ensures Release(f.pool, x).Some? && Owned(GiveBack(f, x), held)
  {
    OwnedCount(f, held + multiset{x});
  }

  lemma DropOwned(f: Flow, held: multiset<Obj>, x: Obj)
    requires Owned(f, held + multiset{x})
    ensures Owned(Drop(f, x), held)
  {}

  lemma SendOwned(f: Flow, fixes: Fixes, held: multiset<Obj>, x: Obj,
                  ptype: PacketType, body: Option<Body>, length: u16)
    requires Owned(f, held + multiset{x})
    ensures Owned(SendPacket(f, fixes, x, ptype, body, length).0, held)
  {
    hide Prepared;
    var g := Prepare(f, x, ptype, body, length);
    GiveBackOwned(g, held, x);
    DropOwned(g, held, x);
  }

  lemma CreateSendOwned(f: Flow, fixes: Fixes, held: multiset<Obj>, m: Message)
    requires Owned(f, held)
    ensures Owned(CreateSendPacket(f, fixes, m).0, held)
  {
    hide Prepared;
    if Get(f.pool).Some? {
      var (p, x) := Get(f.pool).value;
      GetOwned(f, held);
      SendOwned(f.(pool := p), fixes, held, x, m.ptype, Some(m.body), |m.body|);
    }
  }

  /** The message does not make the uncorrected read path answer. */
  predicate Sound(fixes: Fixes, m: Inbound) {
    fixes.read || !(m.ReadMemory? && m.sizeOk)
  }

  lemma ReadOwned(f: Flow, fixes: Fixes, m: Inbound, inbound: Obj, held: multiset<Obj>)
    requires Owned(f, held) && m.ReadMemory? && Sound(fixes, m)
    ensures Owned(ProcessReadMemory(f, fixes, m, inbound), held)
  {
    hide CreateSendPacket, SendPacket, GiveBack;
    if m.sizeOk && Get(f.pool).Some? {
      var (p, x) := Get(f.pool).value;
      GetOwned(f, held);
      var g := Put(f.(pool := p), x, Look(f, x).(data := m.fetched));
      assert Owned(g, held + multiset{x});
      CreateSendOwned(g, fixes, held + multiset{x}, READ_MEMORY_FAILED);
      var h := if m.status < 0 then CreateSendPacket(g, fixes, READ_MEMORY_FAILED).0 else g;
      GiveBackOwned(h, held, x);
      DropOwned(h, held, x);
      SendOwned(h, fixes, held, x, MemoryPacket, None, AnswerLength(m));
    }
  }

  lemma ProcessOwned(f: Flow, fixes: Fixes, m: Inbound, inbound: Obj, held: multiset<Obj>)
    requires Owned(f, held) && Sound(fixes, m)
    ensures Owned(Process(f, fixes, m, inbound), held)
  {
    hide CreateSendPacket, ProcessReadMemory;
    match m
    case CloseConnection =>
    case Silent =>
    case LoadMcuInfo => CreateSendOwned(f, fixes, held, ACK);
    case Command(_, status, _) =>
      CreateSendOwned(f, fixes, held, LOAD_COMMAND_FAILED);
      CreateSendOwned(if status < 0 then CreateSendPacket(f, fixes, LOAD_COMMAND_FAILED).0 else f, fixes, held,
                      CommandAnswer(m));
    case ProgramMemory(_) =>
      CreateSendOwned(f, fixes, held, PROGRAM_MEMORY_FAILED);
      CreateSendOwned(f, fixes, held, ACK);
    case ReadMemory(_, _, _, _) => ReadOwned(f, fixes, m, inbound, held);
  }

  lemma SendHeadOwned(f: Flow)
    requires Owned(f, multiset{}) && |f.queue| > 0
    ensures Owned(SendHead(f), multiset{})
  {
    var x := f.queue[0];
    var g := f.(queue := f.queue[1..], sent := f.sent + [Dispatched(f, x)]);
    assert f.queue == [x] + g.queue;
    assert Owned(g, multiset{} + multiset{x});
    GiveBackOwned(g, multiset{}, x);
  }

  lemma DrainGetOwned(f: Flow, fixes: Fixes)
    requires Owned(f, multiset{})
    ensures Owned(DrainGet(f, fixes), multiset{})
  {
    if !fixes.drain && Get(f.pool).Some? {
      var (p, x) := Get(f.pool).value;
      GetOwned(f, multiset{});
      DropOwned(f.(pool := p, leaks := f.leaks + 1), multiset{}, x);
    }
  }

  lemma {:induction false} DrainOwned(f: Flow, fixes: Fixes)
    requires Owned(f, multiset{})
    ensures Owned(Drain(f, fixes), multiset{}) && Drain(f, fixes).queue == []
    decreases |f.queue|
  {
    DrainGetOwned(f, fixes);
    var g := DrainGet(f, fixes);
    if |g.queue| > 0 {
      SendHeadOwned(g);
      DrainOwned(SendHead(g), fixes);
    }
  }

  lemma ServeOwned(f: Flow, fixes: Fixes, a: Arrival)
    requires Owned(f, multiset{}) && Sound(fixes, a.request)
    ensures !Serve(f, fixes, a).0.restarted ==> Owned(Serve(f, fixes, a).0, multiset{})
    ensures !Serve(f, fixes, a).0.restarted && Get(f.pool).Some? ==> Serve(f, fixes, a).1
  {
    hide Process;
    if Get(f.pool).Some? {
      var (p, x) := Get(f.pool).value;
      GetOwned(f, multiset{});
      var g := Put(f.(pool := p), x, a.received);
      assert Owned(g, multiset{} + multiset{x});
      ProcessOwned(g, fixes, a.request, x, multiset{} + multiset{x});
      GiveBackOwned(Process(g, fixes, a.request, x), multiset{}, x);
    }
  }

  /** A visit that goes through leaves the queue empty and every packet accounted for. */
  lemma VisitOwned(f: Flow, fixes: Fixes, a: Option<Arrival>)
    requires Owned(f, multiset{}) && (a.Some? ==> Sound(fixes, a.value.request))
    ensures !Visit(f, fixes, a).restarted ==> Owned(Visit(f, fixes, a), multiset{})
    ensures f.queue == [] && !Visit(f, fixes, a).restarted && !Visit(f, fixes, a).fault ==>
      Visit(f, fixes, a).queue == []
  {
    hide Serve, Drain;
    if a.Some? {
      ServeOwned(f, fixes, a.value);
      ServeGoesOn(f, fixes, a.value);
    }
    var g := if a.Some? then Serve(f, fixes, a.value).0 else f;
    if !g.restarted { DrainOwned(g, fixes); }
    DrainFlags(g, fixes);
  }

  /** Without a packet for the message, nothing but the fault flag changes. */
  lemma ServeGoesOn(f: Flow, fixes: Fixes, a: Arrival)
    ensures Get(f.pool).None? ==> Serve(f, fixes, a).0 == f.(fault := true)
  {}

  /** The drain neither restarts nor faults. */
  lemma {:induction false} DrainFlags(f: Flow, fixes: Fixes)
    ensures Drain(f, fixes).restarted == f.restarted && Drain(f, fixes).fault == f.fault
    decreases |f.queue|
  {
    var g := DrainGet(f, fixes);
    if |g.queue| > 0 { DrainFlags(SendHead(g), fixes); }
  }

  // ----------------------------------------------- With the drain corrected

  /** Owned, nothing leaked, and at most three packets allocated besides those that are lost. */
  ghost predicate Clean(f: Flow, held: multiset<Obj>) {
    Owned(f, held) && f.leaks == 0 && f.pool.size <= 3 + |f.lost| && !f.fault
  }

  /** With so many packets lost there are still three left. */
  const AFFORDABLE := MSG_POOL_SIZE - 3

  lemma GetClean(f: Flow, held: multiset<Obj>)
    requires Clean(f, held) && |f.queue| + |held| <= 2 && |f.lost| <= AFFORDABLE
    ensures Get(f.pool).Some?
    ensures Clean(f.(pool := Get(f.pool).value.0), held + multiset{Get(f.pool).value.1})
  {
    OwnedCount(f, held);
    GetOwned(f, held);
  }

  /** The same, when the packet is then filled. */
  lemma GetFilled(f: Flow, held: multiset<Obj>, c: Contents)
    requires Clean(f, held) && |f.queue| + |held| <= 2 && |f.lost| <= AFFORDABLE
    ensures Get(f.pool).Some?
    ensures var (p, x) := Get(f.pool).value; Clean(Put(f.(pool := p), x, c), held + multiset{x})
  {
    GetClean(f, held);
  }

  /** The packet is queued, or refused and then kept only by the uncorrected send. */
  lemma SendClean(f: Flow, fixes: Fixes, held: multiset<Obj>, x: Obj,
                  ptype: PacketType, body: Option<Body>, length: u16)
    requires Clean(f, held + multiset{x}) && |f.queue| < 2
    ensures var (g, status) := SendPacket(f, fixes, x, ptype, body, length);
            && Clean(g, held) && (status == 0 <==> length <= PL_MAX_DATA_LENGTH) && g.restarted == f.restarted
            && g.sent == f.sent && g.queue == f.queue + (if length <= PL_MAX_DATA_LENGTH then [x] else [])
            && g.lost == f.lost + if length > PL_MAX_DATA_LENGTH && !fixes.send then [x] else []
  {
    hide Prepared, Owned, Look;
    SendOwned(f, fixes, held, x, ptype, body, length);
  }

  lemma CreateSendClean(f: Flow, fixes: Fixes, held: multiset<Obj>, m: Message)
    requires Clean(f, held) && |f.queue| < 2 && |f.queue| + |held| <= 2 && |f.lost| <= AFFORDABLE
    ensures var (g, status) := CreateSendPacket(f, fixes, m);
            && Clean(g, held) && status == 0 && g.restarted == f.restarted
            && g.sent == f.sent && |g.queue| == |f.queue| + 1 && g.lost == f.lost
  {
    GetClean(f, held);
    hide Owned, SendPacket;
    var (p, x) := Get(f.pool).value;
    SendClean(f.(pool := p), fixes, held, x, m.ptype, Some(m.body), |m.body|);
  }

  /** An answer: the type it is meant to have, the announced size and the bytes that follow. */
  datatype Answer = Answer(ptype: PacketType, size: u16, body: seq<u8>)

  function Whole(m: Message): Answer { Answer(m.ptype, |m.body|, m.body) }

  /** The request is for more bytes than a packet may announce. */
  predicate Oversized(m: Inbound) {
    m.ReadMemory? && m.sizeOk && AnswerLength(m) > PL_MAX_DATA_LENGTH
  }

  /** The answers to a message, in order. */
  function Answers(m: Inbound): seq<Answer> {
    match m
    case CloseConnection => []
    case Silent => []
    case LoadMcuInfo => [Whole(ACK)]
    case Command(sizeOk, status, _) =>
      if !sizeOk then []
      else (if status < 0 then [Whole(LOAD_COMMAND_FAILED)] else []) + [Whole(CommandAnswer(m))]
    case ProgramMemory(status) => [Whole(if status < 0 then PROGRAM_MEMORY_FAILED else ACK)]
    case ReadMemory(sizeOk, status, fetched, _) =>
      if !sizeOk then []
      else
        (if status < 0 then [Whole(READ_MEMORY_FAILED)] else [])
        + if Oversized(m) then []
          else [Answer(MemoryPacket, AnswerLength(m), Cut(fetched, AnswerLength(m)))]
  }

  predicate Restarts(m: Inbound) {
    m.ProgramMemory? && m.status < 0
  }

  /** How many packets a message costs when the drain and the read answer are corrected. */
  function Dropped(fixes: Fixes, m: Inbound): nat {
    if !fixes.send && Oversized(m) then 1 else 0
  }

  lemma CommandClean(f: Flow, fixes: Fixes, m: Inbound, held: multiset<Obj>)
    requires Clean(f, held) && f.queue == [] && |f.lost| <= AFFORDABLE && |held| == 1 && m.Command?
    ensures var g := ProcessCommand(f, fixes, m);
            && Clean(g, held) && |g.queue| == |Answers(m)| && g.lost == f.lost
            && g.sent == f.sent && g.restarted == f.restarted
  {
    hide CreateSendPacket, Owned;
    if m.sizeOk {
      if m.status < 0 { CreateSendClean(f, fixes, held, LOAD_COMMAND_FAILED); }
      var g := if m.status < 0 then CreateSendPacket(f, fixes, LOAD_COMMAND_FAILED).0 else f;
      CreateSendClean(g, fixes, held, CommandAnswer(m));
    }
  }

  lemma ProgramClean(f: Flow, fixes: Fixes, m: Inbound, held: multiset<Obj>)
    requires Clean(f, held) && f.queue == [] && |f.lost| <= AFFORDABLE && |held| == 1
    requires !f.restarted && m.ProgramMemory?
    ensures var g := ProcessProgramMemory(f, fixes, m);
            && Clean(g, held) && |g.queue| == 1 && g.lost == f.lost
            && g.sent == f.sent && (g.restarted <==> Restarts(m))
  {
    hide CreateSendPacket;
    CreateSendClean(f, fixes, held, PROGRAM_MEMORY_FAILED);
    CreateSendClean(f, fixes, held, ACK);
  }

  lemma FilledClean(f: Flow, held: multiset<Obj>, x: Obj, c: Contents)
    requires Clean(f, held)
    ensures Clean(Put(f, x, c), held)
  {}

  lemma AnswerReadClean(f: Flow, fixes: Fixes, m: Inbound, x: Obj, inbound: Obj, held: multiset<Obj>)
    requires Clean(f, held + multiset{x}) && f.queue == [] && |f.lost| <= AFFORDABLE && |held| == 1
    requires m.ReadMemory? && m.sizeOk && fixes.read
    ensures var g := AnswerRead(f, fixes, m, x, inbound);
            && Clean(g, held) && |g.queue| == |Answers(m)| && |g.lost| == |f.lost| + Dropped(fixes, m)
            && g.sent == f.sent && g.restarted == f.restarted
  {
    hide CreateSendPacket, SendPacket, Clean, Look, GiveBack, Drop;
    var c := Look(f, x).(data := m.fetched);
    FilledClean(f, held + multiset{x}, x, c);
    var g := Put(f, x, c);
    if m.status < 0 { CreateSendClean(g, fixes, held + multiset{x}, READ_MEMORY_FAILED); }
    var h := if m.status < 0 then CreateSendPacket(g, fixes, READ_MEMORY_FAILED).0 else g;
    SendClean(h, fixes, held, x, MemoryPacket, None, AnswerLength(m));
  }

  lemma ReadClean(f: Flow, fixes: Fixes, m: Inbound, inbound: Obj, held: multiset<Obj>)
    requires Clean(f, held) && f.queue == [] && |f.lost| <= AFFORDABLE && |held| == 1
    requires m.ReadMemory? && Sound(fixes, m)
    ensures var g := ProcessReadMemory(f, fixes, m, inbound);
            && Clean(g, held) && |g.queue| == |Answers(m)| && |g.lost| == |f.lost| + Dropped(fixes, m)
            && g.sent == f.sent && g.restarted == f.restarted
  {
    hide AnswerRead, Clean;
    if m.sizeOk {
      GetClean(f, held);
      var (p, x) := Get(f.pool).value;
      AnswerReadClean(f.(pool := p), fixes, m, x, inbound, held);
    }
  }

  /** Processing a message puts its answers, at most two, into the empty queue, so the queue
      never fills, no get ever fails, and no send but that of an oversized read. */
  lemma ProcessClean(f: Flow, fixes: Fixes, m: Inbound, inbound: Obj)
    requires Clean(f, multiset{inbound}) && f.queue == [] && |f.lost| <= AFFORDABLE && !f.restarted && Sound(fixes, m)
    ensures var g := Process(f, fixes, m, inbound);
            && Clean(g, multiset{inbound}) && |g.queue| == |Answers(m)| <= 2 && |g.lost| == |f.lost| + Dropped(fixes, m)
            && g.sent == f.sent && (g.restarted <==> Restarts(m))
  {
    var held := multiset{inbound};
    hide CreateSendPacket, Owned, ProcessReadMemory, ProcessCommand, ProcessProgramMemory;
    match m
    case CloseConnection =>
    case Silent =>
    case LoadMcuInfo => CreateSendClean(f, fixes, held, ACK);
    case Command(_, _, _) => CommandClean(f, fixes, m, held);
    case ProgramMemory(_) => ProgramClean(f, fixes, m, held);
    case ReadMemory(_, _, _, _) => ReadClean(f, fixes, m, inbound, held);
  }

  lemma DrainUnfold(f: Flow, fixes: Fixes)
    requires fixes.drain
    ensures Drain(f, fixes) == if |f.queue| == 0 then f else Drain(SendHead(f), fixes)
  {}

  /** The frames that the queue stands for. */
  function Pending(f: Flow): (frames: seq<Sending>)
    ensures |frames| == |f.queue|
  {
    seq(|f.queue|, i requires 0 <= i < |f.queue| => Dispatched(f, f.queue[i]))
  }

  /** The drain sends the queue in order. */
  lemma {:induction false} DrainClean(f: Flow, fixes: Fixes)
    requires Clean(f, multiset{}) && fixes.drain
    ensures var g := Drain(f, fixes);
            && Clean(g, multiset{}) && g.queue == [] && g.sent == f.sent + Pending(f)
            && g.lost == f.lost && g.memory == f.memory && g.meant == f.meant
    decreases |f.queue|
  {
    DrainUnfold(f, fixes);
    hide Drain, Owned, Outgoing, Look, Meant;
    if |f.queue| == 0 {
      assert f.sent + Pending(f) == f.sent;
    } else {
      SendHeadOwned(f);
      DrainClean(SendHead(f), fixes);
      PendingHead(f);
    }
  }

  lemma PendingHead(f: Flow)
    requires |f.queue| > 0
    ensures SendHead(f).sent + Pending(SendHead(f)) == f.sent + Pending(f)
  {
    hide Outgoing;
    assert SendHead(f).queue == f.queue[1..];
    assert Pending(f) == [Dispatched(f, f.queue[0])] + Pending(SendHead(f));
  }

  /** Between visits: the queue is empty and every packet is back in the pool. */
  ghost predicate Idle(f: Flow) {
    Clean(f, multiset{}) && f.queue == [] && f.lost == [] && !f.restarted
  }

  /** The same, with some packets lost but enough left. */
  ghost predicate Settled(f: Flow) {
    Clean(f, multiset{}) && f.queue == [] && |f.lost| <= AFFORDABLE && !f.restarted
  }

  /** One visit with the drain corrected, unless the message uses the uncorrected read answer. */
  lemma VisitClean(f: Flow, fixes: Fixes, a: Option<Arrival>)
    requires Settled(f) && fixes.drain && (a.Some? ==> Sound(fixes, a.value.request))
    ensures var g := Visit(f, fixes, a);
            if a.Some? && Restarts(a.value.request) then g.restarted
            else
              && Clean(g, multiset{}) && g.queue == [] && !g.restarted
              && |g.lost| == |f.lost| + (if a.Some? then Dropped(fixes, a.value.request) else 0)
              && |g.sent| == |f.sent| + if a.Some? then |Answers(a.value.request)| else 0
  {
    if a.None? {
      DrainClean(f, fixes);
      DrainFlags(f, fixes);
    } else {
      var m := a.value.request;
      GetFilled(f, multiset{}, a.value.received);
      hide Process, Drain;
      var (p, x) := Get(f.pool).value;
      var h := Put(f.(pool := p), x, a.value.received);
      assert multiset{} + multiset{x} == multiset{x};
      ProcessClean(h, fixes, m, x);
      var g := Process(h, fixes, m, x);
      if !Restarts(m) {
        assert Owned(g, multiset{} + multiset{x});
        GiveBackOwned(g, multiset{}, x);
        hide Owned;
        DrainClean(GiveBack(g, x), fixes);
        DrainFlags(GiveBack(g, x), fixes);
      }
    }
  }

  /** The version handles the message without spoiling anything. */
  predicate Fitting(fixes: Fixes, m: Inbound) {
    Sound(fixes, m) && (fixes.send || !Oversized(m))
  }

  function AnswersOf(visits: seq<Option<Arrival>>): nat {
    if |visits| == 0 then 0
    else AnswersOf(visits[..|visits| - 1])
         + match visits[|visits| - 1] case Some(a) => |Answers(a.request)| case None => 0
  }

  predicate Restarting(visits: seq<Option<Arrival>>) {
    exists i :: 0 <= i < |visits| && visits[i].Some? && Restarts(visits[i].value.request)
  }

  /** Ownership over all runs with the three corrections: the device restarts if and only if a
      programming request fails, and otherwise the queue is empty after every visit, every
      packet is in the pool, three packets have been enough, and every answer has been sent. */
  lemma {:induction false} OwnershipOverAllRuns(memory: map<Obj, Contents>, visits: seq<Option<Arrival>>)
    ensures var f := Visits(INTENDED, memory, visits);
            && (f.restarted <==> Restarting(visits))
            && (!f.restarted ==> Idle(f) && |f.pool.free| == f.pool.size <= 3 && |f.sent| == AnswersOf(visits))
  {
    hide Visit, Owned, Restarts;
    if |visits| == 0 {
      OwnedStart(memory);
    } else {
      var before := visits[..|visits| - 1];
      var f := Visits(INTENDED, memory, before);
      OwnershipOverAllRuns(memory, before);
      if f.restarted {
        RestartedStays(f, INTENDED, visits[|visits| - 1]);
        assert Restarting(before);
      } else {
        VisitClean(f, INTENDED, visits[|visits| - 1]);
      }
      RestartingNext(visits);
    }
    if !Visits(INTENDED, memory, visits).restarted { OwnedCount(Visits(INTENDED, memory, visits), multiset{}); }
  }

  lemma RestartingNext(visits: seq<Option<Arrival>>)
    requires |visits| > 0
    ensures var last := visits[|visits| - 1];
            Restarting(visits)
            <==> (Restarting(visits[..|visits| - 1]) || (last.Some? && Restarts(last.value.request)))
  {
    var before := visits[..|visits| - 1];
    if Restarting(before) {
      var i :| 0 <= i < |before| && before[i].Some? && Restarts(before[i].value.request);
      assert visits[i] == before[i];
    }
  }

  lemma RestartedStays(f: Flow, fixes: Fixes, a: Option<Arrival>)
    requires f.restarted
    ensures Visit(f, fixes, a) == f
  {}
}
