/** Under which type answers go out, in every version of the handling task: `create_packet` does
    not write the type byte, so a frame carries the byte of the last message that was received
    into its packet. */
module TypeBytes {
  import opened Bits
  import opened Results
  import opened Packets
  import opened Pool
  import opened PacketFlow

  /** The types that answers are meant to have. */
  predicate IsAnswerType(t: PacketType) {
    t.ACKPacket? || t.ErrorPacket? || t.CMDPacket? || t.MemoryPacket?
  }

  ghost predicate AnswersMeant(f: Flow) {
    forall x :: x in f.meant ==> IsAnswerType(f.meant[x])
  }

  /** From f to g no type byte in any packet's memory changes, and nothing is sent. */
  ghost predicate Kept(f: Flow, g: Flow) {
    && (forall x :: Look(g, x).raw[2] == Look(f, x).raw[2])
    && g.sent == f.sent && (AnswersMeant(f) ==> AnswersMeant(g))
  }

  lemma PreparedKeepsType(m: Contents, body: Option<Body>, size: u16)
    ensures Prepared(m, 0, 0, 0, body, size).raw[2] == m.raw[2]
  {}

  lemma SendKept(f: Flow, fixes: Fixes, x: Obj, ptype: PacketType, body: Option<Body>, length: u16)
    requires IsAnswerType(ptype)
    ensures Kept(f, SendPacket(f, fixes, x, ptype, body, length).0)
  {
    PrepareKept(f, x, ptype, body, length);
    hide Kept, Prepare;
    var g := SendPacket(f, fixes, x, ptype, body, length).0;
    KeptSelf(Prepare(f, x, ptype, body, length), g);
    KeptTrans(f, Prepare(f, x, ptype, body, length), g);
  }

  lemma PrepareKept(f: Flow, x: Obj, ptype: PacketType, body: Option<Body>, length: u16)
    requires IsAnswerType(ptype)
    ensures Kept(f, Prepare(f, x, ptype, body, length))
  {
    hide Prepared;
    PreparedKeepsType(Look(f, x), body, length);
  }

  lemma CreateSendKept(f: Flow, fixes: Fixes, m: Message)
    requires IsAnswerType(m.ptype)
    ensures Kept(f, CreateSendPacket(f, fixes, m).0)
  {
    if Get(f.pool).Some? {
      var (p, x) := Get(f.pool).value;
      SendKept(f.(pool := p), fixes, x, m.ptype, Some(m.body), |m.body|);
      hide SendPacket, IsAnswerType;
    }
  }

  lemma KeptTrans(f: Flow, g: Flow, h: Flow)
    requires Kept(f, g) && Kept(g, h)
    ensures Kept(f, h)
  {}

  lemma KeptSelf(f: Flow, g: Flow)
    requires g.memory == f.memory && g.meant == f.meant && g.sent == f.sent
    ensures Kept(f, g)
  {}

  lemma AnswerReadKept(f: Flow, fixes: Fixes, m: Inbound, x: Obj, inbound: Obj)
    requires m.ReadMemory?
    ensures Kept(f, AnswerRead(f, fixes, m, x, inbound))
  {
    hide Kept, CreateSendPacket, SendPacket, Look;
    var c := Look(f, x).(data := m.fetched);
    var g := Put(f, x, c);
    FilledKept(f, x, m.fetched);
    CreateSendKept(g, fixes, READ_MEMORY_FAILED);
    KeptSelf(g, g);
    var h := if m.status < 0 then CreateSendPacket(g, fixes, READ_MEMORY_FAILED).0 else g;
    KeptTrans(f, g, h);
    KeptSelf(h, GiveBack(h, x));
    KeptSelf(h, Drop(h, x));
    SendKept(h, fixes, x, MemoryPacket, None, AnswerLength(m));
    SendKept(Drop(h, x), fixes, inbound, MemoryPacket, None, AnswerLength(m));
    KeptTrans(h, Drop(h, x), SendPacket(Drop(h, x), fixes, inbound, MemoryPacket, None, AnswerLength(m)).0);
    KeptTrans(f, h, AnswerRead(f, fixes, m, x, inbound));
  }

  lemma FilledKept(f: Flow, x: Obj, data: PacketData)
    ensures Kept(f, Put(f, x, Look(f, x).(data := data)))
  {}

  lemma CommandKept(f: Flow, fixes: Fixes, m: Inbound)
    requires m.Command?
    ensures Kept(f, ProcessCommand(f, fixes, m))
  {
    hide Kept, CreateSendPacket;
    KeptSelf(f, f);
    CreateSendKept(f, fixes, LOAD_COMMAND_FAILED);
    var g := if m.status < 0 then CreateSendPacket(f, fixes, LOAD_COMMAND_FAILED).0 else f;
    CreateSendKept(g, fixes, CommandAnswer(m));
    KeptTrans(f, g, CreateSendPacket(g, fixes, CommandAnswer(m)).0);
  }

  lemma ProcessKept(f: Flow, fixes: Fixes, m: Inbound, inbound: Obj)
    ensures Kept(f, Process(f, fixes, m, inbound))
  {
    hide Kept, CreateSendPacket, ProcessCommand, AnswerRead;
    KeptSelf(f, f);
    var g := Process(f, fixes, m, inbound);
    match m
    case CloseConnection =>
    case Silent =>
    case LoadMcuInfo =>
      CreateSendKept(f, fixes, ACK);
      KeptSelf(CreateSendPacket(f, fixes, ACK).0, g);
      KeptTrans(f, CreateSendPacket(f, fixes, ACK).0, g);
    case Command(_, _, _) => CommandKept(f, fixes, m);
    case ProgramMemory(_) =>
      var answer := if m.status < 0 then PROGRAM_MEMORY_FAILED else ACK;
      CreateSendKept(f, fixes, answer);
      KeptSelf(CreateSendPacket(f, fixes, answer).0, g);
      KeptTrans(f, CreateSendPacket(f, fixes, answer).0, g);
    case ReadMemory(_, _, _, _) =>
      if m.sizeOk && Get(f.pool).Some? {
        var (p, x) := Get(f.pool).value;
        KeptSelf(f, f.(pool := p));
        AnswerReadKept(f.(pool := p), fixes, m, x, inbound);
        KeptTrans(f, f.(pool := p), g);
      }
  }

  /** Everything sent from position n on carries the type byte that its packet holds. */
  ghost predicate Announced(f: Flow, n: nat) {
    forall i :: n <= i < |f.sent| ==>
      f.sent[i].frame.raw[2] == Look(f, f.sent[i].packet).raw[2] && IsAnswerType(f.sent[i].meant)
  }

  lemma SendHeadKept(f: Flow, n: nat)
    requires |f.queue| > 0 && n <= |f.sent| && Announced(f, n) && AnswersMeant(f)
    ensures var g := SendHead(f);
            && |g.queue| < |f.queue| && f.sent <= g.sent && Announced(g, n) && AnswersMeant(g)
            && forall x :: Look(g, x).raw[2] == Look(f, x).raw[2]
  {}

  lemma DrainGetKept(f: Flow, fixes: Fixes)
    ensures DrainGet(f, fixes).queue == f.queue && Kept(f, DrainGet(f, fixes))
  {}

  lemma {:induction false} DrainKept(f: Flow, fixes: Fixes, n: nat)
    requires n <= |f.sent| && Announced(f, n) && AnswersMeant(f)
    ensures var g := Drain(f, fixes);
            && f.sent <= g.sent && Announced(g, n) && AnswersMeant(g)
            && forall x :: Look(g, x).raw[2] == Look(f, x).raw[2]
    decreases |f.queue|
  {
    hide AnswersMeant, Look, SendHead, DrainGet;
    DrainGetKept(f, fixes);
    var g := DrainGet(f, fixes);
    if |g.queue| > 0 {
      SendHeadKept(g, n);
      DrainKept(SendHead(g), fixes, n);
    }
  }

  /** The visit receives its message into packet x. */
  predicate Into(f: Flow, a: Option<Arrival>, x: Obj) {
    !f.restarted && !f.fault && a.Some? && Get(f.pool).Some? && x == Get(f.pool).value.1
  }

  lemma ServeKept(f: Flow, fixes: Fixes, a: Arrival)
    requires AnswersMeant(f) && !f.restarted && !f.fault
    ensures var g := Serve(f, fixes, a).0;
            && g.sent == f.sent && AnswersMeant(g)
            && forall x :: Look(g, x).raw[2] == if Into(f, Some(a), x) then a.received.raw[2] else Look(f, x).raw[2]
  {
    hide Process;
    if Get(f.pool).Some? {
      var (p, y) := Get(f.pool).value;
      var h := Put(f.(pool := p), y, a.received);
      ProcessKept(h, fixes, a.request, y);
      var g, k := Process(h, fixes, a.request, y), Serve(f, fixes, a).0;
      forall x ensures Look(k, x).raw[2] == if x == y then a.received.raw[2] else Look(f, x).raw[2] {
        assert Look(k, x) == Look(g, x) && Look(g, x).raw[2] == Look(h, x).raw[2];
      }
    }
  }

  /** One visit of any version changes one type byte: that of the packet its message is received
      into. And all it sends goes out under the type bytes that are there afterwards. */
  lemma VisitTypeBytes(f: Flow, fixes: Fixes, a: Option<Arrival>)
    requires AnswersMeant(f)
    ensures var g := Visit(f, fixes, a);
            && (forall x :: Look(g, x).raw[2] == if Into(f, a, x) then a.value.received.raw[2] else Look(f, x).raw[2])
            && f.sent <= g.sent && Announced(g, |f.sent|) && AnswersMeant(g)
  {
    hide Serve, Drain, AnswersMeant, Look;
    if !f.restarted && !f.fault {
      if a.Some? { ServeKept(f, fixes, a.value); }
      DrainKept(if a.Some? then Serve(f, fixes, a.value).0 else f, fixes, |f.sent|);
    }
  }

  /** The last message of a run that was received into packet x. */
  function LastInto(fixes: Fixes, memory: map<Obj, Contents>, visits: seq<Option<Arrival>>, x: Obj): Option<Arrival> {
    if |visits| == 0 then None
    else
      var init, last := visits[..|visits| - 1], visits[|visits| - 1];
      if Into(Visits(fixes, memory, init), last, x) then last else LastInto(fixes, memory, init, x)
  }

  /** The type byte of a packet after a run: that of the last message received into it, or what
      its memory held from the start. */
  function TypeByteOf(fixes: Fixes, memory: map<Obj, Contents>, visits: seq<Option<Arrival>>, x: Obj): u8 {
    match LastInto(fixes, memory, visits, x)
    case Some(a) => a.received.raw[2]
    case None => Look(Start(memory), x).raw[2]
  }

  lemma {:induction false} TypeBytesOverAllRuns(fixes: Fixes, memory: map<Obj, Contents>, visits: seq<Option<Arrival>>)
    ensures var f := Visits(fixes, memory, visits);
            && AnswersMeant(f) && forall x :: Look(f, x).raw[2] == TypeByteOf(fixes, memory, visits, x)
  {
    hide Visit, Look;
    if |visits| > 0 {
      var init, last := visits[..|visits| - 1], visits[|visits| - 1];
      TypeBytesOverAllRuns(fixes, memory, init);
      VisitTypeBytes(Visits(fixes, memory, init), fixes, last);
      forall x ensures Look(Visits(fixes, memory, visits), x).raw[2] == TypeByteOf(fixes, memory, visits, x) {
        assert Look(Visits(fixes, memory, init), x).raw[2] == TypeByteOf(fixes, memory, init, x);
      }
    }
  }

  /** The frame is announced as what it is meant to be. */
  predicate Right(s: Sending) {
    TypeOf(s.frame.raw[2]) == Some(s.meant)
  }

  lemma RightIff(s: Sending)
    requires IsAnswerType(s.meant)
    ensures Right(s) <==> s.frame.raw[2] == TypeByte(s.meant)
  {
    TypesAgree(s.frame.raw[2], s.meant);
  }

  /** How many frames have been sent after k visits. */
  function SentBy(fixes: Fixes, memory: map<Obj, Contents>, visits: seq<Option<Arrival>>, k: nat): nat
    requires k <= |visits|
  {
    |Visits(fixes, memory, visits[..k]).sent|
  }

  lemma {:induction false} SentGrows(fixes: Fixes, memory: map<Obj, Contents>, visits: seq<Option<Arrival>>, k: nat)
    requires k <= |visits|
    ensures Visits(fixes, memory, visits[..k]).sent <= Visits(fixes, memory, visits).sent
  {
    hide Visit;
    if k == |visits| {
      assert visits[..k] == visits;
    } else {
      var init := visits[..|visits| - 1];
      SentGrows(fixes, memory, init, k);
      assert init[..k] == visits[..k];
      TypeBytesOverAllRuns(fixes, memory, init);
      VisitTypeBytes(Visits(fixes, memory, init), fixes, visits[|visits| - 1]);
    }
  }

  /** Every version, every run, every frame: a frame sent in visit k is announced as what it is
      meant to be if and only if the last message received into its packet, up to that visit, had
      the type byte of the answer, or none was and the memory happened to hold it. */
  lemma AnnouncedRightIff(fixes: Fixes, memory: map<Obj, Contents>, visits: seq<Option<Arrival>>, k: nat, i: nat)
    requires k < |visits| && SentBy(fixes, memory, visits, k) <= i < SentBy(fixes, memory, visits, k + 1)
    ensures var sent := Visits(fixes, memory, visits).sent;
            && i < |sent| && IsAnswerType(sent[i].meant)
            && sent[i].frame.raw[2] == TypeByteOf(fixes, memory, visits[..k + 1], sent[i].packet)
            && (Right(sent[i]) <==>
                  TypeByteOf(fixes, memory, visits[..k + 1], sent[i].packet) == TypeByte(sent[i].meant))
  {
    hide Visit, TypeByteOf, Right, IsAnswerType;
    var upTo := visits[..k + 1];
    assert upTo[..k] == visits[..k];
    SentGrows(fixes, memory, visits, k + 1);
    TypeBytesOverAllRuns(fixes, memory, visits[..k]);
    TypeBytesOverAllRuns(fixes, memory, upTo);
    VisitTypeBytes(Visits(fixes, memory, visits[..k]), fixes, visits[k]);
    RightIff(Visits(fixes, memory, visits).sent[i]);
  }

  // ------------------------------------------------- Messages under their own type

  /** The header of the received packet is of the type that the request was dispatched by. */
  predicate Typed(a: Arrival) {
    var t := TypeOf(a.received.raw[2]);
    match a.request
    case LoadMcuInfo => t == Some(LoadMCUInfoPacket)
    case Command(_, _, _) => t == Some(CMDPacket)
    case ProgramMemory(_) => t == Some(ProgramMemoryPacket)
    case ReadMemory(_, _, _, _) => t == Some(ReadMemoryPacket)
    case CloseConnection => t == Some(CloseConnectionPacket)
    case Silent => t.Some? && !IsAnswerType(t.value)
  }

  lemma TypedByte(a: Arrival, t: PacketType)
    requires Typed(a) && IsAnswerType(t)
    ensures a.received.raw[2] == TypeByte(t) <==> t.CMDPacket? && a.request.Command?
  {
    TypesAgree(a.received.raw[2], t);
    hide TypeOf, TypeByte;
  }

  predicate AllTyped(visits: seq<Option<Arrival>>) {
    forall i :: 0 <= i < |visits| && visits[i].Some? ==> Typed(visits[i].value)
  }

  lemma {:induction false} LastIntoTyped(fixes: Fixes, memory: map<Obj, Contents>, visits: seq<Option<Arrival>>, x: Obj)
    requires AllTyped(visits) && LastInto(fixes, memory, visits, x).Some?
    ensures Typed(LastInto(fixes, memory, visits, x).value)
  {
    hide Typed, Visits;
    if |visits| > 0 {
      var init, last := visits[..|visits| - 1], visits[|visits| - 1];
      assert forall i :: 0 <= i < |init| ==> init[i] == visits[i];
      if !Into(Visits(fixes, memory, init), last, x) { LastIntoTyped(fixes, memory, init, x); }
    }
  }

  /** So acknowledgements, error texts and memory contents are never announced as such from a
      packet that has ever received a message; only the answer to a raw command is, when the last
      message received into its packet was a raw command too. */
  lemma OnlyCommandsRight(fixes: Fixes, memory: map<Obj, Contents>, visits: seq<Option<Arrival>>, k: nat, i: nat)
    requires AllTyped(visits)
    requires k < |visits| && SentBy(fixes, memory, visits, k) <= i < SentBy(fixes, memory, visits, k + 1)
    ensures i < |Visits(fixes, memory, visits).sent|
    ensures var s := Visits(fixes, memory, visits).sent[i];
            Right(s) <==> match LastInto(fixes, memory, visits[..k + 1], s.packet)
                          case Some(a) => s.meant.CMDPacket? && a.request.Command?
                          case None => Look(Start(memory), s.packet).raw[2] == TypeByte(s.meant)
  {
    AnnouncedRightIff(fixes, memory, visits, k, i);
    var s := Visits(fixes, memory, visits).sent[i];
    var upTo := visits[..k + 1];
    assert forall j :: 0 <= j < |upTo| ==> upTo[j] == visits[j];
    hide Visits, LastInto, SentBy, Right, IsAnswerType, TypeByte, Typed;
    if LastInto(fixes, memory, upTo, s.packet).Some? {
      LastIntoTyped(fixes, memory, upTo, s.packet);
      TypedByte(LastInto(fixes, memory, upTo, s.packet).value, s.meant);
    }
  }
}
