/** Under which type, and with whose bytes, answers go out. */
module PacketTypes {
  import opened Bits
  import opened Results
  import opened Packets
  import opened Pool
  import opened PacketFlow
  import opened PacketLeaks
  import opened PacketFixes
  import opened PacketContents
  import opened TypeBytes
  import Receiver

  // ----------------------------------------------- Types one request behind

  /** The work that the request asks for goes well. */
  predicate Succeeds(m: Inbound) {
    match m
    case Command(sizeOk, status, _) => !sizeOk || status >= 0
    case ProgramMemory(status) => status >= 0
    case ReadMemory(sizeOk, status, _, _) => !sizeOk || status >= 0
    case _ => true
  }

  predicate AllSucceed(visits: seq<Option<Arrival>>) {
    forall i :: 0 <= i < |visits| && visits[i].Some? ==> Succeeds(visits[i].value.request)
  }

  /** The packet that the next answer will be put into: the one that the next message is not
      received into. */
  function Partner(f: Flow): Obj {
    if |f.pool.free| == 2 then f.pool.free[0] else 1
  }

  /** Idle with at most two packets in use, and the next answer about to go out under t. */
  ghost predicate Lag(f: Flow, t: u8) {
    Idle(f) && |f.pool.free| <= 2 && Look(f, Partner(f)).raw[2] == t
  }

  lemma TwoGets(f: Flow)
    requires Idle(f) && |f.pool.free| <= 2
    ensures Get(f.pool).Some? && Get(Get(f.pool).value.0).Some?
    ensures var (p, y) := Get(f.pool).value;
            var (q, x) := Get(p).value;
            && x == Partner(f) && y != x && q == PoolState(MSG_POOL_SIZE, 2, [])
            && p.size == (if |f.pool.free| == 2 then 2 else 1)
            && p.free == (if |f.pool.free| == 2 then [x] else [])
  {
    OwnedCount(f, multiset{});
    OwnedNamed(f);
    if |f.pool.free| == 1 {
      assert f.pool.free[0] in Reach(f, {});
    } else if |f.pool.free| == 2 {
      GetOnce(f);
    }
  }

  /** One answer, in the packet x that the pool gives next. */
  ghost predicate Answered(f: Flow, g: Flow, answer: Answer)
    requires Get(f.pool).Some?
  {
    var (q, x) := Get(f.pool).value;
    && g.pool == q && g.queue == [x] && g.restarted == f.restarted && g.sent == f.sent
    && Pending(g) == [SendingOf(f, x, answer)]
    && forall z :: z != x ==> Look(g, z) == Look(f, z)
  }

  lemma CreateSendAnswers(f: Flow, fixes: Fixes, m: Message)
    requires Get(f.pool).Some? && f.queue == []
    ensures Answered(f, CreateSendPacket(f, fixes, m).0, Whole(m))
    ensures CreateSendPacket(f, fixes, m).1 == 0
  {
    hide Prepared, Outgoing, FrameOf;
    var (q, x) := Get(f.pool).value;
    SendPending(f.(pool := q), fixes, x, m.ptype, Some(m.body), |m.body|);
    assert Pending(f.(pool := q)) == [];
  }

  lemma ReadAnswers(f: Flow, fixes: Fixes, m: Inbound, inbound: Obj)
    requires fixes.read
    requires m.ReadMemory? && m.sizeOk && m.status >= 0 && !Oversized(m)
    requires Get(f.pool).Some? && f.queue == []
    ensures Answered(f, ProcessReadMemory(f, fixes, m, inbound),
                     Answer(MemoryPacket, AnswerLength(m), Cut(m.fetched, AnswerLength(m))))
  {
    hide Prepared, Outgoing, FrameOf, Cut;
    var (q, x) := Get(f.pool).value;
    var g := Put(f.(pool := q), x, Look(f, x).(data := m.fetched));
    SendPending(g, fixes, x, MemoryPacket, None, AnswerLength(m));
    assert Pending(g) == [];
  }

  lemma ProcessAnswers(f: Flow, fixes: Fixes, m: Inbound, inbound: Obj)
    requires fixes.read || !m.ReadMemory?
    requires f.queue == [] && Get(f.pool).Some? && Succeeds(m) && |Answers(m)| > 0
    ensures |Answers(m)| == 1 && Answered(f, Process(f, fixes, m, inbound), Answers(m)[0])
  {
    hide CreateSendPacket, ProcessReadMemory, Get;
    match m
    case LoadMcuInfo => CreateSendAnswers(f, fixes, ACK);
    case Command(_, _, _) => CreateSendAnswers(f, fixes, CommandAnswer(m));
    case ProgramMemory(_) => CreateSendAnswers(f, fixes, ACK);
    case ReadMemory(_, _, _, _) => ReadAnswers(f, fixes, m, inbound);
  }

  lemma ServeAnswers(f: Flow, a: Arrival)
    requires Idle(f) && |f.pool.free| <= 2 && Succeeds(a.request) && |Answers(a.request)| > 0
    ensures |Answers(a.request)| == 1 && Get(f.pool).Some?
    ensures var y, x := Get(f.pool).value.1, Partner(f);
            var (k, ok) := Serve(f, INTENDED, a);
            && ok && !k.restarted && k.fault == f.fault && x != y
            && k.pool == PoolState(MSG_POOL_SIZE, 2, [y]) && k.queue == [x] && k.sent == f.sent
            && Pending(k) == [SendingOf(f, x, Answers(a.request)[0])] && Look(k, y) == a.received
  {
    TwoGets(f);
    OwnedBounded(f);
    hide Process, Answers, FrameOf, Owned, Outgoing, Pending, Succeeds, Prepared;
    var (p, y) := Get(f.pool).value;
    var (q, x) := Get(p).value;
    var h := Put(f.(pool := p), y, a.received);
    ProcessAnswers(h, INTENDED, a.request, y);
    var g := Process(h, INTENDED, a.request, y);
    ProcessWithin(h, INTENDED, a.request, y);
    assert Look(g, y) == Look(h, y);
    SamePending(GiveBack(g, y), g);
  }

  /** The visit of an answered request: the packets change their roles. */
  lemma VisitAnswers(f: Flow, a: Arrival, t: u8)
    requires Lag(f, t) && Succeeds(a.request) && |Answers(a.request)| > 0
    ensures var g := Visit(f, INTENDED, Some(a));
            Lag(g, a.received.raw[2]) && g.sent == f.sent + [SendingOf(f, Partner(f), Answers(a.request)[0])]
  {
    VisitClean(f, INTENDED, Some(a));
    ServeAnswers(f, a);
    hide Serve, Drain, Clean, Answers, FrameOf, Outgoing, Pending;
    var k := Serve(f, INTENDED, a).0;
    DrainOne(k, Partner(f));
    var g := Visit(f, INTENDED, Some(a));
    assert g == Drain(k, INTENDED);
    assert Look(g, k.pool.free[0]) == Look(k, k.pool.free[0]);
  }

  lemma DrainOne(f: Flow, x: Obj)
    requires f.queue == [x] && |f.pool.free| < f.pool.size
    ensures var g := Drain(f, INTENDED);
            && g.pool == f.pool.(free := f.pool.free + [x]) && g.sent == f.sent + Pending(f)
            && g.memory == f.memory
  {
    hide Outgoing, Look;
    DrainUnfold(f, INTENDED);
    assert SendHead(f).queue == [];
    DrainUnfold(SendHead(f), INTENDED);
    assert Pending(f) == [Dispatched(f, x)];
  }

  /** A message without an answer leaves the packets, up to the data of the one that an oversized
      read was tried with. */
  ghost predicate Untouched(f: Flow, g: Flow, x: Obj) {
    && g.queue == [] && g.restarted == f.restarted && g.fault == f.fault && g.sent == f.sent
    && (forall z :: z != x ==> Look(g, z) == Look(f, z)) && Look(g, x).raw == Look(f, x).raw
  }

  lemma ProcessUntouched(f: Flow, m: Inbound, inbound: Obj)
    requires f.queue == [] && Get(f.pool).Some? && Succeeds(m) && Answers(m) == []
    requires |f.pool.free| < f.pool.size
    ensures var g := Process(f, INTENDED, m, inbound);
            var (q, x) := Get(f.pool).value;
            Untouched(f, g, x) && g.pool == if Oversized(m) then q.(free := q.free + [x]) else f.pool
  {
    hide CreateSendPacket;
    if Oversized(m) { OversizedUntouched(f, m, inbound); }
  }

  lemma OversizedUntouched(f: Flow, m: Inbound, inbound: Obj)
    requires f.queue == [] && Get(f.pool).Some? && Oversized(m) && m.status >= 0
    requires |f.pool.free| < f.pool.size
    ensures var g := ProcessReadMemory(f, INTENDED, m, inbound);
            var (q, x) := Get(f.pool).value;
            Untouched(f, g, x) && g.pool == q.(free := q.free + [x])
  {}

  lemma VisitUntouched(f: Flow, a: Arrival, t: u8)
    requires Lag(f, t) && Succeeds(a.request) && Answers(a.request) == []
    ensures var g := Visit(f, INTENDED, Some(a)); Lag(g, t) && g.sent == f.sent
  {
    VisitClean(f, INTENDED, Some(a));
    ServeUntouched(f, a);
    hide Serve, Drain, Owned, Succeeds, Answers;
    DrainUnfold(Serve(f, INTENDED, a).0, INTENDED);
  }

  lemma PartnerStays(f: Flow, g: Flow)
    requires |f.pool.free| <= 2 && f.pool.max == MSG_POOL_SIZE && f.pool.size == |f.pool.free|
    requires Get(f.pool).Some? && Get(Get(f.pool).value.0).Some?
    requires var (p, y) := Get(f.pool).value;
             var (q, x) := Get(p).value;
             && x == Partner(f) && q == PoolState(MSG_POOL_SIZE, 2, [])
             && (g.pool == p || g.pool == q.(free := q.free + [x]))
    ensures var y := Get(f.pool).value.1;
            Release(g.pool, y).Some? && Partner(GiveBack(g, y)) == Partner(f) && |GiveBack(g, y).pool.free| <= 2
  {}

  lemma ServeUntouched(f: Flow, a: Arrival)
    requires Idle(f) && |f.pool.free| <= 2 && Succeeds(a.request) && Answers(a.request) == []
    ensures var (k, ok) := Serve(f, INTENDED, a);
            && ok && !k.restarted && k.fault == f.fault && k.queue == [] && k.sent == f.sent
            && Partner(k) == Partner(f) && |k.pool.free| <= 2 && Look(k, Partner(k)).raw == Look(f, Partner(f)).raw
  {
    TwoGets(f);
    OwnedBounded(f);
    OwnedCount(f, multiset{});
    hide Process, Owned, Succeeds, Answers, Oversized, Partner;
    var (p, y) := Get(f.pool).value;
    var h := Put(f.(pool := p), y, a.received);
    ProcessUntouched(h, a.request, y);
    var g := Process(h, INTENDED, a.request, y);
    PartnerStays(f, g);
    hide Get;
    assert Look(h, Partner(f)) == Look(f, Partner(f));
    assert GiveBack(g, y).memory == g.memory;
  }

  function Wire(sent: seq<Sending>): (frames: seq<WireFrame>)
    ensures |frames| == |sent|
  {
    seq(|sent|, i requires 0 <= i < |sent| => sent[i].frame)
  }

  /** The answers of a run, each under the type byte of the request answered before it; with
      the type byte for the next one. */
  function Lagged(t: u8, visits: seq<Option<Arrival>>): (seq<WireFrame>, u8) {
    if |visits| == 0 then ([], t)
    else
      var (frames, next) := Lagged(t, visits[..|visits| - 1]);
      match visits[|visits| - 1]
      case Some(a) =>
        if |Answers(a.request)| == 0 then (frames, next)
        else (frames + [FrameOf(next, Answers(a.request)[0])], a.received.raw[2])
      case None => (frames, next)
  }

  /** With the three corrections, in every run in which all requests succeed: each answer goes
      out under the type byte of the request that was answered before it, and the first one
      under whatever the memory of the second packet held. */
  lemma {:induction false} TypesLag(memory: map<Obj, Contents>, visits: seq<Option<Arrival>>)
    requires AllSucceed(visits)
    ensures var f, (frames, next) := Visits(INTENDED, memory, visits), Lagged(Look(Start(memory), 1).raw[2], visits);
            Lag(f, next) && Wire(f.sent) == frames
  {
    hide Visit, Answers, Look, FrameOf, Succeeds;
    if |visits| == 0 {
      OwnedStart(memory);
    } else {
      var init, last := visits[..|visits| - 1], visits[|visits| - 1];
      TypesLag(memory, init);
      var f := Visits(INTENDED, memory, init);
      var (frames, next) := Lagged(Look(Start(memory), 1).raw[2], init);
      if last.None? {
        VisitNothing(f);
      } else if |Answers(last.value.request)| == 0 {
        VisitUntouched(f, last.value, next);
      } else {
        VisitAnswers(f, last.value, next);
      }
    }
  }

  lemma VisitNothing(f: Flow)
    requires Idle(f)
    ensures Visit(f, INTENDED, None) == f
  {}

  lemma NextAfter(t: u8, visits: seq<Option<Arrival>>, a: Arrival)
    requires |Answers(a.request)| > 0
    ensures Lagged(t, visits + [Some(a)]).1 == a.received.raw[2]
  {}

  lemma LastAnswer(f: Flow, b: Arrival, t: u8)
    requires Lag(f, t) && Succeeds(b.request) && |Answers(b.request)| > 0
    ensures var sent := Visit(f, INTENDED, Some(b)).sent;
            && |sent| > 0 && sent[|sent| - 1].frame == FrameOf(t, Answers(b.request)[0])
            && sent[|sent| - 1].meant == Answers(b.request)[0].ptype
            && (Right(sent[|sent| - 1]) <==> t == TypeByte(Answers(b.request)[0].ptype))
  {
    VisitAnswers(f, b, t);
    hide Visit, TypeByte;
    RightIff(SendingOf(f, Partner(f), Answers(b.request)[0]));
  }

  /** So the answer to the second of two answered requests is announced under the type of the
      first, and rightly if and only if that happens to be its own. */
  lemma AnswerUnderPreviousType(memory: map<Obj, Contents>, visits: seq<Option<Arrival>>, a: Arrival, b: Arrival)
    requires AllSucceed(visits + [Some(a), Some(b)])
    requires |Answers(a.request)| > 0 && |Answers(b.request)| > 0
    ensures var run := visits + [Some(a), Some(b)];
            var sent := Visits(INTENDED, memory, run).sent;
            && |sent| > 0 && sent[|sent| - 1].frame == FrameOf(a.received.raw[2], Answers(b.request)[0])
            && sent[|sent| - 1].meant == Answers(b.request)[0].ptype
            && (Right(sent[|sent| - 1]) <==> a.received.raw[2] == TypeByte(Answers(b.request)[0].ptype))
  {
    hide Answers, FrameOf, Look, Visit, Lag, Right, Wire, IsAnswerType, Lagged, Succeeds, TypeByte;
    var run, init := visits + [Some(a), Some(b)], visits + [Some(a)];
    assert run[..|run| - 1] == init && run[|run| - 1] == Some(b);
    assert forall i :: 0 <= i < |init| ==> init[i] == run[i];
    TypesLag(memory, init);
    NextAfter(Look(Start(memory), 1).raw[2], visits, a);
    LastAnswer(Visits(INTENDED, memory, init), b, a.received.raw[2]);
  }

  // ------------------------------------------------------ The code as written

  /** As written, with an empty free stack: the drain leaks both packets of the visit, and the
      answer goes out of a packet that nothing was ever received into. */
  lemma AsWrittenAnswer(f: Flow, a: Arrival)
    requires Bounded(f) && f.pool.free == [] && f.pool.size + 2 <= f.pool.max && f.queue == []
    requires !f.restarted && !f.fault
    requires Succeeds(a.request) && |Answers(a.request)| > 0 && !a.request.ReadMemory?
    ensures |Answers(a.request)| == 1
    ensures var g, n := Visit(f, AS_WRITTEN, Some(a)), f.pool.size;
            && g.pool == f.pool.(size := n + 2) && g.queue == [] && !g.restarted && !g.fault
            && g.sent == f.sent + [SendingOf(f, n + 1, Answers(a.request)[0])]
  {
    hide Process, Answers, Succeeds, FrameOf, Pending, Look, Meant;
    var n := f.pool.size;
    var h := Put(f.(pool := f.pool.(size := n + 1)), n, a.received);
    ProcessAnswers(h, AS_WRITTEN, a.request, n);
    OtherPacket(f, h, n + 1, Answers(a.request)[0]);
    var g := Process(h, AS_WRITTEN, a.request, n);
    var k := GiveBack(g, n);
    assert k.pool == f.pool.(size := n + 2, free := [n]) && k.queue == [n + 1];
    SamePending(k, g);
    ProcessWithin(h, AS_WRITTEN, a.request, n);
    AsWrittenDrain(k, n, n + 1);
  }

  lemma OtherPacket(f: Flow, h: Flow, x: Obj, answer: Answer)
    requires x in h.memory <==> x in f.memory
    requires x in f.memory ==> h.memory[x] == f.memory[x]
    ensures SendingOf(h, x, answer) == SendingOf(f, x, answer)
  {}

  lemma AsWrittenDrain(f: Flow, y: Obj, x: Obj)
    requires f.pool.free == [y] && f.queue == [x] && f.pool.size > 1
    ensures var g := Drain(f, AS_WRITTEN);
            && g.pool == f.pool.(free := []) && g.queue == [] && g.sent == f.sent + Pending(f)
            && g.restarted == f.restarted && g.fault == f.fault
  {
    hide Dispatched;
    var d := DrainGet(f, AS_WRITTEN);
    DrainGetKeeps(f, AS_WRITTEN);
    var s := SendHead(d);
    assert s.pool == f.pool.(free := [x]) && s.queue == [];
    assert Drain(f, AS_WRITTEN) == Drain(s, AS_WRITTEN) == DrainGet(s, AS_WRITTEN);
    assert Pending(f) == [Dispatched(f, x)];
  }

  /** So from the start, as written: the answers to the first five such requests all go out under
      whatever the memory of the packets 1, 3, 5, 7 and 9 held, whatever the requests were. */
  lemma {:induction false} AsWrittenFreshTypes(memory: map<Obj, Contents>, visits: seq<Option<Arrival>>)
    requires AllSucceed(visits) && |visits| <= 5
    requires forall i :: 0 <= i < |visits| ==>
               visits[i].Some? && |Answers(visits[i].value.request)| > 0 && !visits[i].value.request.ReadMemory?
    ensures var f := Visits(AS_WRITTEN, memory, visits);
            && f.pool == PoolState(MSG_POOL_SIZE, 2 * |visits|, []) && f.queue == [] && !f.restarted && !f.fault
            && |f.sent| == |visits|
            && forall j :: 0 <= j < |visits| ==>
                 f.sent[j].packet == 2 * j + 1
                 && f.sent[j].frame.raw[2] == Look(Start(memory), 2 * j + 1).raw[2]
  {
    hide Visit, Answers, Look, Succeeds;
    if |visits| > 0 {
      var init, last := visits[..|visits| - 1], visits[|visits| - 1];
      AsWrittenFreshTypes(memory, init);
      var f := Visits(AS_WRITTEN, memory, init);
      AsWrittenAnswer(f, last.value);
      TypeBytesOverAllRuns(AS_WRITTEN, memory, init);
      NothingInto(memory, init, 2 * |init| + 1);
    }
  }

  /** A message without an answer costs the code as written one packet. */
  lemma AsWrittenSilent(f: Flow, received: Contents)
    requires f.pool.free == [] && f.pool.size < f.pool.max && f.queue == [] && !f.restarted && !f.fault
    ensures var g := Visit(f, AS_WRITTEN, Some(Arrival(received, Silent)));
            g.pool == f.pool.(size := f.pool.size + 1) && g.queue == [] && !g.restarted && !g.fault
  {}

  /** One message without an answer and then k load-info requests. */
  function SilentAndLoads(received: Contents, k: nat): seq<Option<Arrival>> {
    [Some(Arrival(received, Silent))] + seq(k, _ => Some(Arrival(received, LoadMcuInfo)))
  }

  lemma {:induction false} AsWrittenLoads(memory: map<Obj, Contents>, received: Contents, k: nat)
    requires k <= 4
    ensures var f := Visits(AS_WRITTEN, memory, SilentAndLoads(received, k));
            && f.pool == PoolState(10, 1 + 2 * k, []) && f.queue == [] && !f.restarted && !f.fault
  {
    hide Visit, Answers;
    if k == 0 {
      assert SilentAndLoads(received, 0) == [] + [Some(Arrival(received, Silent))];
      VisitsNext(AS_WRITTEN, memory, [], Some(Arrival(received, Silent)));
      AsWrittenSilent(Start(memory), received);
    } else {
      AsWrittenLoads(memory, received, k - 1);
      OneAck();
      LoadNext(memory, received, k - 1);
      AsWrittenAnswer(Visits(AS_WRITTEN, memory, SilentAndLoads(received, k - 1)), Arrival(received, LoadMcuInfo));
    }
  }

  lemma LoadNext(memory: map<Obj, Contents>, received: Contents, k: nat)
    ensures Visits(AS_WRITTEN, memory, SilentAndLoads(received, k + 1))
         == Visit(Visits(AS_WRITTEN, memory, SilentAndLoads(received, k)), AS_WRITTEN,
                  Some(Arrival(received, LoadMcuInfo)))
  {
    hide Visit;
    var load := Some(Arrival(received, LoadMcuInfo));
    assert SilentAndLoads(received, k + 1) == SilentAndLoads(received, k) + [load];
    VisitsNext(AS_WRITTEN, memory, SilentAndLoads(received, k), load);
  }

  /** So after four of them one packet is left to be had; the fifth takes it, finds none for its
      acknowledgement, and restarts the device. */
  lemma AsWrittenRestarts(memory: map<Obj, Contents>, received: Contents)
    ensures Visits(AS_WRITTEN, memory, SilentAndLoads(received, 4)).pool == PoolState(10, 9, [])
    ensures !Visits(AS_WRITTEN, memory, SilentAndLoads(received, 4)).restarted
    ensures Visits(AS_WRITTEN, memory, SilentAndLoads(received, 5)).restarted
  {
    hide Visit, Visits;
    AsWrittenLoads(memory, received, 4);
    LoadNext(memory, received, 4);
    VisitRestartsIff(Visits(AS_WRITTEN, memory, SilentAndLoads(received, 4)), AS_WRITTEN,
                     Arrival(received, LoadMcuInfo));
  }

  lemma OneAck()
    ensures |Answers(LoadMcuInfo)| == 1
  {}

  lemma VisitsNext(fixes: Fixes, memory: map<Obj, Contents>, visits: seq<Option<Arrival>>, a: Option<Arrival>)
    ensures Visits(fixes, memory, []) == Start(memory)
    ensures Visits(fixes, memory, visits + [a]) == Visit(Visits(fixes, memory, visits), fixes, a)
  {
    assert (visits + [a])[..|visits|] == visits;
  }

  /** A run of the code as written whose acknowledgement is announced as no packet at all. */
  lemma AckUnannounced(received: Contents)
    ensures var sent := Visits(AS_WRITTEN, map[], [Some(Arrival(received, LoadMcuInfo))]).sent;
            |sent| == 1 && sent[0].meant == ACKPacket && TypeOf(sent[0].frame.raw[2]) == None
  {
    hide Visit;
    var a := Arrival(received, LoadMcuInfo);
    AsWrittenFreshTypes(map[], [Some(a)]);
    AsWrittenAnswer(Start(map[]), a);
    assert [Some(a)][..0] == [];
    AcceptedTypes(0);
  }

  lemma {:induction false} NothingInto(memory: map<Obj, Contents>, visits: seq<Option<Arrival>>, x: Obj)
    requires AllSucceed(visits) && |visits| < 5 && x > 2 * |visits|
    requires forall i :: 0 <= i < |visits| ==>
               visits[i].Some? && |Answers(visits[i].value.request)| > 0 && !visits[i].value.request.ReadMemory?
    ensures LastInto(AS_WRITTEN, memory, visits, x) == None
  {
    hide Visit, Answers, Look, Succeeds;
    if |visits| > 0 {
      AsWrittenFreshTypes(memory, visits[..|visits| - 1]);
      NothingInto(memory, visits[..|visits| - 1], x);
    }
  }

  /** The client takes a frame for a packet if and only if the type byte is an accepted one, and
      then for a packet of that type. */
  lemma FrameTakenFor(t: u8, answer: Answer)
    requires |answer.body| == answer.size <= PACKET_DATA_SIZE
    ensures Receiver.Acceptable(FrameOf(t, answer)) <==> TypeOf(t).Some?
    ensures TypeOf(t).Some? ==> Parsed(FrameOf(t, answer).raw).ptype == TypeOf(t).value
  {
    var h := Blank().header.(dataSize := answer.size);
    var raw := [0, 0, t, 0, 0];
    assert FrameOf(t, answer).raw == Updated(raw, h);
    Receiver.PreparedIsAcceptableIff(raw, h, answer.body);
  }

  // ------------------------------------------------ The read answer as written

  /** As written, a read is answered with the packet that asked. Its bytes are those of the
      memory only if the pool handed out that packet twice. */
  lemma ReadAnswerAsWritten(f: Flow, fixes: Fixes, a: Arrival)
    requires !fixes.read && Bounded(f) && f.queue == [] && !f.restarted && !f.fault
    requires a.request.ReadMemory? && a.request.sizeOk && a.request.status >= 0 && !Oversized(a.request)
    requires Get(f.pool).Some? && Get(Get(f.pool).value.0).Some?
    ensures var (p, y) := Get(f.pool).value;
            var x := Get(p).value.1;
            var size := AnswerLength(a.request);
            var data := if x == y then a.request.fetched else a.received.data;
            Visit(f, fixes, Some(a)).sent
            == f.sent + [Sending(FrameOf(a.received.raw[2], Answer(MemoryPacket, size, Cut(data, size))),
                                 y, MemoryPacket)]
  {
    ReadAsWritten(f, fixes, a);
    hide Process, Prepared, Outgoing, Cut, FrameOf;
    var (p, y) := Get(f.pool).value;
    var (q, x) := Get(p).value;
    var size := AnswerLength(a.request);
    var k := Serve(f, fixes, a).0;
    var data := if x == y then a.request.fetched else a.received.data;
    var before := a.received.(data := data);
    assert k.queue == [y] && k.sent == f.sent && Look(k, y) == Prepared(before, 0, 0, 0, None, size);
    OutgoingPrepared(before, MemoryPacket, None, size);
    DrainSendsHead(k, fixes);
  }

  lemma DrainGetKeeps(f: Flow, fixes: Fixes)
    ensures var g := DrainGet(f, fixes);
            && g.queue == f.queue && g.sent == f.sent
            && (|f.queue| > 0 ==> Dispatched(g, f.queue[0]) == Dispatched(f, f.queue[0]))
  {}

  lemma SendHeadKeeps(f: Flow)
    requires |f.queue| > 0
    ensures var g := SendHead(f);
            g.queue == f.queue[1..] && g.sent == f.sent + [Dispatched(f, f.queue[0])]
  {}

  lemma DrainSendsHead(f: Flow, fixes: Fixes)
    requires |f.queue| == 1
    ensures Drain(f, fixes).sent == f.sent + [Dispatched(f, f.queue[0])]
  {
    hide Dispatched, DrainGet, SendHead;
    var d := DrainGet(f, fixes);
    DrainGetKeeps(f, fixes);
    SendHeadKeeps(d);
    var g := SendHead(d);
    DrainGetKeeps(g, fixes);
    assert Drain(f, fixes) == Drain(g, fixes) == DrainGet(g, fixes);
  }

  /** From the idle state the client gets its own request back, whatever was read. */
  lemma ClientGetsItsRequest(f: Flow, fixes: Fixes, a: Arrival)
    requires Idle(f) && !fixes.read
    requires a.request.ReadMemory? && a.request.sizeOk && a.request.status >= 0 && !Oversized(a.request)
    ensures var size := AnswerLength(a.request);
            Visit(f, fixes, Some(a)).sent
            == f.sent + [Sending(FrameOf(a.received.raw[2], Answer(MemoryPacket, size, Cut(a.received.data, size))),
                                 Get(f.pool).value.1, MemoryPacket)]
  {
    OwnedBounded(f);
    OwnedCount(f, multiset{});
    GetOnce(f);
    OwnedNamed(f);
    var y := Get(f.pool).value.1;
    if |f.pool.free| > 0 { assert y in Reach(f, {}); }
    hide Visit, FrameOf, Cut, Owned, Reach, Unreachable;
    ReadAnswerAsWritten(f, fixes, a);
  }
}
