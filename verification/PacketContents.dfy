/** What the handling task sends: the bodies of the answers, and the type bytes they go out under. */
module PacketContents {
  import opened Bits
  import opened Results
  import opened Packets
  import opened Pool
  import opened PacketFlow
  import opened PacketFixes

  /** The frame of an answer, under the type byte that its packet's memory held. */
  function FrameOf(typeByte: u8, answer: Answer): SentFrame {
    WireFrame([PL_START_FRAME_BYTE, 0, typeByte, answer.size / 256, answer.size % 256], answer.body)
  }

  /** What is sent is the answer, meant as such but under some type byte. */
  predicate Carries(s: Sending, answer: Answer) {
    s.frame == FrameOf(s.frame.raw[2], answer) && s.meant == answer.ptype
  }

  /** "Failed" at the beginning and a line feed at the end. */
  predicate FailureText(m: Message) {
    && m.ptype == ErrorPacket && |m.body| > 14
    && m.body[0] == 70 && m.body[1] == 97 && m.body[2] == 105 && m.body[3] == 108 && m.body[4] == 101
    && m.body[5] == 100
    && m.body[|m.body| - 2] == 13 && m.body[|m.body| - 1] == 10
  }

  /** The error texts by their bytes; they go on with "l", "p" and "r". */
  lemma ErrorTexts()
    ensures FailureText(LOAD_COMMAND_FAILED) && FailureText(PROGRAM_MEMORY_FAILED) && FailureText(READ_MEMORY_FAILED)
    ensures |LOAD_COMMAND_FAILED.body| == 33 && |PROGRAM_MEMORY_FAILED.body| == 26 && |READ_MEMORY_FAILED.body| == 23
    ensures LOAD_COMMAND_FAILED.body[10] == 108
    ensures PROGRAM_MEMORY_FAILED.body[10] == 112
    ensures READ_MEMORY_FAILED.body[10] == 114
  {
    hide FailureText;
    LoadCommandText();
    ProgramMemoryText();
    ReadMemoryText();
  }

  lemma LoadCommandText()
    ensures FailureText(LOAD_COMMAND_FAILED) && |LOAD_COMMAND_FAILED.body| == 33 && LOAD_COMMAND_FAILED.body[10] == 108
  {}

  lemma ProgramMemoryText()
    ensures FailureText(PROGRAM_MEMORY_FAILED) && |PROGRAM_MEMORY_FAILED.body| == 26
    ensures PROGRAM_MEMORY_FAILED.body[10] == 112
  {}

  lemma ReadMemoryText()
    ensures FailureText(READ_MEMORY_FAILED) && |READ_MEMORY_FAILED.body| == 23 && READ_MEMORY_FAILED.body[10] == 114
  {}

  predicate Carry(sent: seq<Sending>, answers: seq<Answer>) {
    |sent| == |answers| && forall i :: 0 <= i < |sent| ==> Carries(sent[i], answers[i])
  }

  /** The answer that a packet becomes when it is prepared with this body and size. */
  function Becomes(c: Contents, ptype: PacketType, body: Option<Body>, size: u16): Answer {
    if body.Some? then Whole(Message(ptype, body.value)) else Answer(ptype, size, Cut(c.data, size))
  }

  lemma OutgoingPrepared(c: Contents, ptype: PacketType, body: Option<Body>, size: u16)
    requires size <= PL_MAX_DATA_LENGTH && (body.Some? ==> |body.value| == size)
    ensures Outgoing(Prepared(c, 0, 0, 0, body, size))
         == FrameOf(c.raw[2], Becomes(c, ptype, body, size))
  {
    if body.Some? {
      assert Over(c.data, body.value)[..size] == body.value;
    }
  }

  /** A packet in the handler's hands is neither queued nor in the pool. */
  lemma HeldApart(f: Flow, held: multiset<Obj>, x: Obj)
    requires Owned(f, held + multiset{x})
    ensures x !in f.queue && x !in f.pool.free && x !in held
  {
    var places := multiset(f.pool.free) + multiset(f.queue) + multiset(f.lost) + (held + multiset{x});
    assert places[x] <= 1;
    assert multiset(f.queue)[x] == 0 && multiset(f.pool.free)[x] == 0;
  }

  /** Filling a packet that is not queued leaves what is pending alone. */
  lemma PutPending(f: Flow, x: Obj, c: Contents)
    requires x !in f.queue
    ensures Pending(Put(f, x, c)) == Pending(f)
  {
    hide Outgoing;
    assert forall i :: 0 <= i < |f.queue| ==> f.queue[i] != x;
  }

  lemma PreparePending(f: Flow, x: Obj, ptype: PacketType, body: Option<Body>, size: u16)
    requires x !in f.queue
    ensures Pending(Prepare(f, x, ptype, body, size)) == Pending(f)
  {
    hide Outgoing, Prepared;
    assert forall i :: 0 <= i < |f.queue| ==> f.queue[i] != x;
  }

  lemma PendingLast(f: Flow, x: Obj)
    ensures Pending(f.(queue := f.queue + [x])) == Pending(f) + [Dispatched(f, x)]
  {
    hide Outgoing;
  }

  /** The answer sent from packet x under the type byte that is there. */
  function SendingOf(f: Flow, x: Obj, answer: Answer): Sending {
    Sending(FrameOf(Look(f, x).raw[2], answer), x, answer.ptype)
  }

  /** Sending a packet puts its frame behind the pending ones. */
  lemma SendPending(f: Flow, fixes: Fixes, x: Obj,
                    ptype: PacketType, body: Option<Body>, size: u16)
    requires x !in f.queue && |f.queue| < MSG_QUEUE_SIZE
    requires size <= PL_MAX_DATA_LENGTH && (body.Some? ==> |body.value| == size)
    ensures var g := SendPacket(f, fixes, x, ptype, body, size).0;
            && Pending(g) == Pending(f) + [SendingOf(f, x, Becomes(Look(f, x), ptype, body, size))]
            && g == Prepare(f, x, ptype, body, size).(queue := f.queue + [x])
  {
    hide Outgoing, Prepared, Pending, FrameOf, Cut;
    OutgoingPrepared(Look(f, x), ptype, body, size);
    PreparePending(f, x, ptype, body, size);
    PendingLast(Prepare(f, x, ptype, body, size), x);
  }

  /** The answer sent from the next packet of the pool. */
  function NextSending(f: Flow, answer: Answer): Sending
    requires Get(f.pool).Some?
  {
    SendingOf(f, Get(f.pool).value.1, answer)
  }

  lemma CreateSendPending(f: Flow, fixes: Fixes, held: multiset<Obj>, m: Message)
    requires Clean(f, held) && |f.queue| < 2 && |f.queue| + |held| <= 2 && |f.lost| <= AFFORDABLE
    ensures Get(f.pool).Some?
    ensures var g := CreateSendPacket(f, fixes, m).0;
            && Pending(g) == Pending(f) + [NextSending(f, Whole(m))]
            && forall y :: y in held ==> y !in g.queue[|f.queue|..] && Look(g, y) == Look(f, y)
  {
    GetClean(f, held);
    var (p, x) := Get(f.pool).value;
    HeldApart(f.(pool := p), held, x);
    hide Owned, Outgoing, FrameOf, Prepared, SendPacket, SendingOf;
    var h := f.(pool := p);
    SendPending(h, fixes, x, m.ptype, Some(m.body), |m.body|);
    assert Pending(h) == Pending(f);
    forall y | y in held ensures Look(Prepare(h, x, m.ptype, Some(m.body), |m.body|), y) == Look(f, y) {
      assert y != x;
    }
  }

  lemma CarryAppend(a: seq<Sending>, x: seq<Answer>, b: seq<Sending>, y: seq<Answer>)
    requires Carry(a, x) && Carry(b, y)
    ensures Carry(a + b, x + y)
  {
    hide Carries;
  }

  lemma CarryOne(f: Flow, x: Obj, answer: Answer)
    ensures Carry([SendingOf(f, x, answer)], [answer])
  {}

  lemma CreateSendCarries(f: Flow, fixes: Fixes, held: multiset<Obj>, m: Message, before: seq<Answer>)
    requires Clean(f, held) && |f.queue| < 2 && |f.queue| + |held| <= 2 && |f.lost| <= AFFORDABLE
    requires Carry(Pending(f), before)
    ensures Carry(Pending(CreateSendPacket(f, fixes, m).0), before + [Whole(m)])
  {
    hide Clean, Carry, CreateSendPacket, Pending, FrameOf;
    CreateSendPending(f, fixes, held, m);
    CarryOne(f, Get(f.pool).value.1, Whole(m));
    CarryAppend(Pending(f), before, [NextSending(f, Whole(m))], [Whole(m)]);
  }

  lemma NothingPending(f: Flow)
    requires f.queue == []
    ensures Carry(Pending(f), [])
  {}

  lemma CommandCarries(f: Flow, fixes: Fixes, m: Inbound, held: multiset<Obj>)
    requires Clean(f, held) && f.queue == [] && |f.lost| <= AFFORDABLE && |held| == 1 && m.Command?
    ensures Carry(Pending(ProcessCommand(f, fixes, m)), Answers(m))
  {
    hide CreateSendPacket, Clean, Carry, Pending;
    NothingPending(f);
    if m.sizeOk {
      CreateSendCarries(f, fixes, held, LOAD_COMMAND_FAILED, []);
      CreateSendClean(f, fixes, held, LOAD_COMMAND_FAILED);
      var g := if m.status < 0 then CreateSendPacket(f, fixes, LOAD_COMMAND_FAILED).0 else f;
      var before := if m.status < 0 then [Whole(LOAD_COMMAND_FAILED)] else [];
      assert [] + [Whole(LOAD_COMMAND_FAILED)] == [Whole(LOAD_COMMAND_FAILED)];
      CreateSendCarries(g, fixes, held, CommandAnswer(m), before);
    }
  }

  /** The read answer goes behind the error text, if there is one. */
  lemma ReadAnswerCarries(f: Flow, fixes: Fixes, m: Inbound, x: Obj, before: seq<Answer>)
    requires m.ReadMemory? && x !in f.queue && |f.queue| < 2 && Look(f, x).data == m.fetched
    requires Carry(Pending(f), before)
    ensures Carry(Pending(SendPacket(f, fixes, x, MemoryPacket, None, AnswerLength(m)).0),
                  before + if AnswerLength(m) > PL_MAX_DATA_LENGTH then []
                           else [Answer(MemoryPacket, AnswerLength(m), Cut(m.fetched, AnswerLength(m)))])
  {
    hide Carry;
    var c := Look(f, x);
    if AnswerLength(m) > PL_MAX_DATA_LENGTH {
      PreparePending(f, x, MemoryPacket, None, AnswerLength(m));
      SamePending(Prepare(f, x, MemoryPacket, None, AnswerLength(m)),
                  SendPacket(f, fixes, x, MemoryPacket, None, AnswerLength(m)).0);
      assert before + [] == before;
    } else {
      var answer := Answer(MemoryPacket, AnswerLength(m), Cut(m.fetched, AnswerLength(m)));
      SendPending(f, fixes, x, MemoryPacket, None, AnswerLength(m));
      hide SendPacket, Pending, FrameOf;
      CarryOne(f, x, answer);
      CarryAppend(Pending(f), before, [SendingOf(f, x, answer)], [answer]);
    }
  }

  lemma AnswerReadCarries(f: Flow, fixes: Fixes, m: Inbound, x: Obj, inbound: Obj, held: multiset<Obj>)
    requires Clean(f, held + multiset{x}) && f.queue == [] && |f.lost| <= AFFORDABLE && |held| == 1
    requires m.ReadMemory? && m.sizeOk && fixes.read
    ensures Carry(Pending(AnswerRead(f, fixes, m, x, inbound)), Answers(m))
  {
    hide CreateSendPacket, SendPacket, Carry, Pending, FrameOf, Clean;
    var g := Put(f, x, Look(f, x).(data := m.fetched));
    FilledClean(f, held + multiset{x}, x, Look(f, x).(data := m.fetched));
    NothingPending(g);
    var before := if m.status < 0 then [Whole(READ_MEMORY_FAILED)] else [];
    if m.status < 0 {
      CreateSendCarries(g, fixes, held + multiset{x}, READ_MEMORY_FAILED, []);
      CreateSendClean(g, fixes, held + multiset{x}, READ_MEMORY_FAILED);
      CreateSendPending(g, fixes, held + multiset{x}, READ_MEMORY_FAILED);
      assert [] + before == before;
      assert x in held + multiset{x};
    }
    var h := if m.status < 0 then CreateSendPacket(g, fixes, READ_MEMORY_FAILED).0 else g;
    assert h.queue == h.queue[|g.queue|..];
    ReadAnswerCarries(h, fixes, m, x, before);
  }

  lemma ProcessCarries(f: Flow, fixes: Fixes, m: Inbound, inbound: Obj)
    requires Clean(f, multiset{inbound}) && f.queue == [] && |f.lost| <= AFFORDABLE && Sound(fixes, m)
    ensures Carry(Pending(Process(f, fixes, m, inbound)), Answers(m))
  {
    hide CreateSendPacket, ProcessCommand, AnswerRead, Carry, Owned;
    var held := multiset{inbound};
    NothingPending(f);
    match m
    case CloseConnection =>
    case Silent =>
    case LoadMcuInfo => AckCarries(f, fixes, held);
    case Command(_, _, _) => CommandCarries(f, fixes, m, held);
    case ProgramMemory(_) =>
      AckCarries(f, fixes, held);
      CreateSendCarries(f, fixes, held, PROGRAM_MEMORY_FAILED, []);
      if m.status < 0 {
        SamePending(CreateSendPacket(f, fixes, PROGRAM_MEMORY_FAILED).0, ProcessProgramMemory(f, fixes, m));
        assert [] + Answers(m) == Answers(m);
      }
    case ReadMemory(_, _, _, _) =>
      if m.sizeOk {
        GetClean(f, held);
        var (p, x) := Get(f.pool).value;
        AnswerReadCarries(f.(pool := p), fixes, m, x, inbound, held);
      }
  }

  lemma SamePending(f: Flow, g: Flow)
    requires f.queue == g.queue && f.memory == g.memory && f.meant == g.meant
    ensures Pending(f) == Pending(g)
  {}

  lemma AckCarries(f: Flow, fixes: Fixes, held: multiset<Obj>)
    requires Clean(f, held) && f.queue == [] && |f.lost| <= AFFORDABLE && |held| == 1
    ensures Carry(Pending(CreateSendPacket(f, fixes, ACK).0), [Whole(ACK)])
    ensures CreateSendPacket(f, fixes, ACK).1 == 0
  {
    hide CreateSendPacket, Carry, Pending;
    NothingPending(f);
    CreateSendCarries(f, fixes, held, ACK, []);
    assert [] + [Whole(ACK)] == [Whole(ACK)];
    CreateSendClean(f, fixes, held, ACK);
  }

  function AnswersTo(a: Option<Arrival>): seq<Answer> {
    if a.Some? then Answers(a.value.request) else []
  }

  /** One visit sends the answers to its message, in order, and nothing else. */
  lemma VisitCarries(f: Flow, fixes: Fixes, a: Option<Arrival>)
    requires Settled(f) && fixes.drain && (a.Some? ==> Sound(fixes, a.value.request) && !Restarts(a.value.request))
    ensures var g := Visit(f, fixes, a);
            f.sent <= g.sent && Carry(g.sent[|f.sent|..], AnswersTo(a))
  {
    hide Process, Drain, Carry;
    if a.None? {
      DrainClean(f, fixes);
      NothingPending(f);
      assert Visit(f, fixes, a).sent[|f.sent|..] == Pending(f);
    } else {
      GetFilled(f, multiset{}, a.value.received);
      var (p, x) := Get(f.pool).value;
      var h := Put(f.(pool := p), x, a.value.received);
      assert multiset{} + multiset{x} == multiset{x};
      ProcessClean(h, fixes, a.value.request, x);
      ProcessCarries(h, fixes, a.value.request, x);
      var g := Process(h, fixes, a.value.request, x);
      assert Owned(g, multiset{} + multiset{x});
      GiveBackOwned(g, multiset{}, x);
      hide Owned;
      DrainClean(GiveBack(g, x), fixes);
      SamePending(GiveBack(g, x), g);
      assert (f.sent + Pending(g))[|f.sent|..] == Pending(g);
    }
  }

  function AllAnswers(visits: seq<Option<Arrival>>): seq<Answer> {
    if |visits| == 0 then [] else AllAnswers(visits[..|visits| - 1]) + AnswersTo(visits[|visits| - 1])
  }

  /** Over whole runs the client receives exactly the answers to the messages, in order: the
      acknowledgements, error texts and target answers, and the bytes read from the memory. */
  lemma {:induction false} RunCarries(fixes: Fixes, memory: map<Obj, Contents>, visits: seq<Option<Arrival>>)
    requires fixes.drain && fixes.read && !Restarting(visits) && DroppedIn(fixes, visits) <= AFFORDABLE
    ensures Carry(Visits(fixes, memory, visits).sent, AllAnswers(visits))
  {
    hide Visit, Carry, Settled, Restarts, Dropped, Answers;
    if |visits| == 0 {
      NothingPending(Start(memory));
      assert Pending(Start(memory)) == [];
    } else {
      var init, last := visits[..|visits| - 1], visits[|visits| - 1];
      var f := Visits(fixes, memory, init);
      RestartingNext(visits);
      SendLossOverAllRuns(fixes, memory, init);
      RunCarries(fixes, memory, init);
      VisitCarries(f, fixes, last);
      var g := Visit(f, fixes, last);
      assert g.sent == f.sent + g.sent[|f.sent|..];
      CarryAppend(f.sent, AllAnswers(init), g.sent[|f.sent|..], AnswersTo(last));
    }
  }
}
