/** Exactly when each version of the handling task keeps its packets. */
module PacketFixes {
  import opened Bits
  import opened Results
  import opened Packets
  import opened Pool
  import opened PacketFlow
  import opened PacketLeaks

  const READ_UNCORRECTED := Fixes(true, false, true)
  const SEND_UNCORRECTED := Fixes(true, true, false)

  // ------------------------------------------------ The read answer as written

  /** Packets counted in their places, against the packets there are. */
  function Surplus(f: Flow): int {
    |f.pool.free| + |f.queue| + |f.lost| - f.pool.size
  }

  lemma GiveBackSurplus(f: Flow, x: Obj)
    requires Surplus(f) < |f.queue| + |f.lost|
    ensures GiveBack(f, x) == f.(pool := f.pool.(free := f.pool.free + [x]))
    ensures Surplus(GiveBack(f, x)) == Surplus(f) + 1
  {}

  lemma {:induction false} DrainSurplus(f: Flow, fixes: Fixes)
    requires Surplus(f) == 1 && |f.lost| > 0
    ensures Surplus(Drain(f, fixes)) == 1
    decreases |f.queue|
  {
    var g := DrainGet(f, fixes);
    assert Surplus(g) == 1 && |g.lost| > 0 && g.queue == f.queue;
    if |g.queue| > 0 {
      SendHeadSurplus(g);
      DrainSurplus(SendHead(g), fixes);
    }
  }

  lemma SendHeadSurplus(f: Flow)
    requires Surplus(f) == 1 && |f.lost| > 0 && |f.queue| > 0
    ensures var g := SendHead(f);
            Surplus(g) == 1 && g.lost == f.lost && |g.queue| < |f.queue|
  {
    hide Dispatched, Look;
    GiveBackSurplus(f.(queue := f.queue[1..], sent := f.sent + [Dispatched(f, f.queue[0])]), f.queue[0]);
  }

  lemma SendSurplus(f: Flow, fixes: Fixes, x: Obj,
                    ptype: PacketType, body: Option<Body>, length: u16)
    requires Surplus(f) < |f.lost| && |f.queue| < MSG_QUEUE_SIZE
    ensures var g := SendPacket(f, fixes, x, ptype, body, length).0;
            && Surplus(g) == Surplus(f) + 1 && |f.lost| <= |g.lost|
            && g.restarted == f.restarted && g.fault == f.fault && g.pool.size == f.pool.size
            && (length <= PL_MAX_DATA_LENGTH ==> g.lost == f.lost && |g.queue| == |f.queue| + 1)
            && (SendPacket(f, fixes, x, ptype, body, length).1 == 0 <==> length <= PL_MAX_DATA_LENGTH)
  {
    hide Prepared, Look;
    GiveBackSurplus(Prepare(f, x, ptype, body, length), x);
  }

  lemma CreateSendSurplus(f: Flow, fixes: Fixes, m: Message)
    requires Surplus(f) <= |f.lost| && |f.queue| < MSG_QUEUE_SIZE && f.pool.size < f.pool.max
    ensures var (g, status) := CreateSendPacket(f, fixes, m);
            && Surplus(g) == Surplus(f) && g.lost == f.lost && |g.queue| == |f.queue| + 1 && status == 0
            && g.restarted == f.restarted && g.fault == f.fault
  {
    hide SendPacket;
    var (p, x) := Get(f.pool).value;
    SendSurplus(f.(pool := p), fixes, x, m.ptype, Some(m.body), |m.body|);
  }

  /** The memory packet is forgotten and the inbound packet goes into the queue, or back into the
      pool, while the handling task still holds it. */
  lemma AnswerReadSurplus(f: Flow, fixes: Fixes, m: Inbound, x: Obj, inbound: Obj)
    requires !fixes.read && m.ReadMemory?
    requires f.pool.size < f.pool.max && f.queue == [] && f.lost == [] && Surplus(f) == -2
    ensures var g := AnswerRead(f, fixes, m, x, inbound);
            Surplus(g) == 0 && |g.lost| >= 1 && g.restarted == f.restarted && g.fault == f.fault
  {
    hide CreateSendPacket, SendPacket, Look;
    var g := Put(f, x, Look(f, x).(data := m.fetched));
    CreateSendSurplus(g, fixes, READ_MEMORY_FAILED);
    var h := if m.status < 0 then CreateSendPacket(g, fixes, READ_MEMORY_FAILED).0 else g;
    assert Surplus(Drop(h, x)) == -1;
    SendSurplus(Drop(h, x), fixes, inbound, MemoryPacket, None, AnswerLength(m));
  }

  /** Serving a read request of the right size, from the idle state. */
  lemma ServeReadSurplus(f: Flow, fixes: Fixes, a: Arrival)
    requires Idle(f) && !Sound(fixes, a.request)
    ensures var (g, ok) := Serve(f, fixes, a);
            Surplus(g) == 1 && |g.lost| >= 1 && !g.restarted && !g.fault && ok
  {
    hide AnswerRead, Owned, Look;
    OwnedBounded(f);
    OwnedCount(f, multiset{});
    var (p, y) := Get(f.pool).value;
    var g := Put(f.(pool := p), y, a.received);
    var (q, x) := Get(p).value;
    AnswerReadSurplus(g.(pool := q), fixes, a.request, x, y);
    GiveBackSurplus(Process(g, fixes, a.request, y), y);
  }

  /** In every version a visit keeps ownership exactly when its message is not a read request of
      the right size that the uncorrected line answers. */
  lemma ReadBreaksOwnershipIff(f: Flow, fixes: Fixes, a: Arrival)
    requires Idle(f) && !Restarts(a.request)
    ensures Owned(Visit(f, fixes, Some(a)), multiset{})
       <==> fixes.read || !(a.request.ReadMemory? && a.request.sizeOk)
  {
    hide Owned, Serve, Drain, Restarts;
    var g := Serve(f, fixes, a).0;
    DrainFlags(g, fixes);
    if Sound(fixes, a.request) {
      ServeRestartsIff(f, fixes, a);
      VisitOwned(f, fixes, Some(a));
    } else {
      ServeReadSurplus(f, fixes, a);
      DrainSurplus(g, fixes);
      var end := Visit(f, fixes, Some(a));
      assert Surplus(end) == 1;
      if Owned(end, multiset{}) { OwnedCount(end, multiset{}); }
    }
  }

  lemma ServeRestartsIff(f: Flow, fixes: Fixes, a: Arrival)
    requires Idle(f) && Sound(fixes, a.request)
    ensures Serve(f, fixes, a).0.restarted <==> Restarts(a.request)
  {
    GetFilled(f, multiset{}, a.received);
    hide Process, Owned;
    var (p, x) := Get(f.pool).value;
    assert multiset{} + multiset{x} == multiset{x};
    ProcessClean(Put(f.(pool := p), x, a.received), fixes, a.request, x);
  }

  /** A run in which, after one read, the pool hands the same packet to two holders. */
  lemma ReadHandsOutTwice(memory: map<Obj, Contents>, received: Contents, fetched: PacketData)
    ensures var a := Arrival(received, ReadMemory(true, 9, fetched, 9));
            var pool := Visits(READ_UNCORRECTED, memory, [Some(a)]).pool;
            && Get(pool).Some? && Get(Get(pool).value.0).Some?
            && Get(Get(pool).value.0).value.1 == Get(pool).value.1
  {
    hide Process, Look, Prepared, Dispatched, Meant, Drain;
    var a := Arrival(received, ReadMemory(true, 9, fetched, 9));
    var f := Start(memory);
    assert [Some(a)][..0] == [];
    assert Visits(READ_UNCORRECTED, memory, [Some(a)]) == Visit(f, READ_UNCORRECTED, Some(a));
    ReadAsWritten(f, READ_UNCORRECTED, a);
    var k := Serve(f, READ_UNCORRECTED, a).0;
    assert k.pool == PoolState(MSG_POOL_SIZE, 2, [0]) && k.queue == [0];
    QueuedAndFree(k, READ_UNCORRECTED);
  }

  lemma QueuedAndFree(k: Flow, fixes: Fixes)
    requires fixes.drain && k.pool == PoolState(MSG_POOL_SIZE, 2, [0]) && k.queue == [0]
    ensures Drain(k, fixes).pool == PoolState(MSG_POOL_SIZE, 2, [0, 0])
  {
    hide Dispatched;
    assert SendHead(k).pool == PoolState(MSG_POOL_SIZE, 2, [0, 0]) && SendHead(k).queue == [];
    DrainUnfold(k, fixes);
    DrainUnfold(SendHead(k), fixes);
  }

  // ---------------------------------------------- The failing send as written

  /** With only the failing send uncorrected, a visit loses a packet, and just one, exactly when
      its message asks for more than a packet may announce. */
  lemma SendLosesIff(f: Flow, a: Arrival)
    requires Idle(f) && !Restarts(a.request)
    ensures var m, lost := a.request, Visit(f, SEND_UNCORRECTED, Some(a)).lost;
            && (lost == [] <==> !(m.ReadMemory? && m.sizeOk && m.bytesToRead % 0x1_0000 > 1029))
            && |lost| <= 1
  {
    VisitClean(f, SEND_UNCORRECTED, Some(a));
  }

  function DroppedIn(fixes: Fixes, visits: seq<Option<Arrival>>): nat {
    if |visits| == 0 then 0
    else DroppedIn(fixes, visits[..|visits| - 1])
         + match visits[|visits| - 1] case Some(a) => Dropped(fixes, a.request) case None => 0
  }

  /** Over whole runs: one packet lost for each oversized read, and nothing else disturbed as
      long as three packets are left. */
  lemma {:induction false} SendLossOverAllRuns(fixes: Fixes, memory: map<Obj, Contents>, visits: seq<Option<Arrival>>)
    requires fixes.drain && fixes.read && !Restarting(visits) && DroppedIn(fixes, visits) <= AFFORDABLE
    ensures var f := Visits(fixes, memory, visits);
            && Settled(f) && |f.lost| == DroppedIn(fixes, visits) && |f.sent| == AnswersOf(visits)
            && |f.pool.free| == f.pool.size - |f.lost| <= 3
  {
    hide Visit, Owned, Restarts, Dropped, Answers;
    if |visits| == 0 {
      OwnedStart(memory);
    } else {
      RestartingNext(visits);
      SendLossOverAllRuns(fixes, memory, visits[..|visits| - 1]);
      VisitClean(Visits(fixes, memory, visits[..|visits| - 1]), fixes, visits[|visits| - 1]);
    }
    OwnedCount(Visits(fixes, memory, visits), multiset{});
  }

  // ---------------------------------------------------------------- Restarts

  lemma CreateSendStatus(f: Flow, fixes: Fixes, m: Message)
    ensures var (g, status) := CreateSendPacket(f, fixes, m);
            g.restarted == f.restarted && status == if Get(f.pool).None? then -1 else 0
  {
    hide Prepared, Look;
  }

  lemma AnswerReadGoesOn(f: Flow, fixes: Fixes, m: Inbound, x: Obj, inbound: Obj)
    requires m.ReadMemory?
    ensures AnswerRead(f, fixes, m, x, inbound).restarted == f.restarted
  {
    hide CreateSendPacket, Look, Prepared;
    CreateSendStatus(Put(f, x, Look(f, x).(data := m.fetched)), fixes, READ_MEMORY_FAILED);
  }

  /** The device restarts when a programming request fails, or when no packet is left to
      acknowledge one or to acknowledge a load-info request. */
  predicate NeedsRestart(m: Inbound, packetLeft: bool) {
    match m
    case LoadMcuInfo => !packetLeft
    case ProgramMemory(status) => status < 0 || !packetLeft
    case _ => false
  }

  lemma ProcessRestartsIff(f: Flow, fixes: Fixes, m: Inbound, inbound: Obj)
    requires !f.restarted
    ensures Process(f, fixes, m, inbound).restarted <==> NeedsRestart(m, Get(f.pool).Some?)
  {
    hide CreateSendPacket, AnswerRead;
    match m
    case CloseConnection =>
    case Silent =>
    case LoadMcuInfo => CreateSendStatus(f, fixes, ACK);
    case Command(_, status, _) =>
      CreateSendStatus(f, fixes, LOAD_COMMAND_FAILED);
      var g := if status < 0 then CreateSendPacket(f, fixes, LOAD_COMMAND_FAILED).0 else f;
      CreateSendStatus(g, fixes, CommandAnswer(m));
    case ProgramMemory(_) =>
      CreateSendStatus(f, fixes, PROGRAM_MEMORY_FAILED);
      CreateSendStatus(f, fixes, ACK);
    case ReadMemory(_, _, _, _) =>
      if Get(f.pool).Some? {
        var (p, x) := Get(f.pool).value;
        AnswerReadGoesOn(f.(pool := p), fixes, m, x, inbound);
      }
  }

  /** Every version, every state: a visit restarts the device if and only if its message found a
      packet and is a programming request that fails, or a load-info or programming request whose
      packet was the last that the pool could give. */
  lemma VisitRestartsIff(f: Flow, fixes: Fixes, a: Arrival)
    requires !f.restarted && !f.fault
    ensures Visit(f, fixes, Some(a)).restarted
       <==> Get(f.pool).Some? && NeedsRestart(a.request, Get(Get(f.pool).value.0).Some?)
  {
    hide Process, Drain, NeedsRestart;
    if Get(f.pool).Some? {
      var (p, x) := Get(f.pool).value;
      var h := Put(f.(pool := p), x, a.received);
      ProcessRestartsIff(h, fixes, a.request, x);
      DrainFlags(GiveBack(Process(h, fixes, a.request, x), x), fixes);
    }
  }

  /** When a read has failed and there is no packet for the error text either, the request goes
      unanswered, and the memory packet goes back or is lost with the uncorrected send. */
  lemma ReadGivesUp(f: Flow, fixes: Fixes, m: Inbound, inbound: Obj)
    requires m.ReadMemory? && m.sizeOk && m.status < 0
    requires Get(f.pool).Some? && Get(Get(f.pool).value.0).None?
    ensures var g, (p, x) := ProcessReadMemory(f, fixes, m, inbound), Get(f.pool).value;
            && g.queue == f.queue && g.sent == f.sent && !g.restarted == !f.restarted
            && (fixes.send ==> g.lost == f.lost && (|p.free| < p.size ==> g.pool == p.(free := p.free + [x])))
            && (!fixes.send ==> g.lost == f.lost + [x] && g.pool == p)
  {
    hide Look;
  }

  /** Five packets fill the queue: a sixth is refused, and then given back or lost. */
  lemma QueueTakesFive(f: Flow, fixes: Fixes, x: Obj)
    ensures var g := WritePacket(f, fixes, x);
            if |f.queue| < 5 then g == f.(queue := f.queue + [x])
            else g.queue == f.queue && (fixes.send ==> g.lost == f.lost) && (!fixes.send ==> g.lost == f.lost + [x])
  {}

  /** No more than two answers are ever queued, in any version, so no queue write finds the queue full. */
  lemma QueueNeverFull(f: Flow, fixes: Fixes, m: Inbound, inbound: Obj)
    requires f.queue == []
    ensures |Process(f, fixes, m, inbound).queue| <= 2 < MSG_QUEUE_SIZE
  {
    hide CreateSendPacket, AnswerRead;
    match m
    case CloseConnection =>
    case Silent =>
    case LoadMcuInfo => CreateSendQueue(f, fixes, ACK);
    case Command(_, status, _) =>
      CreateSendQueue(f, fixes, LOAD_COMMAND_FAILED);
      var g := if status < 0 then CreateSendPacket(f, fixes, LOAD_COMMAND_FAILED).0 else f;
      CreateSendQueue(g, fixes, CommandAnswer(m));
    case ProgramMemory(_) =>
      CreateSendQueue(f, fixes, PROGRAM_MEMORY_FAILED);
      CreateSendQueue(f, fixes, ACK);
    case ReadMemory(_, _, _, _) =>
      if Get(f.pool).Some? {
        var (p, x) := Get(f.pool).value;
        AnswerReadQueue(f.(pool := p), fixes, m, x, inbound);
      }
  }

  lemma CreateSendQueue(f: Flow, fixes: Fixes, m: Message)
    ensures |CreateSendPacket(f, fixes, m).0.queue| <= |f.queue| + 1
  {
    hide Prepared, Look;
  }

  lemma AnswerReadQueue(f: Flow, fixes: Fixes, m: Inbound, x: Obj, inbound: Obj)
    requires m.ReadMemory? && f.queue == []
    ensures |AnswerRead(f, fixes, m, x, inbound).queue| <= 2
  {
    hide CreateSendPacket, Look, Prepared;
    CreateSendQueue(Put(f, x, Look(f, x).(data := m.fetched)), fixes, READ_MEMORY_FAILED);
  }

  // ------------------------------------------------------ All three together

  /** Something is gone for good. */
  ghost predicate Spoilt(f: Flow) {
    f.lost != [] || f.leaks > 0 || f.fault || f.restarted
  }

  lemma SpoiltStays(f: Flow, fixes: Fixes, a: Option<Arrival>)
    requires Bounded(f) && Spoilt(f)
    ensures Spoilt(Visit(f, fixes, a))
  {
    VisitWithin(f, fixes, a);
    FlagsStay(f, fixes, a);
  }

  lemma DrainLeaks(f: Flow, fixes: Fixes)
    requires Bounded(f) && !fixes.drain && Get(f.pool).Some?
    ensures Drain(f, fixes).leaks > f.leaks
  {
    var g := DrainGet(f, fixes);
    if |g.queue| > 0 {
      SendHeadWithin(g);
      DrainWithin(SendHead(g), fixes);
    }
  }

  lemma UncorrectedDrainSpoils(f: Flow, fixes: Fixes, a: Option<Arrival>)
    requires Idle(f) && !fixes.drain
    ensures Spoilt(Visit(f, fixes, a))
  {
    GetClean(f, multiset{});
    OwnedCount(f, multiset{});
    hide Serve, Drain, Owned;
    if a.Some? { ServeWithin(f, fixes, a.value); }
    var g := if a.Some? then Serve(f, fixes, a.value).0 else f;
    if !g.restarted && !g.fault {
      DrainLeaks(g, fixes);
    }
  }

  lemma UnsoundSpoils(f: Flow, fixes: Fixes, a: Arrival)
    requires Idle(f) && !Sound(fixes, a.request)
    ensures Spoilt(Visit(f, fixes, Some(a)))
  {
    OwnedBounded(f);
    hide Serve, Drain, Owned;
    ServeReadSurplus(f, fixes, a);
    ServeWithin(f, fixes, a);
    DrainWithin(Serve(f, fixes, a).0, fixes);
  }

  /** What a version must have corrected for one visit. */
  predicate Handles(fixes: Fixes, a: Option<Arrival>) {
    a.Some? ==> Fitting(fixes, a.value.request) && !Restarts(a.value.request)
  }

  lemma VisitIdleIff(f: Flow, fixes: Fixes, a: Option<Arrival>)
    requires Idle(f)
    ensures if fixes.drain && Handles(fixes, a) then Idle(Visit(f, fixes, a)) else Spoilt(Visit(f, fixes, a))
  {
    hide Visit, Owned;
    if !fixes.drain {
      UncorrectedDrainSpoils(f, fixes, a);
    } else if a.Some? && !Sound(fixes, a.value.request) {
      UnsoundSpoils(f, fixes, a.value);
    } else {
      VisitClean(f, fixes, a);
    }
  }

  /** Every version, every run: all packets are back, nothing is lost and the device goes on if
      and only if the drain is corrected, no read request of the right size meets the
      uncorrected answer, no oversized one the uncorrected send, and no programming fails. */
  lemma {:induction false} CleanRunIff(fixes: Fixes, memory: map<Obj, Contents>, visits: seq<Option<Arrival>>)
    ensures var f := Visits(fixes, memory, visits);
            && Bounded(f) && (Idle(f) || Spoilt(f))
            && (Idle(f) <==>
                  (|visits| == 0 || fixes.drain) && forall i :: 0 <= i < |visits| ==> Handles(fixes, visits[i]))
  {
    hide Visit, Handles, Owned;
    if |visits| == 0 {
      OwnedStart(memory);
    } else {
      var init, last := visits[..|visits| - 1], visits[|visits| - 1];
      var before := Visits(fixes, memory, init);
      CleanRunIff(fixes, memory, init);
      VisitWithin(before, fixes, last);
      if Idle(before) {
        VisitIdleIff(before, fixes, last);
        assert forall i :: 0 <= i < |init| ==> Handles(fixes, visits[i]) by {
          assert forall i :: 0 <= i < |init| ==> visits[i] == init[i];
        }
      } else {
        SpoiltStays(before, fixes, last);
        if forall i :: 0 <= i < |visits| ==> Handles(fixes, visits[i]) {
          assert forall i :: 0 <= i < |init| ==> init[i] == visits[i];
        }
      }
    }
  }
}
