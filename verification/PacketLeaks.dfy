/** What the drain loop as written does to the packets, in every version of the other lines. */
module PacketLeaks {
  import opened Bits
  import opened Results
  import opened Packets
  import opened Pool
  import opened PacketFlow

  // ----------------------------------------- A count that only leaks lower

  ghost predicate Bounded(f: Flow) {
    |f.pool.free| <= f.pool.size <= f.pool.max == MSG_POOL_SIZE
  }

  /** The packets that can still come out of the pool or the queue, with those never allocated. */
  function Potential(f: Flow): int {
    |f.pool.free| + |f.queue| + f.pool.max - f.pool.size
  }

  /** From f to g without a leak or a fault and with nothing lost coming back; the potential
      grows by at most d. */
  ghost predicate Within(f: Flow, g: Flow, d: int) {
    && Bounded(g) && Potential(g) <= Potential(f) + d
    && g.leaks == f.leaks && g.fault == f.fault && |f.lost| <= |g.lost|
  }

  lemma GiveBackWithin(f: Flow, x: Obj)
    requires Bounded(f)
    ensures Within(f, GiveBack(f, x), 1)
  {}

  lemma SendWithin(f: Flow, fixes: Fixes, x: Obj,
                   ptype: PacketType, body: Option<Body>, length: u16)
    requires Bounded(f)
    ensures Within(f, SendPacket(f, fixes, x, ptype, body, length).0, 1)
  {
    hide Prepared, Look;
    GiveBackWithin(Prepare(f, x, ptype, body, length), x);
  }

  lemma CreateSendWithin(f: Flow, fixes: Fixes, m: Message)
    requires Bounded(f)
    ensures Within(f, CreateSendPacket(f, fixes, m).0, 0)
  {
    hide SendPacket;
    if Get(f.pool).Some? {
      var (p, x) := Get(f.pool).value;
      SendWithin(f.(pool := p), fixes, x, m.ptype, Some(m.body), |m.body|);
    }
  }

  lemma AnswerReadWithin(f: Flow, fixes: Fixes, m: Inbound, memoryPacket: Obj, inbound: Obj)
    requires Bounded(f) && m.ReadMemory?
    ensures Within(f, AnswerRead(f, fixes, m, memoryPacket, inbound), 1)
  {
    hide CreateSendPacket, SendPacket, GiveBack, Look;
    var filled := Put(f, memoryPacket, Look(f, memoryPacket).(data := m.fetched));
    CreateSendWithin(filled, fixes, READ_MEMORY_FAILED);
    var g := if m.status < 0 then CreateSendPacket(filled, fixes, READ_MEMORY_FAILED).0 else filled;
    GiveBackWithin(g, memoryPacket);
    SendWithin(g, fixes, memoryPacket, MemoryPacket, None, AnswerLength(m));
    SendWithin(Drop(g, memoryPacket), fixes, inbound, MemoryPacket, None, AnswerLength(m));
  }

  lemma ProcessWithin(f: Flow, fixes: Fixes, m: Inbound, inbound: Obj)
    requires Bounded(f)
    ensures Within(f, Process(f, fixes, m, inbound), 0)
  {
    hide CreateSendPacket, AnswerRead;
    match m
    case CloseConnection =>
    case Silent =>
    case LoadMcuInfo => CreateSendWithin(f, fixes, ACK);
    case Command(_, status, _) =>
      CreateSendWithin(f, fixes, LOAD_COMMAND_FAILED);
      var g := if status < 0 then CreateSendPacket(f, fixes, LOAD_COMMAND_FAILED).0 else f;
      CreateSendWithin(g, fixes, CommandAnswer(m));
    case ProgramMemory(_) =>
      CreateSendWithin(f, fixes, PROGRAM_MEMORY_FAILED);
      CreateSendWithin(f, fixes, ACK);
    case ReadMemory(_, _, _, _) =>
      if Get(f.pool).Some? {
        var (p, x) := Get(f.pool).value;
        AnswerReadWithin(f.(pool := p), fixes, m, x, inbound);
      }
  }

  /** A refused release costs a place of its own. */
  lemma ServeWithin(f: Flow, fixes: Fixes, a: Arrival)
    requires Bounded(f)
    ensures var (g, ok) := Serve(f, fixes, a);
            && (Get(f.pool).None? ==> g == f.(fault := true))
            && (Get(f.pool).Some? ==> Within(f, g, if ok || g.restarted then 0 else -1))
            && (ok ==> |g.pool.free| > 0)
            && (Get(f.pool).Some? && !ok && !g.restarted ==> |g.pool.free| == g.pool.size)
  {
    hide Process;
    if Get(f.pool).Some? {
      var (p, x) := Get(f.pool).value;
      var g := Put(f.(pool := p), x, a.received);
      ProcessWithin(g, fixes, a.request, x);
      GiveBackWithin(Process(g, fixes, a.request, x), x);
    }
  }

  lemma SendHeadWithin(f: Flow)
    requires Bounded(f) && |f.queue| > 0
    ensures Within(f, SendHead(f), 0) && |SendHead(f).queue| < |f.queue|
  {
    hide Dispatched;
  }

  lemma DrainGetWithin(f: Flow, fixes: Fixes)
    requires Bounded(f)
    ensures var g := DrainGet(f, fixes);
            && Bounded(g) && |f.lost| <= |g.lost| && f.leaks <= g.leaks && g.queue == f.queue
            && g.leaks + Potential(g) == f.leaks + Potential(f)
            && (!fixes.drain ==> Potential(g) == |f.queue| || Potential(g) < Potential(f))
  {}

  /** A drain as written takes a place away, or there is none left. */
  lemma {:induction false} DrainWithin(f: Flow, fixes: Fixes)
    requires Bounded(f)
    ensures var g := Drain(f, fixes);
            && Bounded(g) && |f.lost| <= |g.lost| && f.leaks <= g.leaks
            && g.leaks + Potential(g) <= f.leaks + Potential(f)
            && g.queue == [] && (!fixes.drain ==> Potential(g) == 0 || Potential(g) < Potential(f))
    decreases |f.queue|
  {
    hide SendHead, DrainGet;
    DrainGetWithin(f, fixes);
    var g := DrainGet(f, fixes);
    if |g.queue| > 0 {
      SendHeadWithin(g);
      DrainWithin(SendHead(g), fixes);
    }
  }

  lemma VisitWithin(f: Flow, fixes: Fixes, a: Option<Arrival>)
    requires Bounded(f)
    ensures var g := Visit(f, fixes, a);
            && Bounded(g) && |f.lost| <= |g.lost| && f.leaks <= g.leaks
            && g.leaks + Potential(g) <= f.leaks + Potential(f)
            && (!fixes.drain && !g.restarted && !g.fault ==> Potential(g) == 0 || Potential(g) < Potential(f))
  {
    hide Serve, Drain;
    if a.Some? { ServeWithin(f, fixes, a.value); }
    DrainWithin(if a.Some? then Serve(f, fixes, a.value).0 else f, fixes);
  }

  /** Over all runs of every version: every leak has cost a place. As written each visit costs
      one too, until none is left. */
  lemma {:induction false} LeaksOverAllRuns(fixes: Fixes, memory: map<Obj, Contents>, visits: seq<Option<Arrival>>)
    ensures var f := Visits(fixes, memory, visits);
            && Bounded(f) && f.leaks + Potential(f) <= MSG_POOL_SIZE
            && (!fixes.drain && !f.restarted && !f.fault ==>
                  Potential(f) == 0 || Potential(f) <= MSG_POOL_SIZE - |visits|)
  {
    hide Visit;
    if |visits| > 0 {
      var before := Visits(fixes, memory, visits[..|visits| - 1]);
      LeaksOverAllRuns(fixes, memory, visits[..|visits| - 1]);
      VisitWithin(before, fixes, visits[|visits| - 1]);
      FlagsStay(before, fixes, visits[|visits| - 1]);
    }
  }

  /** No release of an inbound packet is ever refused, so no drain is ever skipped: between
      visits the out-queue is empty, in every run of every version. */
  lemma {:induction false} QueueEmptyOverAllRuns(fixes: Fixes, memory: map<Obj, Contents>,
                                                 visits: seq<Option<Arrival>>)
    ensures var f := Visits(fixes, memory, visits); !f.restarted ==> f.queue == []
  {
    hide Visit, Potential;
    if |visits| > 0 {
      var before := Visits(fixes, memory, visits[..|visits| - 1]);
      QueueEmptyOverAllRuns(fixes, memory, visits[..|visits| - 1]);
      LeaksOverAllRuns(fixes, memory, visits[..|visits| - 1]);
      VisitEmpties(before, fixes, visits[|visits| - 1]);
    }
  }

  lemma VisitEmpties(f: Flow, fixes: Fixes, a: Option<Arrival>)
    requires Bounded(f) && f.leaks + Potential(f) <= MSG_POOL_SIZE && (!f.restarted ==> f.queue == [])
    ensures var g := Visit(f, fixes, a); !g.restarted ==> g.queue == []
  {
    hide Serve, Drain;
    if a.Some? { ServeWithin(f, fixes, a.value); }
    var g := if a.Some? then Serve(f, fixes, a.value).0 else f;
    DrainWithin(g, fixes);
    DrainFlags(g, fixes);
  }

  lemma FlagsStay(f: Flow, fixes: Fixes, a: Option<Arrival>)
    ensures f.restarted || f.fault ==> Visit(f, fixes, a) == f
  {}

  /** After ten visits of the code as written the next message finds no packet, whatever the
      messages were. */
  lemma DeadAfterTenVisits(fixes: Fixes, memory: map<Obj, Contents>, visits: seq<Option<Arrival>>, a: Arrival)
    requires !fixes.drain && !Visits(fixes, memory, visits).restarted && |visits| >= MSG_POOL_SIZE
    ensures Visit(Visits(fixes, memory, visits), fixes, Some(a)).fault
  {
    hide Visits;
    LeaksOverAllRuns(fixes, memory, visits);
  }

  // ---------------------------------------------------- Unreachable packets

  function Reach(f: Flow, held: set<Obj>): set<Obj> {
    Elements(f.pool.free) + Elements(f.queue) + held
  }

  /** Nothing becomes reachable but newly allocated packets. */
  ghost predicate Narrows(f: Flow, held: set<Obj>, g: Flow, held': set<Obj>) {
    && f.pool.size <= g.pool.size
    && forall x :: x in Reach(g, held') ==> x in Reach(f, held) || f.pool.size <= x < g.pool.size
  }

  lemma NarrowsTrans(f: Flow, a: set<Obj>, g: Flow, b: set<Obj>, h: Flow, c: set<Obj>)
    requires Narrows(f, a, g, b) && Narrows(g, b, h, c)
    ensures Narrows(f, a, h, c)
  {}

  lemma GetNarrows(f: Flow, held: set<Obj>)
    requires Get(f.pool).Some?
    ensures Narrows(f, held, f.(pool := Get(f.pool).value.0), held + {Get(f.pool).value.1})
  {}

  lemma GiveBackNarrows(f: Flow, held: set<Obj>, x: Obj)
    requires x in held
    ensures Narrows(f, held, GiveBack(f, x), held)
  {}

  lemma PutNarrows(f: Flow, held: set<Obj>, x: Obj, c: Contents)
    ensures Narrows(f, held, Put(f, x, c), held)
  {}

  lemma SendNarrows(f: Flow, fixes: Fixes, held: set<Obj>, x: Obj,
                   ptype: PacketType, body: Option<Body>, length: u16)
    requires x in held
    ensures Narrows(f, held, SendPacket(f, fixes, x, ptype, body, length).0, held)
  {
    hide Prepared, Look;
    GiveBackNarrows(Prepare(f, x, ptype, body, length), held, x);
  }

  lemma CreateSendNarrows(f: Flow, fixes: Fixes, held: set<Obj>, m: Message)
    ensures Narrows(f, held, CreateSendPacket(f, fixes, m).0, held)
  {
    if Get(f.pool).Some? {
      var (p, x) := Get(f.pool).value;
      var g := f.(pool := p);
      GetNarrows(f, held);
      SendNarrows(g, fixes, held + {x}, x, m.ptype, Some(m.body), |m.body|);
      hide SendPacket;
      var h := SendPacket(g, fixes, x, m.ptype, Some(m.body), |m.body|).0;
      NarrowsTrans(f, held, g, held + {x}, h, held + {x});
      Forget(f, held, h, x);
    }
  }

  lemma AnswerReadNarrows(f: Flow, fixes: Fixes, m: Inbound, x: Obj, inbound: Obj, held: set<Obj>)
    requires m.ReadMemory? && x in held && inbound in held
    ensures Narrows(f, held, AnswerRead(f, fixes, m, x, inbound), held)
  {
    hide Narrows, CreateSendPacket, SendPacket, GiveBack, Drop, Look;
    var g := Put(f, x, Look(f, x).(data := m.fetched));
    PutNarrows(f, held, x, Look(f, x).(data := m.fetched));
    CreateSendNarrows(g, fixes, held, READ_MEMORY_FAILED);
    NarrowsSelf(g, held);
    var h := if m.status < 0 then CreateSendPacket(g, fixes, READ_MEMORY_FAILED).0 else g;
    NarrowsTrans(f, held, g, held, h, held);
    GiveBackNarrows(h, held, x);
    DropNarrows(h, held, x);
    SendNarrows(h, fixes, held, x, MemoryPacket, None, AnswerLength(m));
    var sent := SendPacket(Drop(h, x), fixes, inbound, MemoryPacket, None, AnswerLength(m)).0;
    SendNarrows(Drop(h, x), fixes, held, inbound, MemoryPacket, None, AnswerLength(m));
    NarrowsTrans(h, held, Drop(h, x), held, sent, held);
    NarrowsTrans(f, held, h, held, AnswerRead(f, fixes, m, x, inbound), held);
  }

  lemma ReadNarrows(f: Flow, fixes: Fixes, m: Inbound, inbound: Obj)
    requires m.ReadMemory?
    ensures Narrows(f, {inbound}, ProcessReadMemory(f, fixes, m, inbound), {inbound})
  {
    hide Narrows, AnswerRead;
    var held := {inbound};
    if !m.sizeOk || Get(f.pool).None? {
      NarrowsSelf(f, held);
    } else {
      var (p, x) := Get(f.pool).value;
      var g := f.(pool := p);
      var end := AnswerRead(g, fixes, m, x, inbound);
      GetNarrows(f, held);
      AnswerReadNarrows(g, fixes, m, x, inbound, held + {x});
      NarrowsTrans(f, held, g, held + {x}, end, held + {x});
      Forget(f, held, end, x);
    }
  }

  lemma NarrowsSelf(f: Flow, held: set<Obj>)
    ensures Narrows(f, held, f, held)
  {}

  lemma DropNarrows(f: Flow, held: set<Obj>, x: Obj)
    ensures Narrows(f, held, Drop(f, x), held)
  {}

  /** A variable that goes out of scope. */
  lemma Forget(f: Flow, held: set<Obj>, g: Flow, x: Obj)
    requires Narrows(f, held, g, held + {x})
    ensures Narrows(f, held, g, held)
  {}

  lemma CommandNarrows(f: Flow, fixes: Fixes, m: Inbound, held: set<Obj>)
    requires m.Command?
    ensures Narrows(f, held, ProcessCommand(f, fixes, m), held)
  {
    hide CreateSendPacket, Narrows;
    NarrowsSelf(f, held);
    CreateSendNarrows(f, fixes, held, LOAD_COMMAND_FAILED);
    var g := if m.status < 0 then CreateSendPacket(f, fixes, LOAD_COMMAND_FAILED).0 else f;
    CreateSendNarrows(g, fixes, held, CommandAnswer(m));
    NarrowsTrans(f, held, g, held, CreateSendPacket(g, fixes, CommandAnswer(m)).0, held);
  }

  lemma ProcessNarrows(f: Flow, fixes: Fixes, m: Inbound, inbound: Obj)
    ensures Narrows(f, {inbound}, Process(f, fixes, m, inbound), {inbound})
  {
    hide CreateSendPacket, ProcessCommand, ProcessReadMemory;
    var held := {inbound};
    match m
    case CloseConnection =>
    case Silent =>
    case LoadMcuInfo => CreateSendNarrows(f, fixes, held, ACK);
    case Command(_, _, _) => CommandNarrows(f, fixes, m, held);
    case ProgramMemory(_) =>
      CreateSendNarrows(f, fixes, held, PROGRAM_MEMORY_FAILED);
      CreateSendNarrows(f, fixes, held, ACK);
    case ReadMemory(_, _, _, _) => ReadNarrows(f, fixes, m, inbound);
  }

  lemma DrainGetNarrows(f: Flow, fixes: Fixes)
    ensures Narrows(f, {}, DrainGet(f, fixes), {})
  {
    if !fixes.drain && Get(f.pool).Some? { GetNarrows(f, {}); }
  }

  lemma SendHeadNarrows(f: Flow)
    requires |f.queue| > 0
    ensures Narrows(f, {}, SendHead(f), {})
  {
    hide Dispatched, Look;
    var x := f.queue[0];
    var g := f.(queue := f.queue[1..], sent := f.sent + [Dispatched(f, x)]);
    assert Narrows(f, {}, g, {x});
    GiveBackNarrows(g, {x}, x);
    NarrowsTrans(f, {}, g, {x}, SendHead(f), {x});
  }

  lemma {:induction false} DrainNarrows(f: Flow, fixes: Fixes)
    ensures Narrows(f, {}, Drain(f, fixes), {})
    decreases |f.queue|
  {
    hide Narrows;
    DrainGetNarrows(f, fixes);
    var g := DrainGet(f, fixes);
    if |g.queue| > 0 {
      SendHeadNarrows(g);
      DrainNarrows(SendHead(g), fixes);
      NarrowsTrans(g, {}, SendHead(g), {}, Drain(f, fixes), {});
      NarrowsTrans(f, {}, g, {}, Drain(f, fixes), {});
    }
  }

  lemma ServeNarrows(f: Flow, fixes: Fixes, a: Arrival)
    ensures Narrows(f, {}, Serve(f, fixes, a).0, {})
  {
    hide Process;
    if Get(f.pool).Some? {
      var (p, x) := Get(f.pool).value;
      var g := Put(f.(pool := p), x, a.received);
      var h := Process(g, fixes, a.request, x);
      GetNarrows(f, {});
      assert {} + {x} == {x};
      assert Narrows(f, {}, g, {x});
      ProcessNarrows(g, fixes, a.request, x);
      NarrowsTrans(f, {}, g, {x}, h, {x});
      GiveBackNarrows(h, {x}, x);
      assert Narrows(h, {x}, Serve(f, fixes, a).0, {});
      NarrowsTrans(f, {}, h, {x}, Serve(f, fixes, a).0, {});
    }
  }

  /** The packets that no free stack and no queue refers to. */
  function Unreachable(f: Flow): set<Obj> {
    Upto(f.pool.size) - Reach(f, {})
  }

  lemma VisitNarrows(f: Flow, fixes: Fixes, a: Option<Arrival>)
    ensures Narrows(f, {}, Visit(f, fixes, a), {})
  {
    hide Serve, Drain, Narrows;
    NarrowsSelf(f, {});
    if a.Some? { ServeNarrows(f, fixes, a.value); }
    var g := if a.Some? then Serve(f, fixes, a.value).0 else f;
    DrainNarrows(g, fixes);
    NarrowsTrans(f, {}, g, {}, Drain(g, fixes), {});
  }

  /** Whatever is corrected or not: a packet that nothing refers to between visits stays so. */
  lemma UnreachableStays(f: Flow, fixes: Fixes, a: Option<Arrival>)
    ensures Unreachable(f) <= Unreachable(Visit(f, fixes, a))
  {
    VisitNarrows(f, fixes, a);
  }

  /** The pool and the queue name only packets that have been allocated. */
  ghost predicate Named(f: Flow) {
    forall x :: x in Reach(f, {}) ==> x < f.pool.size
  }

  lemma {:induction false} NamedOverAllRuns(fixes: Fixes, memory: map<Obj, Contents>, visits: seq<Option<Arrival>>)
    ensures Named(Visits(fixes, memory, visits))
  {
    hide Visit;
    if |visits| > 0 {
      var before := Visits(fixes, memory, visits[..|visits| - 1]);
      NamedOverAllRuns(fixes, memory, visits[..|visits| - 1]);
      VisitNarrows(before, fixes, visits[|visits| - 1]);
    }
  }

  /** Exactly what one round of the drain as written makes unreachable: the packet it gets, if
      neither the pool nor the queue names that packet a second time. */
  lemma DrainRoundLosesIff(f: Flow, fixes: Fixes, y: Obj)
    requires Named(f) && !fixes.drain && Get(f.pool).Some?
    ensures var (p, x) := Get(f.pool).value;
            y in Unreachable(DrainGet(f, fixes))
            <==> y in Unreachable(f) || (y == x && x !in p.free && x !in f.queue)
  {
    var (p, x) := Get(f.pool).value;
    var g := DrainGet(f, fixes);
    assert Elements(g.queue) == Elements(f.queue);
    if |f.pool.free| == 0 {
      assert x !in Reach(f, {});
    } else {
      assert f.pool.free == p.free + [x];
      assert x in f.pool.free && x in Reach(f, {});
      assert y in f.pool.free <==> y in p.free || y == x;
    }
  }

  /** The state in which round n of a drain starts. */
  function AfterRounds(f: Flow, fixes: Fixes, n: nat): (g: Flow)
    requires n <= |f.queue|
    ensures |g.queue| == |f.queue| - n
  {
    if n == 0 then f
    else
      var g := AfterRounds(f, fixes, n - 1);
      assert DrainGet(g, fixes).queue == g.queue;
      SendHead(DrainGet(g, fixes))
  }

  lemma {:induction false} RoundsOfDrain(f: Flow, fixes: Fixes, n: nat)
    requires n <= |f.queue| && Named(f)
    ensures Named(AfterRounds(f, fixes, n)) && Drain(AfterRounds(f, fixes, n), fixes) == Drain(f, fixes)
  {
    hide Named, SendHead;
    if n > 0 {
      RoundsOfDrain(f, fixes, n - 1);
      var g := AfterRounds(f, fixes, n - 1);
      DrainGetNamed(g, fixes);
      SendHeadNamed(DrainGet(g, fixes));
    }
  }

  lemma DrainGetNamed(f: Flow, fixes: Fixes)
    requires Named(f)
    ensures Named(DrainGet(f, fixes)) && DrainGet(f, fixes).queue == f.queue
  {
    DrainGetNarrows(f, fixes);
  }

  lemma SendHeadNamed(f: Flow)
    requires Named(f) && |f.queue| > 0
    ensures Named(SendHead(f))
  {
    SendHeadNarrows(f);
  }

  /** So for round n of the drain in any visit of any run of any version that leaves the drain as
      it is: it makes unreachable exactly the packet it gets, unless that is named once more. */
  lemma RunRoundLosesIff(fixes: Fixes, memory: map<Obj, Contents>, visits: seq<Option<Arrival>>, a: Arrival,
                         n: nat, y: Obj)
    requires !fixes.drain && n <= |Serve(Visits(fixes, memory, visits), fixes, a).0.queue|
    requires Get(AfterRounds(Serve(Visits(fixes, memory, visits), fixes, a).0, fixes, n).pool).Some?
    ensures var f := AfterRounds(Serve(Visits(fixes, memory, visits), fixes, a).0, fixes, n);
            var (p, x) := Get(f.pool).value;
            y in Unreachable(DrainGet(f, fixes))
            <==> y in Unreachable(f) || (y == x && x !in p.free && x !in f.queue)
  {
    hide Visits, Serve, Named, AfterRounds, Unreachable, DrainGet;
    var f := Visits(fixes, memory, visits);
    NamedOverAllRuns(fixes, memory, visits);
    ServeNamed(f, fixes, a);
    RoundsOfDrain(Serve(f, fixes, a).0, fixes, n);
    DrainRoundLosesIff(AfterRounds(Serve(f, fixes, a).0, fixes, n), fixes, y);
  }

  lemma ServeNamed(f: Flow, fixes: Fixes, a: Arrival)
    requires Named(f)
    ensures Named(Serve(f, fixes, a).0)
  {
    ServeNarrows(f, fixes, a);
  }

  /** While every packet has one place, each round whose get succeeds loses one packet more. */
  lemma DrainRoundLeaks(f: Flow, fixes: Fixes)
    requires Owned(f, multiset{}) && !fixes.drain
    ensures var g := DrainGet(f, fixes);
            && g.queue == f.queue && Owned(g, multiset{})
            && if Get(f.pool).Some? then
                 var x := Get(f.pool).value.1;
                 && |g.lost| == |f.lost| + 1 && g.leaks == f.leaks + 1
                 && x !in Unreachable(f) && Unreachable(g) == Unreachable(f) + {x}
               else g == f && |f.pool.free| == 0 && |f.queue| + |f.lost| == MSG_POOL_SIZE
  {
    DrainGetOwned(f, fixes);
    OwnedCount(f, multiset{});
    OwnedNamed(f);
    if Get(f.pool).Some? {
      var (p, x) := Get(f.pool).value;
      GetOnce(f);
      forall y ensures y in Unreachable(DrainGet(f, fixes)) <==> y in Unreachable(f) || y == x {
        DrainRoundLosesIff(f, fixes, y);
      }
    }
  }

  lemma OnePlace(f: Flow, x: Obj)
    requires Owned(f, multiset{})
    ensures multiset(f.pool.free)[x] + multiset(f.queue)[x] + multiset(f.lost)[x] == if x < f.pool.size then 1 else 0
  {
    var places := multiset(f.pool.free) + multiset(f.queue) + multiset(f.lost) + multiset{};
    assert places[x] == multiset(Upto(f.pool.size))[x];
  }

  lemma PlaceOf(f: Flow, x: Obj)
    requires Owned(f, multiset{})
    ensures x in Reach(f, {}) || x in f.lost <==> x < f.pool.size
    ensures x in f.lost ==> x !in Reach(f, {})
  {
    OnePlace(f, x);
    hide Owned;
    assert x in f.pool.free <==> multiset(f.pool.free)[x] > 0;
    assert x in f.queue <==> multiset(f.queue)[x] > 0;
    assert x in f.lost <==> multiset(f.lost)[x] > 0;
  }

  /** Owned packets are named, and the unreachable ones are those recorded as lost. */
  lemma OwnedNamed(f: Flow)
    requires Owned(f, multiset{})
    ensures Named(f) && Unreachable(f) == Elements(f.lost) && |Unreachable(f)| == |f.lost|
  {
    hide Owned, Reach;
    forall x: Obj ensures x in Reach(f, {}) || x in f.lost <==> x < f.pool.size
      ensures x in f.lost ==> x !in Reach(f, {})
    {
      PlaceOf(f, x);
    }
    forall i, j | 0 <= i < j < |f.lost| ensures f.lost[i] != f.lost[j] {
      OnePlace(f, f.lost[i]);
      if f.lost[i] == f.lost[j] { TwiceInSequence(f.lost, i, j); }
    }
    DistinctCount(f.lost);
    assert Unreachable(f) == Elements(f.lost);
  }

  lemma TwiceInSequence(s: seq<Obj>, i: nat, j: nat)
    requires i < j < |s| && s[i] == s[j]
    ensures multiset(s)[s[i]] >= 2
  {
    assert s == s[..j] + s[j..];
    assert s[..j][i] in multiset(s[..j]) && s[j..][0] in multiset(s[j..]);
  }

  /** An owned packet that the pool hands out is named nowhere else. */
  lemma GetOnce(f: Flow)
    requires Owned(f, multiset{}) && Get(f.pool).Some?
    ensures var (p, x) := Get(f.pool).value;
            x !in p.free && x !in f.queue && x !in Unreachable(f)
  {
    var (p, x) := Get(f.pool).value;
    GetOwned(f, multiset{});
    var g := f.(pool := p);
    var places := multiset(p.free) + multiset(f.queue) + multiset(f.lost) + multiset{x};
    assert places == multiset(p.free) + multiset(f.queue) + multiset(f.lost) + (multiset{} + multiset{x});
    assert places[x] <= 1;
    assert multiset(p.free)[x] == 0 && multiset(f.queue)[x] == 0;
    if |f.pool.free| > 0 { assert x in f.pool.free; }
  }

  /** What the read answer as written does to the flow: the memory packet x is forgotten and the
      inbound packet y goes into the queue while the handling task still holds it. */
  lemma ReadAsWritten(f: Flow, fixes: Fixes, a: Arrival)
    requires !fixes.read && f.queue == [] && !f.restarted
    requires a.request.ReadMemory? && a.request.sizeOk && a.request.status >= 0 && !Oversized(a.request)
    requires Get(f.pool).Some? && Get(Get(f.pool).value.0).Some?
    ensures var (p, y) := Get(f.pool).value;
            var (q, x) := Get(p).value;
            var g := Put(f.(pool := q, lost := f.lost + [x]), y, a.received);
            var filled := Put(g, x, Look(g, x).(data := a.request.fetched));
            Process(Put(f.(pool := p), y, a.received), fixes, a.request, y)
            == Prepare(filled, y, MemoryPacket, None, AnswerLength(a.request)).(queue := [y])
  {
    hide Prepared, Get;
    var (p, y) := Get(f.pool).value;
    var (q, x) := Get(p).value;
    var h := Put(f.(pool := q), y, a.received);
    assert Process(Put(f.(pool := p), y, a.received), fixes, a.request, y) == AnswerRead(h, fixes, a.request, x, y);
  }

  /** The read answer as written can hide a leak: it leaves the inbound packet both in the pool
      and in the queue, and the first round of the drain takes the one name and leaves the other. */
  lemma LeakHiddenByRead(memory: map<Obj, Contents>, received: Contents, fetched: PacketData)
    ensures var f := Serve(Start(memory), AS_WRITTEN, Arrival(received, ReadMemory(true, 9, fetched, 9))).0;
            && Get(f.pool).Some? && Unreachable(DrainGet(f, AS_WRITTEN)) == Unreachable(f) == {1}
  {
    hide Process, Look, Prepared, Unreachable;
    var a := Arrival(received, ReadMemory(true, 9, fetched, 9));
    ReadAsWritten(Start(memory), AS_WRITTEN, a);
    var f := Serve(Start(memory), AS_WRITTEN, a).0;
    assert f.pool == PoolState(MSG_POOL_SIZE, 2, [0]) && f.queue == [0];
    var d := DrainGet(f, AS_WRITTEN);
    assert d.pool == PoolState(MSG_POOL_SIZE, 2, []) && d.queue == [0];
    UnreachableIsOne(f);
    UnreachableIsOne(d);
  }

  lemma UnreachableIsOne(f: Flow)
    requires f.pool.size == 2 && f.queue == [0] && (f.pool.free == [0] || f.pool.free == [])
    ensures Unreachable(f) == {1}
  {
    assert Elements(f.pool.free) <= {0} == Elements(f.queue);
    assert Upto(2) == {0, 1};
  }

  // ------------------------------------------------- The drain over all runs

  lemma {:induction false} ElementsBound(s: seq<Obj>)
    ensures |Elements(s)| <= |s|
  {
    if |s| > 0 {
      ElementsBound(s[1..]);
      assert s == [s[0]] + s[1..];
      assert Elements(s) == {s[0]} + Elements(s[1..]);
    }
  }

  /** What is neither named nor still to be allocated is unreachable. */
  lemma UnreachableCount(f: Flow)
    requires Bounded(f)
    ensures MSG_POOL_SIZE - Potential(f) <= |Unreachable(f)| <= MSG_POOL_SIZE
  {
    ElementsBound(f.pool.free);
    ElementsBound(f.queue);
    var all, named := Upto(f.pool.size), Reach(f, {});
    assert |named| <= |Elements(f.pool.free)| + |Elements(f.queue)|;
    assert |all| == |all - named| + |all * named|;
    assert all * named <= named;
    SubsetCount(all * named, named);
  }

  lemma {:induction false} SubsetCount(a: set<Obj>, b: set<Obj>)
    requires a <= b
    ensures |a| <= |b|
  {
    assert b == a + (b - a);
  }

  /** With the drain as written every visit makes a packet unreachable until all ten are, in
      every version of the other lines; and never are more packets leaked than are unreachable. */
  lemma EveryVisitLeaks(fixes: Fixes, memory: map<Obj, Contents>, visits: seq<Option<Arrival>>)
    ensures var f := Visits(fixes, memory, visits);
            && f.leaks <= |Unreachable(f)| <= MSG_POOL_SIZE
            && (!fixes.drain && !f.restarted && !f.fault ==>
                  |Unreachable(f)| >= if |visits| <= MSG_POOL_SIZE then |visits| else MSG_POOL_SIZE)
  {
    hide Visits, Unreachable;
    LeaksOverAllRuns(fixes, memory, visits);
    UnreachableCount(Visits(fixes, memory, visits));
  }

  /** With the read answer corrected, the unreachable packets are those recorded as lost. */
  lemma {:induction false} LostOverAllRuns(fixes: Fixes, memory: map<Obj, Contents>, visits: seq<Option<Arrival>>)
    requires fixes.read && !Visits(fixes, memory, visits).restarted
    ensures var f := Visits(fixes, memory, visits);
            && Owned(f, multiset{}) && f.queue == []
            && Unreachable(f) == Elements(f.lost) && |Unreachable(f)| == |f.lost|
  {
    hide Visit, Owned, Unreachable, Elements;
    var f := Visits(fixes, memory, visits);
    if |visits| == 0 {
      OwnedStart(memory);
    } else {
      var before := Visits(fixes, memory, visits[..|visits| - 1]);
      FlagsStay(before, fixes, visits[|visits| - 1]);
      LostOverAllRuns(fixes, memory, visits[..|visits| - 1]);
      VisitOwned(before, fixes, visits[|visits| - 1]);
      OwnedBounded(before);
      if f.fault { FaultKeepsQueue(before, fixes, visits[|visits| - 1]); }
    }
    OwnedNamed(f);
  }

  lemma OwnedBounded(f: Flow)
    requires Owned(f, multiset{})
    ensures Bounded(f)
  {
    OwnedCount(f, multiset{});
  }

  lemma FaultKeepsQueue(f: Flow, fixes: Fixes, a: Option<Arrival>)
    requires Bounded(f) && Visit(f, fixes, a).fault
    ensures Visit(f, fixes, a).queue == f.queue
  {
    hide Serve, Drain;
    if a.Some? { ServeWithin(f, fixes, a.value); }
    DrainFlags(if a.Some? then Serve(f, fixes, a.value).0 else f, fixes);
  }
}
