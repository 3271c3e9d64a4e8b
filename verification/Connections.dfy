/** The listening and the handling task of `packet_handler.c` as interleaved steps over
    connection objects. Pool and queue operations are atomic. */
module Connections {
  import opened Results
  import opened Packets
  import opened Pool

  const HNDL_INACTIVE := -1
  const PACKETS_GROUPS_NUM := 3

  function Slot(g: PacketGroup): nat {
    match g
    case ControlGroup => 0
    case ProgrammerGroup => 1
    case UartGroup => 2
  }

  /** Where the listening task is between `accept` and the queue write. */
  datatype Listener =
    | Accepting
    | HasObject(x: Obj, conn: int)  // pool_get succeeded
    | Filled(x: Obj)                // handle and group are set

  /** Where the handling task is. */
  datatype Handler =
    | WaitingFirst
    | GotFirst(x: Obj)
    | Looping
    | Closing(x: Obj)               // the slot is cleared, the socket still open
    | Releasing(x: Obj)             // the socket is closed
    | GotNew(x: Obj)
    | Rejecting(x: Obj)

  /** `lost` collects the objects that nothing refers to any more. `releaseRejected` is false
      for the code as written and true when rejected connections go back to the pool. */
  datatype State = State(
    releaseRejected: bool,
    pool: PoolState, queue: seq<Obj>, slots: seq<Option<Obj>>,
    hndl: map<Obj, int>, group: map<Obj, PacketGroup>,
    listener: Listener, handler: Handler,
    lost: seq<Obj>, rejections: nat, closeFailures: nat, overflows: nat, dropped: nat)

  datatype Action =
    | Accept(conn: int)
    | Fill
    | Enqueue
    | ReadFirst
    | InstallFirst
    | CloseRequest(slot: nat)
    | CloseSocket(ok: bool)
    | ReleaseConnection
    | Poll
    | Decide
    | Reject(ok: bool)

  function Init(max: nat, releaseRejected: bool): State {
    State(releaseRejected, PoolState(max, 0, []), [], [None, None, None], map[], map[],
          Accepting, WaitingFirst, [], 0, 0, 0, 0)
  }

  /** `sys_queue_write_ptr` with no waiting: a full queue refuses, and the listener forgets
      the object. The queue is as long as the pool is large. */
  function QueueWrite(s: State, x: Obj): State {
    if |s.queue| < s.pool.max then s.(queue := s.queue + [x])
    else s.(lost := s.lost + [x], overflows := s.overflows + 1)
  }

  function PutBack(s: State, x: Obj): State {
    match Release(s.pool, x)
    case Some(p) => s.(pool := p)
    case None => s.(lost := s.lost + [x])
  }

  // Listening task

  function AcceptStep(s: State, conn: int): State {
    match Get(s.pool)
    case None => s.(dropped := s.dropped + 1)
    case Some((p, x)) =>
      // the pool's constructor marks a new object as inactive
      s.(pool := p, hndl := if p.size > s.pool.size then s.hndl[x := HNDL_INACTIVE] else s.hndl,
         listener := HasObject(x, conn))
  }

  function FillStep(s: State): State
    requires s.listener.HasObject?
  {
    var x := s.listener.x;
    s.(hndl := s.hndl[x := s.listener.conn], group := s.group[x := ControlGroup], listener := Filled(x))
  }

  function EnqueueStep(s: State): State
    requires s.listener.Filled?
  {
    QueueWrite(s.(listener := Accepting), s.listener.x)
  }

  // Handling task

  function TakeStep(s: State, h: Handler): State
    requires |s.queue| > 0
  {
    s.(queue := s.queue[1..], handler := h)
  }

  /** `conn_info[info->group] = info` without looking at the slot. */
  function InstallFirstStep(s: State): State
    requires |s.slots| == PACKETS_GROUPS_NUM && s.handler.GotFirst? && s.handler.x in s.group
  {
    s.(slots := s.slots[Slot(s.group[s.handler.x]) := Some(s.handler.x)], handler := Looping)
  }

  /** `close_conn` clears the slot of the connection's group first. */
  function CloseRequestStep(s: State, x: Obj): State
    requires |s.slots| == PACKETS_GROUPS_NUM && x in s.group
  {
    s.(slots := s.slots[Slot(s.group[x]) := None], handler := Closing(x))
  }

  /** A failing `close` ends `close_conn` before the release. */
  function CloseSocketStep(s: State, ok: bool): State
    requires s.handler.Closing?
  {
    var x := s.handler.x;
    if ok then s.(hndl := s.hndl[x := HNDL_INACTIVE], handler := Releasing(x))
    else s.(lost := s.lost + [x], closeFailures := s.closeFailures + 1, handler := Looping)
  }

  function ReleaseStep(s: State): State
    requires s.handler.Releasing?
  {
    PutBack(s.(handler := Looping), s.handler.x)
  }

  function DecideStep(s: State): State
    requires |s.slots| == PACKETS_GROUPS_NUM && s.handler.GotNew?
  {
    var x := s.handler.x;
    if s.slots[0].Some? then s.(handler := Rejecting(x))
    else s.(group := s.group[x := ControlGroup], slots := s.slots[0 := Some(x)], handler := Looping)
  }

  /** Rejecting closes the socket. With the correction the object is then released unless the
      close failed, as in `close_conn`. */
  function RejectStep(s: State, ok: bool): State
    requires s.handler.Rejecting?
  {
    var t := Rejected(s, ok);
    if s.releaseRejected && ok then PutBack(t, s.handler.x) else t.(lost := t.lost + [s.handler.x])
  }

  function Rejected(s: State, ok: bool): State
    requires s.handler.Rejecting?
  {
    s.(hndl := if ok then s.hndl[s.handler.x := HNDL_INACTIVE] else s.hndl,
       rejections := s.rejections + 1, handler := Looping,
       closeFailures := s.closeFailures + if s.releaseRejected && !ok then 1 else 0)
  }

  predicate Enabled(s: State, a: Action) {
    && |s.slots| == PACKETS_GROUPS_NUM
    && match a
       case Accept(conn) => s.listener.Accepting? && conn > 0
       case Fill => s.listener.HasObject?
       case Enqueue => s.listener.Filled?
       case ReadFirst => s.handler.WaitingFirst? && |s.queue| > 0
       case InstallFirst => s.handler.GotFirst? && s.handler.x in s.group
       case CloseRequest(i) =>
         // check_connection: the slot is set and its handle active
         && s.handler.Looping? && i < PACKETS_GROUPS_NUM && s.slots[i].Some?
         && s.slots[i].value in s.hndl && s.hndl[s.slots[i].value] != HNDL_INACTIVE
         && s.slots[i].value in s.group
       case CloseSocket(_) => s.handler.Closing?
       case ReleaseConnection => s.handler.Releasing?
       case Poll => s.handler.Looping? && |s.queue| > 0
       case Decide => s.handler.GotNew?
       case Reject(_) => s.handler.Rejecting?
  }

  /** One step of either task. */
  function Step(s: State, a: Action): State
    requires Enabled(s, a)
  {
    match a
    case Accept(conn) => AcceptStep(s, conn)
    case Fill => FillStep(s)
    case Enqueue => EnqueueStep(s)
    case ReadFirst => TakeStep(s, GotFirst(s.queue[0]))
    case InstallFirst => InstallFirstStep(s)
    case CloseRequest(i) => CloseRequestStep(s, s.slots[i].value)
    case CloseSocket(ok) => CloseSocketStep(s, ok)
    case ReleaseConnection => ReleaseStep(s)
    case Poll => TakeStep(s, GotNew(s.queue[0]))
    case Decide => DecideStep(s)
    case Reject(ok) => RejectStep(s, ok)
  }

  // ---------------------------------------------------------------- Invariant

  function OfSlot(o: Option<Obj>): multiset<Obj> {
    match o
    case Some(x) => multiset{x}
    case None => multiset{}
  }

  function OfListener(l: Listener): multiset<Obj> {
    if l.Accepting? then multiset{} else multiset{l.x}
  }

  function OfHandler(h: Handler): multiset<Obj> {
    if h.WaitingFirst? || h.Looping? then multiset{} else multiset{h.x}
  }

  /** Every place an object can be, with multiplicity. */
  function Places(s: State): multiset<Obj>
    requires |s.slots| == PACKETS_GROUPS_NUM
  {
    multiset(s.pool.free) + multiset(s.queue) + OfListener(s.listener) + OfHandler(s.handler)
    + OfSlot(s.slots[0]) + OfSlot(s.slots[1]) + OfSlot(s.slots[2]) + multiset(s.lost)
  }

  /** The object carries a live control connection. */
  predicate Live(s: State, x: Obj) {
    x in s.hndl && s.hndl[x] > 0 && x in s.group && s.group[x] == ControlGroup
  }

  /** Conservation: each object ever allocated is in exactly one place. */
  ghost predicate Conserved(s: State) {
    && |s.slots| == PACKETS_GROUPS_NUM
    && 0 < s.pool.max && s.pool.size <= s.pool.max
    && Places(s) == multiset(Upto(s.pool.size))
  }

  /** Only the control slot is used, and what waits or is installed is live. */
  ghost predicate Proper(s: State) {
    && |s.slots| == PACKETS_GROUPS_NUM
    && s.slots[1].None? && s.slots[2].None?
    && (s.slots[0].Some? ==> Live(s, s.slots[0].value))
    && (forall x :: x in s.queue ==> Live(s, x))
    && (s.listener.HasObject? ==> s.listener.conn > 0)
    && (s.listener.Filled? ==> Live(s, s.listener.x))
    && (s.handler.GotFirst? || s.handler.GotNew? ==> Live(s, s.handler.x))
    && (s.handler.WaitingFirst? || s.handler.GotFirst? ==> s.slots[0].None?)
    && (s.handler.Rejecting? ==> s.slots[0].Some?)
  }

  predicate Inactive(s: State, x: Obj) {
    x in s.hndl && s.hndl[x] == HNDL_INACTIVE
  }

  /** An object in the pool, or on its way from or to it, is marked inactive. */
  ghost predicate Resting(s: State) {
    && (forall x :: x in s.pool.free ==> Inactive(s, x))
    && (s.listener.HasObject? ==> Inactive(s, s.listener.x))
    && (s.handler.Releasing? ==> Inactive(s, s.handler.x))
  }

  /** Losses are accounted for. */
  predicate Accounted(s: State) {
    && s.overflows == 0
    && |s.lost| == s.closeFailures + (if s.releaseRejected then 0 else s.rejections)
    && (!s.releaseRejected ==> s.rejections < s.pool.max)
  }

  ghost predicate Inv(s: State) {
    Conserved(s) && Proper(s) && Resting(s) && Accounted(s)
  }

  lemma InitInv(max: nat, releaseRejected: bool)
    requires max > 0
    ensures Inv(Init(max, releaseRejected))
  {
    assert Upto(0) == {};
  }

  lemma Counting(s: State)
    requires Conserved(s)
    ensures |s.pool.free| + |s.queue| + |OfListener(s.listener)| + |OfHandler(s.handler)|
            + |OfSlot(s.slots[0])| + |OfSlot(s.slots[1])| + |OfSlot(s.slots[2])| + |s.lost|
         == s.pool.size
  {
    assert |Places(s)| == |Upto(s.pool.size)|;
  }

  /** The zero-timeout queue write finds room, and a release is never refused. */
  lemma NeverRefused(s: State)
    requires Conserved(s)
    ensures !s.listener.Accepting? ==> |s.queue| < s.pool.max
    ensures !s.handler.WaitingFirst? && !s.handler.Looping? ==> |s.pool.free| < s.pool.size
  {
    Counting(s);
  }

  /** The object somebody has in hand is nowhere else. */
  lemma ListenerAlone(s: State)
    requires Conserved(s) && !s.listener.Accepting?
    ensures Elsewhere(s, s.listener.x) && s.listener.x !in s.pool.free
    ensures s.handler.WaitingFirst? || s.handler.Looping? || s.handler.x != s.listener.x
  {
    assert Places(s)[s.listener.x] <= 1;
  }

  lemma HandlerAlone(s: State)
    requires Conserved(s) && !s.handler.WaitingFirst? && !s.handler.Looping?
    ensures Elsewhere(s, s.handler.x)
    ensures s.listener.Accepting? || s.handler.x != s.listener.x
  {
    assert Places(s)[s.handler.x] <= 1;
  }

  // ------------------------------------------------ Each step conserves objects

  /** The state without what is in somebody's hands. */
  lemma HandlerPart(s: State, u: State)
    requires |s.slots| == PACKETS_GROUPS_NUM && !s.handler.WaitingFirst? && !s.handler.Looping?
    requires u == s.(handler := Looping)
    ensures Places(s) == Places(u) + multiset{s.handler.x}
  {}

  lemma ListenerPart(s: State, u: State)
    requires |s.slots| == PACKETS_GROUPS_NUM && !s.listener.Accepting?
    requires u == s.(listener := Accepting)
    ensures Places(s) == Places(u) + multiset{s.listener.x}
  {}

  lemma FreePart(s: State, u: State, x: Obj)
    requires |s.slots| == PACKETS_GROUPS_NUM
    requires s == u.(pool := s.pool) && s.pool.free == u.pool.free + [x]
    ensures Places(s) == Places(u) + multiset{x}
  {}

  lemma LostPart(s: State, u: State, x: Obj)
    requires |s.slots| == PACKETS_GROUPS_NUM
    requires s == u.(lost := u.lost + [x])
    ensures Places(s) == Places(u) + multiset{x}
  {}

  lemma QueuePart(s: State, u: State, x: Obj)
    requires |s.slots| == PACKETS_GROUPS_NUM
    requires s == u.(queue := s.queue) && (s.queue == u.queue + [x] || s.queue == [x] + u.queue)
    ensures Places(s) == Places(u) + multiset{x}
  {}

  lemma SlotPart(s: State, u: State, x: Obj)
    requires |s.slots| == PACKETS_GROUPS_NUM && s.slots[0] == Some(x)
    requires u == s.(slots := s.slots[0 := None])
    ensures Places(s) == Places(u) + multiset{x}
  {}

  /** Fields that say nothing about where objects are, nor does an empty hand. */
  lemma SamePlaces(s: State, u: State)
    requires |s.slots| == |u.slots| == PACKETS_GROUPS_NUM
    requires u.pool.free == s.pool.free && u.queue == s.queue && u.slots == s.slots && u.lost == s.lost
    requires u.listener == s.listener && OfHandler(u.handler) == OfHandler(s.handler)
    ensures Places(u) == Places(s)
  {}

  lemma AcceptConserves(s: State, conn: int)
    requires Conserved(s) && s.listener.Accepting?
    ensures Conserved(AcceptStep(s, conn))
  {
    if Get(s.pool).Some? {
      var t := AcceptStep(s, conn);
      var u := t.(listener := Accepting);
      ListenerPart(t, u);
      if |s.pool.free| == 0 {
        NewObject(s, u);
      } else {
        OldObject(s, u);
      }
    }
  }

  lemma NewObject(s: State, u: State)
    requires Conserved(s) && |s.pool.free| == 0 && s.pool.size < s.pool.max
    requires u == s.(pool := s.pool.(size := s.pool.size + 1), hndl := u.hndl)
    ensures Places(u) + multiset{s.pool.size} == multiset(Upto(u.pool.size))
  {
    SamePlaces(s, u);
    hide Places;
    assert multiset(Upto(s.pool.size + 1)) == multiset(Upto(s.pool.size)) + multiset{s.pool.size};
  }

  lemma OldObject(s: State, u: State)
    requires Conserved(s) && |s.pool.free| > 0
    requires u == s.(pool := Get(s.pool).value.0, hndl := u.hndl)
    ensures Places(u) + multiset{Get(s.pool).value.1} == multiset(Upto(u.pool.size))
  {
    var x := Get(s.pool).value.1;
    var v := u.(hndl := s.hndl);
    SamePlaces(u, v);
    assert s.pool.free == v.pool.free + [x];
    FreePart(s, v, x);
  }

  lemma FillConserves(s: State)
    requires Conserved(s) && s.listener.HasObject?
    ensures Conserved(FillStep(s))
  {
    var t := FillStep(s);
    ListenerPart(s, s.(listener := Accepting));
    ListenerPart(t, t.(listener := Accepting));
    SamePlaces(s.(listener := Accepting), t.(listener := Accepting));
  }

  lemma EnqueueConserves(s: State)
    requires Conserved(s) && s.listener.Filled?
    ensures Conserved(EnqueueStep(s))
    ensures EnqueueStep(s) == s.(listener := Accepting, queue := s.queue + [s.listener.x])
  {
    NeverRefused(s);
    var u := s.(listener := Accepting);
    ListenerPart(s, u);
    QueuePart(EnqueueStep(s), u, s.listener.x);
  }

  lemma TakeConserves(s: State, h: Handler)
    requires Conserved(s) && |s.queue| > 0
    requires s.handler.WaitingFirst? || s.handler.Looping?
    requires h == GotFirst(s.queue[0]) || h == GotNew(s.queue[0])
    ensures Conserved(TakeStep(s, h))
  {
    var t := TakeStep(s, h);
    var u := t.(handler := Looping);
    HandlerPart(t, u);
    assert s.queue == [s.queue[0]] + s.queue[1..];
    QueuePart(s, s.(queue := s.queue[1..]), s.queue[0]);
    SamePlaces(s.(queue := s.queue[1..]), u);
  }

  /** Moving the object in hand into the empty control slot, or out of it. */
  lemma InstallConserves(s: State, t: State)
    requires Conserved(s) && !s.handler.WaitingFirst? && !s.handler.Looping? && s.slots[0].None?
    requires t == s.(group := t.group, slots := s.slots[0 := Some(s.handler.x)], handler := Looping)
    ensures Conserved(t)
  {
    var u := s.(handler := Looping);
    HandlerPart(s, u);
    SlotPart(t, t.(slots := t.slots[0 := None]), s.handler.x);
    assert t.slots[0 := None] == s.slots;
    SamePlaces(u, t.(slots := t.slots[0 := None]));
  }

  lemma CloseRequestConserves(s: State)
    requires Conserved(s) && s.handler.Looping? && s.slots[0].Some?
    ensures Conserved(s.(slots := s.slots[0 := None], handler := Closing(s.slots[0].value)))
  {
    var t := s.(slots := s.slots[0 := None], handler := Closing(s.slots[0].value));
    HandlerPart(t, t.(handler := Looping));
    SlotPart(s, s.(slots := s.slots[0 := None]), s.slots[0].value);
    assert t.(handler := Looping) == s.(slots := s.slots[0 := None]);
  }

  lemma CloseSocketConserves(s: State, ok: bool)
    requires Conserved(s) && s.handler.Closing?
    ensures Conserved(CloseSocketStep(s, ok))
  {
    var t := CloseSocketStep(s, ok);
    if ok {
      SamePlaces(s, t);
    } else {
      var u := t.(lost := s.lost);
      HandlerPart(s, s.(handler := Looping));
      SamePlaces(s.(handler := Looping), u);
      LostPart(t, u, s.handler.x);
    }
  }

  lemma ReleaseConserves(s: State)
    requires Conserved(s) && s.handler.Releasing?
    ensures Conserved(ReleaseStep(s))
    ensures ReleaseStep(s) == s.(handler := Looping, pool := s.pool.(free := s.pool.free + [s.handler.x]))
  {
    NeverRefused(s);
    var u := s.(handler := Looping);
    HandlerPart(s, u);
    FreePart(ReleaseStep(s), u, s.handler.x);
  }

  lemma DecideConserves(s: State)
    requires Conserved(s) && s.handler.GotNew?
    ensures Conserved(DecideStep(s))
  {
    hide Places, Upto;
    if s.slots[0].Some? {
      SamePlaces(s, DecideStep(s));
    } else {
      var t := DecideStep(s);
      assert t == s.(group := t.group, slots := s.slots[0 := Some(s.handler.x)], handler := Looping);
      InstallConserves(s, t);
    }
  }

  lemma RejectConserves(s: State, ok: bool)
    requires Conserved(s) && s.handler.Rejecting?
    ensures Conserved(RejectStep(s, ok))
    ensures var t := RejectStep(s, ok);
            if s.releaseRejected && ok then
              && t == Rejected(s, ok).(pool := t.pool)
              && t.pool == s.pool.(free := s.pool.free + [s.handler.x])
            else t == Rejected(s, ok).(lost := s.lost + [s.handler.x])
  {
    NeverRefused(s);
    var u := s.(handler := Looping);
    HandlerPart(s, u);
    SamePlaces(u, Rejected(s, ok));
    if s.releaseRejected && ok {
      FreePart(RejectStep(s, ok), Rejected(s, ok), s.handler.x);
    } else {
      LostPart(RejectStep(s, ok), Rejected(s, ok), s.handler.x);
    }
  }

  // ------------------------------------------- Each step keeps the slots proper

  /** Handles and groups of other objects are as they were. */
  lemma StillLive(s: State, t: State, x: Obj, y: Obj, v: int)
    requires Live(s, x) && x != y
    requires t.hndl == s.hndl || t.hndl == s.hndl[y := v]
    requires t.group == s.group || t.group == s.group[y := ControlGroup]
    ensures Live(t, x)
  {}

  /** Nothing of what waits or is installed is `x`. */
  predicate Elsewhere(s: State, x: Obj) {
    && x !in s.queue
    && (|s.slots| > 0 ==> s.slots[0] != Some(x))
  }

  lemma QueueStillLive(s: State, t: State, y: Obj, v: int)
    requires forall x :: x in s.queue ==> Live(s, x)
    requires y !in s.queue
    requires t.hndl == s.hndl || t.hndl == s.hndl[y := v]
    requires t.group == s.group || t.group == s.group[y := ControlGroup]
    ensures forall x :: x in s.queue ==> Live(t, x)
  {
    forall x | x in s.queue ensures Live(t, x) {
      StillLive(s, t, x, y, v);
    }
  }

  /** A get never returns an object that is queued, installed or in somebody's hands. */
  lemma AcceptFindsFree(s: State)
    requires Conserved(s) && Get(s.pool).Some?
    ensures var x := Get(s.pool).value.1;
            && Elsewhere(s, x)
            && (s.handler.WaitingFirst? || s.handler.Looping? || s.handler.x != x)
  {
    var x := Get(s.pool).value.1;
    assert Places(s)[x] <= 1;
    if |s.pool.free| == 0 {
      assert Places(s)[x] == 0;
    }
  }

  lemma AcceptProper(s: State, conn: int)
    requires Proper(s) && s.listener.Accepting? && conn > 0
    requires Get(s.pool).Some? ==>
      var x := Get(s.pool).value.1;
      Elsewhere(s, x) && (s.handler.WaitingFirst? || s.handler.Looping? || s.handler.x != x)
    ensures Proper(AcceptStep(s, conn))
  {
    if Get(s.pool).Some? {
      var x := Get(s.pool).value.1;
      QueueStillLive(s, AcceptStep(s, conn), x, HNDL_INACTIVE);
    }
  }

  lemma FillProper(s: State)
    requires Proper(s) && s.listener.HasObject? && Elsewhere(s, s.listener.x)
    requires s.handler.WaitingFirst? || s.handler.Looping? || s.handler.x != s.listener.x
    ensures Proper(FillStep(s))
  {
    QueueStillLive(s, FillStep(s), s.listener.x, s.listener.conn);
  }

  lemma EnqueueProper(s: State)
    requires Proper(s) && s.listener.Filled?
    ensures Proper(s.(listener := Accepting, queue := s.queue + [s.listener.x]))
  {}

  lemma TakeProper(s: State, h: Handler)
    requires Proper(s) && |s.queue| > 0
    requires (s.handler.WaitingFirst? && h == GotFirst(s.queue[0])) || (s.handler.Looping? && h == GotNew(s.queue[0]))
    ensures Proper(TakeStep(s, h))
  {
    assert s.queue[0] in s.queue;
    assert forall x :: x in s.queue[1..] ==> x in s.queue;
  }

  lemma InstallFirstProper(s: State)
    requires Proper(s) && s.handler.GotFirst?
    ensures Proper(InstallFirstStep(s))
    ensures InstallFirstStep(s) == s.(slots := s.slots[0 := Some(s.handler.x)], handler := Looping)
  {}

  lemma CloseRequestProper(s: State, i: nat)
    requires Proper(s) && Enabled(s, CloseRequest(i))
    ensures i == 0 && Proper(CloseRequestStep(s, s.slots[0].value))
    ensures CloseRequestStep(s, s.slots[0].value)
         == s.(slots := s.slots[0 := None], handler := Closing(s.slots[0].value))
  {}

  lemma CloseSocketProper(s: State, ok: bool)
    requires Proper(s) && s.handler.Closing? && Elsewhere(s, s.handler.x)
    requires s.listener.Accepting? || s.listener.x != s.handler.x
    ensures Proper(CloseSocketStep(s, ok))
  {
    QueueStillLive(s, CloseSocketStep(s, ok), s.handler.x, HNDL_INACTIVE);
  }

  lemma ReleaseProper(s: State, p: PoolState)
    requires Proper(s) && s.handler.Releasing?
    ensures Proper(s.(handler := Looping, pool := p))
  {}

  lemma DecideProper(s: State)
    requires Proper(s) && s.handler.GotNew? && Elsewhere(s, s.handler.x)
    requires s.listener.Accepting? || s.listener.x != s.handler.x
    ensures Proper(DecideStep(s))
  {
    QueueStillLive(s, DecideStep(s), s.handler.x, HNDL_INACTIVE);
  }

  lemma RejectProper(s: State, ok: bool, p: PoolState, lost: seq<Obj>)
    requires Proper(s) && s.handler.Rejecting? && Elsewhere(s, s.handler.x)
    requires s.listener.Accepting? || s.listener.x != s.handler.x
    ensures Proper(Rejected(s, ok).(pool := p, lost := lost))
  {
    QueueStillLive(s, Rejected(s, ok), s.handler.x, HNDL_INACTIVE);
  }

  // ---------------------------------------- Each step keeps the pool's objects inactive

  lemma AcceptResting(s: State, conn: int)
    requires Resting(s) && s.listener.Accepting?
    requires Get(s.pool).Some? && s.handler.Releasing? ==> s.handler.x != Get(s.pool).value.1
    ensures Resting(AcceptStep(s, conn))
  {
    if Get(s.pool).Some? && |s.pool.free| > 0 {
      var (p, x) := Get(s.pool).value;
      assert x in s.pool.free;
      assert forall y :: y in p.free ==> y in s.pool.free;
    }
  }

  lemma FillResting(s: State)
    requires Resting(s) && s.listener.HasObject? && s.listener.x !in s.pool.free
    requires s.handler.Releasing? ==> s.handler.x != s.listener.x
    ensures Resting(FillStep(s))
  {}

  lemma CloseSocketResting(s: State, ok: bool)
    requires Resting(s) && s.handler.Closing?
    ensures Resting(CloseSocketStep(s, ok))
  {}

  lemma ReleaseResting(s: State)
    requires Resting(s) && s.handler.Releasing?
    ensures Resting(s.(handler := Looping, pool := s.pool.(free := s.pool.free + [s.handler.x])))
  {}

  lemma RejectResting(s: State, ok: bool, lost: seq<Obj>)
    requires Resting(s) && s.handler.Rejecting?
    ensures Resting(Rejected(s, ok).(lost := lost))
    ensures ok ==> Resting(Rejected(s, ok).(pool := s.pool.(free := s.pool.free + [s.handler.x])))
  {}

  // ------------------------------------------------------------------ Together

  /** The installed connection and the one in hand are not lost. */
  lemma LossesLeaveOne(s: State)
    requires Conserved(s) && s.slots[0].Some? && s.handler.Rejecting?
    ensures |s.lost| + 2 <= s.pool.max
  {
    Counting(s);
  }

  lemma ListenerSteps(s: State, a: Action)
    requires Inv(s) && Enabled(s, a) && (a.Accept? || a.Fill? || a.Enqueue?)
    ensures Inv(Step(s, a))
  {
    hide Conserved, Proper;
    match a
    case Accept(conn) =>
      AcceptConserves(s, conn);
      if Get(s.pool).Some? { AcceptFindsFree(s); }
      AcceptProper(s, conn);
      AcceptResting(s, conn);
    case Fill =>
      FillConserves(s);
      ListenerAlone(s);
      FillProper(s);
      FillResting(s);
    case Enqueue =>
      EnqueueConserves(s);
      EnqueueProper(s);
  }

  lemma InstallSteps(s: State, a: Action)
    requires Inv(s) && Enabled(s, a) && (a.ReadFirst? || a.InstallFirst? || a.Poll? || a.Decide?)
    ensures Inv(Step(s, a))
  {
    hide Conserved, Places;
    match a
    case ReadFirst =>
      TakeConserves(s, GotFirst(s.queue[0]));
      TakeProper(s, GotFirst(s.queue[0]));
    case InstallFirst =>
      InstallFirstProper(s);
      InstallConserves(s, InstallFirstStep(s));
    case Poll =>
      TakeConserves(s, GotNew(s.queue[0]));
      TakeProper(s, GotNew(s.queue[0]));
    case Decide =>
      DecideConserves(s);
      HandlerAlone(s);
      DecideProper(s);
  }

  lemma CloseSteps(s: State, a: Action)
    requires Inv(s) && Enabled(s, a) && (a.CloseRequest? || a.CloseSocket? || a.ReleaseConnection?)
    ensures Inv(Step(s, a))
  {
    hide Conserved, Proper;
    match a
    case CloseRequest(i) =>
      CloseRequestProper(s, i);
      CloseRequestConserves(s);
    case CloseSocket(ok) =>
      CloseSocketConserves(s, ok);
      HandlerAlone(s);
      CloseSocketProper(s, ok);
      CloseSocketResting(s, ok);
    case ReleaseConnection =>
      ReleaseConserves(s);
      ReleaseProper(s, ReleaseStep(s).pool);
      ReleaseResting(s);
  }

  lemma RejectSteps(s: State, ok: bool)
    requires Inv(s) && s.handler.Rejecting?
    ensures Inv(RejectStep(s, ok))
  {
    RejectConserves(s, ok);
    HandlerAlone(s);
    LossesLeaveOne(s);
    var t := RejectStep(s, ok);
    RejectProper(s, ok, t.pool, t.lost);
    RejectResting(s, ok, t.lost);
  }

  lemma StepInv(s: State, a: Action)
    requires Inv(s) && Enabled(s, a)
    ensures Inv(Step(s, a))
    ensures Step(s, a).pool.max == s.pool.max && Step(s, a).releaseRejected == s.releaseRejected
  {
    hide Inv;
    match a
    case Accept(_) => ListenerSteps(s, a);
    case Fill => ListenerSteps(s, a);
    case Enqueue => ListenerSteps(s, a);
    case ReadFirst => InstallSteps(s, a);
    case InstallFirst => InstallSteps(s, a);
    case Poll => InstallSteps(s, a);
    case Decide => InstallSteps(s, a);
    case CloseRequest(_) => CloseSteps(s, a);
    case CloseSocket(_) => CloseSteps(s, a);
    case ReleaseConnection => CloseSteps(s, a);
    case Reject(ok) => RejectSteps(s, ok);
  }

  /** Connections are taken up in the order of their acceptance: an enqueue puts its object behind the
      others, the handling task takes the first, and nothing else touches the queue. */
  lemma QueueOrder(s: State, a: Action)
    requires Inv(s) && Enabled(s, a)
    ensures var t := Step(s, a);
            match a
            case Enqueue => t.queue == s.queue + [s.listener.x]
            case ReadFirst => t.handler.GotFirst? && s.queue == [t.handler.x] + t.queue
            case Poll => t.handler.GotNew? && s.queue == [t.handler.x] + t.queue
            case _ => t.queue == s.queue
  {
    hide Proper, Resting, Accounted, Places;
    if a.Enqueue? { EnqueueConserves(s); }
  }

  /** A close that succeeds marks its object inactive, whether it was asked for or a rejection; one that
      fails leaves the handle. */
  lemma ClosesMark(s: State, a: Action)
    requires Inv(s) && Enabled(s, a) && (a.CloseSocket? || a.Reject?)
    ensures if a.ok then Inactive(Step(s, a), s.handler.x) else Step(s, a).hndl == s.hndl
  {
    hide Inv;
  }

  /** An accepted connection is dropped if and only if every object is in use. */
  lemma DropsIff(s: State, conn: int)
    requires Inv(s) && Enabled(s, Accept(conn))
    ensures var t := Step(s, Accept(conn));
            if |s.pool.free| == 0 && s.pool.size == s.pool.max then t == s.(dropped := s.dropped + 1)
            else t.dropped == s.dropped && t.listener.HasObject? && t.listener.conn == conn
  {
    hide Inv;
  }

  // ---------------------------------------------------------- All interleavings

  /** The state after a sequence of steps of both tasks, in any order. */
  function Trace(max: nat, releaseRejected: bool, actions: seq<Action>): Option<State> {
    if |actions| == 0 then Some(Init(max, releaseRejected))
    else
      var s :- Trace(max, releaseRejected, actions[..|actions| - 1]);
      if Enabled(s, actions[|actions| - 1]) then Some(Step(s, actions[|actions| - 1])) else None
  }

  lemma {:induction false} TraceInv(max: nat, releaseRejected: bool, actions: seq<Action>)
    requires max > 0 && Trace(max, releaseRejected, actions).Some?
    ensures var s := Trace(max, releaseRejected, actions).value;
            Inv(s) && s.pool.max == max && s.releaseRejected == releaseRejected
  {
    hide Inv, Step, Enabled;
    if |actions| == 0 {
      InitInv(max, releaseRejected);
    } else {
      TraceInv(max, releaseRejected, actions[..|actions| - 1]);
      StepInv(Trace(max, releaseRejected, actions[..|actions| - 1]).value, actions[|actions| - 1]);
    }
  }

  /** Connection safety in every interleaving: each object is in exactly one place, only the
      control slot is ever set and its connection is open, and no queue write finds the queue
      full. */
  lemma ConnectionSafety(max: nat, releaseRejected: bool, actions: seq<Action>)
    requires max > 0 && Trace(max, releaseRejected, actions).Some?
    ensures var s := Trace(max, releaseRejected, actions).value;
            && |s.slots| == PACKETS_GROUPS_NUM && s.pool.size <= max
            && (forall x :: Places(s)[x] == if 0 <= x < s.pool.size then 1 else 0)
            && s.slots[1] == None && s.slots[2] == None
            && (s.slots[0].Some? ==> Live(s, s.slots[0].value))
            && (forall x :: x in s.pool.free ==> Inactive(s, x))
            && s.overflows == 0
            && (s.listener.Filled? ==> |s.queue| < max)
  {
    TraceInv(max, releaseRejected, actions);
    hide Trace;
    var s := Trace(max, releaseRejected, actions).value;
    NeverRefused(s);
  }

  /** As written each rejection loses an object, so at most max - 1 can ever happen; with
      rejected connections released nothing is lost but by a failing close. */
  lemma Losses(max: nat, releaseRejected: bool, actions: seq<Action>)
    requires max > 0 && Trace(max, releaseRejected, actions).Some?
    ensures var s := Trace(max, releaseRejected, actions).value;
            && (!releaseRejected ==> |s.lost| == s.rejections + s.closeFailures && s.rejections <= max - 1)
            && (releaseRejected ==> |s.lost| == s.closeFailures)
            && |s.lost| <= max
  {
    TraceInv(max, releaseRejected, actions);
    hide Trace, Places, Live;
    Counting(Trace(max, releaseRejected, actions).value);
  }

  /** Lost objects stay lost. */
  lemma LostGrows(s: State, a: Action)
    requires Enabled(s, a)
    ensures |s.lost| <= |Step(s, a).lost|
  {}

  /** With every object lost, nothing waits, nothing is served and no connection gets an object. */
  lemma AllLost(s: State)
    requires Inv(s) && |s.lost| == s.pool.max
    ensures s.slots[0] == None && s.queue == [] && s.listener == Accepting && Get(s.pool) == None
  {
    Counting(s);
  }

  /** Once every object is lost, no connection is ever served again. */
  lemma {:induction false} Starvation(max: nat, releaseRejected: bool, before: seq<Action>, more: seq<Action>)
    requires max > 0 && Trace(max, releaseRejected, before).Some?
    requires Trace(max, releaseRejected, before + more).Some?
    requires |Trace(max, releaseRejected, before).value.lost| == max
    ensures var s := Trace(max, releaseRejected, before + more).value;
            |s.lost| == max && |s.slots| == PACKETS_GROUPS_NUM
            && s.slots[0] == None && s.queue == [] && s.listener == Accepting && Get(s.pool) == None
  {
    LostNeverShrinks(max, releaseRejected, before, more);
    TraceInv(max, releaseRejected, before + more);
    Losses(max, releaseRejected, before + more);
    hide Trace;
    AllLost(Trace(max, releaseRejected, before + more).value);
  }

  lemma {:induction false} LostNeverShrinks(max: nat, releaseRejected: bool, before: seq<Action>, more: seq<Action>)
    requires Trace(max, releaseRejected, before).Some?
    requires Trace(max, releaseRejected, before + more).Some?
    ensures |Trace(max, releaseRejected, before).value.lost| <= |Trace(max, releaseRejected, before + more).value.lost|
  {
    hide Step, Enabled;
    var actions := before + more;
    if |more| == 0 {
      assert actions == before;
    } else {
      assert actions[..|actions| - 1] == before + more[..|more| - 1];
      LostNeverShrinks(max, releaseRejected, before, more[..|more| - 1]);
      LostGrows(Trace(max, releaseRejected, before + more[..|more| - 1]).value, actions[|actions| - 1]);
    }
  }

  lemma TraceNext(max: nat, releaseRejected: bool, actions: seq<Action>, a: Action, s: State)
    requires Trace(max, releaseRejected, actions) == Some(s) && Enabled(s, a)
    ensures Trace(max, releaseRejected, actions + [a]) == Some(Step(s, a))
  {
    assert (actions + [a])[..|actions|] == actions;
  }

  /** Accepting one connection and queueing it. */
  lemma TraceAccept(max: nat, actions: seq<Action>, conn: int, s: State) returns (t: State)
    requires Trace(max, false, actions) == Some(s) && s.listener == Accepting && conn > 0
    requires |s.slots| == PACKETS_GROUPS_NUM
    requires s.pool.free == [] && s.pool.size < s.pool.max && |s.queue| < s.pool.max
    ensures Trace(max, false, actions + [Accept(conn)] + [Fill] + [Enqueue]) == Some(t)
    ensures t == s.(pool := s.pool.(size := s.pool.size + 1), queue := s.queue + [s.pool.size],
                    hndl := s.hndl[s.pool.size := conn], group := s.group[s.pool.size := ControlGroup])
  {
    hide Trace;
    var a := Step(s, Accept(conn));
    var b := Step(a, Fill);
    t := Step(b, Enqueue);
    TraceNext(max, false, actions, Accept(conn), s);
    TraceNext(max, false, actions + [Accept(conn)], Fill, a);
    TraceNext(max, false, actions + [Accept(conn)] + [Fill], Enqueue, b);
  }

  /** The first connection in the control slot, with nothing else going on. */
  ghost predicate OneInstalled(s: State) {
    && |s.slots| == PACKETS_GROUPS_NUM && s.slots[0] == Some(0) && s.handler == Looping && s.listener == Accepting
    && 0 in s.hndl && s.hndl[0] == 1 && 0 in s.group && s.group[0] == ControlGroup
    && s.queue == [] && s.pool.free == [] && s.pool.max == 2 && !s.releaseRejected
  }

  lemma FirstInstalled() returns (actions: seq<Action>, s: State)
    ensures Trace(2, false, actions) == Some(s) && OneInstalled(s) && s.pool.size == 1 && s.lost == []
  {
    hide Trace;
    EmptyTrace(2, false);
    s := TraceAccept(2, [], 1, Init(2, false));
    actions := [] + [Accept(1)] + [Fill] + [Enqueue];
    TraceNext(2, false, actions, ReadFirst, s);
    s, actions := Step(s, ReadFirst), actions + [ReadFirst];
    TraceNext(2, false, actions, InstallFirst, s);
    s, actions := Step(s, InstallFirst), actions + [InstallFirst];
  }

  lemma SecondRejected(before: seq<Action>, s0: State) returns (actions: seq<Action>, s: State)
    requires Trace(2, false, before) == Some(s0) && OneInstalled(s0) && s0.pool.size == 1 && s0.lost == []
    ensures Trace(2, false, actions) == Some(s) && OneInstalled(s) && s.lost == [1]
  {
    hide Trace;
    s := TraceAccept(2, before, 2, s0);
    actions := before + [Accept(2)] + [Fill] + [Enqueue];
    TraceNext(2, false, actions, Poll, s);
    s, actions := Step(s, Poll), actions + [Poll];
    TraceNext(2, false, actions, Decide, s);
    s, actions := Step(s, Decide), actions + [Decide];
    TraceNext(2, false, actions, Reject(true), s);
    s, actions := Step(s, Reject(true)), actions + [Reject(true)];
  }

  /** As written, with the two connections of the real configuration: a rejected connection and
      a failing close are enough to lose everything. */
  lemma StarvationHappens() returns (actions: seq<Action>)
    ensures Trace(2, false, actions).Some? && |Trace(2, false, actions).value.lost| == 2
  {
    hide Trace;
    var s;
    actions, s := FirstInstalled();
    actions, s := SecondRejected(actions, s);
    TraceNext(2, false, actions, CloseRequest(0), s);
    s, actions := Step(s, CloseRequest(0)), actions + [CloseRequest(0)];
    TraceNext(2, false, actions, CloseSocket(false), s);
    s, actions := Step(s, CloseSocket(false)), actions + [CloseSocket(false)];
  }

  lemma EmptyTrace(max: nat, releaseRejected: bool)
    ensures Trace(max, releaseRejected, []) == Some(Init(max, releaseRejected))
  {}
}
