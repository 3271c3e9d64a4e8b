/** The out-queues of the connection objects, on top of the interleaved steps of `Connections`.
    The queue belongs to the object, and the object goes back to the pool before the handling
    task reads the queue for the last time. */
module OutQueues {
  import opened Results
  import opened Pool
  import opened Connections

  /** A visit of the handling task: the object, the connection it carried when the visit began,
      and whether the message has been handled. */
  datatype Visiting = Visiting(x: Obj, session: nat, handled: bool)

  /** An answer that was sent to one connection and made for one. */
  datatype Sent = Sent(to: nat, madeFor: nat)

  /** `out` holds, for each queued answer, the connection it was made for. Accepted connections
      are numbered, and `session` says which one an object carries. */
  datatype System = System(
    conn: State, out: map<Obj, seq<nat>>, session: map<Obj, nat>, accepted: nat,
    visit: Option<Visiting>, sent: seq<Sent>)

  datatype Event =
    | Own(a: Action)         // a step of the connection objects
    | Begin(slot: nat)       // the handling task turns to a connection
    | Handle(answers: nat)   // a message other than a close request, and its answers
    | SendOne                // the drain sends the head of the queue
    | EndDrain               // the drain finds the queue empty

  function Begun(max: nat, releaseRejected: bool): System {
    System(Init(max, releaseRejected), map[], map[], 0, None, [])
  }

  function Out(s: System, x: Obj): seq<nat> {
    if x in s.out then s.out[x] else []
  }

  function Session(s: System, x: Obj): nat {
    if x in s.session then s.session[x] else 0
  }

  predicate OfListenerTask(a: Action) {
    a.Accept? || a.Fill? || a.Enqueue?
  }

  /** The listening task may step at any time; the handling task polls between visits, and
      closes a connection in the visit that receives the request. */
  predicate Allowed(s: System, a: Action)
    requires Enabled(s.conn, a)
  {
    || OfListenerTask(a)
    || (s.visit.None? && (a.ReadFirst? || a.InstallFirst? || a.Poll? || a.Decide? || a.Reject?))
    || (s.visit.Some? && (a.CloseSocket? || a.ReleaseConnection?))
    || (s.visit.Some? && !s.visit.value.handled && a.CloseRequest? && s.conn.slots[a.slot] == Some(s.visit.value.x))
  }

  predicate Can(s: System, e: Event) {
    match e
    case Own(a) => Enabled(s.conn, a) && Allowed(s, a)
    case Begin(i) => s.visit.None? && Enabled(s.conn, CloseRequest(i))
    case Handle(_) => s.visit.Some? && !s.visit.value.handled && s.conn.handler.Looping?
    case SendOne => s.visit.Some? && s.conn.handler.Looping? && |Out(s, s.visit.value.x)| > 0
    case EndDrain => s.visit.Some? && s.conn.handler.Looping? && |Out(s, s.visit.value.x)| == 0
  }

  function Handled(s: System): Option<Visiting> {
    match s.visit
    case Some(v) => Some(v.(handled := true))
    case None => None
  }

  function Copies(session: nat, n: nat): (r: seq<nat>)
    ensures |r| == n && forall i :: 0 <= i < n ==> r[i] == session
  {
    seq(n, _ => session)
  }

  function Next(s: System, e: Event): System
    requires Can(s, e)
  {
    match e
    case Own(a) =>
      var t := s.(conn := Step(s.conn, a));
      if a.Fill? then t.(session := s.session[s.conn.listener.x := s.accepted], accepted := s.accepted + 1)
      else if a.CloseRequest? then t.(visit := Handled(s))
      else t
    case Begin(i) => s.(visit := Some(Visiting(s.conn.slots[i].value, Session(s, s.conn.slots[i].value), false)))
    case Handle(n) =>
      var v := s.visit.value;
      s.(out := s.out[v.x := Out(s, v.x) + Copies(v.session, n)], visit := Handled(s))
    case SendOne =>
      var v := s.visit.value;
      s.(out := s.out[v.x := Out(s, v.x)[1..]], sent := s.sent + [Sent(v.session, Out(s, v.x)[0])])
    case EndDrain => s.(visit := None)
  }

  // ---------------------------------------------------------------- Invariant

  /** Only the object being visited has answers queued: it is in the control slot, its message
      has been handled, and the answers are for the connection of the visit. */
  ghost predicate QueuesClean(s: System) {
    && |s.conn.slots| == PACKETS_GROUPS_NUM
    && (forall x: Obj :: Out(s, x) != [] ==>
          && s.visit.Some? && s.visit.value.x == x && s.visit.value.handled
          && s.conn.handler.Looping? && s.conn.slots[0] == Some(x))
    && (s.visit.Some? ==> forall t :: t in Out(s, s.visit.value.x) ==> t == s.visit.value.session)
    && (s.visit.Some? && !s.visit.value.handled ==>
          s.conn.handler.Looping? && s.conn.slots[0] == Some(s.visit.value.x))
    && (forall i :: 0 <= i < |s.sent| ==> s.sent[i].to == s.sent[i].madeFor)
    && Numbered(s)
  }

  /** No two objects carry the same connection, and the next number is a new one. */
  ghost predicate Numbered(s: System) {
    && (forall x :: x in s.session ==> s.session[x] < s.accepted)
    && (forall x, y :: x in s.session && y in s.session && x != y ==> s.session[x] != s.session[y])
  }

  ghost predicate SystemInv(s: System) {
    Inv(s.conn) && QueuesClean(s)
  }

  lemma BegunInv(max: nat, releaseRejected: bool)
    requires max > 0
    ensures SystemInv(Begun(max, releaseRejected))
  {
    InitInv(max, releaseRejected);
  }

  /** A step of the listening task touches neither the slots nor the handling task. */
  lemma ListenerApart(s: State, a: Action)
    requires Enabled(s, a) && OfListenerTask(a)
    ensures Step(s, a).slots == s.slots && Step(s, a).handler == s.handler
  {}

  lemma HandlerSlots(s: State, a: Action)
    requires Enabled(s, a)
    ensures |Step(s, a).slots| == PACKETS_GROUPS_NUM
  {}

  lemma OwnClean(s: System, a: Action)
    requires SystemInv(s) && Can(s, Own(a))
    ensures QueuesClean(Next(s, Own(a)))
  {
    hide Inv;
    HandlerSlots(s.conn, a);
    var t := Next(s, Own(a));
    assert forall x: Obj :: Out(t, x) == Out(s, x);
    if OfListenerTask(a) {
      ListenerApart(s.conn, a);
      hide Step;
    } else {
      assert forall x: Obj :: Out(s, x) == [];
      hide Step;
    }
  }

  lemma BeginClean(s: System, i: nat)
    requires SystemInv(s) && Can(s, Begin(i))
    ensures QueuesClean(Next(s, Begin(i)))
  {
    var t := Next(s, Begin(i));
    assert i == 0;
    hide Inv;
    assert forall x: Obj :: Out(t, x) == Out(s, x) == [];
  }

  lemma HandleClean(s: System, n: nat)
    requires SystemInv(s) && Can(s, Handle(n))
    ensures QueuesClean(Next(s, Handle(n)))
  {
    hide Inv;
    var t, y := Next(s, Handle(n)), s.visit.value.x;
    assert forall x: Obj :: x != y ==> Out(t, x) == Out(s, x);
    assert Out(s, y) == [] && Out(t, y) == Out(s, y) + Copies(s.visit.value.session, n);
  }

  lemma SendOneClean(s: System)
    requires SystemInv(s) && Can(s, SendOne)
    ensures QueuesClean(Next(s, SendOne))
  {
    hide Inv;
    var t, y := Next(s, SendOne), s.visit.value.x;
    assert forall x: Obj :: x != y ==> Out(t, x) == Out(s, x);
    assert Out(s, y) == [Out(s, y)[0]] + Out(t, y);
    assert Out(s, y)[0] in Out(s, y) && forall z :: z in Out(t, y) ==> z in Out(s, y);
    assert forall i :: 0 <= i < |t.sent| ==> t.sent[i].to == t.sent[i].madeFor;
  }

  lemma EndDrainClean(s: System)
    requires SystemInv(s) && Can(s, EndDrain)
    ensures QueuesClean(Next(s, EndDrain))
  {
    hide Inv;
    var t := Next(s, EndDrain);
    assert forall x: Obj :: Out(t, x) == Out(s, x);
  }

  lemma NextInv(s: System, e: Event)
    requires SystemInv(s) && Can(s, e)
    ensures SystemInv(Next(s, e))
    ensures Next(s, e).conn.pool.max == s.conn.pool.max
  {
    hide Inv, QueuesClean, Step;
    match e
    case Own(a) =>
      StepInv(s.conn, a);
      OwnClean(s, a);
    case Begin(i) => BeginClean(s, i);
    case Handle(n) => HandleClean(s, n);
    case SendOne => SendOneClean(s);
    case EndDrain => EndDrainClean(s);
  }

  /** A connection that is accepted gets a number that no object has had. */
  lemma NewNumber(s: System)
    requires SystemInv(s) && Can(s, Own(Fill))
    ensures var t, x := Next(s, Own(Fill)), s.conn.listener.x;
            && t.accepted == s.accepted + 1 && x in t.session && t.session[x] == s.accepted
            && forall y :: y in s.session ==> s.session[y] < t.session[x]
  {
    hide Inv, Step;
  }

  // ---------------------------------------------------------- All interleavings

  function History(max: nat, releaseRejected: bool, events: seq<Event>): Option<System> {
    if |events| == 0 then Some(Begun(max, releaseRejected))
    else
      var s :- History(max, releaseRejected, events[..|events| - 1]);
      if Can(s, events[|events| - 1]) then Some(Next(s, events[|events| - 1])) else None
  }

  lemma {:induction false} HistoryInv(max: nat, releaseRejected: bool, events: seq<Event>)
    requires max > 0 && History(max, releaseRejected, events).Some?
    ensures SystemInv(History(max, releaseRejected, events).value)
  {
    hide SystemInv, Next, Can;
    if |events| == 0 {
      BegunInv(max, releaseRejected);
    } else {
      HistoryInv(max, releaseRejected, events[..|events| - 1]);
      NextInv(History(max, releaseRejected, events[..|events| - 1]).value, events[|events| - 1]);
    }
  }

  /** In every interleaving: an object in the pool, waiting in the queue, lost, or in the hands of
      either task carries no answers, so no connection ever begins with its predecessor's; and
      every answer is sent to the connection whose message it answers. */
  lemma NoInheritedAnswers(max: nat, releaseRejected: bool, events: seq<Event>)
    requires max > 0 && History(max, releaseRejected, events).Some?
    ensures var s := History(max, releaseRejected, events).value;
            && |s.conn.slots| == PACKETS_GROUPS_NUM
            && (forall x: Obj :: s.conn.slots[0] != Some(x) ==> Out(s, x) == [])
            && (forall x :: x in s.conn.pool.free || x in s.conn.queue || x in s.conn.lost ==> Out(s, x) == [])
            && (!s.conn.listener.Accepting? ==> Out(s, s.conn.listener.x) == [])
            && (!s.conn.handler.WaitingFirst? && !s.conn.handler.Looping? ==> Out(s, s.conn.handler.x) == [])
            && (s.visit.None? ==> forall x: Obj :: Out(s, x) == [])
            && (forall i :: 0 <= i < |s.sent| ==> s.sent[i].to == s.sent[i].madeFor)
            && (forall x, y :: x in s.session && y in s.session && x != y ==> s.session[x] != s.session[y])
  {
    HistoryInv(max, releaseRejected, events);
    hide History;
    var s := History(max, releaseRejected, events).value;
    if s.conn.slots[0].Some? { SlotAlone(s.conn); }
  }

  /** The object in the control slot is nowhere else. */
  lemma SlotAlone(s: State)
    requires Conserved(s) && s.slots[0].Some?
    ensures var x := s.slots[0].value;
            && x !in s.pool.free && x !in s.queue && x !in s.lost
            && (!s.listener.Accepting? ==> s.listener.x != x)
            && (!s.handler.WaitingFirst? && !s.handler.Looping? ==> s.handler.x != x)
  {
    assert Places(s)[s.slots[0].value] <= 1;
  }
}
