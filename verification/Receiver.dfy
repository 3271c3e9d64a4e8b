/** `recv_nbytes` and `recv_packet`: reassembling packets from a non-blocking socket. */
module Receiver {
  import opened Bits
  import opened Packets
  import opened Results

  const EAGAIN: i16 := -11

  /** What a socket will deliver: pieces of the byte stream, "try again" results, or an error
      that stays. When nothing is left the peer has closed and `recv` returns 0. */
  datatype Event = Data(bytes: seq<u8>) | Again | Failed(code: i16)

  predicate ValidEvent(e: Event) {
    && (e.Data? ==> 0 < |e.bytes| < 0x8000)
    && (e.Failed? ==> e.code < 0 && e.code != EAGAIN)
  }

  predicate ValidEvents(events: seq<Event>) {
    forall i :: 0 <= i < |events| ==> ValidEvent(events[i])
  }

  /** The bytes the socket can still deliver. */
  function Bytes(events: seq<Event>): seq<u8> {
    if |events| == 0 then []
    else match events[0]
      case Data(bytes) => bytes + Bytes(events[1..])
      case Again => Bytes(events[1..])
      case Failed(_) => []
  }

  /** How the stream ends: 0 for a closed connection, or the error. */
  function Ending(events: seq<Event>): (code: i16) {
    if |events| == 0 then 0
    else match events[0]
      case Failed(code) => code
      case _ => Ending(events[1..])
  }

  // -------------------------------------------------- What the receive loop does

  datatype Reception = Reception(status: i16, chunks: seq<seq<u8>>, rest: seq<Event>)

  /** The chunks that a loop asking for n bytes gets, its status, and what is left. A closed
      connection ends the loop with status 0. */
  function Receive(events: seq<Event>, n: nat): Reception {
    if n == 0 then Reception(0, [], events)
    else if |events| == 0 then Reception(0, [], [])
    else match events[0]
      case Again => Receive(events[1..], n)
      case Failed(code) => Reception(code, [], events)
      case Data(bytes) =>
        if |bytes| <= n then
          var r := Receive(events[1..], n - |bytes|);
          r.(chunks := [bytes] + r.chunks)
        else Reception(0, [bytes[..n]], [Data(bytes[n..])] + events[1..])
  }

  function Concat(chunks: seq<seq<u8>>): seq<u8> {
    if |chunks| == 0 then [] else chunks[0] + Concat(chunks[1..])
  }

  /** Every chunk written to the front of the buffer, the last one on top. */
  function Overlay(buf: seq<u8>, chunks: seq<seq<u8>>): (r: seq<u8>)
    requires forall i :: 0 <= i < |chunks| ==> |chunks[i]| <= |buf|
    ensures |r| == |buf|
    decreases |chunks|
  {
    if |chunks| == 0 then buf
    else Overlay(chunks[0] + buf[|chunks[0]|..], chunks[1..])
  }

  /** Chunking does not matter: n bytes are the next n bytes of the stream, and when fewer
      are left all of them arrive before the loop ends as the stream does. */
  lemma {:induction false} ReceiveIsStream(events: seq<Event>, n: nat)
    requires ValidEvents(events)
    ensures var r, stream := Receive(events, n), Bytes(events);
            && ValidEvents(r.rest)
            && (n <= |stream| ==>
                  r.status == 0 && Concat(r.chunks) == stream[..n] && Bytes(r.rest) == stream[n..])
            && (n > |stream| ==>
                  r.status == Ending(events) && Concat(r.chunks) == stream && Bytes(r.rest) == [])
            && Ending(r.rest) == Ending(events)
  {
    if n > 0 && |events| > 0 {
      match events[0]
      case Again => ReceiveIsStream(events[1..], n);
      case Failed(_) =>
      case Data(bytes) =>
        if |bytes| <= n {
          ReceiveIsStream(events[1..], n - |bytes|);
        } else {
          var rest := [Data(bytes[n..])] + events[1..];
          assert rest[1..] == events[1..];
          assert Concat([bytes[..n]]) == bytes[..n] by { assert [bytes[..n]][1..] == []; }
        }
    }
  }

  /** What one `recv` call takes from a data event, and what it leaves. */
  function Taken(bytes: seq<u8>, n: nat): (r: seq<u8>)
    ensures |r| <= n
    ensures n > 0 && |bytes| > 0 ==> |r| > 0
  {
    if |bytes| <= n then bytes else bytes[..n]
  }

  function Left(events: seq<Event>, n: nat): seq<Event>
    requires |events| > 0 && events[0].Data?
  {
    (if |events[0].bytes| <= n then [] else [Data(events[0].bytes[n..])]) + events[1..]
  }

  /** One `recv` inside the loop. */
  lemma ReceiveOnce(events: seq<Event>, n: nat)
    requires n > 0 && |events| > 0 && events[0].Data?
    ensures var piece := Taken(events[0].bytes, n);
            var after := Receive(Left(events, n), n - |piece|);
            Receive(events, n) == after.(chunks := [piece] + after.chunks)
  {
    if |events[0].bytes| <= n {
      assert [] + events[1..] == events[1..];
    }
  }

  class Socket {
    var events: seq<Event>

    constructor (events: seq<Event>)
      ensures this.events == events
    {
      this.events := events;
    }

    /** Non-blocking `recv` of up to n bytes into `buf` from `offset` on. */
    method Recv(buf: array<u8>, offset: nat, n: i16) returns (count: i16)
      requires ValidEvents(events) && n > 0
      requires |events| > 0 && events[0].Data? ==> offset + |Taken(events[0].bytes, n)| <= buf.Length
      modifies this, buf
      ensures ValidEvents(events)
      ensures |old(events)| == 0 ==> count == 0 && events == [] && buf[..] == old(buf[..])
      ensures |old(events)| > 0 ==>
        match old(events)[0]
        case Again => count == -11 && events == old(events)[1..] && buf[..] == old(buf[..])
        case Failed(code) => count == code && events == old(events) && buf[..] == old(buf[..])
        case Data(bytes) =>
          && count == |Taken(bytes, n)| && events == Left(old(events), n)
          && buf[..] == old(buf[..])[..offset] + Taken(bytes, n) + old(buf[..])[offset + count..]
    {
      if |events| == 0 {
        return 0;
      }
      match events[0]
      case Again =>
        events := events[1..];
        return EAGAIN;
      case Failed(code) =>
        return code;
      case Data(bytes) =>
        count := if |bytes| <= n then |bytes| else n;
        forall i | 0 <= i < count { buf[offset + i] := bytes[i]; }
        events := (if |bytes| <= n then [] else [Data(bytes[n..])]) + events[1..];
    }
  }

  /** Enough for every iteration of the receive loop. */
  function Work(events: seq<Event>): nat {
    if |events| == 0 then 0
    else (match events[0] case Data(bytes) => 1 + |bytes| case _ => 1) + Work(events[1..])
  }

  /** The loop has had the chunks `got` so far and will end as `goal` says. */
  ghost predicate OnCourse(events: seq<Event>, remaining: nat, got: seq<seq<u8>>, goal: Reception) {
    var r := Receive(events, remaining);
    r.status == goal.status && r.rest == goal.rest && got + r.chunks == goal.chunks
  }

  lemma CourseEnds(events: seq<Event>, remaining: nat, got: seq<seq<u8>>, goal: Reception)
    requires OnCourse(events, remaining, got, goal)
    requires remaining == 0 || |events| == 0 || events[0].Failed?
    ensures got == goal.chunks && goal.rest == events
    ensures goal.status == if remaining > 0 && |events| > 0 then events[0].code else 0
  {}

  lemma CourseStep(events: seq<Event>, remaining: nat, got: seq<seq<u8>>, goal: Reception)
    requires OnCourse(events, remaining, got, goal) && remaining > 0 && |events| > 0
    ensures events[0].Again? ==>
      OnCourse(events[1..], remaining, got, goal) && Work(events[1..]) < Work(events)
    ensures events[0].Data? ==>
      var piece := Taken(events[0].bytes, remaining);
      OnCourse(Left(events, remaining), remaining - |piece|, got + [piece], goal)
  {
    if events[0].Data? {
      ReceiveOnce(events, remaining);
      var piece := Taken(events[0].bytes, remaining);
      var after := Receive(Left(events, remaining), remaining - |piece|);
      assert (got + [piece]) + after.chunks == got + ([piece] + after.chunks);
    }
  }

  lemma {:induction false} ConcatAppend(chunks: seq<seq<u8>>, c: seq<u8>)
    ensures Concat(chunks + [c]) == Concat(chunks) + c
  {
    if |chunks| == 0 {
      assert (chunks + [c])[1..] == [];
    } else {
      assert (chunks + [c])[1..] == chunks[1..] + [c];
      ConcatAppend(chunks[1..], c);
    }
  }

  lemma {:induction false} OverlayAppend(buf: seq<u8>, chunks: seq<seq<u8>>, c: seq<u8>)
    requires forall i :: 0 <= i < |chunks| ==> |chunks[i]| <= |buf|
    requires |c| <= |buf|
    ensures Overlay(buf, chunks + [c]) == c + Overlay(buf, chunks)[|c|..]
    decreases |chunks|
  {
    if |chunks| == 0 {
      assert (chunks + [c])[1..] == [];
    } else {
      assert (chunks + [c])[1..] == chunks[1..] + [c];
      OverlayAppend(chunks[0] + buf[|chunks[0]|..], chunks[1..], c);
    }
  }

  /** What is asked for, or else what will come, fits the room there is. */
  predicate Fits(events: seq<Event>, n: nat, room: nat) {
    n <= room || |Bytes(events)| <= room
  }

  /** A piece is taken off the front of the stream. */
  lemma {:induction false} BytesLeft(events: seq<Event>, n: nat)
    requires |events| > 0 && n > 0
    ensures events[0].Again? ==> Bytes(events[1..]) == Bytes(events)
    ensures events[0].Data? ==> Taken(events[0].bytes, n) + Bytes(Left(events, n)) == Bytes(events)
  {
    if events[0].Data? {
      var bytes := events[0].bytes;
      if |bytes| <= n {
        assert Left(events, n) == events[1..];
      } else {
        var left := [Data(bytes[n..])] + events[1..];
        assert left[1..] == events[1..];
        assert Bytes(left) == bytes[n..] + Bytes(events[1..]);
        hide Bytes;
        assert bytes == bytes[..n] + bytes[n..];
      }
    }
  }

  /** The same inside the loop, after `done` bytes. */
  predicate StillFits(done: nat, events: seq<Event>, remaining: nat, room: nat) {
    done + remaining <= room || done + |Bytes(events)| <= room
  }

  lemma FitsStep(done: nat, events: seq<Event>, remaining: nat, room: nat)
    requires |events| > 0 && remaining > 0 && StillFits(done, events, remaining, room)
    ensures events[0].Again? ==> StillFits(done, events[1..], remaining, room)
    ensures events[0].Data? ==>
      var piece := Taken(events[0].bytes, remaining);
      done + |piece| <= room && StillFits(done + |piece|, Left(events, remaining), remaining - |piece|, room)
  {
    BytesLeft(events, remaining);
    hide Bytes, Left, Taken;
  }

  /** The chunks are in the buffer, one behind the other. */
  ghost predicate Filled(buf: seq<u8>, got: seq<seq<u8>>, buf0: seq<u8>) {
    |Concat(got)| <= |buf0| && buf == Concat(got) + buf0[|Concat(got)|..]
  }

  lemma FilledStep(buf: seq<u8>, after: seq<u8>, got: seq<seq<u8>>, piece: seq<u8>, buf0: seq<u8>)
    requires Filled(buf, got, buf0) && |Concat(got)| + |piece| <= |buf0|
    requires after == buf[..|Concat(got)|] + piece + buf[|Concat(got)| + |piece|..]
    ensures Filled(after, got + [piece], buf0) && |Concat(got + [piece])| == |Concat(got)| + |piece|
  {
    ConcatAppend(got, piece);
    hide Concat;
  }

  lemma NothingFilled(buf0: seq<u8>)
    ensures Filled(buf0, [], buf0) && Concat([]) == []
  {}

  lemma EverythingFits(events: seq<Event>, n: nat, room: nat)
    requires Fits(events, n, room)
    ensures StillFits(0, events, n, room)
  {}

  /** The loop of `recv_nbytes` has put the chunks `got` into the buffer and is on course. */
  ghost predicate Receiving(events: seq<Event>, buf: seq<u8>, done: nat, remaining: nat,
                            got: seq<seq<u8>>, goal: Reception, buf0: seq<u8>) {
    && ValidEvents(events) && OnCourse(events, remaining, got, goal)
    && |Concat(got)| == done && StillFits(done, events, remaining, |buf|) && Filled(buf, got, buf0)
  }

  /** One `recv` behind the `done` bytes that are already there. */
  method ReceiveMore(socket: Socket, buf: array<u8>, done: nat, remaining: i16,
                     ghost got: seq<seq<u8>>, ghost goal: Reception, ghost buf0: seq<u8>)
    returns (count: i16, ghost got': seq<seq<u8>>)
    requires remaining > 0 && Receiving(socket.events, buf[..], done, remaining, got, goal, buf0)
    modifies socket, buf
    ensures count > 0 ==>
      && count <= remaining
      && Receiving(socket.events, buf[..], done + count, remaining - count, got', goal, buf0)
    ensures count == EAGAIN ==>
      && Receiving(socket.events, buf[..], done, remaining, got', goal, buf0)
      && Work(socket.events) < Work(old(socket.events))
    ensures count <= 0 && count != EAGAIN ==>
      && ValidEvents(socket.events) && Filled(buf[..], got', buf0) && |Concat(got')| == done
      && got' == goal.chunks && goal.rest == socket.events && goal.status == count
  {
    hide Receive, OnCourse, Work, Taken, Left, Bytes, Concat, StillFits, Filled;
    ghost var events, before := socket.events, buf[..];
    got' := got;
    if |events| > 0 {
      CourseStep(events, remaining, got, goal);
      FitsStep(done, events, remaining, buf.Length);
    }
    if |events| == 0 || events[0].Failed? {
      CourseEnds(events, remaining, got, goal);
    }
    FilledLength(before, got, buf0);
    count := socket.Recv(buf, done, remaining);
    if count > 0 {
      ghost var piece := Taken(events[0].bytes, remaining);
      FilledStep(before, buf[..], got, piece, buf0);
      got' := got + [piece];
    }
  }

  lemma FilledLength(buf: seq<u8>, got: seq<seq<u8>>, buf0: seq<u8>)
    requires Filled(buf, got, buf0)
    ensures |buf| == |buf0|
  {}

  /** `recv_nbytes` with the buffer pointer advanced. */
  method RecvNBytes(socket: Socket, buf: array<u8>, n: u16) returns (status: i16)
    requires ValidEvents(socket.events) && n < 0x8000 && Fits(socket.events, n, buf.Length)
    modifies socket, buf
    ensures ValidEvents(socket.events)
    ensures var r := Receive(old(socket.events), n);
            && status == r.status && socket.events == r.rest
            && |Concat(r.chunks)| <= n && |Concat(r.chunks)| <= buf.Length
            && buf[..] == Concat(r.chunks) + old(buf[..])[|Concat(r.chunks)|..]
  {
    hide Receive, OnCourse, Work, Taken, Left, Bytes, Concat, StillFits;
    var remaining: i16 := n;
    ghost var got: seq<seq<u8>> := [];
    ghost var buf0 := buf[..];
    ghost var goal := Receive(socket.events, n);
    CourseStarts(socket.events, n);
    NothingFilled(buf0);
    EverythingFits(socket.events, n, buf.Length);
    while remaining != 0
      invariant 0 <= remaining <= n
      invariant Receiving(socket.events, buf[..], n - remaining, remaining, got, goal, buf0)
      decreases remaining, Work(socket.events)
    {
      var count;
      count, got := ReceiveMore(socket, buf, n - remaining, remaining, got, goal, buf0);
      if count > 0 {
        remaining := remaining - count;
      } else if count != EAGAIN {
        return count;
      }
    }
    CourseEnds(socket.events, remaining, got, goal);
    return 0;
  }

  /** `recv_nbytes` as written: every `recv` writes to the start of the buffer. */
  method RecvNBytesAsWritten(socket: Socket, buf: array<u8>, n: u16) returns (status: i16)
    requires ValidEvents(socket.events) && n <= buf.Length && n < 0x8000
    modifies socket, buf
    ensures ValidEvents(socket.events)
    ensures var r := Receive(old(socket.events), n);
            && status == r.status && socket.events == r.rest
            && (forall i :: 0 <= i < |r.chunks| ==> |r.chunks[i]| <= buf.Length)
            && buf[..] == Overlay(old(buf[..]), r.chunks)
  {
    hide Receive, OnCourse, Work, Taken, Left;
    var remaining: i16 := n;
    ghost var got: seq<seq<u8>> := [];
    ghost var buf0 := buf[..];
    ghost var goal := Receive(socket.events, n);
    CourseStarts(socket.events, n);
    while remaining != 0
      invariant 0 <= remaining <= n
      invariant ValidEvents(socket.events) && OnCourse(socket.events, remaining, got, goal)
      invariant forall i :: 0 <= i < |got| ==> |got[i]| <= |buf0|
      invariant buf[..] == Overlay(buf0, got)
      decreases remaining, Work(socket.events)
    {
      ghost var events := socket.events;
      if |events| > 0 { CourseStep(events, remaining, got, goal); }
      var count := socket.Recv(buf, 0, remaining);
      if count > 0 {
        OverlayAppend(buf0, got, Taken(events[0].bytes, remaining));
        got := got + [Taken(events[0].bytes, remaining)];
        remaining := remaining - count;
      } else if count != EAGAIN {
        CourseEnds(socket.events, remaining, got, goal);
        return count;
      }
    }
    CourseEnds(socket.events, remaining, got, goal);
    return 0;
  }

  lemma CourseStarts(events: seq<Event>, n: nat)
    ensures OnCourse(events, n, [], Receive(events, n)) && Concat([]) == []
  {
    assert [] + Receive(events, n).chunks == Receive(events, n).chunks;
  }

  // ------------------------------------------ When the as-written loop is right

  function Total(sizes: seq<nat>): nat {
    if |sizes| == 0 then 0 else sizes[0] + Total(sizes[1..])
  }

  predicate Sized(chunks: seq<seq<u8>>, sizes: seq<nat>) {
    |chunks| == |sizes| && forall i :: 0 <= i < |sizes| ==> |chunks[i]| == sizes[i]
  }

  lemma {:induction false} ConcatLength(chunks: seq<seq<u8>>, sizes: seq<nat>)
    requires Sized(chunks, sizes)
    ensures |Concat(chunks)| == Total(sizes)
  {
    if |chunks| > 0 { ConcatLength(chunks[1..], sizes[1..]); }
  }

  lemma {:induction false} PartOfTotal(sizes: seq<nat>, i: nat)
    requires i < |sizes| && forall j :: 0 <= j < |sizes| ==> sizes[j] > 0
    ensures sizes[i] <= Total(sizes)
    ensures |sizes| > 1 ==> sizes[i] < Total(sizes)
  {
    if i > 0 {
      PartOfTotal(sizes[1..], i - 1);
    } else if |sizes| > 1 {
      assert sizes[1..][0] == sizes[1];
    }
  }

  /** Positions past every chunk keep what the buffer held before. */
  lemma {:induction false} OverlayKeeps(buf: seq<u8>, chunks: seq<seq<u8>>, p: nat)
    requires p < |buf| && forall i :: 0 <= i < |chunks| ==> |chunks[i]| <= p
    ensures Overlay(buf, chunks)[p] == buf[p]
    decreases |chunks|
  {
    if |chunks| > 0 {
      OverlayKeeps(chunks[0] + buf[|chunks[0]|..], chunks[1..], p);
    }
  }

  /** The buffer is right for every contents that could arrive in pieces of these sizes. */
  ghost predicate AlwaysRight(buf: seq<u8>, sizes: seq<nat>)
    requires forall i :: 0 <= i < |sizes| ==> sizes[i] <= |buf|
    requires Total(sizes) <= |buf|
  {
    forall chunks: seq<seq<u8>> :: Sized(chunks, sizes) ==> Overlay(buf, chunks)[..Total(sizes)] == Concat(chunks)
  }

  lemma OnePieceIsRight(buf: seq<u8>, chunks: seq<seq<u8>>)
    requires |chunks| == 1 && |chunks[0]| <= |buf|
    ensures Concat(chunks) == chunks[0] == Overlay(buf, chunks)[..|chunks[0]|]
  {
    assert chunks[1..] == [];
    assert Overlay(buf, chunks) == chunks[0] + buf[|chunks[0]|..];
  }

  /** Contents that arrive wrong when there is more than one piece. */
  lemma SeveralPiecesGoWrong(buf: seq<u8>, sizes: seq<nat>) returns (chunks: seq<seq<u8>>)
    requires |sizes| > 1 && forall i :: 0 <= i < |sizes| ==> 0 < sizes[i] <= |buf|
    requires Total(sizes) <= |buf|
    ensures Sized(chunks, sizes) && Overlay(buf, chunks)[..Total(sizes)] != Concat(chunks)
  {
    PartOfTotal(sizes, 0);
    var last := Total(sizes) - 1;
    var other: u8 := if buf[last] == 0 then 1 else 0;
    chunks := seq(|sizes|, i requires 0 <= i < |sizes| => seq(sizes[i], _ => other));
    forall i | 0 <= i < |sizes| ensures |chunks[i]| <= last { PartOfTotal(sizes, i); }
    OverlayKeeps(buf, chunks, last);
    ConstantConcat(chunks, other);
    ConcatLength(chunks, sizes);
    assert Concat(chunks)[last] == other;
    assert Overlay(buf, chunks)[..Total(sizes)][last] == buf[last];
  }

  /** As written, a message is received right, whatever it says, exactly when it arrives in
      one piece. */
  lemma AsWrittenRightIff(buf: seq<u8>, sizes: seq<nat>)
    requires |sizes| > 0 && forall i :: 0 <= i < |sizes| ==> 0 < sizes[i] <= |buf|
    requires Total(sizes) <= |buf|
    ensures AlwaysRight(buf, sizes) <==> |sizes| == 1
  {
    if |sizes| == 1 {
      assert sizes[1..] == [] && Total(sizes) == sizes[0];
      forall chunks: seq<seq<u8>> | Sized(chunks, sizes)
        ensures Overlay(buf, chunks)[..Total(sizes)] == Concat(chunks)
      {
        OnePieceIsRight(buf, chunks);
      }
    } else {
      var chunks := SeveralPiecesGoWrong(buf, sizes);
    }
  }

  lemma {:induction false} ConstantConcat(chunks: seq<seq<u8>>, b: u8)
    requires forall i, j :: 0 <= i < |chunks| && 0 <= j < |chunks[i]| ==> chunks[i][j] == b
    ensures forall p :: 0 <= p < |Concat(chunks)| ==> Concat(chunks)[p] == b
  {
    if |chunks| > 0 { ConstantConcat(chunks[1..], b); }
  }

  // ------------------------------------------------------------ Whole packets

  lemma ReceiveBound(events: seq<Event>, n: nat)
    requires ValidEvents(events)
    ensures |Concat(Receive(events, n).chunks)| <= n
    ensures Receive(events, n).status <= 0
  {
    ReceiveIsStream(events, n);
    EndingSign(events);
  }

  lemma {:induction false} EndingSign(events: seq<Event>)
    requires ValidEvents(events)
    ensures Ending(events) <= 0
  {
    if |events| > 0 { EndingSign(events[1..]); }
  }

  function RawAfter(raw: seq<u8>, events: seq<Event>): (r: seq<u8>)
    requires IsHeader(raw) && ValidEvents(events)
    ensures IsHeader(r)
  {
    ReceiveBound(events, PL_PACKET_HEADER_SIZE);
    Over(raw, Concat(Receive(events, PL_PACKET_HEADER_SIZE).chunks))
  }

  /** The body of the frame that comes next fits `packet_data`. The header check accepts frames of
      1025 to 1029 bytes, which would not unless the stream ends before. */
  predicate BodyFits(raw: seq<u8>, events: seq<Event>)
    requires IsHeader(raw) && ValidEvents(events)
  {
    Receive(events, PL_PACKET_HEADER_SIZE).status >= 0 && ParsesOk(RawAfter(raw, events)) ==>
      Fits(Receive(events, PL_PACKET_HEADER_SIZE).rest, SizeOf(RawAfter(raw, events)), PACKET_DATA_SIZE)
  }

  datatype Delivery = Delivery(status: i16, memory: Contents, rest: seq<Event>)

  /** What one call of `recv_packet` does. */
  function Deliver(m: Contents, events: seq<Event>): (d: Delivery)
    requires ValidEvents(events) && BodyFits(m.raw, events)
    ensures ValidEvents(d.rest)
  {
    ReceiveIsStream(events, PL_PACKET_HEADER_SIZE);
    var head := Receive(events, PL_PACKET_HEADER_SIZE);
    var raw := RawAfter(m.raw, events);
    if head.status < 0 then Delivery(head.status, m.(raw := raw), head.rest)
    else
      var header := AfterParse(raw, m.header);
      if !ParsesOk(raw) then Delivery(ParseStatus(raw), Contents(raw, m.data, header), head.rest)
      else
        ReceiveIsStream(head.rest, SizeOf(raw));
        ReceiveBound(head.rest, SizeOf(raw));
        var body := Receive(head.rest, SizeOf(raw));
        Delivery(body.status, Contents(raw, Over(m.data, Concat(body.chunks)), header), body.rest)
  }

  /** `recv_packet`, over the corrected `recv_nbytes`. */
  method RecvPacket(socket: Socket, packet: Packet) returns (status: i16)
    requires packet.Valid() && ValidEvents(socket.events)
    requires BodyFits(packet.raw[..], socket.events)
    modifies socket, packet`header, packet.raw, packet.data
    ensures packet.Valid()
    ensures var d := Deliver(old(packet.Now()), old(socket.events));
            && status == d.status && socket.events == d.rest
            && packet.Now() == d.memory
  {
    hide Receive, Concat, TypeOf, GroupOf;
    status := RecvNBytes(socket, packet.raw, PL_PACKET_HEADER_SIZE);
    ReceiveBound(old(socket.events), PL_PACKET_HEADER_SIZE);
    assert packet.raw[..] == RawAfter(old(packet.raw[..]), old(socket.events));
    assert packet.data[..] == old(packet.data[..]);
    if status < 0 {
      return status;
    }
    var header;
    status, header := ParseHeader(packet.raw, packet.header);
    packet.header := header;
    if status < 0 {
      return status;
    }
    var size := packet.header.dataSize;
    if size > 0 {
      status := RecvNBytes(socket, packet.data, size);
    } else {
      ReceiveNothing(socket.events, packet.data[..]);
    }
  }

  lemma ReceiveNothing(events: seq<Event>, buf: seq<u8>)
    ensures Receive(events, 0) == Reception(0, [], events)
    ensures Over(buf, Concat([])) == buf
  {}

  // ------------------------------------------------------------------ Streams

  /** A frame that `recv_packet` accepts. */
  predicate Acceptable(f: WireFrame) {
    IsHeader(f.raw) && ParsesOk(f.raw) && |f.body| == SizeOf(f.raw) <= PACKET_DATA_SIZE
  }

  predicate AllAcceptable(frames: seq<WireFrame>) {
    forall i :: 0 <= i < |frames| ==> Acceptable(frames[i])
  }

  /** The packet memory after the frame has been received into it. */
  function Holding(m: Contents, f: WireFrame): Contents
    requires Acceptable(f)
  {
    Contents(f.raw, f.body + m.data[|f.body|..], Parsed(f.raw))
  }

  function Encoded(frames: seq<WireFrame>): seq<u8> {
    if |frames| == 0 then [] else frames[0].raw + frames[0].body + Encoded(frames[1..])
  }

  /** However the stream is cut up, the next frame arrives whole and exactly its 5 + size
      bytes are consumed. */
  lemma DeliverFrame(m: Contents, events: seq<Event>, f: WireFrame, after: seq<u8>)
    requires ValidEvents(events) && Acceptable(f)
    requires Bytes(events) == f.raw + f.body + after
    ensures BodyFits(m.raw, events)
    ensures var d := Deliver(m, events);
            && d.status == 0 && Bytes(d.rest) == after && Ending(d.rest) == Ending(events)
            && d.memory == Holding(m, f)
  {
    ReceiveIsStream(events, PL_PACKET_HEADER_SIZE);
    var head := Receive(events, PL_PACKET_HEADER_SIZE);
    assert Bytes(events)[..PL_PACKET_HEADER_SIZE] == f.raw;
    assert Bytes(events)[PL_PACKET_HEADER_SIZE..] == f.body + after;
    assert RawAfter(m.raw, events) == f.raw;
    ReceiveIsStream(head.rest, |f.body|);
    assert (f.body + after)[..|f.body|] == f.body;
    assert (f.body + after)[|f.body|..] == after;
  }

  /** A header that is not accepted ends the call with its status; its five bytes are consumed, and
      of the body nothing is, nor is the packet's data touched. */
  lemma RejectedHeader(m: Contents, events: seq<Event>, raw: seq<u8>, after: seq<u8>)
    requires ValidEvents(events) && IsHeader(raw) && !ParsesOk(raw) && Bytes(events) == raw + after
    ensures BodyFits(m.raw, events)
    ensures var d := Deliver(m, events);
            && d.status == (if raw[0] != 0x1B then -1 else if SizeOf(raw) > 1029 then -2 else -3)
            && Bytes(d.rest) == after && d.memory.raw == raw && d.memory.data == m.data
            && d.memory.header == m.header.(group := d.memory.header.group)
  {
    hide TypeOf, GroupOf;
    ReceiveIsStream(events, PL_PACKET_HEADER_SIZE);
    assert Bytes(events)[..PL_PACKET_HEADER_SIZE] == raw;
    assert Bytes(events)[PL_PACKET_HEADER_SIZE..] == after;
    assert RawAfter(m.raw, events) == raw;
  }

  /** An error before the header is complete ends the call with that error; record and data of the
      packet are as before. */
  lemma BrokenHeader(m: Contents, events: seq<Event>)
    requires ValidEvents(events) && |Bytes(events)| < PL_PACKET_HEADER_SIZE && Ending(events) < 0
    ensures BodyFits(m.raw, events)
    ensures var d := Deliver(m, events);
            && d.status == Ending(events) && Bytes(d.rest) == []
            && d.memory.data == m.data && d.memory.header == m.header
            && d.memory.raw == Bytes(events) + m.raw[|Bytes(events)|..]
  {
    ReceiveIsStream(events, PL_PACKET_HEADER_SIZE);
  }

  /** When the stream ends inside the body, the call ends as the stream does, with 0 for a closed
      connection; the packet has the header, and the part of the body over its old data. */
  lemma ShortBody(m: Contents, events: seq<Event>, raw: seq<u8>, part: seq<u8>)
    requires ValidEvents(events) && IsHeader(raw) && ParsesOk(raw) && Bytes(events) == raw + part
    requires |part| < SizeOf(raw) && |part| <= PACKET_DATA_SIZE
    ensures BodyFits(m.raw, events)
    ensures Deliver(m, events).status == Ending(events)
    ensures Deliver(m, events).memory == Contents(raw, part + m.data[|part|..], Parsed(raw))
  {
    hide TypeOf, GroupOf;
    ReceiveIsStream(events, PL_PACKET_HEADER_SIZE);
    assert Bytes(events)[..PL_PACKET_HEADER_SIZE] == raw;
    assert Bytes(events)[PL_PACKET_HEADER_SIZE..] == part;
    assert RawAfter(m.raw, events) == raw;
    ReceiveIsStream(Receive(events, PL_PACKET_HEADER_SIZE).rest, SizeOf(raw));
  }

  /** Receiving into one packet after the other. */
  function DeliverAll(packets: seq<Contents>, events: seq<Event>): Option<(seq<Contents>, seq<Event>)>
    requires ValidEvents(events)
  {
    if |packets| == 0 then Some(([], events))
    else
      if !BodyFits(packets[0].raw, events) then None
      else
        var d := Deliver(packets[0], events);
        if d.status < 0 then None
        else
          var (ms, rest) :- DeliverAll(packets[1..], d.rest);
          Some(([d.memory] + ms, rest))
  }

  lemma DeliverAllNext(packets: seq<Contents>, events: seq<Event>)
    requires ValidEvents(events) && |packets| > 0
    requires BodyFits(packets[0].raw, events) && Deliver(packets[0], events).status >= 0
    requires DeliverAll(packets[1..], Deliver(packets[0], events).rest).Some?
    ensures var d := Deliver(packets[0], events);
            var (ms, rest) := DeliverAll(packets[1..], d.rest).value;
            DeliverAll(packets, events) == Some(([d.memory] + ms, rest))
  {
    hide Deliver, BodyFits;
  }

  /** A stream of k accepted frames, in any chunks and with any pauses, yields those k frames
      in any k packets, and nothing of what follows is touched. */
  lemma {:induction false} StreamYieldsFrames(packets: seq<Contents>, events: seq<Event>,
                                              frames: seq<WireFrame>, after: seq<u8>)
    requires ValidEvents(events)
    requires |packets| == |frames| && AllAcceptable(frames)
    requires Bytes(events) == Encoded(frames) + after
    ensures DeliverAll(packets, events).Some?
    ensures var (ms, rest) := DeliverAll(packets, events).value;
            && Bytes(rest) == after && |ms| == |frames|
            && forall i {:trigger ms[i]} :: 0 <= i < |frames| ==> ms[i] == Holding(packets[i], frames[i])
  {
    if |frames| == 0 {
      assert [] + after == after;
    } else {
      hide Receive, Deliver, DeliverAll, Holding, BodyFits, Bytes, Acceptable;
      var f := frames[0];
      var following := Encoded(frames[1..]) + after;
      assert Bytes(events) == f.raw + f.body + following;
      DeliverFrame(packets[0], events, f, following);
      var d := Deliver(packets[0], events);
      StreamYieldsFrames(packets[1..], d.rest, frames[1..], after);
      DeliverAllNext(packets, events);
    }
  }

  /** A packet that `create_packet` prepares is a frame that `recv_packet` accepts exactly when
      the type byte its memory happened to hold is an accepted one. */
  lemma PreparedIsAcceptableIff(raw: seq<u8>, h: PacketHeader, body: seq<u8>)
    requires IsHeader(raw) && |body| == h.dataSize <= PACKET_DATA_SIZE
    ensures Acceptable(WireFrame(Updated(raw, h), body)) <==> TypeOf(raw[2]).Some?
    ensures TypeOf(raw[2]).Some? ==> Parsed(Updated(raw, h)).ptype == TypeOf(raw[2]).value
  {
    if TypeOf(raw[2]).Some? { ParseAfterUpdate(raw, h); }
  }

  /** The call has received the frame: it is the next one in the stream, it is in the packet, and
      what follows it is what is left. */
  ghost predicate Received(m: Contents, events: seq<Event>, f: WireFrame)
    requires ValidEvents(events) && BodyFits(m.raw, events)
  {
    var d := Deliver(m, events);
    && Acceptable(f) && f.raw + f.body <= Bytes(events)
    && d.memory == Holding(m, f) && Bytes(d.rest) == Bytes(events)[|f.raw + f.body|..]
  }

  /** The stream goes on for a whole header and the body that it announces. */
  predicate WholeFrame(stream: seq<u8>) {
    && |stream| >= PL_PACKET_HEADER_SIZE
    && |stream| >= PL_PACKET_HEADER_SIZE + SizeOf(stream[..PL_PACKET_HEADER_SIZE])
  }

  /** A call that succeeds has parsed the header that the packet holds afterwards. */
  lemma SuccessParsed(m: Contents, events: seq<Event>)
    requires ValidEvents(events) && BodyFits(m.raw, events) && Deliver(m, events).status >= 0
    ensures ParsesOk(RawAfter(m.raw, events)) && Receive(events, PL_PACKET_HEADER_SIZE).status == 0
    ensures Fits(Receive(events, PL_PACKET_HEADER_SIZE).rest, SizeOf(RawAfter(m.raw, events)),
                 PACKET_DATA_SIZE)
  {
    hide TypeOf, Receive;
    ReceiveBound(events, PL_PACKET_HEADER_SIZE);
  }

  /** With the whole frame in the stream it has been received, if it fits the packet. */
  lemma WholeFrameReceived(m: Contents, events: seq<Event>)
    requires ValidEvents(events) && BodyFits(m.raw, events) && Deliver(m, events).status >= 0
    requires WholeFrame(Bytes(events))
    ensures exists f :: Received(m, events, f)
  {
    hide TypeOf, GroupOf, Receive, Bytes;
    var stream := Bytes(events);
    var raw := stream[..PL_PACKET_HEADER_SIZE];
    SuccessParsed(m, events);
    ReceiveIsStream(events, PL_PACKET_HEADER_SIZE);
    assert RawAfter(m.raw, events) == raw;
    var end := PL_PACKET_HEADER_SIZE + SizeOf(raw);
    var f := WireFrame(raw, stream[PL_PACKET_HEADER_SIZE..end]);
    assert stream == f.raw + f.body + stream[end..];
    assert Acceptable(f);
    DeliverFrame(m, events, f, stream[end..]);
    assert Received(m, events, f);
  }

  lemma ReceivedIsWhole(m: Contents, events: seq<Event>, f: WireFrame)
    requires ValidEvents(events) && BodyFits(m.raw, events) && Received(m, events, f)
    ensures WholeFrame(Bytes(events))
  {
    hide Deliver, Bytes, TypeOf;
    assert Bytes(events)[..PL_PACKET_HEADER_SIZE] == f.raw;
  }

  /** Success does not mean that a frame was received: a call that succeeds has received one if
      and only if the stream went on to the end of the header and of the body it announces. */
  lemma SuccessReceivesIff(m: Contents, events: seq<Event>)
    requires ValidEvents(events) && BodyFits(m.raw, events) && Deliver(m, events).status >= 0
    ensures (exists f :: Received(m, events, f)) <==> WholeFrame(Bytes(events))
  {
    if WholeFrame(Bytes(events)) {
      WholeFrameReceived(m, events);
    }
    forall f | Received(m, events, f) ensures WholeFrame(Bytes(events)) {
      ReceivedIsWhole(m, events, f);
    }
  }

  /** When the peer has closed without a close-connection packet, receiving "succeeds" and the
      frame that the packet's memory held before is delivered once more. */
  lemma ClosedStreamReplays(m: Contents)
    requires BodyFits(m.raw, [])
    ensures Deliver(m, []) == Delivery(ParseStatus(m.raw), m.(header := AfterParse(m.raw, m.header)), [])
  {
    hide TypeOf, GroupOf, SizeOf;
    assert Concat(Receive([], PL_PACKET_HEADER_SIZE).chunks) == [];
    assert RawAfter(m.raw, []) == m.raw;
    if ParsesOk(m.raw) {
      assert Concat(Receive([], SizeOf(m.raw)).chunks) == [];
    }
  }
}
