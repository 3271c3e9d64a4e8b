/** The handling task's packet traffic as the C code performs it, in place over the packet
    pool and a connection's out-queue. Every method is proved to make the transition that
    `PacketFlow` gives for it. */
module HandlingTask {
  import opened Bits
  import opened Results
  import opened Packets
  import opened Pool
  import opened PacketFlow

  class Task {
    const packets: ObjectPool
    const fixes: Fixes
    var outQueue: seq<Obj>
    var memory: map<Obj, Contents>
    var meant: map<Obj, PacketType>
    var sent: seq<Sending>
    var restarted: bool
    var fault: bool
    ghost var lost: seq<Obj>
    ghost var leaks: nat

    ghost predicate Valid()
      reads this, packets
    {
      packets.Valid()
    }

    ghost function Now(): Flow
      requires Valid()
      reads this, packets, packets.data
    {
      Flow(packets.State(), outQueue, memory, meant, sent, lost, leaks, restarted, fault)
    }

    constructor (packets: ObjectPool, fixes: Fixes, memory: map<Obj, Contents>)
      requires packets.Valid() && packets.State() == PoolState(MSG_POOL_SIZE, 0, [])
      ensures Valid() && this.packets == packets && this.fixes == fixes && Now() == Start(memory)
    {
      this.packets, this.fixes, this.memory := packets, fixes, memory;
      outQueue, meant, sent, lost, leaks := [], map[], [], [], 0;
      restarted, fault := false, false;
    }

    /** The memory of packet x. */
    function At(x: Obj): (c: Contents)
      reads this, packets, packets.data
      ensures Valid() ==> c == Look(Now(), x)
    {
      if x in memory then memory[x] else Blank()
    }

    method ReleasePacket(x: Obj) returns (status: int)
      requires Valid()
      modifies packets`freeItems, packets.data
      ensures Valid() && packets.data == old(packets.data)
      ensures Now() == GiveBack(old(Now()), x)
      ensures status >= 0 <==> Release(old(Now()).pool, x).Some?
    {
      status := packets.PoolRelease(x);
    }

    method WritePacket(x: Obj)
      requires Valid()
      modifies this, packets`freeItems, packets.data
      ensures Valid() && packets.data == old(packets.data)
      ensures Now() == PacketFlow.WritePacket(old(Now()), fixes, x)
    {
      if |outQueue| < MSG_QUEUE_SIZE {
        outQueue := outQueue + [x];
      } else if fixes.send {
        var status := ReleasePacket(x);
      } else {
        lost := lost + [x];
      }
    }

    /** `create_packet` with all flags off. */
    method PreparePacket(x: Obj, ptype: PacketType, body: Option<Body>, length: u16) returns (status: i16)
      requires Valid()
      modifies this`memory, this`meant
      ensures Valid() && Now() == Prepare(old(Now()), x, ptype, body, length)
      ensures status == if length > PL_MAX_DATA_LENGTH then PACKET_WRONG_SIZE else PACKET_SUCCESS
    {
      memory, meant := memory[x := Prepared(At(x), 0, 0, 0, body, length)], meant[x := ptype];
      status := if length > PL_MAX_DATA_LENGTH then PACKET_WRONG_SIZE else PACKET_SUCCESS;
    }

    method SendPacket(x: Obj, ptype: PacketType, body: Option<Body>, length: u16) returns (status: int)
      requires Valid()
      modifies this, packets`freeItems, packets.data
      ensures Valid() && packets.data == old(packets.data)
      ensures (Now(), status) == PacketFlow.SendPacket(old(Now()), fixes, x, ptype, body, length)
    {
      var prepared := PreparePacket(x, ptype, body, length);
      if prepared < 0 {
        if fixes.send {
          status := ReleasePacket(x);
        } else {
          lost := lost + [x];
        }
        return prepared;
      }
      WritePacket(x);
      status := 0;
    }

    method CreateSendPacket(m: Message) returns (status: int)
      requires Valid()
      modifies this, packets, packets.data
      ensures Valid() && packets.data == old(packets.data)
      ensures (Now(), status) == PacketFlow.CreateSendPacket(old(Now()), fixes, m)
    {
      var x;
      status, x := packets.PoolGet(0);
      if status < 0 {
        return status;
      }
      status := SendPacket(x, m.ptype, Some(m.body), |m.body|);
    }

    method ProcessCommand(m: Inbound)
      requires Valid() && m.Command?
      modifies this, packets, packets.data
      ensures Valid() && packets.data == old(packets.data)
      ensures Now() == PacketFlow.ProcessCommand(old(Now()), fixes, m)
    {
      if !m.sizeOk {
        return;
      }
      var status;
      if m.status < 0 {
        status := CreateSendPacket(LOAD_COMMAND_FAILED);
      }
      status := CreateSendPacket(CommandAnswer(m));
    }

    method ProcessLoadMcuInfo()
      requires Valid()
      modifies this, packets, packets.data
      ensures Valid() && packets.data == old(packets.data)
      ensures Now() == PacketFlow.ProcessLoadMcuInfo(old(Now()), fixes)
    {
      var status := CreateSendPacket(ACK);
      if status < 0 {
        restarted := true;
      }
    }

    method ProcessProgramMemory(m: Inbound)
      requires Valid() && m.ProgramMemory?
      modifies this, packets, packets.data
      ensures Valid() && packets.data == old(packets.data)
      ensures Now() == PacketFlow.ProcessProgramMemory(old(Now()), fixes, m)
    {
      var status;
      if m.status < 0 {
        status := CreateSendPacket(PROGRAM_MEMORY_FAILED);
        restarted := true;
        return;
      }
      status := CreateSendPacket(ACK);
      if status < 0 {
        restarted := true;
      }
    }

    method AnswerRead(m: Inbound, memoryPacket: Obj, inbound: Obj)
      requires Valid() && m.ReadMemory?
      modifies this, packets, packets.data
      ensures Valid() && packets.data == old(packets.data)
      ensures Now() == PacketFlow.AnswerRead(old(Now()), fixes, m, memoryPacket, inbound)
    {
      memory := memory[memoryPacket := At(memoryPacket).(data := m.fetched)];
      var status := m.status;
      if status < 0 {
        status := CreateSendPacket(READ_MEMORY_FAILED);
        if status < 0 {
          if fixes.send {
            status := ReleasePacket(memoryPacket);
          } else {
            lost := lost + [memoryPacket];
          }
          return;
        }
      }
      if fixes.read {
        status := SendPacket(memoryPacket, MemoryPacket, None, AnswerLength(m));
      } else {
        lost := lost + [memoryPacket];
        status := SendPacket(inbound, MemoryPacket, None, AnswerLength(m));
      }
    }

    method ProcessReadMemory(m: Inbound, inbound: Obj)
      requires Valid() && m.ReadMemory?
      modifies this, packets, packets.data
      ensures Valid() && packets.data == old(packets.data)
      ensures Now() == PacketFlow.ProcessReadMemory(old(Now()), fixes, m, inbound)
    {
      if !m.sizeOk {
        return;
      }
      var status, memoryPacket := packets.PoolGet(0);
      if status >= 0 {
        AnswerRead(m, memoryPacket, inbound);
      }
    }

    method ProcessPacket(m: Inbound, inbound: Obj)
      requires Valid()
      modifies this, packets, packets.data
      ensures Valid() && packets.data == old(packets.data)
      ensures Now() == Process(old(Now()), fixes, m, inbound)
    {
      match m
      case CloseConnection =>
      case Silent =>
      case LoadMcuInfo => ProcessLoadMcuInfo();
      case Command(_, _, _) => ProcessCommand(m);
      case ProgramMemory(_) => ProcessProgramMemory(m);
      case ReadMemory(_, _, _, _) => ProcessReadMemory(m, inbound);
    }

    /** The get in front of the queue read. */
    method TakeAndForget()
      requires Valid()
      modifies this, packets, packets.data
      ensures Valid() && packets.data == old(packets.data)
      ensures Now() == DrainGet(old(Now()), fixes)
    {
      if !fixes.drain {
        var status, packet := packets.PoolGet(0);
        if status >= 0 {
          lost, leaks := lost + [packet], leaks + 1;
        }
      }
    }

    method SendFromQueue()
      requires Valid() && |outQueue| > 0
      modifies this, packets, packets.data
      ensures Valid() && packets.data == old(packets.data)
      ensures Now() == SendHead(old(Now()))
    {
      var packet := outQueue[0];
      outQueue := outQueue[1..];
      sent := sent + [Sending(Outgoing(At(packet)), packet, if packet in meant then meant[packet] else ErrorPacket)];
      var status := ReleasePacket(packet);
    }

    /** The loop that sends what is in the out-queue. */
    method DrainQueue()
      requires Valid()
      modifies this, packets, packets.data
      ensures Valid() && packets.data == old(packets.data)
      ensures Now() == Drain(old(Now()), fixes)
    {
      hide DrainGet, SendHead;
      var status := 0;
      while status >= 0
        invariant Valid() && packets.data == old(packets.data)
        invariant (if status >= 0 then Drain(Now(), fixes) else Now()) == Drain(old(Now()), fixes)
        decreases |outQueue|, status
      {
        ghost var before := Now();
        DrainRound(before, fixes);
        TakeAndForget();
        status := if |outQueue| > 0 then 0 else -1;
        if status >= 0 {
          SendFromQueue();
        }
      }
    }

    /** One round of the handling loop for one connection. */
    method VisitConnection(a: Option<Arrival>)
      requires Valid()
      modifies this, packets, packets.data
      ensures Valid() && packets.data == old(packets.data)
      ensures Now() == Visit(old(Now()), fixes, a)
    {
      if restarted || fault {
        return;
      }
      if a.Some? {
        var status, packet := packets.PoolGet(0);
        if status < 0 {
          fault := true;
          return;
        }
        memory := memory[packet := a.value.received];
        ProcessPacket(a.value.request, packet);
        if restarted {
          return;
        }
        status := ReleasePacket(packet);
        if fault || status < 0 {
          return;
        }
      }
      DrainQueue();
    }

    /** The handling loop over any number of rounds. */
    method Rounds(visits: seq<Option<Arrival>>)
      requires Valid() && Now() == Start(memory)
      modifies this, packets, packets.data
      ensures Valid() && Now() == Visits(fixes, old(memory), visits)
    {
      for i := 0 to |visits|
        invariant Valid() && packets.data == old(packets.data)
        invariant Now() == Visits(fixes, old(memory), visits[..i])
      {
        VisitConnection(visits[i]);
        assert visits[..i + 1][..i] == visits[..i];
      }
      assert visits[..|visits|] == visits;
    }
  }

  lemma DrainRound(f: Flow, fixes: Fixes)
    ensures DrainGet(f, fixes).queue == f.queue
    ensures |f.queue| > 0 ==> |SendHead(DrainGet(f, fixes)).queue| < |f.queue|
  {}
}
