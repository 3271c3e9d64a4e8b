/** The SPI link to the target and the echo check on its answers.

    The target is an oracle: its answer may depend on every frame it has ever received. */
module Spi {
  import opened Bits
  import opened Patterns

  type Device = seq<Frame> -> Frame

  class SpiBus {
    const device: Device
    var sent: seq<Frame>

    constructor (device: Device)
      ensures this.device == device && sent == []
    {
      this.device := device;
      sent := [];
    }

    /** `MAP_SPITransfer` with chip select around one four-byte frame. */
    method Transfer(cmd: array<u8>, answer: array<u8>)
      requires cmd.Length == AVR_CMD_SIZE && answer.Length == AVR_CMD_SIZE
      modifies this`sent, answer
      ensures sent == old(sent) + [old(cmd[..])]
      ensures answer[..] == device(sent)
    {
      sent := sent + [cmd[..]];
      var reply := device(sent);
      forall i | 0 <= i < AVR_CMD_SIZE { answer[i] := reply[i]; }
    }
  }

  /** Bytes 1 to checked-1 of the answer repeat the command one byte later. The source
      checks all of them (checked = 4); a read leaves room for data only with checked = 3. */
  predicate Echoes(cmd: Frame, answer: Frame, checked: nat)
    requires checked <= AVR_CMD_SIZE
  {
    forall i :: 1 <= i < checked ==> answer[i] == cmd[i - 1]
  }

  lemma EchoesFull(cmd: Frame, answer: Frame)
    ensures Echoes(cmd, answer, AVR_CMD_SIZE)
       <==> answer[1] == cmd[0] && answer[2] == cmd[1] && answer[3] == cmd[2]
  {
    if Echoes(cmd, answer, AVR_CMD_SIZE) {
      assert answer[1] == cmd[0] && answer[2] == cmd[1] && answer[3] == cmd[2];
    }
  }

  lemma EchoesHead(cmd: Frame, answer: Frame)
    ensures Echoes(cmd, answer, 3) <==> answer[1] == cmd[0] && answer[2] == cmd[1]
  {
    if Echoes(cmd, answer, 3) {
      assert answer[1] == cmd[0] && answer[2] == cmd[1];
    }
  }

  method CheckCmdStatus(cmd: array<u8>, answer: array<u8>, checked: nat) returns (status: i16)
    requires cmd.Length == AVR_CMD_SIZE && answer.Length == AVR_CMD_SIZE && checked <= AVR_CMD_SIZE
    ensures status == if Echoes(cmd[..], answer[..], checked) then 0 else -1
    ensures checked == 4 ==>
      (status == 0 <==> answer[1] == cmd[0] && answer[2] == cmd[1] && answer[3] == cmd[2])
    ensures checked == 3 ==> (status == 0 <==> answer[1] == cmd[0] && answer[2] == cmd[1])
  {
    EchoesFull(cmd[..], answer[..]);
    EchoesHead(cmd[..], answer[..]);
    var i := 1;
    while i < checked
      invariant forall k :: 1 <= k < i && k < checked ==> answer[k] == cmd[k - 1]
    {
      if answer[i] != cmd[i - 1] {
        assert !Echoes(cmd[..], answer[..], checked);
        return -1;
      }
      i := i + 1;
    }
    return 0;
  }

  // ---------------------------------------------- Driving a list of commands

  /** What the target answers to frame t of `frames` when all earlier ones were sent. */
  function AnswerAt(device: Device, sent: seq<Frame>, frames: seq<Frame>, t: nat): Frame
    requires t < |frames|
  {
    device(sent + frames[..t + 1])
  }

  predicate EchoAt(device: Device, sent: seq<Frame>, frames: seq<Frame>, checked: nat, t: nat)
    requires t < |frames| && checked <= AVR_CMD_SIZE
  {
    Echoes(frames[t], AnswerAt(device, sent, frames, t), checked)
  }

  function AcceptedFrom(device: Device, sent: seq<Frame>, frames: seq<Frame>, checked: nat, k: nat): (r: nat)
    requires k <= |frames| && checked <= AVR_CMD_SIZE
    ensures k <= r <= |frames|
    ensures forall t :: k <= t < r ==> EchoAt(device, sent, frames, checked, t)
    ensures r < |frames| ==> !EchoAt(device, sent, frames, checked, r)
    decreases |frames| - k
  {
    if k == |frames| || !EchoAt(device, sent, frames, checked, k) then k
    else AcceptedFrom(device, sent, frames, checked, k + 1)
  }

  /** How many frames the target accepts before the first answer that fails the check. */
  function Accepted(device: Device, sent: seq<Frame>, frames: seq<Frame>, checked: nat): (r: nat)
    requires checked <= AVR_CMD_SIZE
    ensures r <= |frames|
  {
    AcceptedFrom(device, sent, frames, checked, 0)
  }

  /** A driver stops after the first frame that is not accepted. */
  function FramesSent(accepted: nat, total: nat): nat {
    if accepted < total then accepted + 1 else total
  }

  /** What has been sent when a driver is done: with a frame that is not echoed, that frame is the last,
      and all before it were echoed. */
  lemma SentUpToFailure(device: Device, sent: seq<Frame>, frames: seq<Frame>, checked: nat)
    requires checked <= AVR_CMD_SIZE
    ensures var k := FramesSent(Accepted(device, sent, frames, checked), |frames|);
            && k <= |frames|
            && (forall t :: 0 <= t < k - 1 ==> EchoAt(device, sent, frames, checked, t))
            && (k < |frames| ==> k > 0 && !EchoAt(device, sent, frames, checked, k - 1))
            && (Accepted(device, sent, frames, checked) < |frames| ==> !EchoAt(device, sent, frames, checked, k - 1))
  {}

  lemma AcceptedIs(device: Device, sent: seq<Frame>, frames: seq<Frame>, checked: nat, k: nat)
    requires k <= |frames| && checked <= AVR_CMD_SIZE
    requires forall t :: 0 <= t < k ==> EchoAt(device, sent, frames, checked, t)
    requires k < |frames| ==> !EchoAt(device, sent, frames, checked, k)
    ensures Accepted(device, sent, frames, checked) == k
  {}

  /** The first k frames have been sent after `sent0` and were all accepted. */
  ghost predicate Driven(bus: SpiBus, sent0: seq<Frame>, frames: seq<Frame>, checked: nat, k: nat)
    requires checked <= AVR_CMD_SIZE
    reads bus
  {
    && k <= |frames| && bus.sent == sent0 + frames[..k]
    && forall t :: 0 <= t < k ==> EchoAt(bus.device, sent0, frames, checked, t)
  }

  /** The driver has stopped on a frame whose answer failed the check. */
  ghost predicate Stopped(bus: SpiBus, sent0: seq<Frame>, frames: seq<Frame>, checked: nat)
    requires checked <= AVR_CMD_SIZE
    reads bus
  {
    var accepted := Accepted(bus.device, sent0, frames, checked);
    accepted < |frames| && bus.sent == sent0 + frames[..accepted + 1]
  }

  /** What has been driven has been accepted. */
  lemma DrivenBound(bus: SpiBus, sent0: seq<Frame>, frames: seq<Frame>, checked: nat, k: nat)
    requires checked <= AVR_CMD_SIZE && Driven(bus, sent0, frames, checked, k)
    ensures k <= Accepted(bus.device, sent0, frames, checked)
  {}

  lemma DrivenStops(bus: SpiBus, sent0: seq<Frame>, frames: seq<Frame>, checked: nat, k: nat)
    requires checked <= AVR_CMD_SIZE && Driven(bus, sent0, frames, checked, k) && k < |frames|
    ensures k < Accepted(bus.device, sent0, frames, checked) || !EchoAt(bus.device, sent0, frames, checked, k)
  {
    DrivenBound(bus, sent0, frames, checked, k);
  }

  lemma DrivenAll(bus: SpiBus, sent0: seq<Frame>, frames: seq<Frame>, checked: nat)
    requires checked <= AVR_CMD_SIZE && Driven(bus, sent0, frames, checked, |frames|)
    ensures Accepted(bus.device, sent0, frames, checked) == |frames|
    ensures bus.sent == sent0 + frames[..|frames|]
  {
    AcceptedIs(bus.device, sent0, frames, checked, |frames|);
  }

  /** Everything was accepted exactly when every answer echoes its command. */
  lemma AllAcceptedIff(device: Device, sent: seq<Frame>, frames: seq<Frame>, checked: nat)
    requires checked <= AVR_CMD_SIZE
    ensures Accepted(device, sent, frames, checked) == |frames|
       <==> forall t :: 0 <= t < |frames| ==> EchoAt(device, sent, frames, checked, t)
  {
    if forall t :: 0 <= t < |frames| ==> EchoAt(device, sent, frames, checked, t) {
      AcceptedIs(device, sent, frames, checked, |frames|);
    }
  }
}
