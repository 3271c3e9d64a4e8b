/** `packets.c`: the packet header on the wire. */
module Packets {
  import opened Bits
  import opened Results

  const PL_START_FRAME_BYTE: u8 := 0x1B
  const PL_PACKET_HEADER_SIZE := 5
  const PL_MAX_DATA_LENGTH := 1029
  
  /** Length of `packet_data`. */
  const PACKET_DATA_SIZE := 1024

  const PACKET_SUCCESS: i16 := 0
  const PACKET_WRONG_START_BYTE: i16 := -1
  const PACKET_WRONG_SIZE: i16 := -2
  const PACKET_WRONG_TYPE: i16 := -3

  datatype PacketGroup = ControlGroup | ProgrammerGroup | UartGroup

  datatype PacketType =
    | ProgrammerInitPacket | ProgrammerStopPacket | UartInitPacket | UartStopPacket | ResetPacket | ACKPacket
    | CloseConnectionPacket | NetworkConfigurationPacket | EnableEncryptionPacket | EnableSignPacket
    | EncryptionConfigPacket | SignConfigPacket | ObserverKeyPacket | ErrorPacket
    | LoadMCUInfoPacket | ProgramMemoryPacket | ReadMemoryPacket | MemoryPacket | CMDPacket
    | UartConfigurationPacket | UartDataPacket

  datatype PacketHeader = PacketHeader(
    ptype: PacketType, group: PacketGroup, dataSize: u16, compression: u8, encryption: u8, sign: u8)

  // ------------------------------------------------------- Wire type numbers

  function ControlType(b: u8): Option<PacketType> {
    match b
    case 0x10 => Some(ProgrammerInitPacket)
    case 0x11 => Some(ProgrammerStopPacket)
    case 0x12 => Some(UartInitPacket)
    case 0x13 => Some(UartStopPacket)
    case 0x14 => Some(ResetPacket)
    case 0x15 => Some(ACKPacket)
    case 0x16 => Some(CloseConnectionPacket)
    case 0x17 => Some(NetworkConfigurationPacket)
    case 0x18 => Some(ObserverKeyPacket)
    case 0x19 => Some(EncryptionConfigPacket)
    case 0x1A => Some(SignConfigPacket)
    case 0x1B => Some(EnableEncryptionPacket)
    case 0x1C => Some(EnableSignPacket)
    case 0x1D => Some(ErrorPacket)
    case _ => None
  }

  function ProgrammerType(b: u8): Option<PacketType> {
    match b
    case 0x20 => Some(LoadMCUInfoPacket)
    case 0x21 => Some(ProgramMemoryPacket)
    case 0x22 => Some(ReadMemoryPacket)
    case 0x23 => Some(MemoryPacket)
    case 0x24 => Some(CMDPacket)
    case 0x1D => Some(ErrorPacket)
    case _ => None
  }

  function UartType(b: u8): Option<PacketType> {
    match b
    case 0x30 => Some(UartConfigurationPacket)
    case 0x31 => Some(UartDataPacket)
    case _ => None
  }

  /** The group whose mask shares a bit with the type byte, control packets first. */
  function GroupOf(b: u8): Option<PacketGroup> {
    if And(b, 0x10) != 0 then Some(ControlGroup)
    else if And(b, 0x20) != 0 then Some(ProgrammerGroup)
    else if And(b, 0x30) != 0 then Some(UartGroup)
    else None
  }

  function TypeOf(b: u8): Option<PacketType> {
    match GroupOf(b)
    case Some(ControlGroup) => ControlType(b)
    case Some(ProgrammerGroup) => ProgrammerType(b)
    case Some(UartGroup) => UartType(b)
    case None => None
  }

  /** The type bytes of the protocol. */
  function TypeByte(t: PacketType): u8 {
    match t
    case ProgrammerInitPacket => 0x10
    case ProgrammerStopPacket => 0x11
    case UartInitPacket => 0x12
    case UartStopPacket => 0x13
    case ResetPacket => 0x14
    case ACKPacket => 0x15
    case CloseConnectionPacket => 0x16
    case NetworkConfigurationPacket => 0x17
    case ObserverKeyPacket => 0x18
    case EncryptionConfigPacket => 0x19
    case SignConfigPacket => 0x1A
    case EnableEncryptionPacket => 0x1B
    case EnableSignPacket => 0x1C
    case ErrorPacket => 0x1D
    case LoadMCUInfoPacket => 0x20
    case ProgramMemoryPacket => 0x21
    case ReadMemoryPacket => 0x22
    case MemoryPacket => 0x23
    case CMDPacket => 0x24
    case UartConfigurationPacket => 0x30
    case UartDataPacket => 0x31
  }

  lemma TopBits(b: u8)
    ensures And(b, 0x10) != 0 <==> (b / 16) % 2 == 1
    ensures And(b, 0x20) != 0 <==> (b / 32) % 2 == 1
  {
    AndBit(b, 4);
    AndBit(b, 5);
    assert Pow2(4) == 0x10 && Pow2(5) == 0x20;
    ShrDiv(b, 4);
    ShrDiv(b, 5);
  }

  /** The accepted type bytes. The mask test takes 0x30 and 0x31 for control packets, so no
      UART packet is ever accepted. */
  lemma AcceptedTypes(b: u8)
    ensures TypeOf(b).Some? <==> 0x10 <= b <= 0x1D || 0x20 <= b <= 0x24
    ensures TypeOf(b).Some? ==> GroupOf(b) == Some(if b < 0x20 then ControlGroup else ProgrammerGroup)
  {
    hide And;
    TopBits(b);
  }

  /** An accepted byte is the protocol's byte for the packet it is taken for, and every packet
      type is accepted under its own byte except the two UART types. */
  lemma TypesAgree(b: u8, t: PacketType)
    ensures TypeOf(b) == Some(t) <==> b == TypeByte(t) && !t.UartConfigurationPacket? && !t.UartDataPacket?
  {
    hide And;
    TopBits(b);
  }

  /** The protocol's numbers. */
  lemma ControlNumbers()
    ensures TypeOf(0x10) == Some(ProgrammerInitPacket) && TypeOf(0x11) == Some(ProgrammerStopPacket)
    ensures TypeOf(0x12) == Some(UartInitPacket) && TypeOf(0x13) == Some(UartStopPacket)
    ensures TypeOf(0x14) == Some(ResetPacket) && TypeOf(0x15) == Some(ACKPacket)
    ensures TypeOf(0x16) == Some(CloseConnectionPacket) && TypeOf(0x17) == Some(NetworkConfigurationPacket)
    ensures TypeOf(0x18) == Some(ObserverKeyPacket) && TypeOf(0x19) == Some(EncryptionConfigPacket)
    ensures TypeOf(0x1A) == Some(SignConfigPacket) && TypeOf(0x1B) == Some(EnableEncryptionPacket)
    ensures TypeOf(0x1C) == Some(EnableSignPacket) && TypeOf(0x1D) == Some(ErrorPacket)
  {
    forall b: u8 | 0x10 <= b < 0x20 ensures TypeOf(b) == ControlType(b) {
      hide And, ControlType;
      TopBits(b);
    }
    hide TypeOf;
  }

  lemma ProgrammerNumbers()
    ensures TypeOf(0x20) == Some(LoadMCUInfoPacket) && TypeOf(0x21) == Some(ProgramMemoryPacket)
    ensures TypeOf(0x22) == Some(ReadMemoryPacket) && TypeOf(0x23) == Some(MemoryPacket)
    ensures TypeOf(0x24) == Some(CMDPacket)
  {
    forall b: u8 | 0x20 <= b < 0x30 ensures TypeOf(b) == ProgrammerType(b) {
      hide And, ProgrammerType;
      TopBits(b);
    }
    hide TypeOf;
  }

  // ---------------------------------------------------------------- The codec

  predicate IsHeader(raw: seq<u8>) { |raw| == PL_PACKET_HEADER_SIZE }

  function SizeOf(raw: seq<u8>): u16
    requires IsHeader(raw)
  {
    (raw[3] as int) * 256 + raw[4]
  }

  function Flag(raw: seq<u8>, bit: nat): u8
    requires IsHeader(raw)
  {
    Bit(raw[1], bit)
  }

  predicate ParsesOk(raw: seq<u8>)
    requires IsHeader(raw)
  {
    raw[0] == PL_START_FRAME_BYTE && SizeOf(raw) <= PL_MAX_DATA_LENGTH && TypeOf(raw[2]).Some?
  }

  function ParseStatus(raw: seq<u8>): i16
    requires IsHeader(raw)
  {
    if raw[0] != PL_START_FRAME_BYTE then PACKET_WRONG_START_BYTE
    else if SizeOf(raw) > PL_MAX_DATA_LENGTH then PACKET_WRONG_SIZE
    else if TypeOf(raw[2]).None? then PACKET_WRONG_TYPE
    else PACKET_SUCCESS
  }

  function Parsed(raw: seq<u8>): PacketHeader
    requires IsHeader(raw) && ParsesOk(raw)
  {
    PacketHeader(TypeOf(raw[2]).value, GroupOf(raw[2]).value, SizeOf(raw), Flag(raw, 0), Flag(raw, 1), Flag(raw, 2))
  }

  /** The header record after `parse_header`: a rejected type still overwrites the group. */
  function AfterParse(raw: seq<u8>, before: PacketHeader): PacketHeader
    requires IsHeader(raw)
  {
    if ParsesOk(raw) then Parsed(raw)
    else if ParseStatus(raw) == PACKET_WRONG_TYPE && GroupOf(raw[2]).Some? then
      before.(group := GroupOf(raw[2]).value)
    else before
  }

  function Normal(flag: u8): (r: u8)
    ensures r <= 1
  {
    if flag == 0 then 0 else 1
  }

  /** The header bytes for `h`; the type byte is not written. */
  function Updated(raw: seq<u8>, h: PacketHeader): (r: seq<u8>)
    requires IsHeader(raw)
    ensures IsHeader(r)
  {
    [PL_START_FRAME_BYTE,
     Normal(h.compression) + 2 * Normal(h.encryption) + 4 * Normal(h.sign),
     raw[2], h.dataSize / 256, h.dataSize % 256]
  }

  /** Encoding and then decoding gives the size and the flags back, as 0 or 1, with the type
      that the byte in the buffer already had. */
  lemma ParseAfterUpdate(raw: seq<u8>, h: PacketHeader)
    requires IsHeader(raw) && h.dataSize <= PL_MAX_DATA_LENGTH && TypeOf(raw[2]).Some?
    ensures ParsesOk(Updated(raw, h))
    ensures var p := Parsed(Updated(raw, h));
            && p.dataSize == h.dataSize && p.ptype == TypeOf(raw[2]).value
            && p.compression == Normal(h.compression)
            && p.encryption == Normal(h.encryption)
            && p.sign == Normal(h.sign)
  {
    var f := Normal(h.compression) + 2 * Normal(h.encryption) + 4 * Normal(h.sign);
    assert Bit(f, 0) == Normal(h.compression);
    assert Bit(f, 1) == Bit(f / 2, 0) == Normal(h.encryption);
    assert Bit(f, 2) == Bit(f / 2, 1) == Bit(f / 2 / 2, 0) == Normal(h.sign);
  }

  lemma ThreeBits(f: u8)
    ensures Bit(f, 0) + 2 * Bit(f, 1) + 4 * Bit(f, 2) == f % 8
  {
    assert Bit(f, 1) == Bit(f / 2, 0);
    assert Bit(f, 2) == Bit(f / 2, 1) == Bit(f / 2 / 2, 0);
  }

  /** Decoding and then encoding restores the header, except that flag bits 3 to 7 are cleared. */
  lemma UpdateAfterParse(raw: seq<u8>)
    requires IsHeader(raw) && ParsesOk(raw)
    ensures Updated(raw, Parsed(raw)) == raw[1 := raw[1] % 8]
  {
    ThreeBits(raw[1]);
  }

  // ---------------------------------------------------------- Whole packets

  type PacketData = s: seq<u8> | |s| == PACKET_DATA_SIZE witness seq(PACKET_DATA_SIZE, _ => 0)

  /** A body that fits `packet_data`. */
  type Body = s: seq<u8> | |s| <= PACKET_DATA_SIZE

  type RawHeader = s: seq<u8> | |s| == PL_PACKET_HEADER_SIZE witness [0, 0, 0, 0, 0]

  /** What the memory of a packet holds. */
  datatype Contents = Contents(raw: RawHeader, data: PacketData, header: PacketHeader)

  /** What is sent for a packet. */
  datatype WireFrame = WireFrame(raw: seq<u8>, body: seq<u8>)

  type SentFrame = f: WireFrame | |f.raw| == PL_PACKET_HEADER_SIZE witness WireFrame([0, 0, 0, 0, 0], [])

  /** `buf` with `bytes` written over its start. */
  function Over(buf: seq<u8>, bytes: seq<u8>): (r: seq<u8>)
    ensures |bytes| <= |buf| ==> |r| == |buf|
  {
    if |bytes| <= |buf| then bytes + buf[|bytes|..] else buf
  }

  /** The header record and the header bytes that `create_packet` leaves; a size above the
      limit is refused after it has been put into the record. */
  function Prepared(m: Contents, comp: u8, sign: u8, enc: u8, data: Option<Body>, size: u16): Contents {
    var h := m.header.(compression := comp, sign := sign, encryption := enc, dataSize := size);
    if size > PL_MAX_DATA_LENGTH then m.(header := h)
    else Contents(Updated(m.raw, h), if data.Some? then Over(m.data, data.value) else m.data, h)
  }

  /** The part of a packet's data that is sent for a size. */
  function Cut(data: PacketData, size: u16): seq<u8> {
    if size <= PACKET_DATA_SIZE then data[..size] else data
  }

  /** `send_packet` of packet_handler.c. For the sizes 1025 to 1029 it also sends up to five
      bytes that lie behind the packet; these are not modelled. */
  function Outgoing(m: Contents): SentFrame {
    WireFrame(m.raw, Cut(m.data, m.header.dataSize))
  }

  // -------------------------------------------------------------- The C code

  class Packet {
    var header: PacketHeader
    const raw: array<u8>
    const data: array<u8>

    ghost predicate Valid()
      reads this
    {
      raw.Length == PL_PACKET_HEADER_SIZE && data.Length == PACKET_DATA_SIZE && raw != data
    }

    /** A packet object with this memory. */
    constructor (c: Contents)
      ensures Valid() && fresh(raw) && fresh(data) && Now() == c
    {
      raw := new u8[PL_PACKET_HEADER_SIZE](i requires 0 <= i < PL_PACKET_HEADER_SIZE => c.raw[i]);
      data := new u8[PACKET_DATA_SIZE](i requires 0 <= i < PACKET_DATA_SIZE => c.data[i]);
      header := c.header;
      new;
      assert raw[..] == c.raw && data[..] == c.data;
    }

    function Now(): Contents
      requires Valid()
      reads this, raw, data
    {
      Contents(raw[..], data[..], header)
    }
  }

  method GetSizeFromHeader(header: array<u8>) returns (size: u16)
    requires header.Length == PL_PACKET_HEADER_SIZE
    ensures size == SizeOf(header[..])
  {
    var hi, lo := header[3], header[4];
    Pow2Consts();
    ShlMul(hi, 8);
    OrUnderShift(hi, lo, 8);
    size := Or(Or(0, Shl(hi, 8)), Shl(lo, 0));
  }

  lemma LowBits(f: u8)
    ensures Bit(f, 0) == f % 2 && Bit(f, 1) == f / 2 % 2 && Bit(f, 2) == f / 4 % 2
  {
    assert Bit(f, 1) == Bit(f / 2, 0);
    assert Bit(f, 2) == Bit(f / 2, 1) == Bit(f / 2 / 2, 0);
  }

  lemma {:induction false} LowMask(c: nat)
    ensures And(c, 3) == c % 2 + 2 * (c / 2 % 2)
  {
    assert And(c / 2 / 2, 0) == 0;
    assert And(c / 2, 1) == c / 2 % 2;
  }

  /** The UART mask shares a bit with a byte only where one of the other masks does. */
  lemma {:induction false} UartMask(b: u8)
    ensures And(b, 0x30) != 0 <==> b / 16 % 2 == 1 || b / 32 % 2 == 1
  {
    assert And(b, 0x30) == 2 * And(b / 2, 0x18) && And(b / 2, 0x18) == 2 * And(b / 2 / 2, 0x0C);
    assert And(b / 2 / 2, 0x0C) == 2 * And(b / 2 / 2 / 2, 6) && And(b / 2 / 2 / 2, 6) == 2 * And(b / 2 / 2 / 2 / 2, 3);
    var c := b / 16;
    assert c == b / 2 / 2 / 2 / 2;
    LowMask(c);
    hide And;
  }

  /** `parse_header` */
  method ParseHeader(header: array<u8>, before: PacketHeader) returns (status: i16, h: PacketHeader)
    requires header.Length == PL_PACKET_HEADER_SIZE
    ensures status == ParseStatus(header[..])
    ensures status == PACKET_SUCCESS <==> ParsesOk(header[..])
    ensures h == AfterParse(header[..], before)
    ensures status == if header[0] != 0x1B then -1
                      else if (header[3] as int) * 256 + header[4] > 1029 then -2
                      else if TypeOf(header[2]).None? then -3
                      else 0
    ensures status == 0 ==>
      && Some(h.ptype) == TypeOf(header[2]) && h.dataSize == (header[3] as int) * 256 + header[4]
      && h.compression == header[1] % 2 && h.encryption == header[1] / 2 % 2 && h.sign == header[1] / 4 % 2
    ensures status == -1 || status == -2 ==> h == before
    ensures status == -3 ==>
      h == before.(group := if header[2] / 16 % 2 == 1 then ControlGroup
                            else if header[2] / 32 % 2 == 1 then ProgrammerGroup else before.group)
  {
    TopBits(header[2]);
    UartMask(header[2]);
    h := before;
    if header[0] != PL_START_FRAME_BYTE {
      return PACKET_WRONG_START_BYTE, h;
    }
    var size := GetSizeFromHeader(header);
    if size > PL_MAX_DATA_LENGTH {
      return PACKET_WRONG_SIZE, h;
    }
    var b := header[2];
    var ptype;
    if And(b, 0x10) != 0 {
      h := h.(group := ControlGroup);
      ptype := ControlType(b);
    } else if And(b, 0x20) != 0 {
      h := h.(group := ProgrammerGroup);
      ptype := ProgrammerType(b);
    } else if And(b, 0x30) != 0 {
      h := h.(group := UartGroup);
      ptype := UartType(b);
    } else {
      return PACKET_WRONG_TYPE, h;
    }
    if ptype.None? {
      return PACKET_WRONG_TYPE, h;
    }
    h := PacketHeader(ptype.value, h.group, size, Bit(header[1], 0), Bit(header[1], 1), Bit(header[1], 2));
    LowBits(header[1]);
    status := PACKET_SUCCESS;
  }

  method SetFlagBit(header: array<u8>, bit: nat)
    requires header.Length == PL_PACKET_HEADER_SIZE && bit < 3 && header[1] < Pow2(bit)
    modifies header
    ensures header[..] == old(header[..])[1 := old(header[1]) + Pow2(bit)]
  {
    assert Pow2(0) == 1 && Pow2(1) == 2 && Pow2(2) == 4;
    assert Shl(1, bit) == Pow2(bit) by { assert Shl(1, 0) == 1 && Shl(1, 1) == 2 && Shl(1, 2) == 4; }
    OrUnderShift(1, header[1], bit);
    OrCommutes(Shl(1, bit), header[1]);
    header[1] := Or(header[1], Shl(1, bit));
  }

  method UpdateHeader(packet: Packet) returns (status: i16)
    requires packet.Valid()
    modifies packet.raw
    ensures packet.header.dataSize > PL_MAX_DATA_LENGTH ==>
      status == PACKET_WRONG_SIZE && packet.raw[..] == old(packet.raw[..])
    ensures packet.header.dataSize <= PL_MAX_DATA_LENGTH ==>
      status == PACKET_SUCCESS && packet.raw[..] == Updated(old(packet.raw[..]), packet.header)
    ensures var h := packet.header;
            if h.dataSize > 1029 then status == -2
            else
              && packet.raw[0] == 0x1B && packet.raw[2] == old(packet.raw[2])
              && packet.raw[1] == (if h.compression != 0 then 1 else 0) + (if h.encryption != 0 then 2 else 0)
                                  + (if h.sign != 0 then 4 else 0)
              && (packet.raw[3] as int) * 256 + packet.raw[4] == h.dataSize
  {
    var h := packet.header;
    var raw := packet.raw;
    if h.dataSize > PL_MAX_DATA_LENGTH {
      return PACKET_WRONG_SIZE;
    }
    raw[0] := PL_START_FRAME_BYTE;
    SizeBytes(h.dataSize);
    raw[3] := And(Shr(h.dataSize, 8), 0xFF);
    raw[4] := And(Shr(h.dataSize, 0), 0xFF);
    raw[1] := 0;
    if h.compression != 0 {
      SetFlagBit(raw, 0);
    }
    if h.encryption != 0 {
      SetFlagBit(raw, 1);
    }
    if h.sign != 0 {
      SetFlagBit(raw, 2);
    }
    status := PACKET_SUCCESS;
  }

  lemma SizeBytes(size: u16)
    ensures And(Shr(size, 8), 0xFF) == size / 256
    ensures And(Shr(size, 0), 0xFF) == size % 256
  {
    hide And, Shr;
    assert Shr(size, 0) == size / Pow2(0) by { ShrDiv(size, 0); }
    Pow2Consts();
    ShrDiv(size, 8);
    AndOnes(size, 8);
    AndOnes(Shr(size, 8), 8);
  }

  lemma {:induction false} OrCommutes(x: nat, y: nat)
    ensures Or(x, y) == Or(y, x)
  {
    if x != 0 && y != 0 { OrCommutes(x / 2, y / 2); }
  }

  lemma TypeByteKept(raw: seq<u8>, h: PacketHeader)
    requires IsHeader(raw)
    ensures Updated(raw, h)[2] == raw[2]
  {}

  /** `memcpy` */
  method CopyBody(data: array<u8>, to: array<u8>, n: nat)
    requires n <= data.Length && n <= to.Length && data != to
    modifies to
    ensures to[..] == data[..n] + old(to[n..])
  {
    forall i | 0 <= i < n { to[i] := data[i]; }
  }

  ghost function BodyOf(data: array?<u8>, size: u16): Option<Body>
    requires data != null && size <= PL_MAX_DATA_LENGTH ==> size <= data.Length && size <= PACKET_DATA_SIZE
    reads data
  {
    if data != null && size <= PL_MAX_DATA_LENGTH then Some(data[..size]) else None
  }

  /** `create_packet`. Neither the header's type nor the type byte is written, so the packet
      goes out under whatever type its memory had before. A null `data` leaves the body alone. */
  method CreatePacket(packet: Packet, comp: u8, sign: u8, enc: u8, data: array?<u8>, dataSize: u16)
    returns (status: i16)
    requires packet.Valid()
    requires data != null && dataSize <= PL_MAX_DATA_LENGTH ==> dataSize <= data.Length && dataSize <= PACKET_DATA_SIZE
    requires data != null ==> data != packet.raw && data != packet.data
    modifies packet`header, packet.raw, packet.data
    ensures packet.Valid()
    ensures status == if dataSize > PL_MAX_DATA_LENGTH then PACKET_WRONG_SIZE else PACKET_SUCCESS
    ensures packet.Now() == Prepared(old(packet.Now()), comp, sign, enc, BodyOf(data, dataSize), dataSize)
    ensures packet.raw[2] == old(packet.raw[2])
    ensures packet.header
         == old(packet.header).(compression := comp, sign := sign, encryption := enc, dataSize := dataSize)
    ensures status == PACKET_SUCCESS && data != null ==>
      packet.data[..] == data[..dataSize] + old(packet.data[dataSize..])
    ensures status < 0 ==> packet.raw[..] == old(packet.raw[..])
    ensures status < 0 || data == null ==> packet.data[..] == old(packet.data[..])
  {
    hide Updated;
    packet.header := packet.header.(compression := comp, sign := sign, encryption := enc, dataSize := dataSize);
    status := UpdateHeader(packet);
    if status < 0 {
      return status;
    }
    TypeByteKept(old(packet.raw[..]), packet.header);
    if data != null && dataSize != 0 {
      CopyBody(data, packet.data, dataSize);
    }
  }
}
