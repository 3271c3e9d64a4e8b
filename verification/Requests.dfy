/** Decoding of the program-memory and read-memory requests. */
module Requests {
  import opened Bits
  import opened Packets
  import opened Programmer

  const PROG_MEM_FIXED_SIZE := 5
  const READ_MEM_FIXED_SIZE := 9
  const PL_FLASH_MEMORY_BYTE: u8 := 0
  const PL_EEPROM_MEMORY_BYTE: u8 := 1

  function GetMemoryType(b: u8): MemoryType {
    if b == PL_FLASH_MEMORY_BYTE then MemoryFlash
    else if b == PL_EEPROM_MEMORY_BYTE then MemoryEeprom
    else MemoryErr
  }

  /** Four bytes, most significant first. */
  function BigEndian(s: seq<u8>): u32
    requires |s| == 4
  {
    var (a: int, b: int, c: int, d: int) := (s[0], s[1], s[2], s[3]);
    ((a * 0x100 + b) * 0x100 + c) * 0x100 + d
  }

  function ToBigEndian(x: u32): (s: seq<u8>)
    ensures |s| == 4
  {
    [x / 0x100_0000, x / 0x1_0000 % 0x100, x / 0x100 % 0x100, x % 0x100]
  }

  lemma BigEndianRoundTrip(x: u32)
    ensures BigEndian(ToBigEndian(x)) == x
  {
    var top, middle := x / 0x1_0000, x / 0x100;
    assert top == x / 0x100_0000 * 0x100 + top % 0x100;
    assert middle == top * 0x100 + middle % 0x100;
    assert x == middle * 0x100 + x % 0x100;
  }

  /** How many bytes `get_prog_mem_data` takes: the length is kept in eight bits. */
  function DataLength(size: u16): u8 {
    ToU8(ToU32(size - PROG_MEM_FIXED_SIZE))
  }

  /** The number whose bytes begin at i, the most significant first. */
  function AddressAt(s: seq<u8>, i: nat): nat
    requires i + 4 <= |s|
  {
    var (a: int, b: int, c: int, d: int) := (s[i], s[i + 1], s[i + 2], s[i + 3]);
    a * 0x100_0000 + b * 0x1_0000 + c * 0x100 + d
  }

  method OrBytes(s: seq<u8>) returns (x: u32)
    requires |s| == 4
    ensures x == BigEndian(s)
    ensures x == AddressAt(s, 0)
  {
    Pow2Consts();
    ShlMul(s[0], 8);
    OrUnderShift(s[0], s[1], 8);
    var top := Or(Shl(s[0], 8), s[1]);
    ShlMul(top, 8);
    OrUnderShift(top, s[2], 8);
    var middle := Or(Shl(top, 8), s[2]);
    ShlMul(middle, 8);
    OrUnderShift(middle, s[3], 8);
    x := Or(Shl(middle, 8), s[3]);
  }

  /** `get_prog_mem_data`: takes the bytes behind the five fixed ones, as many as the eight-bit
      length says, whether the packet brought them or not. */
  method GetProgMemData(packetData: seq<u8>, size: u16) returns (mem: ProgMemData)
    requires |packetData| == PACKET_DATA_SIZE
    ensures mem.startAddress == BigEndian(packetData[..4])
    ensures mem.memoryType == GetMemoryType(packetData[4])
    ensures mem.data == packetData[PROG_MEM_FIXED_SIZE..][..DataLength(size)]
    ensures mem.startAddress == AddressAt(packetData, 0)
    ensures mem.memoryType
         == match packetData[4] case 0 => MemoryFlash case 1 => MemoryEeprom case _ => MemoryErr
    ensures |mem.data| == (size + 251) % 256 && mem.data == packetData[5..5 + |mem.data|]
  {
    var start := OrBytes(packetData[..4]);
    var length := DataLength(size);
    var data := new u8[length];
    for i := 0 to length
      invariant data[..i] == packetData[PROG_MEM_FIXED_SIZE..][..i]
    {
      data[i] := packetData[PROG_MEM_FIXED_SIZE + i];
    }
    assert data[..length] == data[..];
    mem := ProgMemData(start, GetMemoryType(packetData[4]), data[..]);
  }

  /** The bytes taken are the packet's payload exactly when there are 0 to 255 of them: shorter
      packets are filled up from old memory, longer ones are cut modulo 256. */
  lemma PayloadTakenIff(size: u16)
    ensures DataLength(size) == size - PROG_MEM_FIXED_SIZE
       <==> PROG_MEM_FIXED_SIZE <= size <= PROG_MEM_FIXED_SIZE + 255
  {}

  /** `get_read_mem_data` */
  method GetReadMemData(packetData: seq<u8>, size: u16) returns (status: i16, mem: ReadMemData)
    requires |packetData| == PACKET_DATA_SIZE
    ensures status == if size == 9 then 0 else -1
    ensures status == 0 ==>
      && mem.startAddress == AddressAt(packetData, 1) && mem.bytesToRead == AddressAt(packetData, 5)
      && mem.memoryType == match packetData[0] case 0 => MemoryFlash case 1 => MemoryEeprom case _ => MemoryErr
    ensures status == 0 ==>
      mem == ReadMemData(BigEndian(packetData[1..5]), BigEndian(packetData[5..9]), GetMemoryType(packetData[0]))
  {
    mem := ReadMemData(0, 0, MemoryErr);
    if size != READ_MEM_FIXED_SIZE {
      return -1, mem;
    }
    var start := OrBytes(packetData[1..5]);
    var count := OrBytes(packetData[5..9]);
    mem := ReadMemData(start, count, GetMemoryType(packetData[0]));
    status := 0;
  }
}
