/** Which command each round of the programming and reading loops is meant to send. */
module Commands {
  import opened Bits
  import opened Patterns
  import opened McuInfo
  import opened Spi

  function Command(text: Text, addr: u32, input: u8): Frame {
    Render(Tokens(text), addr, input)
  }

  /** Byte j of a flash page goes to word j/2: low byte first. */
  function FlashWrite(info: AvrMcuInfo, start: u32, data: seq<u8>, j: nat): Frame
    requires j < |data|
  {
    Command(if j % 2 == 0 then info.flashLoadLo else info.flashLoadHi, ToU32(start + j / 2), data[j])
  }

  function FlashWrites(info: AvrMcuInfo, start: u32, data: seq<u8>): (fs: seq<Frame>)
    ensures |fs| == |data|
    ensures forall j :: 0 <= j < |data| ==> fs[j] == FlashWrite(info, start, data, j)
  {
    seq(|data|, j requires 0 <= j < |data| => FlashWrite(info, start, data, j))
  }

  /** The two commands of word w. */
  lemma FlashWord(info: AvrMcuInfo, start: u32, data: seq<u8>, w: nat)
    requires 2 * w + 1 < |data|
    ensures FlashWrites(info, start, data)[2 * w] == Command(info.flashLoadLo, ToU32(start + w), data[2 * w])
    ensures FlashWrites(info, start, data)[2 * w + 1] == Command(info.flashLoadHi, ToU32(start + w), data[2 * w + 1])
  {}

  function EepromWrite(info: AvrMcuInfo, start: u32, data: seq<u8>, j: nat): Frame
    requires j < |data|
  {
    Command(info.eepromWrite, ToU32(start + j), data[j])
  }

  function EepromWrites(info: AvrMcuInfo, start: u32, data: seq<u8>): (fs: seq<Frame>)
    ensures |fs| == |data|
    ensures forall j :: 0 <= j < |data| ==> fs[j] == EepromWrite(info, start, data, j)
  {
    seq(|data|, j requires 0 <= j < |data| => EepromWrite(info, start, data, j))
  }

  /** Reading goes the other way round: high byte first. */
  function FlashRead(info: AvrMcuInfo, start: u32, j: nat): Frame {
    Command(if j % 2 == 0 then info.flashReadHi else info.flashReadLo, ToU32(start + j / 2), 0)
  }

  /** The flash read loop works in pairs, so an odd count is rounded up. */
  function RoundUp(n: nat): nat { n + n % 2 }

  function FlashReads(info: AvrMcuInfo, start: u32, n: nat): (fs: seq<Frame>)
    ensures |fs| == RoundUp(n)
    ensures forall j :: 0 <= j < |fs| ==> fs[j] == FlashRead(info, start, j)
  {
    seq(RoundUp(n), j requires 0 <= j => FlashRead(info, start, j))
  }

  lemma FlashReadWord(info: AvrMcuInfo, start: u32, n: nat, w: nat)
    requires 2 * w < n
    ensures 2 * w + 1 < |FlashReads(info, start, n)|
    ensures FlashReads(info, start, n)[2 * w] == Command(info.flashReadHi, ToU32(start + w), 0)
    ensures FlashReads(info, start, n)[2 * w + 1] == Command(info.flashReadLo, ToU32(start + w), 0)
  {}

  function EepromRead(info: AvrMcuInfo, start: u32, j: nat): Frame {
    Command(info.eepromRead, ToU32(start + j), 0)
  }

  function EepromReads(info: AvrMcuInfo, start: u32, n: nat): (fs: seq<Frame>)
    ensures |fs| == n
    ensures forall j :: 0 <= j < n ==> fs[j] == EepromRead(info, start, j)
  {
    seq(n, j requires 0 <= j => EepromRead(info, start, j))
  }

  // ----------------------------------------------------- What a read stores

  /** The data bytes of the first k answers. */
  function DataBytes(device: Device, sent: seq<Frame>, frames: seq<Frame>, k: nat): (bytes: seq<u8>)
    requires k <= |frames|
    ensures |bytes| == k
    ensures forall j :: 0 <= j < k ==> bytes[j] == AnswerAt(device, sent, frames, j)[AVR_CMD_SIZE - 1]
  {
    seq(k, j requires 0 <= j < k => AnswerAt(device, sent, frames, j)[AVR_CMD_SIZE - 1])
  }

  lemma DataBytesNext(device: Device, sent: seq<Frame>, frames: seq<Frame>, k: nat)
    requires k < |frames|
    ensures DataBytes(device, sent, frames, k + 1)[..k] == DataBytes(device, sent, frames, k)
  {}

  lemma RingStoreNext(device: Device, sent: seq<Frame>, frames: seq<Frame>, k: nat, buf: seq<u8>)
    requires k < |frames| && 256 <= |buf|
    ensures RingStore(buf, DataBytes(device, sent, frames, k + 1))
         == RingStore(buf, DataBytes(device, sent, frames, k))
              [k % 256 := AnswerAt(device, sent, frames, k)[AVR_CMD_SIZE - 1]]
  {
    DataBytesNext(device, sent, frames, k);
  }

  lemma LinearStoreNext(device: Device, sent: seq<Frame>, frames: seq<Frame>, k: nat, buf: seq<u8>)
    requires k < |frames| && k < |buf|
    ensures DataBytes(device, sent, frames, k + 1) + buf[k + 1..]
         == (DataBytes(device, sent, frames, k) + buf[k..])
              [k := AnswerAt(device, sent, frames, k)[AVR_CMD_SIZE - 1]]
  {}

  /** Storing `bytes` one after the other through an 8-bit counter. */
  function RingStore(buf: seq<u8>, bytes: seq<u8>): (r: seq<u8>)
    requires |bytes| <= |buf| || 256 <= |buf|
    ensures |r| == |buf|
    decreases |bytes|
  {
    if |bytes| == 0 then buf
    else
      var last := |bytes| - 1;
      RingStore(buf, bytes[..last])[last % 256 := bytes[last]]
  }

  /** The largest index below m that is congruent to c modulo 256. */
  function LastIndex(m: nat, c: nat): (r: nat)
    requires c < 256 && c < m
    ensures r < m && r % 256 == c && m <= r + 256
    ensures m <= 256 ==> r == c
    decreases m
  {
    if (m - 1) % 256 == c then m - 1 else LastIndex(m - 1, c)
  }

  lemma {:induction false} RingStoreAt(buf: seq<u8>, bytes: seq<u8>, c: nat)
    requires |bytes| <= |buf| || 256 <= |buf|
    requires c < |buf|
    ensures RingStore(buf, bytes)[c]
         == if c < 256 && c < |bytes| then bytes[LastIndex(|bytes|, c)] else buf[c]
  {
    if |bytes| > 0 {
      var last := |bytes| - 1;
      RingStoreAt(buf, bytes[..last], c);
    }
  }

  /** Up to 256 bytes are stored in order. */
  lemma RingStoreLinear(buf: seq<u8>, bytes: seq<u8>)
    requires |bytes| <= |buf| && |bytes| <= 256
    ensures RingStore(buf, bytes) == bytes + buf[|bytes|..]
  {
    forall c | 0 <= c < |buf|
      ensures RingStore(buf, bytes)[c] == (bytes + buf[|bytes|..])[c]
    {
      RingStoreAt(buf, bytes, c);
    }
  }
}
