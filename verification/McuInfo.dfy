/** The description of a target, sent in a "load MCU info" packet: its record, its
    length-prefixed wire form, and the parser `get_mcu_info`. */
module McuInfo {
  import opened Bits
  import opened Patterns
  import opened Results

  /** The characters of a pattern; its length travels in one byte. */
  type Text = s: seq<u8> | |s| <= 255

  datatype AvrMcuInfo = AvrMcuInfo(
    flashLoadLo: Text,
    flashLoadHi: Text,
    flashReadLo: Text,
    flashReadHi: Text,
    flashWaitMs: u8,
    eepromWrite: Text,
    eepromRead: Text,
    eepromWaitMs: u8,
    pgmEnable: Frame)

  // --------------------------------------------------------------- Wire form

  /** A length-prefixed pattern in front of `rest`. */
  function PutText(t: Text, rest: seq<u8>): seq<u8> {
    [|t|] + t + rest
  }

  function PutByte(b: u8, rest: seq<u8>): seq<u8> {
    [b] + rest
  }

  function PutFlash(info: AvrMcuInfo, rest: seq<u8>): seq<u8> {
    PutText(info.flashLoadLo, PutText(info.flashLoadHi,
    PutText(info.flashReadLo, PutText(info.flashReadHi, PutByte(info.flashWaitMs, rest)))))
  }

  function PutEeprom(info: AvrMcuInfo, rest: seq<u8>): seq<u8> {
    PutText(info.eepromWrite, PutText(info.eepromRead, PutByte(info.eepromWaitMs, info.pgmEnable + rest)))
  }

  /** The wire form of a record, in front of `rest`. */
  function Put(info: AvrMcuInfo, rest: seq<u8>): seq<u8> {
    PutFlash(info, PutEeprom(info, rest))
  }

  /** The bytes taken by a record: six lengths, two waits, four command bytes, the texts. */
  function WireLength(info: AvrMcuInfo): nat {
    12 + |info.flashLoadLo| + |info.flashLoadHi| + |info.flashReadLo| + |info.flashReadHi|
       + |info.eepromWrite| + |info.eepromRead|
  }

  lemma PutLength(info: AvrMcuInfo, rest: seq<u8>)
    ensures |Put(info, rest)| == WireLength(info) + |rest|
  {}

  /** The wire form field by field: each pattern behind its length, the waits behind the flash and
      the EEPROM patterns, the enable command last. */
  lemma WireForm(info: AvrMcuInfo)
    ensures Put(info, [])
         == [|info.flashLoadLo|] + info.flashLoadLo + [|info.flashLoadHi|] + info.flashLoadHi
            + [|info.flashReadLo|] + info.flashReadLo + [|info.flashReadHi|] + info.flashReadHi + [info.flashWaitMs]
            + [|info.eepromWrite|] + info.eepromWrite + [|info.eepromRead|] + info.eepromRead + [info.eepromWaitMs]
            + info.pgmEnable
  {}

  lemma PutFlashAppends(info: AvrMcuInfo, a: seq<u8>, b: seq<u8>)
    ensures PutFlash(info, a + b) == PutFlash(info, a) + b
  {}

  lemma PutEepromAppends(info: AvrMcuInfo, a: seq<u8>, b: seq<u8>)
    ensures PutEeprom(info, a + b) == PutEeprom(info, a) + b
  {}

  lemma PutAppends(info: AvrMcuInfo, rest: seq<u8>)
    ensures Put(info, rest) == Put(info, []) + rest
  {
    PutEepromAppends(info, [], rest);
    PutFlashAppends(info, PutEeprom(info, []), rest);
    assert [] + rest == rest;
  }

  // ------------------------------------------------------------------ Parser

  function GetText(s: seq<u8>): Option<(Text, seq<u8>)> {
    if |s| == 0 || |s| - 1 < s[0] then None
    else Some((s[1..][..s[0]], s[1..][s[0]..]))
  }

  function GetByte(s: seq<u8>): Option<(u8, seq<u8>)> {
    if |s| == 0 then None else Some((s[0], s[1..]))
  }

  function GetFrame(s: seq<u8>): Option<(Frame, seq<u8>)> {
    if |s| < AVR_CMD_SIZE then None else Some((s[..AVR_CMD_SIZE], s[AVR_CMD_SIZE..]))
  }

  type FlashFields = (Text, Text, Text, Text, u8)
  type EepromFields = (Text, Text, u8, Frame)

  function GetFlash(s: seq<u8>): Option<(FlashFields, seq<u8>)> {
    var (loadLo, s1) :- GetText(s);
    var (loadHi, s2) :- GetText(s1);
    var (readLo, s3) :- GetText(s2);
    var (readHi, s4) :- GetText(s3);
    var (wait, s5) :- GetByte(s4);
    Some(((loadLo, loadHi, readLo, readHi, wait), s5))
  }

  function GetEeprom(s: seq<u8>): Option<(EepromFields, seq<u8>)> {
    var (write, s1) :- GetText(s);
    var (read, s2) :- GetText(s1);
    var (wait, s3) :- GetByte(s2);
    var (pgmEnable, s4) :- GetFrame(s3);
    Some(((write, read, wait, pgmEnable), s4))
  }

  function Record(f: FlashFields, e: EepromFields): AvrMcuInfo {
    AvrMcuInfo(f.0, f.1, f.2, f.3, f.4, e.0, e.1, e.2, e.3)
  }

  /** The record at the front of `s` and what follows it; None when `s` is too short. */
  function Get(s: seq<u8>): Option<(AvrMcuInfo, seq<u8>)> {
    var (flash, s1) :- GetFlash(s);
    var (eeprom, s2) :- GetEeprom(s1);
    Some((Record(flash, eeprom), s2))
  }

  lemma GetPutText(t: Text, rest: seq<u8>)
    ensures GetText(PutText(t, rest)) == Some((t, rest))
  {
    assert PutText(t, rest)[1..] == t + rest;
  }

  lemma PutGetText(s: seq<u8>)
    requires GetText(s).Some?
    ensures s == PutText(GetText(s).value.0, GetText(s).value.1)
  {}

  lemma GetPutFlash(info: AvrMcuInfo, rest: seq<u8>)
    ensures GetFlash(PutFlash(info, rest))
         == Some(((info.flashLoadLo, info.flashLoadHi, info.flashReadLo, info.flashReadHi, info.flashWaitMs), rest))
  {
    var s4 := PutByte(info.flashWaitMs, rest);
    var s3 := PutText(info.flashReadHi, s4);
    var s2 := PutText(info.flashReadLo, s3);
    var s1 := PutText(info.flashLoadHi, s2);
    GetPutText(info.flashLoadLo, s1);
    GetPutText(info.flashLoadHi, s2);
    GetPutText(info.flashReadLo, s3);
    GetPutText(info.flashReadHi, s4);
    assert GetByte(s4) == Some((info.flashWaitMs, rest)) by { assert s4[1..] == rest; }
  }

  lemma GetPutEeprom(info: AvrMcuInfo, rest: seq<u8>)
    ensures GetEeprom(PutEeprom(info, rest))
         == Some(((info.eepromWrite, info.eepromRead, info.eepromWaitMs, info.pgmEnable), rest))
  {
    var s3 := info.pgmEnable + rest;
    var s2 := PutByte(info.eepromWaitMs, s3);
    var s1 := PutText(info.eepromRead, s2);
    GetPutText(info.eepromWrite, s1);
    GetPutText(info.eepromRead, s2);
    assert GetByte(s2) == Some((info.eepromWaitMs, s3)) by { assert s2[1..] == s3; }
    assert s3[..AVR_CMD_SIZE] == info.pgmEnable && s3[AVR_CMD_SIZE..] == rest;
  }

  /** Parsing a serialised record gives the record back and stops right behind it. */
  lemma RoundTrip(info: AvrMcuInfo, rest: seq<u8>)
    ensures Get(Put(info, []) + rest) == Some((info, rest))
    ensures |Put(info, [])| == WireLength(info)
  {
    PutAppends(info, rest);
    PutLength(info, []);
    GetPutFlash(info, PutEeprom(info, rest));
    GetPutEeprom(info, rest);
  }

  lemma PutGetFlash(s: seq<u8>, e: EepromFields)
    requires GetFlash(s).Some?
    ensures s == PutFlash(Record(GetFlash(s).value.0, e), GetFlash(s).value.1)
  {
    var s1 := GetText(s).value.1;
    var s2 := GetText(s1).value.1;
    var s3 := GetText(s2).value.1;
    var s4 := GetText(s3).value.1;
    assert s4 == PutByte(s4[0], s4[1..]);
    PutGetText(s3);
    PutGetText(s2);
    PutGetText(s1);
    PutGetText(s);
  }

  lemma PutGetEeprom(s: seq<u8>, f: FlashFields)
    requires GetEeprom(s).Some?
    ensures s == PutEeprom(Record(f, GetEeprom(s).value.0), GetEeprom(s).value.1)
  {
    var s1 := GetText(s).value.1;
    var s2 := GetText(s1).value.1;
    var s3 := s2[1..];
    assert s3 == s3[..AVR_CMD_SIZE] + s3[AVR_CMD_SIZE..];
    assert s2 == PutByte(s2[0], s3);
    PutGetText(s1);
    PutGetText(s);
  }

  /** The consumed bytes are the serialisation of the parsed record, so no two different
      byte strings are consumed for the same record. */
  lemma ParseIsExact(s: seq<u8>)
    requires Get(s).Some?
    ensures s == Put(Get(s).value.0, []) + Get(s).value.1
  {
    var (flash, s1) := GetFlash(s).value;
    var (eeprom, s2) := GetEeprom(s1).value;
    PutGetFlash(s, eeprom);
    PutGetEeprom(s1, flash);
    PutAppends(Record(flash, eeprom), s2);
  }

  /** One of the six copy loops: `len = buf[k++]`, `calloc(len + 1)`, then `len` characters.
      `buffer` is the allocated string with its terminator. */
  method ReadText(buf: seq<u8>, k0: nat) returns (text: Text, k: nat, buffer: array<u8>)
    requires k0 <= |buf| && GetText(buf[k0..]).Some?
    ensures fresh(buffer) && buffer[..] == text + [0]
    ensures k <= |buf| && GetText(buf[k0..]) == Some((text, buf[k..]))
  {
    var len := buf[k0];
    k := k0 + 1;
    buffer := new u8[len + 1](_ => 0);
    for i := 0 to len
      invariant k == k0 + 1 + i
      invariant buffer[..i] == buf[k0 + 1..k]
      invariant buffer[len] == 0
    {
      buffer[i] := buf[k];
      k := k + 1;
    }
    text := buffer[..len];
    assert buf[k0..][1..][..len] == buf[k0 + 1..k];
    assert buf[k0..][1..][len..] == buf[k..];
  }

  /** `buf[k++]` */
  method ReadByte(buf: seq<u8>, k0: nat) returns (b: u8, k: nat)
    requires k0 <= |buf| && GetByte(buf[k0..]).Some?
    ensures k <= |buf| && GetByte(buf[k0..]) == Some((b, buf[k..]))
  {
    b, k := buf[k0], k0 + 1;
  }

  method ReadFrame(buf: seq<u8>, k0: nat) returns (f: Frame, k: nat)
    requires k0 <= |buf| && GetFrame(buf[k0..]).Some?
    ensures k <= |buf| && GetFrame(buf[k0..]) == Some((f, buf[k..]))
  {
    k := k0;
    var frame := new u8[AVR_CMD_SIZE];
    for i := 0 to AVR_CMD_SIZE
      invariant k == k0 + i
      invariant frame[..i] == buf[k0..k]
    {
      frame[i] := buf[k];
      k := k + 1;
    }
    assert frame[..] == frame[..AVR_CMD_SIZE];
    assert buf[k0..][..AVR_CMD_SIZE] == buf[k0..k];
    assert buf[k0..][AVR_CMD_SIZE..] == buf[k..];
    f := frame[..];
  }

  method ReadFlashFields(buf: seq<u8>, k0: nat) returns (f: FlashFields, k: nat)
    requires k0 <= |buf| && GetFlash(buf[k0..]).Some?
    ensures k <= |buf| && GetFlash(buf[k0..]) == Some((f, buf[k..]))
  {
    var loadLo, k1, loadLoBuffer := ReadText(buf, k0);
    var loadHi, k2, loadHiBuffer := ReadText(buf, k1);
    var readLo, k3, readLoBuffer := ReadText(buf, k2);
    var readHi, k4, readHiBuffer := ReadText(buf, k3);
    var wait;
    wait, k := ReadByte(buf, k4);
    f := (loadLo, loadHi, readLo, readHi, wait);
  }

  method ReadEepromFields(buf: seq<u8>, k0: nat) returns (e: EepromFields, k: nat)
    requires k0 <= |buf| && GetEeprom(buf[k0..]).Some?
    ensures k <= |buf| && GetEeprom(buf[k0..]) == Some((e, buf[k..]))
  {
    var write, k1, writeBuffer := ReadText(buf, k0);
    var read, k2, readBuffer := ReadText(buf, k1);
    var wait, k3 := ReadByte(buf, k2);
    var pgmEnable;
    pgmEnable, k := ReadFrame(buf, k3);
    e := (write, read, wait, pgmEnable);
  }

  /** `get_mcu_info` without the out-of-bounds terminator stores: any packet long enough
      to hold the record is parsed, and the cursor ends right behind the record. */
  method GetMcuInfo(buf: seq<u8>) returns (info: AvrMcuInfo, k: nat)
    requires Get(buf).Some?
    ensures k <= |buf| && Get(buf) == Some((info, buf[k..]))
    ensures buf[..k] == Put(info, []) && k == WireLength(info)
  {
    assert buf[0..] == buf;
    var flash, eeprom;
    flash, k := ReadFlashFields(buf, 0);
    eeprom, k := ReadEepromFields(buf, k);
    info := Record(flash, eeprom);
    ParseIsExact(buf);
    PutLength(info, []);
  }
}
