/** The records of the STORE-only ZIP writer: date and time packing, little-endian fields, headers.
    Layouts: sections 4.3.7, 4.3.12, 4.3.16 and 4.4.6 of PKWARE APPNOTE.TXT. */
module ZipRecords {
  import opened Text

  type byte = x: int | 0 <= x < 0x100
  type uint32 = x: int | 0 <= x < 0x1_0000_0000
  type Checksum = seq<byte> -> uint32

  datatype Entry = Entry(name: seq<byte>, data: seq<byte>)

  // Date and time

  datatype LocalTime = LocalTime(year: int, month: nat, day: nat, hours: nat, minutes: nat, seconds: nat)

  predicate ValidTime(t: LocalTime) {
    1 <= t.month <= 12 && 1 <= t.day <= 31 && t.hours < 24 && t.minutes < 60 && t.seconds < 60
  }

  datatype DosDateTime = DosDateTime(time: int, dateValue: int)

  function ToDosDateTime(t: LocalTime): DosDateTime {
    DosDateTime(
      t.hours * 2048 + t.minutes * 32 + t.seconds / 2,
      (t.year - 1980) * 512 + t.month * 32 + t.day)
  }

  function FromDosDateTime(d: DosDateTime): LocalTime
    requires 0 <= d.time < 0x1_0000 && 0 <= d.dateValue < 0x1_0000
  {
    LocalTime(d.dateValue / 512 + 1980, d.dateValue / 32 % 16, d.dateValue % 32,
      d.time / 2048, d.time / 32 % 64, d.time % 32 * 2)
  }

  /** The fields do not overlap: shifting and or-ing them is the sum written above. */
  lemma ShiftedFieldsAdd(hours: bv32, minutes: bv32, halves: bv32, years: bv32, month: bv32, day: bv32)
    requires hours < 24 && minutes < 60 && halves < 30 && years < 128 && month < 16 && day < 32
    ensures (hours << 11) | (minutes << 5) | halves == hours * 2048 + minutes * 32 + halves
    ensures (years << 9) | (month << 5) | day == years * 512 + month * 32 + day
  {
  }

  /** Exactly the years 1980 to 2107 can be packed, and then the date comes back unchanged and
      the time with its seconds rounded down to even. */
  lemma DosDateTimeRoundTrip(t: LocalTime)
    requires ValidTime(t)
    ensures var d := ToDosDateTime(t);
      && 0 <= d.time < 0x1_0000
      && (0 <= d.dateValue < 0x1_0000 <==> 1980 <= t.year <= 2107)
      && (1980 <= t.year <= 2107 ==> FromDosDateTime(d) == t.(seconds := t.seconds - t.seconds % 2))
  {
    var d := ToDosDateTime(t);
    var hm := t.hours * 64 + t.minutes;
    assert d.time == hm * 32 + t.seconds / 2;
    assert d.time / 2048 == d.time / 32 / 64;
    if 1980 <= t.year <= 2107 {
      var ym := (t.year - 1980) * 16 + t.month;
      assert d.dateValue == ym * 32 + t.day;
      assert d.dateValue / 512 == d.dateValue / 32 / 16;
    }
  }

  // Bytes

  predicate Fits16(v: int) { 0 <= v < 0x1_0000 }
  predicate Fits32(v: int) { 0 <= v < 0x1_0000_0000 }

  function Byte0(v: int): byte { v % 0x100 }
  function Byte1(v: int): byte { v / 0x100 % 0x100 }
  function Byte2(v: int): byte { v / 0x1_0000 % 0x100 }
  function Byte3(v: int): byte { v / 0x100_0000 % 0x100 }

  function LE16(v: int): (r: seq<byte>) ensures |r| == 2 { [Byte0(v), Byte1(v)] }
  function LE32(v: int): (r: seq<byte>) ensures |r| == 4 { [Byte0(v), Byte1(v), Byte2(v), Byte3(v)] }

  function Read16(z: seq<byte>, i: nat): nat
    requires i + 2 <= |z|
  {
    z[i] as int + 0x100 * z[i + 1] as int
  }

  function Read32(z: seq<byte>, i: nat): nat
    requires i + 4 <= |z|
  {
    z[i] as int + 0x100 * z[i + 1] as int + 0x1_0000 * z[i + 2] as int + 0x100_0000 * z[i + 3] as int
  }

  lemma Bytes16(v: nat)
    requires Fits16(v)
    ensures Byte0(v) as int + 0x100 * Byte1(v) as int == v
  {
  }

  lemma Bytes32(v: nat)
    requires Fits32(v)
    ensures Byte0(v) as int + 0x100 * Byte1(v) as int + 0x1_0000 * Byte2(v) as int + 0x100_0000 * Byte3(v) as int == v
  {
    assert v / 0x1_0000 == v / 0x100 / 0x100;
    assert v / 0x100_0000 == v / 0x1_0000 / 0x100;
  }

  predicate SliceIs(z: seq<byte>, p: nat, part: seq<byte>) {
    p + |part| <= |z| && z[p..p + |part|] == part
  }

  /** A part of a part stands where the offsets say. */
  lemma SliceInner(z: seq<byte>, p: nat, a: seq<byte>, b: seq<byte>)
    requires SliceIs(z, p, a + b)
    ensures SliceIs(z, p, a) && SliceIs(z, p + |a|, b)
  {
    var part := z[p..p + |a| + |b|];
    assert part == a + b;
    assert z[p..p + |a|] == part[..|a|];
    assert z[p + |a|..p + |a| + |b|] == part[|a|..];
  }

  /** `writeUInt16LE`: refused when the value does not fit. */
  method WriteUInt16LE(buffer: array<byte>, value: int, offset: nat) returns (ok: bool)
    requires offset + 2 <= buffer.Length
    modifies buffer
    ensures ok <==> Fits16(value)
    ensures ok ==> buffer[..offset + 2] == old(buffer[..offset]) + LE16(value)
  {
    if !Fits16(value) {
      return false;
    }
    buffer[offset] := Byte0(value);
    buffer[offset + 1] := Byte1(value);
    return true;
  }

  method WriteUInt32LE(buffer: array<byte>, value: int, offset: nat) returns (ok: bool)
    requires offset + 4 <= buffer.Length
    modifies buffer
    ensures ok <==> Fits32(value)
    ensures ok ==> buffer[..offset + 4] == old(buffer[..offset]) + LE32(value)
  {
    if !Fits32(value) {
      return false;
    }
    buffer[offset] := Byte0(value);
    buffer[offset + 1] := Byte1(value);
    buffer[offset + 2] := Byte2(value);
    buffer[offset + 3] := Byte3(value);
    return true;
  }

  // Records

  /** The twenty bytes both headers share: time, date, checksum, sizes, name and extra length. */
  function Common(e: Entry, stamp: DosDateTime, crc: uint32): (r: seq<byte>)
    ensures |r| == 20
  {
    LE16(stamp.time) + LE16(stamp.dateValue) + LE32(crc) + LE32(|e.data|) + LE32(|e.data|) + LE16(|e.name|) + LE16(0)
  }

  function LocalHeader(e: Entry, stamp: DosDateTime, crc: uint32): (r: seq<byte>)
    ensures |r| == 30
  {
    LE32(0x04034b50) + LE16(20) + LE16(0) + LE16(0) + Common(e, stamp, crc)
  }

  function CentralHeader(e: Entry, stamp: DosDateTime, crc: uint32, offset: nat): (r: seq<byte>)
    ensures |r| == 46
  {
    LE32(0x02014b50) + LE16(20) + LE16(20) + LE16(0) + LE16(0) + Common(e, stamp, crc)
    + LE16(0) + LE16(0) + LE16(0) + LE32(0) + LE32(offset)
  }

  function EndRecord(count: nat, size: nat, offset: nat): (r: seq<byte>)
    ensures |r| == 22
  {
    LE32(0x06054b50) + LE16(0) + LE16(0) + LE16(count) + LE16(count) + LE32(size) + LE32(offset) + LE16(0)
  }

  method WriteCommon(h: array<byte>, at: nat, e: Entry, stamp: DosDateTime, crc: uint32) returns (ok: bool)
    requires at + 20 <= h.Length
    requires Fits16(stamp.time)
    modifies h
    ensures ok <==> Fits16(stamp.dateValue) && Fits32(|e.data|) && Fits16(|e.name|)
    ensures ok ==> h[..at + 20] == old(h[..at]) + Common(e, stamp, crc)
  {
    ok := WriteUInt16LE(h, stamp.time, at);
    ok := WriteUInt16LE(h, stamp.dateValue, at + 2);
    if !ok { return; }
    ok := WriteUInt32LE(h, crc, at + 4);
    ok := WriteUInt32LE(h, |e.data|, at + 8);
    if !ok { return; }
    ok := WriteUInt32LE(h, |e.data|, at + 12);
    ok := WriteUInt16LE(h, |e.name|, at + 16);
    if !ok { return; }
    ok := WriteUInt16LE(h, 0, at + 18);
  }

  method BuildLocalHeader(e: Entry, stamp: DosDateTime, crc: uint32) returns (header: Option<seq<byte>>)
    requires Fits16(stamp.time)
    ensures header.Some? <==> Fits16(stamp.dateValue) && Fits32(|e.data|) && Fits16(|e.name|)
    ensures header.Some? ==> header.value == LocalHeader(e, stamp, crc)
  {
    hide LE16, LE32, Common;
    var h := new byte[30](_ => 0);
    var ok := WriteUInt32LE(h, 0x04034b50, 0);
    ok := WriteUInt16LE(h, 20, 4);
    ok := WriteUInt16LE(h, 0, 6);
    ok := WriteUInt16LE(h, 0, 8);
    ok := WriteCommon(h, 10, e, stamp, crc);
    if !ok { return None; }
    assert h[..30] == h[..];
    return Some(h[..]);
  }

  method BuildCentralHeader(e: Entry, stamp: DosDateTime, crc: uint32, offset: nat)
    returns (header: Option<seq<byte>>)
    requires Fits16(stamp.time) && Fits16(stamp.dateValue) && Fits32(|e.data|) && Fits16(|e.name|)
    ensures header.Some? <==> Fits32(offset)
    ensures header.Some? ==> header.value == CentralHeader(e, stamp, crc, offset)
  {
    hide LE16, LE32, Common;
    var h := new byte[46](_ => 0);
    var ok := WriteUInt32LE(h, 0x02014b50, 0);
    ok := WriteUInt16LE(h, 20, 4);
    ok := WriteUInt16LE(h, 20, 6);
    ok := WriteUInt16LE(h, 0, 8);
    ok := WriteUInt16LE(h, 0, 10);
    ok := WriteCommon(h, 12, e, stamp, crc);
    ok := WriteUInt16LE(h, 0, 32);
    ok := WriteUInt16LE(h, 0, 34);
    ok := WriteUInt16LE(h, 0, 36);
    ok := WriteUInt32LE(h, 0, 38);
    ok := WriteUInt32LE(h, offset, 42);
    if !ok { return None; }
    assert h[..46] == h[..];
    return Some(h[..]);
  }

  method BuildEndRecord(count: nat, size: nat, offset: nat) returns (record: Option<seq<byte>>)
    ensures record.Some? <==> Fits16(count) && Fits32(size) && Fits32(offset)
    ensures record.Some? ==> record.value == EndRecord(count, size, offset)
  {
    hide LE16, LE32, Common;
    var r := new byte[22](_ => 0);
    var ok := WriteUInt32LE(r, 0x06054b50, 0);
    ok := WriteUInt16LE(r, 0, 4);
    ok := WriteUInt16LE(r, 0, 6);
    ok := WriteUInt16LE(r, count, 8);
    if !ok { return None; }
    ok := WriteUInt16LE(r, count, 10);
    ok := WriteUInt32LE(r, size, 12);
    if !ok { return None; }
    ok := WriteUInt32LE(r, offset, 16);
    if !ok { return None; }
    ok := WriteUInt16LE(r, 0, 20);
    assert r[..22] == r[..];
    return Some(r[..]);
  }

  // Reading the headers

  datatype Fields = Fields(stamp: DosDateTime, crc: nat, compressed: nat, size: nat, nameLength: nat, extraLength: nat)

  function ReadCommon(z: seq<byte>, p: nat): Fields
    requires p + 20 <= |z|
  {
    Fields(DosDateTime(Read16(z, p), Read16(z, p + 2)), Read32(z, p + 4),
      Read32(z, p + 8), Read32(z, p + 12), Read16(z, p + 16), Read16(z, p + 18))
  }

  /** A local header that every reader understands: version 2.0 at most, no flags, stored without compression. */
  predicate StoredLocally(z: seq<byte>, p: nat)
    requires p + 30 <= |z|
  {
    Read16(z, p + 4) <= 20 && Read16(z, p + 6) == 0 && Read16(z, p + 8) == 0
  }

  /** The same of a central header, which besides names the first disk, a host of type 0 and no attributes. */
  predicate StoredCentrally(z: seq<byte>, p: nat)
    requires p + 46 <= |z|
  {
    && Read16(z, p + 4) <= 20 && Read16(z, p + 6) <= 20 && Read16(z, p + 8) == 0 && Read16(z, p + 10) == 0
    && Read16(z, p + 34) == 0 && Read16(z, p + 36) == 0 && Read32(z, p + 38) == 0
  }

  /** An end record of an archive on a single disk, without a comment. */
  predicate OnOneDisk(z: seq<byte>, p: nat)
    requires p + 22 <= |z|
  {
    Read16(z, p + 4) == 0 && Read16(z, p + 6) == 0 && Read16(z, p + 8) == Read16(z, p + 10) && Read16(z, p + 20) == 0
  }

  predicate FitsEntry(e: Entry, stamp: DosDateTime) {
    Fits16(stamp.time) && Fits16(stamp.dateValue) && Fits32(|e.data|) && Fits16(|e.name|)
  }

  lemma ReadCommonBack(z: seq<byte>, p: nat, e: Entry, stamp: DosDateTime, crc: uint32)
    requires SliceIs(z, p, Common(e, stamp, crc)) && FitsEntry(e, stamp)
    ensures p + 20 <= |z|
    ensures ReadCommon(z, p) == Fields(stamp, crc, |e.data|, |e.data|, |e.name|, 0)
  {
    var c := z[p..p + 20];
    assert forall i :: 0 <= i < 20 ==> c[i] == z[p + i];
    Bytes16(stamp.time);
    Bytes16(stamp.dateValue);
    Bytes32(crc);
    Bytes32(|e.data|);
    Bytes16(|e.name|);
  }

  lemma ReadFront(z: seq<byte>, p: nat, v: nat, rest: seq<byte>, whole: seq<byte>)
    requires whole == LE32(v) + rest && Fits32(v) && SliceIs(z, p, whole)
    ensures Read32(z, p) == v
  {
    SliceInner(z, p, LE32(v), rest);
    var field := z[p..p + 4];
    assert z[p] == field[0] && z[p + 1] == field[1] && z[p + 2] == field[2] && z[p + 3] == field[3];
    Bytes32(v);
  }

  lemma ReadLocalHeader(z: seq<byte>, p: nat, e: Entry, stamp: DosDateTime, crc: uint32)
    requires SliceIs(z, p, LocalHeader(e, stamp, crc)) && FitsEntry(e, stamp)
    ensures p + 30 <= |z| && Read32(z, p) == 0x04034b50 && StoredLocally(z, p)
    ensures ReadCommon(z, p + 10) == Fields(stamp, crc, |e.data|, |e.data|, |e.name|, 0)
  {
    var fixed := LE32(0x04034b50) + LE16(20) + LE16(0) + LE16(0);
    SliceInner(z, p, fixed, Common(e, stamp, crc));
    ReadCommonBack(z, p + 10, e, stamp, crc);
    ReadFront(z, p, 0x04034b50, LE16(20) + LE16(0) + LE16(0), fixed);
    LocalFixed(z, p);
  }

  lemma LocalFixed(z: seq<byte>, p: nat)
    requires SliceIs(z, p, LE32(0x04034b50) + LE16(20) + LE16(0) + LE16(0)) && p + 30 <= |z|
    ensures StoredLocally(z, p)
  {
    var fixed := z[p..p + 10];
    assert forall i :: 0 <= i < 10 ==> fixed[i] == z[p + i];
  }

  lemma CentralFixed(z: seq<byte>, p: nat)
    requires SliceIs(z, p, LE32(0x02014b50) + LE16(20) + LE16(20) + LE16(0) + LE16(0)) && p + 46 <= |z|
    requires SliceIs(z, p + 32, LE16(0) + LE16(0) + LE16(0) + LE32(0))
    ensures StoredCentrally(z, p) && Read16(z, p + 32) == 0
  {
    var fixed, tail := z[p..p + 12], z[p + 32..p + 42];
    assert forall i :: 0 <= i < 12 ==> fixed[i] == z[p + i];
    assert forall i :: 0 <= i < 10 ==> tail[i] == z[p + 32 + i];
  }

  lemma ReadCentralHeader(z: seq<byte>, p: nat, e: Entry, stamp: DosDateTime, crc: uint32, offset: nat)
    requires SliceIs(z, p, CentralHeader(e, stamp, crc, offset)) && FitsEntry(e, stamp) && Fits32(offset)
    ensures p + 46 <= |z| && Read32(z, p) == 0x02014b50
    ensures ReadCommon(z, p + 12) == Fields(stamp, crc, |e.data|, |e.data|, |e.name|, 0)
    ensures Read16(z, p + 32) == 0 && Read32(z, p + 42) == offset && StoredCentrally(z, p)
  {
    var fixed := LE32(0x02014b50) + LE16(20) + LE16(20) + LE16(0) + LE16(0);
    var tail := LE16(0) + LE16(0) + LE16(0) + LE32(0);
    var common := Common(e, stamp, crc);
    assert CentralHeader(e, stamp, crc, offset) == fixed + (common + (tail + LE32(offset)));
    SliceInner(z, p, fixed, common + (tail + LE32(offset)));
    SliceInner(z, p + 12, common, tail + LE32(offset));
    SliceInner(z, p + 32, tail, LE32(offset));
    ReadCommonBack(z, p + 12, e, stamp, crc);
    ReadFront(z, p, 0x02014b50, LE16(20) + LE16(20) + LE16(0) + LE16(0), fixed);
    ReadFront(z, p + 42, offset, [], LE32(offset));
    CentralFixed(z, p);
  }

  lemma ReadEndRecord(z: seq<byte>, p: nat, count: nat, size: nat, offset: nat)
    requires SliceIs(z, p, EndRecord(count, size, offset)) && Fits16(count) && Fits32(size) && Fits32(offset)
    ensures p + 22 <= |z| && Read32(z, p) == 0x06054b50
    ensures Read16(z, p + 10) == count && Read32(z, p + 12) == size && Read32(z, p + 16) == offset && OnOneDisk(z, p)
  {
    EndFields(z, p, count, size, offset);
    EndDisk(z, p, count, size, offset);
  }

  lemma EndFields(z: seq<byte>, p: nat, count: nat, size: nat, offset: nat)
    requires SliceIs(z, p, EndRecord(count, size, offset)) && Fits16(count) && Fits32(size) && Fits32(offset)
    ensures p + 22 <= |z| && Read32(z, p) == 0x06054b50
    ensures Read16(z, p + 10) == count && Read32(z, p + 12) == size && Read32(z, p + 16) == offset
  {
    var r := z[p..p + 22];
    assert forall i :: 0 <= i < 22 ==> r[i] == z[p + i];
    Bytes32(0x06054b50);
    Bytes16(count);
    Bytes32(size);
    Bytes32(offset);
  }

  lemma EndDisk(z: seq<byte>, p: nat, count: nat, size: nat, offset: nat)
    requires SliceIs(z, p, EndRecord(count, size, offset))
    ensures p + 22 <= |z| && OnOneDisk(z, p)
  {
    var r := z[p..p + 22];
    assert forall i :: 0 <= i < 22 ==> r[i] == z[p + i];
    hide Byte2, Byte3;
  }
}
