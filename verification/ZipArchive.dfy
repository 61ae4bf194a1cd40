/** The archive writer of the diagnostics export, and a reader that takes an archive apart again. */
module ZipArchive {
  import opened Text
  import opened ZipRecords

  // The archive

  function LocalRecord(e: Entry, stamp: DosDateTime, crc32: Checksum): seq<byte> {
    LocalHeader(e, stamp, crc32(e.data)) + (e.name + e.data)
  }

  function CentralRecord(e: Entry, stamp: DosDateTime, crc32: Checksum, offset: nat): seq<byte> {
    CentralHeader(e, stamp, crc32(e.data), offset) + e.name
  }

  /** `Buffer.concat`. */
  function Flatten(chunks: seq<seq<byte>>): seq<byte> {
    if chunks == [] then [] else Flatten(Front(chunks)) + Last(chunks)
  }

  /** Where chunk `k` starts once the chunks are concatenated. */
  function Offset(chunks: seq<seq<byte>>, k: nat): (offset: nat)
    requires k <= |chunks|
    ensures k == 0 ==> offset == 0
  {
    |Flatten(chunks[..k])|
  }

  function LocalRecords(entries: seq<Entry>, stamp: DosDateTime, crc32: Checksum): (r: seq<seq<byte>>)
    ensures |r| == |entries|
  {
    seq(|entries|, k requires 0 <= k < |entries| => LocalRecord(entries[k], stamp, crc32))
  }

  function CentralRecords(entries: seq<Entry>, stamp: DosDateTime, crc32: Checksum): (r: seq<seq<byte>>)
    ensures |r| == |entries|
  {
    var locals := LocalRecords(entries, stamp, crc32);
    seq(|entries|, k requires 0 <= k < |entries| => CentralRecord(entries[k], stamp, crc32, Offset(locals, k)))
  }

  function Archive(entries: seq<Entry>, stamp: DosDateTime, crc32: Checksum): seq<byte> {
    var locals := Flatten(LocalRecords(entries, stamp, crc32));
    var central := Flatten(CentralRecords(entries, stamp, crc32));
    locals + (central + EndRecord(|entries|, |central|, |locals|))
  }

  /** Everything the format can hold: the date, the name lengths, the count and the two sizes. */
  predicate Representable(entries: seq<Entry>, stamp: DosDateTime, crc32: Checksum) {
    && (entries != [] ==> Fits16(stamp.dateValue))
    && (forall k :: 0 <= k < |entries| ==> Fits16(|entries[k].name|))
    && Fits16(|entries|)
    && Fits32(|Flatten(LocalRecords(entries, stamp, crc32))|)
    && Fits32(|Flatten(CentralRecords(entries, stamp, crc32))|)
  }

  /** Chunk `k` stands at its offset, and nothing before it is lost. */
  lemma {:induction false} FlattenAt(chunks: seq<seq<byte>>, k: nat)
    requires k < |chunks|
    ensures SliceIs(Flatten(chunks), Offset(chunks, k), chunks[k])
    ensures Offset(chunks, k + 1) == Offset(chunks, k) + |chunks[k]|
    decreases |chunks|
  {
    assert Front(chunks[..k + 1]) == chunks[..k];
    if k < |chunks| - 1 {
      FlattenAt(Front(chunks), k);
      assert Front(chunks)[..k] == chunks[..k];
    } else {
      assert Front(chunks) == chunks[..k];
      assert chunks[..k + 1] == chunks;
    }
  }

  /** A field of entry `k` that does not fit makes the whole list unrepresentable. */
  lemma TooLarge(entries: seq<Entry>, k: nat, stamp: DosDateTime, crc32: Checksum)
    requires k < |entries|
    requires !(Fits16(stamp.dateValue) && Fits32(|entries[k].data|) && Fits16(|entries[k].name|)
               && Fits32(Offset(LocalRecords(entries, stamp, crc32), k)))
    ensures !Representable(entries, stamp, crc32)
  {
    FlattenAt(LocalRecords(entries, stamp, crc32), k);
  }

  method BuildRecords(entry: Entry, stamp: DosDateTime, crc32: Checksum, offset: nat)
    returns (records: Option<(seq<byte>, seq<byte>)>)
    requires Fits16(stamp.time)
    ensures records.Some? <==>
      Fits16(stamp.dateValue) && Fits32(|entry.data|) && Fits16(|entry.name|) && Fits32(offset)
    ensures records.Some? ==>
      records.value == (LocalRecord(entry, stamp, crc32), CentralRecord(entry, stamp, crc32, offset))
  {
    var crc := crc32(entry.data);
    var localHeader := BuildLocalHeader(entry, stamp, crc);
    if localHeader.None? {
      return None;
    }
    var centralHeader := BuildCentralHeader(entry, stamp, crc, offset);
    if centralHeader.None? {
      return None;
    }
    return Some((localHeader.value + (entry.name + entry.data), centralHeader.value + entry.name));
  }

  /** The loop of the writer; `None` when some field does not fit. */
  method BuildZipArchive(entries: seq<Entry>, now: LocalTime, crc32: Checksum) returns (zip: Option<seq<byte>>)
    requires ValidTime(now)
    ensures zip.Some? <==> Representable(entries, ToDosDateTime(now), crc32)
    ensures zip.Some? ==> zip.value == Archive(entries, ToDosDateTime(now), crc32)
  {
    hide LocalRecord, CentralRecord, ToDosDateTime, Flatten;
    var stamp := ToDosDateTime(now);
    DosDateTimeRoundTrip(now);
    ghost var locals, centrals := LocalRecords(entries, stamp, crc32), CentralRecords(entries, stamp, crc32);
    var localChunks: seq<seq<byte>>, centralChunks: seq<seq<byte>>, offset := [], [], 0;
    for k := 0 to |entries|
      invariant localChunks == locals[..k] && offset == Offset(locals, k)
      invariant centralChunks == centrals[..k]
      invariant k > 0 ==> Fits16(stamp.dateValue)
      invariant forall j :: 0 <= j < k ==> Fits16(|entries[j].name|)
    {
      var records := BuildRecords(entries[k], stamp, crc32, offset);
      if records.None? {
        TooLarge(entries, k, stamp, crc32);
        return None;
      }
      FlattenAt(locals, k);
      localChunks := localChunks + [records.value.0];
      centralChunks := centralChunks + [records.value.1];
      offset := offset + |records.value.0|;
    }
    assert locals[..|entries|] == locals && centrals[..|entries|] == centrals;
    var central := Flatten(centralChunks);
    var endRecord := BuildEndRecord(|entries|, |central|, offset);
    if endRecord.None? {
      return None;
    }
    return Some(Flatten(localChunks) + (central + endRecord.value));
  }

  // The reader: end record, then central directory, then each local record

  datatype Listed = Listed(name: seq<byte>, data: seq<byte>, crc: nat, stamp: DosDateTime)

  function ReadLocal(z: seq<byte>, p: nat, name: seq<byte>, fields: Fields): Option<Listed> {
    if p + 30 > |z| || Read32(z, p) != 0x04034b50 || !StoredLocally(z, p) || ReadCommon(z, p + 10) != fields then None
    else if fields.nameLength != |name| || fields.compressed != fields.size then None
    else
      var start := p + 30 + |name| + fields.extraLength;
      if start + fields.size > |z| || z[p + 30..p + 30 + |name|] != name then None
      else Some(Listed(name, z[start..start + fields.size], fields.crc, fields.stamp))
  }

  function ReadCentral(z: seq<byte>, p: nat, count: nat): Option<seq<Listed>>
    decreases count
  {
    if count == 0 then Some([])
    else if p + 46 > |z| || Read32(z, p) != 0x02014b50 || !StoredCentrally(z, p) then None
    else
      var fields := ReadCommon(z, p + 12);
      if p + 46 + fields.nameLength > |z| then None
      else
        var entry := ReadLocal(z, Read32(z, p + 42), z[p + 46..p + 46 + fields.nameLength], fields);
        var rest := ReadCentral(z, p + 46 + fields.nameLength + fields.extraLength + Read16(z, p + 32), count - 1);
        if entry.None? || rest.None? then None else Some([entry.value] + rest.value)
  }

  function ReadArchive(z: seq<byte>): Option<seq<Listed>> {
    if |z| < 22 || Read32(z, |z| - 22) != 0x06054b50 || !OnOneDisk(z, |z| - 22) then None
    else
      var offset, size := Read32(z, |z| - 6), Read32(z, |z| - 10);
      if offset + size != |z| - 22 then None else ReadCentral(z, offset, Read16(z, |z| - 12))
  }

  function Listing(entries: seq<Entry>, stamp: DosDateTime, crc32: Checksum): seq<Listed> {
    seq(|entries|, k requires 0 <= k < |entries| =>
      Listed(entries[k].name, entries[k].data, crc32(entries[k].data), stamp))
  }

  lemma ReadLocalBack(z: seq<byte>, p: nat, e: Entry, stamp: DosDateTime, crc32: Checksum)
    requires SliceIs(z, p, LocalRecord(e, stamp, crc32)) && FitsEntry(e, stamp)
    ensures ReadLocal(z, p, e.name, Fields(stamp, crc32(e.data), |e.data|, |e.data|, |e.name|, 0))
         == Some(Listed(e.name, e.data, crc32(e.data), stamp))
  {
    hide LocalHeader, StoredLocally;
    var header := LocalHeader(e, stamp, crc32(e.data));
    SliceInner(z, p, header, e.name + e.data);
    SliceInner(z, p + 30, e.name, e.data);
    ReadLocalHeader(z, p, e, stamp, crc32(e.data));
  }

  /** What a reader sees where a central record stands. */
  lemma CentralFacts(z: seq<byte>, p: nat, e: Entry, stamp: DosDateTime, crc32: Checksum, offset: nat)
    requires SliceIs(z, p, CentralRecord(e, stamp, crc32, offset)) && FitsEntry(e, stamp) && Fits32(offset)
    ensures |CentralRecord(e, stamp, crc32, offset)| == 46 + |e.name|
    ensures p + 46 + |e.name| <= |z| && Read32(z, p) == 0x02014b50
    ensures ReadCommon(z, p + 12) == Fields(stamp, crc32(e.data), |e.data|, |e.data|, |e.name|, 0)
    ensures Read16(z, p + 32) == 0 && Read32(z, p + 42) == offset && StoredCentrally(z, p)
    ensures z[p + 46..p + 46 + |e.name|] == e.name
  {
    hide CentralHeader, Read16, Read32, ReadCommon, StoredCentrally;
    SliceInner(z, p, CentralHeader(e, stamp, crc32(e.data), offset), e.name);
    ReadCentralHeader(z, p, e, stamp, crc32(e.data), offset);
  }

  /** One step of the walk through the central directory. */
  lemma ReadCentralStep(
    z: seq<byte>, p: nat, count: nat, e: Entry, stamp: DosDateTime, crc32: Checksum, offset: nat, rest: seq<Listed>)
    requires SliceIs(z, p, CentralRecord(e, stamp, crc32, offset)) && SliceIs(z, offset, LocalRecord(e, stamp, crc32))
    requires FitsEntry(e, stamp) && Fits32(offset)
    requires ReadCentral(z, p + |CentralRecord(e, stamp, crc32, offset)|, count) == Some(rest)
    ensures ReadCentral(z, p, count + 1) == Some([Listed(e.name, e.data, crc32(e.data), stamp)] + rest)
  {
    hide LocalRecord, CentralRecord, ReadLocal, Read16, Read32, ReadCommon, SliceIs, StoredCentrally;
    CentralFacts(z, p, e, stamp, crc32, offset);
    ReadLocalBack(z, offset, e, stamp, crc32);
  }

  /** What the layout of an archive says about each entry. */
  predicate LaidOut(z: seq<byte>, base: nat, entries: seq<Entry>, stamp: DosDateTime, crc32: Checksum) {
    var locals, centrals := LocalRecords(entries, stamp, crc32), CentralRecords(entries, stamp, crc32);
    forall k :: 0 <= k < |entries| ==>
      && SliceIs(z, Offset(locals, k), locals[k])
      && SliceIs(z, base + Offset(centrals, k), centrals[k])
      && FitsEntry(entries[k], stamp) && Fits32(Offset(locals, k))
  }

  lemma {:induction false} ReadCentralBack(
    z: seq<byte>, base: nat, entries: seq<Entry>, k: nat, stamp: DosDateTime, crc32: Checksum)
    requires k <= |entries| && LaidOut(z, base, entries, stamp, crc32)
    ensures ReadCentral(z, base + Offset(CentralRecords(entries, stamp, crc32), k), |entries| - k)
         == Some(Listing(entries, stamp, crc32)[k..])
    decreases |entries| - k
  {
    hide LocalRecords, CentralRecords, LaidOut, Offset, ReadCentral;
    var listing := Listing(entries, stamp, crc32);
    if k == |entries| {
      assert listing[k..] == [];
      ReadCentralEnd(z, base + Offset(CentralRecords(entries, stamp, crc32), k));
    } else {
      ReadCentralBack(z, base, entries, k + 1, stamp, crc32);
      ReadCentralAt(z, base, entries, k, stamp, crc32);
      assert listing[k..] == [listing[k]] + listing[k + 1..];
    }
  }

  lemma ReadCentralEnd(z: seq<byte>, p: nat)
    ensures ReadCentral(z, p, 0) == Some([])
  {
  }

  lemma ReadCentralAt(z: seq<byte>, base: nat, entries: seq<Entry>, k: nat, stamp: DosDateTime, crc32: Checksum)
    requires k < |entries| && LaidOut(z, base, entries, stamp, crc32)
    requires ReadCentral(z, base + Offset(CentralRecords(entries, stamp, crc32), k + 1), |entries| - k - 1)
          == Some(Listing(entries, stamp, crc32)[k + 1..])
    ensures ReadCentral(z, base + Offset(CentralRecords(entries, stamp, crc32), k), |entries| - k)
         == Some([Listing(entries, stamp, crc32)[k]] + Listing(entries, stamp, crc32)[k + 1..])
  {
    hide LocalRecord, CentralRecord, SliceIs, FitsEntry, Flatten, ReadCentral, Offset;
    var offset := Offset(LocalRecords(entries, stamp, crc32), k);
    var p := base + Offset(CentralRecords(entries, stamp, crc32), k);
    FlattenAt(CentralRecords(entries, stamp, crc32), k);
    ReadCentralStep(z, p, |entries| - k - 1, entries[k], stamp, crc32, offset, Listing(entries, stamp, crc32)[k + 1..]);
  }

  lemma ArchiveLaidOut(entries: seq<Entry>, stamp: DosDateTime, crc32: Checksum)
    requires Representable(entries, stamp, crc32) && Fits16(stamp.time)
    ensures LaidOut(Archive(entries, stamp, crc32), |Flatten(LocalRecords(entries, stamp, crc32))|, entries, stamp,
                    crc32)
  {
    hide LocalRecord, CentralRecord, EndRecord, Flatten, LocalRecords, CentralRecords;
    var locals, centrals := LocalRecords(entries, stamp, crc32), CentralRecords(entries, stamp, crc32);
    var end := EndRecord(|entries|, |Flatten(centrals)|, |Flatten(locals)|);
    forall k | 0 <= k < |entries|
      ensures SliceIs(Archive(entries, stamp, crc32), Offset(locals, k), locals[k])
      ensures SliceIs(Archive(entries, stamp, crc32), |Flatten(locals)| + Offset(centrals, k), centrals[k])
      ensures FitsEntry(entries[k], stamp) && Fits32(Offset(locals, k))
    {
      if !FitsEntry(entries[k], stamp) || !Fits32(Offset(locals, k)) {
        TooLarge(entries, k, stamp, crc32);
      }
      FlattenAt(locals, k);
      FlattenAt(centrals, k);
      PartsStand(Flatten(locals), Flatten(centrals), end,
                 Offset(locals, k), locals[k], Offset(centrals, k), centrals[k]);
    }
  }

  lemma PartsStand(a: seq<byte>, b: seq<byte>, c: seq<byte>, p: nat, x: seq<byte>, q: nat, y: seq<byte>)
    requires SliceIs(a, p, x) && SliceIs(b, q, y)
    ensures SliceIs(a + (b + c), p, x) && SliceIs(a + (b + c), |a| + q, y)
  {
    SliceShift(a, p, x, [], b + c);
    assert [] + (a + (b + c)) == a + (b + c);
    SliceShift(b, q, y, a, c);
  }

  lemma SliceShift(z: seq<byte>, p: nat, part: seq<byte>, before: seq<byte>, after: seq<byte>)
    requires SliceIs(z, p, part)
    ensures SliceIs(before + (z + after), |before| + p, part)
  {
    var all := before + (z + after);
    assert (z + after)[p..p + |part|] == z[p..p + |part|];
    assert all[|before|..] == z + after;
    assert all[|before| + p..|before| + p + |part|] == all[|before|..][p..p + |part|];
  }

  /** The reader takes only archives on one disk whose entries are stored without flags and without compression. Reading
      a written archive gives back every entry in order, with its checksum and its date. */
  lemma ZipRoundTrip(entries: seq<Entry>, now: LocalTime, crc32: Checksum)
    requires ValidTime(now) && Representable(entries, ToDosDateTime(now), crc32)
    ensures var stamp := ToDosDateTime(now);
      ReadArchive(Archive(entries, stamp, crc32)) == Some(Listing(entries, stamp, crc32))
  {
    hide EndRecord, ToDosDateTime, LaidOut, LocalRecords, CentralRecords, Listing, Flatten, ReadCentral, Read16, Read32;
    hide OnOneDisk;
    var stamp := ToDosDateTime(now);
    DosDateTimeRoundTrip(now);
    var z := Archive(entries, stamp, crc32);
    var locals, central := Flatten(LocalRecords(entries, stamp, crc32)), Flatten(CentralRecords(entries, stamp, crc32));
    var end := EndRecord(|entries|, |central|, |locals|);
    SliceShift(end, 0, end, locals + central, []);
    assert z == (locals + central) + (end + []);
    ArchiveLaidOut(entries, stamp, crc32);
    ReadCentralBack(z, |locals|, entries, 0, stamp, crc32);
    ReadEndRecord(z, |z| - 22, |entries|, |central|, |locals|);
    assert Listing(entries, stamp, crc32)[0..] == Listing(entries, stamp, crc32);
  }
}
