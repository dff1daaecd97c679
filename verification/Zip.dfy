/**
 * The zip reader of 03_types_homework-12926-ac0783/main.c, which accepts an archive that
 * follows other data in the file. Pointers into the source are offsets here. Record layouts
 * are those of PKWARE APPNOTE.TXT, sections 4.3.7, 4.3.12 and 4.3.16.
 */
module Zip {
  import opened Wrappers

  const U16: nat := 0x1_0000
  const U32: nat := 0x1_0000_0000
  const U64: nat := 0x1_0000_0000_0000_0000

  const EOCDR_BASE_SZ: nat := 22
  const EOCDR_SIGNATURE: nat := 0x06054b50
  const CFH_BASE_SZ: nat := 46
  const CFH_SIGNATURE: nat := 0x02014b50
  const LFH_BASE_SZ: nat := 30
  const LFH_SIGNATURE: nat := 0x04034b50
  const ZIP_STORED: nat := 0
  const ZIP_DEFLATED: nat := 8
  const EXT_ATTR_DIR: nat := 16

  // -------------------------------------------------- machine words, bytes

  /** A value computed in 64 bits. */
  function Wrap64(x: int): (r: nat)
    ensures r < U64
  {
    x % U64
  }

  /** A value cut to 32 bits. */
  function Trunc32(x: int): (r: nat)
    ensures r < U32
  {
    x % U32
  }

  lemma Congruent(x: int, q: int)
    ensures (x + U32 * q) % U32 == x % U32
  {
  }

  lemma TruncOfWrap(x: int)
    ensures Trunc32(Wrap64(x)) == Trunc32(x)
  {
    var q := x / U64;
    assert Wrap64(x) == x + U32 * (-(U32 * q));
    Congruent(x, -(U32 * q));
  }

  function Read16(src: Bytes, p: nat): (r: nat)
    requires p + 2 <= |src|
    ensures r < U16
  {
    src[p] as int + 0x100 * src[p + 1] as int
  }

  function Read32(src: Bytes, p: nat): (r: nat)
    requires p + 4 <= |src|
    ensures r < U32
  {
    src[p] as int + 0x100 * src[p + 1] as int + 0x1_0000 * src[p + 2] as int + 0x100_0000 * src[p + 3] as int
  }

  // ------------------------------------------------------------- records

  datatype EocdrHeader = EocdrHeader(
    diskNbr: nat, cdStartDisk: nat, diskCdEntries: nat, cdEntries: nat, cdSize: nat,
    recordedOffset: nat, // where the record says the directory starts
    commentLen: nat)

  datatype CfhHeader = CfhHeader(
    madeByVer: nat, extractVer: nat, gpFlag: nat, compMethod: nat, modTime: nat, modDate: nat,
    crc32: nat, compSize: nat, uncompSize: nat, nameLen: nat, extraLen: nat, commentLen: nat,
    diskNbrStart: nat, intAttrs: nat, extAttrs: nat, lfhOffset: nat)

  datatype LfhHeader = LfhHeader(
    extractVer: nat, gpFlag: nat, compMethod: nat, modTime: nat, modDate: nat, crc32: nat,
    compSize: nat, uncompSize: nat, nameLen: nat, extraLen: nat)

  /** cdOffset is where the directory really starts, computed from the end of the source. */
  datatype Eocdr = Eocdr(h: EocdrHeader, cdOffset: nat, comment: nat)

  /** lfhOffset is corrected for the data in front of the archive. */
  datatype Cfh = Cfh(h: CfhHeader, lfhOffset: nat, name: nat, extra: nat, comment: nat)

  datatype Lfh = Lfh(h: LfhHeader, name: nat, extra: nat)

  function EocdrFields(b: Bytes): EocdrHeader
    requires |b| == EOCDR_BASE_SZ
  {
    EocdrHeader(Read16(b, 4), Read16(b, 6), Read16(b, 8), Read16(b, 10), Read32(b, 12), Read32(b, 16), Read16(b, 20))
  }

  function CfhFields(b: Bytes): CfhHeader
    requires |b| == CFH_BASE_SZ
  {
    CfhHeader(Read16(b, 4), Read16(b, 6), Read16(b, 8), Read16(b, 10), Read16(b, 12), Read16(b, 14),
              Read32(b, 16), Read32(b, 20), Read32(b, 24), Read16(b, 28), Read16(b, 30), Read16(b, 32),
              Read16(b, 34), Read16(b, 36), Read32(b, 38), Read32(b, 42))
  }

  function LfhFields(b: Bytes): LfhHeader
    requires |b| == LFH_BASE_SZ
  {
    LfhHeader(Read16(b, 4), Read16(b, 6), Read16(b, 8), Read16(b, 10), Read16(b, 12), Read32(b, 14),
              Read32(b, 18), Read32(b, 22), Read16(b, 26), Read16(b, 28))
  }

  /** The record that starts at an offset. */
  function Record(src: Bytes, offset: nat, size: nat): (b: Bytes)
    requires offset + size <= |src|
    ensures |b| == size
  {
    src[offset..offset + size]
  }

  /** The end record with a comment of c bytes after it. */
  function EocdrAt(src: Bytes, c: nat): Eocdr
    requires EOCDR_BASE_SZ + c <= |src|
  {
    var p := |src| - EOCDR_BASE_SZ - c;
    var h := EocdrFields(Record(src, p, EOCDR_BASE_SZ));
    Eocdr(h, Trunc32(Wrap64(|src| - h.cdSize - EOCDR_BASE_SZ - c)), p + EOCDR_BASE_SZ)
  }

  /** An end record stands c bytes before the end and says its comment is c bytes long. */
  predicate Matches(src: Bytes, c: nat): (r: bool)
    ensures r ==> EOCDR_BASE_SZ + c <= |src|
  {
    && EOCDR_BASE_SZ + c <= |src|
    && var b := Record(src, |src| - EOCDR_BASE_SZ - c, EOCDR_BASE_SZ);
       Read32(b, 0) == EOCDR_SIGNATURE && EocdrFields(b).commentLen == c
  }

  /** The central directory entry at an offset, when it fits. */
  function CfhAt(src: Bytes, offset: nat, zfo: nat): (r: Option<Cfh>)
    ensures r.Some? ==> r.value.name == offset + CFH_BASE_SZ
    ensures r.Some? ==> r.value.comment == r.value.name + r.value.h.nameLen + r.value.h.extraLen
    ensures r.Some? ==> r.value.comment + r.value.h.commentLen <= |src|
  {
    if offset > |src| || |src| - offset < CFH_BASE_SZ then None
    else
      var b := Record(src, offset, CFH_BASE_SZ);
      var h := CfhFields(b);
      if Read32(b, 0) != CFH_SIGNATURE || |src| - offset - CFH_BASE_SZ < h.nameLen + h.extraLen + h.commentLen then None
      else
        var name := offset + CFH_BASE_SZ;
        Some(Cfh(h, Trunc32(Wrap64(h.lfhOffset + zfo)), name, name + h.nameLen, name + h.nameLen + h.extraLen))
  }

  /** The local header at an offset, when it fits. */
  function LfhAt(src: Bytes, offset: nat): (r: Option<Lfh>)
    ensures r.Some? ==> r.value.extra == offset + LFH_BASE_SZ + r.value.h.nameLen
    ensures r.Some? ==> r.value.extra + r.value.h.extraLen <= |src|
  {
    if offset > |src| || |src| - offset < LFH_BASE_SZ then None
    else
      var b := Record(src, offset, LFH_BASE_SZ);
      var h := LfhFields(b);
      if Read32(b, 0) != LFH_SIGNATURE || |src| - offset - LFH_BASE_SZ < h.nameLen + h.extraLen then None
      else Some(Lfh(h, offset + LFH_BASE_SZ, offset + LFH_BASE_SZ + h.nameLen))
  }

  ghost predicate Same16(src: Bytes, p: nat, size: nat, i: nat)
    requires p + size <= |src| && i + 2 <= size
  {
    Read16(Record(src, p, size), i) == Read16(src, p + i)
  }

  ghost predicate Same32(src: Bytes, p: nat, size: nat, i: nat)
    requires p + size <= |src| && i + 4 <= size
  {
    Read32(Record(src, p, size), i) == Read32(src, p + i)
  }

  /** Reading a record field by field from the source is reading the record. */
  lemma RecordInPlace(src: Bytes, p: nat, size: nat)
    requires p + size <= |src|
    ensures forall i: nat | i + 2 <= size :: Same16(src, p, size, i)
    ensures forall i: nat | i + 4 <= size :: Same32(src, p, size, i)
  {
  }

  lemma EocdrInPlace(src: Bytes, p: nat)
    requires p + EOCDR_BASE_SZ <= |src|
    ensures Read32(Record(src, p, EOCDR_BASE_SZ), 0) == Read32(src, p)
    ensures EocdrFields(Record(src, p, EOCDR_BASE_SZ)) == EocdrHeader(
            Read16(src, p + 4), Read16(src, p + 6), Read16(src, p + 8), Read16(src, p + 10),
            Read32(src, p + 12), Read32(src, p + 16), Read16(src, p + 20))
  {
    hide Read16, Read32, Record;
    RecordInPlace(src, p, EOCDR_BASE_SZ);
    assert Same32(src, p, EOCDR_BASE_SZ, 0) && Same16(src, p, EOCDR_BASE_SZ, 4) &&
           Same16(src, p, EOCDR_BASE_SZ, 6) && Same16(src, p, EOCDR_BASE_SZ, 8) &&
           Same16(src, p, EOCDR_BASE_SZ, 10) && Same32(src, p, EOCDR_BASE_SZ, 12) &&
           Same32(src, p, EOCDR_BASE_SZ, 16) && Same16(src, p, EOCDR_BASE_SZ, 20);
  }

  lemma CfhInPlace(src: Bytes, p: nat)
    requires p + CFH_BASE_SZ <= |src|
    ensures Read32(Record(src, p, CFH_BASE_SZ), 0) == Read32(src, p)
    ensures CfhFields(Record(src, p, CFH_BASE_SZ)) == CfhHeader(
            Read16(src, p + 4), Read16(src, p + 6), Read16(src, p + 8), Read16(src, p + 10),
            Read16(src, p + 12), Read16(src, p + 14), Read32(src, p + 16), Read32(src, p + 20),
            Read32(src, p + 24), Read16(src, p + 28), Read16(src, p + 30), Read16(src, p + 32),
            Read16(src, p + 34), Read16(src, p + 36), Read32(src, p + 38), Read32(src, p + 42))
  {
    hide Read16, Read32, Record;
    RecordInPlace(src, p, CFH_BASE_SZ);
    assert Same32(src, p, CFH_BASE_SZ, 0) && Same16(src, p, CFH_BASE_SZ, 4) &&
           Same16(src, p, CFH_BASE_SZ, 6) && Same16(src, p, CFH_BASE_SZ, 8) &&
           Same16(src, p, CFH_BASE_SZ, 10) && Same16(src, p, CFH_BASE_SZ, 12) &&
           Same16(src, p, CFH_BASE_SZ, 14) && Same32(src, p, CFH_BASE_SZ, 16) &&
           Same32(src, p, CFH_BASE_SZ, 20) && Same32(src, p, CFH_BASE_SZ, 24) &&
           Same16(src, p, CFH_BASE_SZ, 28) && Same16(src, p, CFH_BASE_SZ, 30) &&
           Same16(src, p, CFH_BASE_SZ, 32) && Same16(src, p, CFH_BASE_SZ, 34) &&
           Same16(src, p, CFH_BASE_SZ, 36) && Same32(src, p, CFH_BASE_SZ, 38) &&
           Same32(src, p, CFH_BASE_SZ, 42);
  }

  lemma LfhInPlace(src: Bytes, p: nat)
    requires p + LFH_BASE_SZ <= |src|
    ensures Read32(Record(src, p, LFH_BASE_SZ), 0) == Read32(src, p)
    ensures LfhFields(Record(src, p, LFH_BASE_SZ)) == LfhHeader(
            Read16(src, p + 4), Read16(src, p + 6), Read16(src, p + 8), Read16(src, p + 10),
            Read16(src, p + 12), Read32(src, p + 14), Read32(src, p + 18), Read32(src, p + 22),
            Read16(src, p + 26), Read16(src, p + 28))
  {
    hide Read16, Read32, Record;
    RecordInPlace(src, p, LFH_BASE_SZ);
    assert Same32(src, p, LFH_BASE_SZ, 0) && Same16(src, p, LFH_BASE_SZ, 4) &&
           Same16(src, p, LFH_BASE_SZ, 6) && Same16(src, p, LFH_BASE_SZ, 8) &&
           Same16(src, p, LFH_BASE_SZ, 10) && Same16(src, p, LFH_BASE_SZ, 12) &&
           Same32(src, p, LFH_BASE_SZ, 14) && Same32(src, p, LFH_BASE_SZ, 18) &&
           Same32(src, p, LFH_BASE_SZ, 22) && Same16(src, p, LFH_BASE_SZ, 26) &&
           Same16(src, p, LFH_BASE_SZ, 28);
  }

  method FindEocdr(src: Bytes) returns (r: Option<Eocdr>)
    ensures r.None? ==> forall c: nat | c < U16 :: !Matches(src, c)
    ensures r.Some? ==> exists c: nat | c < U16 ::
              Matches(src, c) && r.value == EocdrAt(src, c) && forall b: nat | b < c :: !Matches(src, b)
  {
    hide Read16, Read32, Record, EocdrFields, Trunc32, Wrap64;
    var commentLen := 0;
    while commentLen <= U16 - 1
      invariant commentLen <= U16
      invariant forall b: nat | b < commentLen :: !Matches(src, b)
    {
      if |src| < EOCDR_BASE_SZ + commentLen {
        break;
      }
      var p := |src| - EOCDR_BASE_SZ - commentLen;
      EocdrInPlace(src, p);
      var signature;
      signature, p := Read32(src, p), p + 4;
      if signature == EOCDR_SIGNATURE {
        var diskNbr, cdStartDisk, diskCdEntries, cdEntries, cdSize, recorded, recordLen;
        diskNbr, p := Read16(src, p), p + 2;
        cdStartDisk, p := Read16(src, p), p + 2;
        diskCdEntries, p := Read16(src, p), p + 2;
        cdEntries, p := Read16(src, p), p + 2;
        cdSize, p := Read32(src, p), p + 4;
        recorded, p := Read32(src, p), p + 4;
        var cdOffset := Trunc32(Wrap64(|src| - cdSize - EOCDR_BASE_SZ - commentLen));
        recordLen, p := Read16(src, p), p + 2;
        assert p == |src| - commentLen;
        if recordLen == commentLen {
          r := Some(Eocdr(EocdrHeader(diskNbr, cdStartDisk, diskCdEntries, cdEntries, cdSize, recorded, recordLen),
                          cdOffset, p));
          assert Matches(src, commentLen) && r.value == EocdrAt(src, commentLen);
          return;
        }
      }
      commentLen := commentLen + 1;
    }
    r := None;
  }

  method ReadCfh(src: Bytes, offset: nat, zfo: nat) returns (r: Option<Cfh>)
    ensures r == CfhAt(src, offset, zfo)
  {
    hide Read16, Read32, Record, CfhFields, Trunc32, Wrap64;
    if offset > |src| || |src| - offset < CFH_BASE_SZ {
      return None;
    }
    CfhInPlace(src, offset);
    var p := offset;
    var signature;
    signature, p := Read32(src, p), p + 4;
    if signature != CFH_SIGNATURE {
      return None;
    }
    var madeByVer, extractVer, gpFlag, compMethod, modTime, modDate, crc32, compSize, uncompSize;
    var nameLen, extraLen, commentLen, diskNbrStart, intAttrs, extAttrs, rawOffset;
    madeByVer, p := Read16(src, p), p + 2;
    extractVer, p := Read16(src, p), p + 2;
    gpFlag, p := Read16(src, p), p + 2;
    compMethod, p := Read16(src, p), p + 2;
    modTime, p := Read16(src, p), p + 2;
    modDate, p := Read16(src, p), p + 2;
    crc32, p := Read32(src, p), p + 4;
    compSize, p := Read32(src, p), p + 4;
    uncompSize, p := Read32(src, p), p + 4;
    nameLen, p := Read16(src, p), p + 2;
    extraLen, p := Read16(src, p), p + 2;
    commentLen, p := Read16(src, p), p + 2;
    diskNbrStart, p := Read16(src, p), p + 2;
    intAttrs, p := Read16(src, p), p + 2;
    extAttrs, p := Read32(src, p), p + 4;
    rawOffset, p := Read32(src, p), p + 4;
    var lfhOffset := Trunc32(Wrap64(rawOffset + zfo));
    var name := p;
    var extra := name + nameLen;
    var comment := extra + extraLen;
    assert p == offset + CFH_BASE_SZ;
    if |src| - offset - CFH_BASE_SZ < nameLen + extraLen + commentLen {
      return None;
    }
    r := Some(Cfh(CfhHeader(madeByVer, extractVer, gpFlag, compMethod, modTime, modDate, crc32, compSize, uncompSize,
                            nameLen, extraLen, commentLen, diskNbrStart, intAttrs, extAttrs, rawOffset),
                  lfhOffset, name, extra, comment));
  }

  method ReadLfh(src: Bytes, offset: nat) returns (r: Option<Lfh>)
    ensures r == LfhAt(src, offset)
  {
    hide Read16, Read32, Record, LfhFields;
    if offset > |src| || |src| - offset < LFH_BASE_SZ {
      return None;
    }
    LfhInPlace(src, offset);
    var p := offset;
    var signature;
    signature, p := Read32(src, p), p + 4;
    if signature != LFH_SIGNATURE {
      return None;
    }
    var extractVer, gpFlag, compMethod, modTime, modDate, crc32, compSize, uncompSize, nameLen, extraLen;
    extractVer, p := Read16(src, p), p + 2;
    gpFlag, p := Read16(src, p), p + 2;
    compMethod, p := Read16(src, p), p + 2;
    modTime, p := Read16(src, p), p + 2;
    modDate, p := Read16(src, p), p + 2;
    crc32, p := Read32(src, p), p + 4;
    compSize, p := Read32(src, p), p + 4;
    uncompSize, p := Read32(src, p), p + 4;
    nameLen, p := Read16(src, p), p + 2;
    extraLen, p := Read16(src, p), p + 2;
    var name := p;
    var extra := name + nameLen;
    assert p == offset + LFH_BASE_SZ;
    if |src| - offset - LFH_BASE_SZ < nameLen + extraLen {
      return None;
    }
    r := Some(Lfh(LfhHeader(extractVer, gpFlag, compMethod, modTime, modDate, crc32, compSize, uncompSize,
                            nameLen, extraLen), name, extra));
  }

  // ------------------------------------------------------------- zip_read

  datatype Zip = Zip(
    numMembers: nat, comment: nat, commentLen: nat, membersBegin: nat, membersEnd: nat, zipFileOffset: nat)

  /** The checks zip_read makes of a directory entry and its local header. */
  predicate MemberOk(src: Bytes, c: Cfh)
    requires c.name + c.h.nameLen <= |src|
  {
    && c.h.gpFlag % 2 == 0
    && (c.h.compMethod == ZIP_STORED || c.h.compMethod == ZIP_DEFLATED)
    && (c.h.compMethod == ZIP_STORED ==> c.h.uncompSize == c.h.compSize)
    && c.h.diskNbrStart == 0
    && 0 !in Record(src, c.name, c.h.nameLen)
    && var l := LfhAt(src, c.lfhOffset);
       l.Some? && c.h.compSize <= |src| - (l.value.extra + l.value.h.extraLen)
  }

  /** Where the directory ends when the n entries from an offset on are all good. */
  function EndOfMembers(src: Bytes, n: nat, offset: nat, zfo: nat): (r: Option<nat>)
    ensures r.Some? ==> offset + CFH_BASE_SZ * n <= r.value && (n > 0 ==> r.value <= |src|)
  {
    if n == 0 then Some(offset)
    else
      var c := CfhAt(src, offset, zfo);
      if c.None? || !MemberOk(src, c.value) then None
      else EndOfMembers(src, n - 1, Next(offset, c.value), zfo)
  }

  function Next(offset: nat, c: Cfh): nat {
    offset + CFH_BASE_SZ + c.h.nameLen + c.h.extraLen + c.h.commentLen
  }

  /** What zip_read makes of a source whose end record has been found. */
  function Archive(src: Bytes, e: Eocdr): Option<Zip> {
    if e.h.diskNbr != 0 || e.h.cdStartDisk != 0 || e.h.diskCdEntries != e.h.cdEntries then None
    else
      var zfo := ZipFileOffset(src, e);
      var end := EndOfMembers(src, e.h.cdEntries, e.cdOffset, zfo);
      if end.None? then None
      else Some(Zip(e.h.cdEntries, e.comment, e.h.commentLen, e.cdOffset, end.value, zfo))
  }

  function ZipFileOffset(src: Bytes, e: Eocdr): nat {
    Wrap64(|src| - (e.h.recordedOffset + e.h.cdSize + EOCDR_BASE_SZ + e.h.commentLen))
  }

  /** zip_read accepts the source, with this result. */
  ghost predicate Reads(src: Bytes, z: Zip) {
    exists c: nat | c < U16 ::
      Matches(src, c) && (forall b: nat | b < c :: !Matches(src, b)) && Archive(src, EocdrAt(src, c)) == Some(z)
  }

  lemma FirstMatchDecides(src: Bytes, c: nat)
    requires c < U16 && Matches(src, c) && forall b: nat | b < c :: !Matches(src, b)
    ensures forall z :: Reads(src, z) <==> Archive(src, EocdrAt(src, c)) == Some(z)
  {
    hide Archive, EocdrAt;
    forall b: nat | Matches(src, b) && forall a: nat | a < b :: !Matches(src, a) ensures b == c {
    }
  }

  lemma NoMatchNoArchive(src: Bytes)
    requires forall c: nat | c < U16 :: !Matches(src, c)
    ensures forall z :: !Reads(src, z)
  {
  }

  method ZipRead(src: Bytes) returns (r: Option<Zip>)
    ensures r.Some? ==> Reads(src, r.value)
    ensures r.None? ==> forall z :: !Reads(src, z)
  {
    hide CfhAt, LfhAt, Read16, Read32, EocdrAt, Matches, Wrap64, Reads;
    var found := FindEocdr(src);
    if found.None? {
      NoMatchNoArchive(src);
      return None;
    }
    var e := found.value;
    ghost var len: nat :| len < U16 && Matches(src, len) && e == EocdrAt(src, len) &&
                          forall b: nat | b < len :: !Matches(src, b);
    FirstMatchDecides(src, len);
    var zipFileOffset := Wrap64(|src| - (e.h.recordedOffset + e.h.cdSize + EOCDR_BASE_SZ + e.h.commentLen));
    if e.h.diskNbr != 0 || e.h.cdStartDisk != 0 || e.h.diskCdEntries != e.h.cdEntries {
      return None;
    }
    var offset: nat := e.cdOffset;
    for i := 0 to e.h.cdEntries
      invariant EndOfMembers(src, e.h.cdEntries, e.cdOffset, zipFileOffset)
             == EndOfMembers(src, e.h.cdEntries - i, offset, zipFileOffset)
    {
      var cfh := ReadCfh(src, offset, zipFileOffset);
      if cfh.None? {
        return None;
      }
      var c := cfh.value;
      if c.h.gpFlag % 2 != 0 {
        return None;
      }
      if c.h.compMethod != ZIP_STORED && c.h.compMethod != ZIP_DEFLATED {
        return None;
      }
      if c.h.compMethod == ZIP_STORED && c.h.uncompSize != c.h.compSize {
        return None;
      }
      if c.h.diskNbrStart != 0 {
        return None;
      }
      if 0 in Record(src, c.name, c.h.nameLen) {
        return None;
      }
      var lfh := ReadLfh(src, c.lfhOffset);
      if lfh.None? {
        return None;
      }
      var compData := lfh.value.extra + lfh.value.h.extraLen;
      if c.h.compSize > |src| - compData {
        return None;
      }
      offset := offset + CFH_BASE_SZ + c.h.nameLen + c.h.extraLen + c.h.commentLen;
    }
    r := Some(Zip(e.h.cdEntries, e.comment, e.h.commentLen, e.cdOffset, offset, zipFileOffset));
  }

  // ----------------------------------------------------------- zip_member

  /** What zip_member reports, with the bytes its pointers delimit. */
  datatype Member = Member(
    name: Bytes, modTime: nat, modDate: nat, data: Bytes, compMethod: nat, uncompSize: nat,
    crc32: nat, comment: Bytes, isDir: bool)

  function View(src: Bytes, c: Cfh): Member
    requires c.name + c.h.nameLen <= |src| && c.comment + c.h.commentLen <= |src| && MemberOk(src, c)
  {
    var l := LfhAt(src, c.lfhOffset).value;
    var data := l.extra + l.h.extraLen;
    Member(Record(src, c.name, c.h.nameLen), c.h.modTime, c.h.modDate, Record(src, data, c.h.compSize), c.h.compMethod,
           c.h.uncompSize, c.h.crc32, Record(src, c.comment, c.h.commentLen), c.h.extAttrs / EXT_ATTR_DIR % 2 == 1)
  }

  /** The n members listed in the directory from an offset on, as far as they are good. */
  function Members(src: Bytes, n: nat, offset: nat, zfo: nat): (ms: seq<Member>) {
    if n == 0 then []
    else
      var c := CfhAt(src, offset, zfo);
      if c.None? || !MemberOk(src, c.value) then []
      else [View(src, c.value)] + Members(src, n - 1, Next(offset, c.value), zfo)
  }

  /** A successful zip_read leaves a result whose directory walk is sound. */
  lemma ReadMembers(src: Bytes, z: Zip)
    requires Reads(src, z)
    ensures EndOfMembers(src, z.numMembers, z.membersBegin, z.zipFileOffset) == Some(z.membersEnd)
    ensures z.comment + z.commentLen == |src|
  {
    hide Read32, EndOfMembers;
    var c: nat :| c < U16 && Matches(src, c) && Archive(src, EocdrAt(src, c)) == Some(z);
  }

  /** The last n > 0 members from it on are m and the last n - 1 from next on. */
  ghost predicate Peels(src: Bytes, z: Zip, it: nat, n: nat, m: Member, next: nat) {
    && n > 0
    && EndOfMembers(src, n, it, z.zipFileOffset) == Some(z.membersEnd)
    && EndOfMembers(src, n - 1, next, z.zipFileOffset) == Some(z.membersEnd)
    && Members(src, n, it, z.zipFileOffset) == [m] + Members(src, n - 1, next, z.zipFileOffset)
  }

  /** zip_member at the start of the last n > 0 members: its assertions hold, next is the rest. */
  method ZipMember(src: Bytes, z: Zip, it: nat, ghost n: nat) returns (m: Member, next: nat)
    requires n > 0 && z.membersBegin <= it
    requires EndOfMembers(src, n, it, z.zipFileOffset) == Some(z.membersEnd)
    ensures it + CFH_BASE_SZ <= next <= z.membersEnd <= |src|
    ensures Peels(src, z, it, n, m, next)
  {
    hide CfhAt, LfhAt, Record;
    assert it >= z.membersBegin && it < z.membersEnd;
    var cfh := ReadCfh(src, it, z.zipFileOffset);
    assert cfh.Some?;
    var c := cfh.value;
    var lfh := ReadLfh(src, c.lfhOffset);
    assert lfh.Some?;
    var compData := lfh.value.extra + lfh.value.h.extraLen;
    m := Member(Record(src, c.name, c.h.nameLen), c.h.modTime, c.h.modDate, Record(src, compData, c.h.compSize),
                c.h.compMethod, c.h.uncompSize, c.h.crc32, Record(src, c.comment, c.h.commentLen),
                c.h.extAttrs / EXT_ATTR_DIR % 2 == 1);
    next := it + CFH_BASE_SZ + c.h.nameLen + c.h.extraLen + c.h.commentLen;
    assert next <= z.membersEnd;
  }

  /** The source reads as archive z, whose directory lists these members. */
  ghost predicate Lists(src: Bytes, z: Zip, ms: seq<Member>) {
    && Reads(src, z)
    && EndOfMembers(src, z.numMembers, z.membersBegin, z.zipFileOffset) == Some(z.membersEnd)
    && Members(src, z.numMembers, z.membersBegin, z.zipFileOffset) == ms
  }

  /** list_zip: reading, then walking from membersBegin until membersEnd is met exactly. */
  method ListZip(src: Bytes) returns (r: Option<seq<Member>>)
    ensures r.None? ==> forall z :: !Reads(src, z)
    ensures r.Some? ==> exists z :: Lists(src, z, r.value)
  {
    hide Reads, EndOfMembers, Members;
    var read := ZipRead(src);
    if read.None? {
      return None;
    }
    var z := read.value;
    ReadMembers(src, z);
    var listed: seq<Member> := [];
    var it := z.membersBegin;
    ghost var n := z.numMembers;
    WalkLength(src, n, it, z.zipFileOffset);
    while it != z.membersEnd
      invariant z.membersBegin <= it
      invariant EndOfMembers(src, n, it, z.zipFileOffset) == Some(z.membersEnd)
      invariant n == 0 <==> it == z.membersEnd
      invariant listed + Members(src, n, it, z.zipFileOffset)
             == Members(src, z.numMembers, z.membersBegin, z.zipFileOffset)
      decreases n
    {
      var m;
      ghost var rest := Members(src, n, it, z.zipFileOffset);
      m, it := ZipMember(src, z, it, n);
      n := n - 1;
      assert listed + rest == (listed + [m]) + Members(src, n, it, z.zipFileOffset);
      listed := listed + [m];
      WalkLength(src, n, it, z.zipFileOffset);
    }
    WalkEmpty(src, it, z.zipFileOffset);
    assert listed == listed + Members(src, n, it, z.zipFileOffset);
    assert Lists(src, z, listed);
    r := Some(listed);
  }

  /** As many members are listed as the end record counts. */
  lemma {:induction false} ListedCount(src: Bytes, n: nat, offset: nat, zfo: nat)
    requires EndOfMembers(src, n, offset, zfo).Some?
    ensures |Members(src, n, offset, zfo)| == n
  {
    hide CfhAt, MemberOk, View;
    if n > 0 {
      ListedCount(src, n - 1, Next(offset, CfhAt(src, offset, zfo).value), zfo);
    }
  }

  lemma WalkEmpty(src: Bytes, offset: nat, zfo: nat)
    ensures EndOfMembers(src, 0, offset, zfo) == Some(offset) && Members(src, 0, offset, zfo) == []
  {
  }

  /** Every entry moves the iterator, so the end is met only after the last one. */
  lemma WalkLength(src: Bytes, n: nat, offset: nat, zfo: nat)
    requires EndOfMembers(src, n, offset, zfo).Some?
    ensures n == 0 <==> EndOfMembers(src, n, offset, zfo).value == offset
  {
  }

  // ------------------------------------------- an archive behind a prefix

  /** The directory entry as it reads when d bytes have been put in front of the source. */
  function MovedCfh(c: Cfh, d: nat): Cfh {
    Cfh(c.h, Trunc32(c.lfhOffset + d), c.name + d, c.extra + d, c.comment + d)
  }

  lemma RecordBehind(p: Bytes, z: Bytes, i: nat, size: nat)
    requires i + size <= |z|
    ensures Record(p + z, |p| + i, size) == Record(z, i, size)
  {
  }

  lemma MatchesBehind(p: Bytes, z: Bytes, c: nat)
    requires EOCDR_BASE_SZ + c <= |z|
    ensures Matches(p + z, c) <==> Matches(z, c)
  {
    hide Read16, Read32, Record, EocdrFields;
    RecordBehind(p, z, |z| - EOCDR_BASE_SZ - c, EOCDR_BASE_SZ);
  }

  lemma EocdrBehind(p: Bytes, z: Bytes, c: nat)
    requires EOCDR_BASE_SZ + c <= |z|
    ensures EocdrAt(p + z, c) == MovedEocdr(EocdrAt(z, c), |p|)
  {
    hide EocdrFields, Record, Trunc32, Wrap64;
    RecordBehind(p, z, |z| - EOCDR_BASE_SZ - c, EOCDR_BASE_SZ);
    TruncPlus(|z| - EocdrAt(z, c).h.cdSize - EOCDR_BASE_SZ - c, |p|);
  }

  function MovedEocdr(e: Eocdr, d: nat): Eocdr {
    Eocdr(e.h, Trunc32(e.cdOffset + d), e.comment + d)
  }

  /** Wrapping at 64 bits and cutting to 32 commute with a later addition. */
  lemma TruncPlus(x: int, d: int)
    ensures Trunc32(Wrap64(x + d)) == Trunc32(Trunc32(Wrap64(x)) + d)
  {
    TruncOfWrap(x + d);
    TruncOfWrap(x);
    Congruent(Trunc32(x) + d, x / U32);
    assert x + d == Trunc32(x) + d + U32 * (x / U32);
  }

  lemma WrapPlus(x: int, d: int)
    ensures Wrap64(x + d) == Wrap64(Wrap64(x) + d)
  {
  }

  lemma LfhOffsetBehind(raw: nat, zfo: nat, d: nat)
    ensures Trunc32(Wrap64(raw + Wrap64(zfo + d))) == Trunc32(Trunc32(Wrap64(raw + zfo)) + d)
  {
    TruncPlus(raw + zfo, d);
    WrapPlus(zfo + d, raw);
  }

  lemma CfhBehind(p: Bytes, z: Bytes, offset: nat, zfo: nat)
    requires CfhAt(z, offset, zfo).Some?
    ensures CfhAt(p + z, offset + |p|, Wrap64(zfo + |p|)) == Some(MovedCfh(CfhAt(z, offset, zfo).value, |p|))
  {
    hide CfhFields, Read32, Record, Trunc32, Wrap64;
    RecordBehind(p, z, offset, CFH_BASE_SZ);
    LfhOffsetBehind(CfhFields(Record(z, offset, CFH_BASE_SZ)).lfhOffset, zfo, |p|);
  }

  lemma LfhBehind(p: Bytes, z: Bytes, offset: nat)
    requires LfhAt(z, offset).Some?
    ensures LfhAt(p + z, offset + |p|) == Some(MovedLfh(LfhAt(z, offset).value, |p|))
  {
    hide LfhFields, Read32, Record;
    RecordBehind(p, z, offset, LFH_BASE_SZ);
  }

  function MovedLfh(l: Lfh, d: nat): Lfh {
    Lfh(l.h, l.name + d, l.extra + d)
  }

  lemma MemberBehind(p: Bytes, z: Bytes, c: Cfh)
    requires c.name + c.h.nameLen <= |z| && c.comment + c.h.commentLen <= |z| && MemberOk(z, c)
    requires |p| + |z| < U32
    ensures MemberOk(p + z, MovedCfh(c, |p|)) && View(p + z, MovedCfh(c, |p|)) == View(z, c)
  {
    hide Record, LfhFields;
    var l := LfhAt(z, c.lfhOffset).value;
    assert c.lfhOffset <= |z|;
    hide LfhAt;
    LfhBehind(p, z, c.lfhOffset);
    RecordBehind(p, z, c.name, c.h.nameLen);
    RecordBehind(p, z, c.comment, c.h.commentLen);
    RecordBehind(p, z, l.extra + l.h.extraLen, c.h.compSize);
  }

  lemma {:induction false} MembersBehind(p: Bytes, z: Bytes, n: nat, offset: nat, zfo: nat)
    requires EndOfMembers(z, n, offset, zfo).Some? && |p| + |z| < U32
    ensures EndOfMembers(p + z, n, offset + |p|, Wrap64(zfo + |p|)) == Some(EndOfMembers(z, n, offset, zfo).value + |p|)
    ensures Members(p + z, n, offset + |p|, Wrap64(zfo + |p|)) == Members(z, n, offset, zfo)
  {
    hide CfhAt, MemberOk, View, Wrap64;
    if n > 0 {
      var c := CfhAt(z, offset, zfo).value;
      CfhBehind(p, z, offset, zfo);
      MemberBehind(p, z, c);
      MembersBehind(p, z, n - 1, Next(offset, c), zfo);
    }
  }

  /** The result of zip_read when d bytes have been put in front of the source. */
  function MovedZip(z: Zip, d: nat): Zip {
    var begin := Trunc32(z.membersBegin + d);
    Zip(z.numMembers, z.comment + d, z.commentLen, begin, if z.numMembers == 0 then begin else z.membersEnd + d,
        Wrap64(z.zipFileOffset + d))
  }

  lemma BeginBehind(p: Bytes, src: Bytes, z: Zip)
    requires EndOfMembers(src, z.numMembers, z.membersBegin, z.zipFileOffset) == Some(z.membersEnd)
    requires z.numMembers > 0 && |p| + |src| < U32
    ensures MovedZip(z, |p|).membersBegin == z.membersBegin + |p|
  {
    hide CfhAt, MemberOk, Wrap64;
  }

  lemma WalkBehind(p: Bytes, src: Bytes, z: Zip)
    requires EndOfMembers(src, z.numMembers, z.membersBegin, z.zipFileOffset) == Some(z.membersEnd)
    requires |p| + |src| < U32
    ensures var z' := MovedZip(z, |p|);
            EndOfMembers(p + src, z'.numMembers, z'.membersBegin, z'.zipFileOffset) == Some(z'.membersEnd) &&
            Members(p + src, z'.numMembers, z'.membersBegin, z'.zipFileOffset)
            == Members(src, z.numMembers, z.membersBegin, z.zipFileOffset)
  {
    hide EndOfMembers, Members, Trunc32, Wrap64;
    MembersBehind(p, src, z.numMembers, z.membersBegin, z.zipFileOffset);
    if z.numMembers > 0 {
      BeginBehind(p, src, z);
    } else {
      WalkEmpty(src, z.membersBegin, z.zipFileOffset);
      WalkEmpty(p + src, MovedZip(z, |p|).membersBegin, MovedZip(z, |p|).zipFileOffset);
    }
  }

  /**
   * An archive that reads also reads behind any prefix, with the same members; the offsets
   * into the source move by the length of the prefix.
   */
  lemma ReadsBehind(p: Bytes, src: Bytes, z: Zip, ms: seq<Member>)
    requires Lists(src, z, ms) && |p| + |src| < U32
    ensures Lists(p + src, MovedZip(z, |p|), ms)
    ensures z.numMembers > 0 ==> MovedZip(z, |p|).membersBegin == z.membersBegin + |p|
  {
    hide EocdrAt, Matches, EndOfMembers, Members, Trunc32, Wrap64;
    var c: nat :| c < U16 && Matches(src, c) && (forall b: nat | b < c :: !Matches(src, b))
                  && Archive(src, EocdrAt(src, c)) == Some(z);
    forall b: nat | b <= c ensures Matches(p + src, b) <==> Matches(src, b) {
      MatchesBehind(p, src, b);
    }
    EocdrBehind(p, src, c);
    WalkBehind(p, src, z);
    if z.numMembers > 0 {
      BeginBehind(p, src, z);
    }
    var e := EocdrAt(src, c);
    WrapPlus(|src| - (e.h.recordedOffset + e.h.cdSize + EOCDR_BASE_SZ + e.h.commentLen), |p|);
    assert Archive(p + src, EocdrAt(p + src, c)) == Some(MovedZip(z, |p|));
  }

  // ------------------------------------------- what a prefix can lend

  /** The n entries from an offset on all point to d or beyond. */
  predicate LocalsFrom(src: Bytes, n: nat, offset: nat, zfo: nat, d: nat) {
    n == 0 ||
    var c := CfhAt(src, offset, zfo);
    c.Some? && c.value.lfhOffset >= d && LocalsFrom(src, n - 1, Next(offset, c.value), zfo, d)
  }

  /** The end record, the directory and the local headers of an archive all start at d or beyond. */
  predicate StartsFrom(src: Bytes, z: Zip, d: nat) {
    && z.comment >= d + EOCDR_BASE_SZ
    && (z.numMembers > 0 ==> z.membersBegin >= d)
    && LocalsFrom(src, z.numMembers, z.membersBegin, z.zipFileOffset, d)
  }

  /** A sum cut to 32 bits is at least a summand only if nothing was cut. */
  lemma NotCut(x: nat, d: nat)
    requires x < U32 && d < U32
    ensures Trunc32(x + d) >= d <==> x + d < U32
    ensures x + d < U32 ==> Trunc32(x + d) == x + d
  {
    Congruent(x + d - U32, 1);
  }

  lemma CfhOwn(p: Bytes, z: Bytes, offset: nat, zfo: nat)
    requires CfhAt(p + z, offset + |p|, Wrap64(zfo + |p|)).Some?
    ensures CfhAt(z, offset, zfo).Some?
  {
    hide CfhFields, Read32, Record, Trunc32, Wrap64;
    RecordBehind(p, z, offset, CFH_BASE_SZ);
  }

  lemma LfhOwn(p: Bytes, z: Bytes, offset: nat)
    requires LfhAt(p + z, offset + |p|).Some?
    ensures LfhAt(z, offset).Some?
  {
    hide LfhFields, Read32, Record;
    RecordBehind(p, z, offset, LFH_BASE_SZ);
  }

  lemma MemberOwn(p: Bytes, z: Bytes, c: Cfh)
    requires c.name + c.h.nameLen <= |z| && c.lfhOffset < U32 && |p| + |z| < U32
    requires MemberOk(p + z, MovedCfh(c, |p|)) && MovedCfh(c, |p|).lfhOffset >= |p|
    ensures MemberOk(z, c)
  {
    hide Record, LfhAt, Trunc32;
    NotCut(c.lfhOffset, |p|);
    LfhOwn(p, z, c.lfhOffset);
    LfhBehind(p, z, c.lfhOffset);
    RecordBehind(p, z, c.name, c.h.nameLen);
  }

  lemma CfhOffsetRange(z: Bytes, offset: nat, zfo: nat)
    ensures CfhAt(z, offset, zfo).Some? ==> CfhAt(z, offset, zfo).value.lfhOffset < U32
  {
  }

  /** A directory behind a prefix that only points behind the prefix is good without it. */
  lemma {:induction false} MembersOwn(p: Bytes, z: Bytes, n: nat, offset: nat, zfo: nat)
    requires |p| + |z| < U32
    requires EndOfMembers(p + z, n, offset + |p|, Wrap64(zfo + |p|)).Some?
    requires LocalsFrom(p + z, n, offset + |p|, Wrap64(zfo + |p|), |p|)
    ensures EndOfMembers(z, n, offset, zfo).Some?
  {
    hide CfhAt, MemberOk, Wrap64;
    if n > 0 {
      CfhOwn(p, z, offset, zfo);
      CfhBehind(p, z, offset, zfo);
      CfhOffsetRange(z, offset, zfo);
      var c := CfhAt(z, offset, zfo).value;
      MemberOwn(p, z, c);
      MembersOwn(p, z, n - 1, Next(offset, c), zfo);
    }
  }

  lemma LocalInside(z: Bytes, c: Cfh)
    requires c.name + c.h.nameLen <= |z| && MemberOk(z, c)
    ensures c.lfhOffset <= |z|
  {
    hide Record;
  }

  /** A good directory points behind any prefix once it is behind it. */
  lemma {:induction false} LocalsBehind(p: Bytes, z: Bytes, n: nat, offset: nat, zfo: nat)
    requires EndOfMembers(z, n, offset, zfo).Some? && |p| + |z| < U32
    ensures LocalsFrom(p + z, n, offset + |p|, Wrap64(zfo + |p|), |p|)
  {
    hide CfhAt, MemberOk, Wrap64, Trunc32;
    if n > 0 {
      var c := CfhAt(z, offset, zfo).value;
      CfhBehind(p, z, offset, zfo);
      LocalInside(z, c);
      NotCut(c.lfhOffset, |p|);
      LocalsBehind(p, z, n - 1, Next(offset, c), zfo);
    }
  }

  /** The source reads by itself, so it reads behind the prefix, using nothing of the prefix. */
  lemma OwnBehind(p: Bytes, src: Bytes, z: Zip)
    requires Reads(src, z) && |p| + |src| < U32
    ensures Reads(p + src, MovedZip(z, |p|)) && StartsFrom(p + src, MovedZip(z, |p|), |p|)
  {
    hide Reads, EndOfMembers, Members, LocalsFrom, Wrap64, Trunc32;
    ReadMembers(src, z);
    CommentAfterRecord(src, z);
    ReadsBehind(p, src, z, Members(src, z.numMembers, z.membersBegin, z.zipFileOffset));
    if z.numMembers > 0 {
      LocalsBehind(p, src, z.numMembers, z.membersBegin, z.zipFileOffset);
    } else {
      NoLocals(p + src, MovedZip(z, |p|).membersBegin, MovedZip(z, |p|).zipFileOffset, |p|);
    }
  }

  lemma NoLocals(src: Bytes, offset: nat, zfo: nat, d: nat)
    ensures LocalsFrom(src, 0, offset, zfo, d)
  {
  }

  lemma CommentAfterRecord(src: Bytes, z: Zip)
    requires Reads(src, z)
    ensures z.comment >= EOCDR_BASE_SZ
  {
    hide EocdrFields, Read32, Record, EndOfMembers;
  }

  /** Behind the prefix the source reads without using the prefix, so it reads by itself. */
  lemma BehindOwn(p: Bytes, src: Bytes, z: Zip)
    requires Reads(p + src, z) && StartsFrom(p + src, z, |p|) && |p| + |src| < U32
    ensures exists z0 :: Reads(src, z0)
  {
    hide EocdrAt, Matches, EndOfMembers, LocalsFrom, Trunc32, Wrap64;
    var c: nat :| c < U16 && Matches(p + src, c) && (forall b: nat | b < c :: !Matches(p + src, b))
                  && Archive(p + src, EocdrAt(p + src, c)) == Some(z);
    CommentAt(p + src, c);
    forall b: nat | b <= c ensures Matches(p + src, b) <==> Matches(src, b) {
      MatchesBehind(p, src, b);
    }
    EocdrBehind(p, src, c);
    var e := EocdrAt(src, c);
    WrapPlus(|src| - (e.h.recordedOffset + e.h.cdSize + EOCDR_BASE_SZ + e.h.commentLen), |p|);
    if e.h.cdEntries > 0 {
      CdOffsetRange(src, c);
      NotCut(e.cdOffset, |p|);
      MembersOwn(p, src, e.h.cdEntries, e.cdOffset, ZipFileOffset(src, e));
    } else {
      WalkEmpty(src, e.cdOffset, ZipFileOffset(src, e));
    }
    assert Archive(src, e).Some?;
    assert Reads(src, Archive(src, e).value);
  }

  lemma CommentAt(src: Bytes, c: nat)
    requires EOCDR_BASE_SZ + c <= |src|
    ensures EocdrAt(src, c).comment == |src| - c
  {
    hide EocdrFields, Record;
  }

  lemma CdOffsetRange(src: Bytes, c: nat)
    requires EOCDR_BASE_SZ + c <= |src|
    ensures EocdrAt(src, c).cdOffset < U32
  {
    hide EocdrFields, Record;
  }

  /**
   * A source is an archive by itself if and only if behind the prefix it reads as one whose end
   * record, directory and local headers all lie behind the prefix.
   */
  lemma AcceptedBehindIff(p: Bytes, src: Bytes)
    requires |p| + |src| < U32
    ensures (exists z :: Reads(src, z)) <==> exists z :: Reads(p + src, z) && StartsFrom(p + src, z, |p|)
  {
    hide Reads, StartsFrom, MovedZip;
    if z :| Reads(src, z) {
      OwnBehind(p, src, z);
    }
    if z :| Reads(p + src, z) && StartsFrom(p + src, z, |p|) {
      BehindOwn(p, src, z);
    }
  }
}
