/**
 * A reference writer of comment-free archives, laid out as PKWARE APPNOTE.TXT sections 4.3.7,
 * 4.3.12 and 4.3.16 prescribe, and the proof that the reader gives back what was written.
 */
module ZipWriter {
  import opened Wrappers
  import opened Zip

  // ------------------------------------------------------------- numbers

  function W16(n: nat): (b: Bytes)
    requires n < U16
    ensures |b| == 2
  {
    [(n % 0x100) as byte, (n / 0x100) as byte]
  }

  function W32(n: nat): (b: Bytes)
    requires n < U32
    ensures |b| == 4
  {
    W16(n % U16) + W16(n / U16)
  }

  lemma Read16Written(a: Bytes, n: nat, b: Bytes)
    requires n < U16
    ensures Read16(a + W16(n) + b, |a|) == n
  {
    var s := a + W16(n) + b;
    assert s[|a|] == W16(n)[0] && s[|a| + 1] == W16(n)[1];
  }

  lemma Read32Written(a: Bytes, n: nat, b: Bytes)
    requires n < U32
    ensures Read32(a + W32(n) + b, |a|) == n
  {
    var s := a + W32(n) + b;
    assert s[|a|] == W32(n)[0] && s[|a| + 1] == W32(n)[1] && s[|a| + 2] == W32(n)[2] && s[|a| + 3] == W32(n)[3];
    assert n == n % U16 + U16 * (n / U16);
  }

  // ------------------------------------------------------------- headers

  /** A field of a header: its width in bytes and its value. */
  datatype Field = F2(n: nat) | F4(n: nat) {
    function Width(): nat {
      if F2? then 2 else 4
    }

    predicate Fits() {
      n < if F2? then U16 else U32
    }
  }

  predicate AllFit(fs: seq<Field>) {
    forall i | 0 <= i < |fs| :: fs[i].Fits()
  }

  /** Where field i starts. */
  function Offset(fs: seq<Field>, i: nat): nat
    requires i <= |fs|
  {
    if i == 0 then 0 else Offset(fs, i - 1) + fs[i - 1].Width()
  }

  /** The first k fields, little-endian, one after the other. */
  function Encode(fs: seq<Field>, k: nat): (b: Bytes)
    requires k <= |fs| && AllFit(fs)
    ensures |b| == Offset(fs, k)
  {
    if k == 0 then []
    else
      var f := fs[k - 1];
      Encode(fs, k - 1) + if f.F2? then W16(f.n) else W32(f.n)
  }

  lemma NoOffset(fs: seq<Field>)
    ensures Offset(fs, 0) == 0
  {
  }

  /** A field that starts at the given offset reads back; the next one follows it. */
  lemma {:induction false} ReadsField(fs: seq<Field>, k: nat, i: nat, at: nat)
    requires i < k <= |fs| && AllFit(fs) && Offset(fs, i) == at
    ensures Offset(fs, i + 1) == at + fs[i].Width() <= |Encode(fs, k)|
    ensures fs[i].F2? ==> Read16(Encode(fs, k), at) == fs[i].n
    ensures fs[i].F4? ==> Read32(Encode(fs, k), at) == fs[i].n
  {
    var e, f := Encode(fs, k - 1), fs[k - 1];
    if i == k - 1 {
      if f.F2? {
        Read16Written(e, f.n, []);
        assert e + W16(f.n) + [] == Encode(fs, k);
      } else {
        Read32Written(e, f.n, []);
        assert e + W32(f.n) + [] == Encode(fs, k);
      }
    } else {
      ReadsField(fs, k - 1, i, at);
    }
  }

  // ------------------------------------------------------------- archives

  /** A member to be written. */
  datatype Item = Item(
    name: Bytes, data: Bytes, compMethod: nat, uncompSize: nat, crc32: nat, modTime: nat, modDate: nat,
    extra: Bytes, comment: Bytes, extAttrs: nat)

  const VERSION: nat := 20

  predicate Good(m: Item) {
    && |m.name| < U16 && |m.extra| < U16 && |m.comment| < U16 && |m.data| < U32
    && (m.compMethod == ZIP_STORED || m.compMethod == ZIP_DEFLATED)
    && (m.compMethod == ZIP_STORED ==> m.uncompSize == |m.data|)
    && m.uncompSize < U32 && m.crc32 < U32 && m.modTime < U16 && m.modDate < U16 && m.extAttrs < U32
    && 0 !in m.name
  }

  /** A member that the fields of the format can describe. */
  type GoodItem = m: Item | Good(m) witness Item([], [], ZIP_STORED, 0, 0, 0, 0, [], [], 0)

  function LocalFields(m: GoodItem): (fs: seq<Field>)
    ensures |fs| == 11 && AllFit(fs)
  {
    [F4(LFH_SIGNATURE), F2(VERSION), F2(0), F2(m.compMethod), F2(m.modTime), F2(m.modDate), F4(m.crc32),
     F4(|m.data|), F4(m.uncompSize), F2(|m.name|), F2(|m.extra|)]
  }

  function CentralFields(m: GoodItem, at: nat): (fs: seq<Field>)
    ensures |fs| == 17 && AllFit(fs)
  {
    [F4(CFH_SIGNATURE), F2(VERSION), F2(VERSION), F2(0), F2(m.compMethod), F2(m.modTime), F2(m.modDate), F4(m.crc32),
     F4(|m.data|), F4(m.uncompSize), F2(|m.name|), F2(|m.extra|), F2(|m.comment|),
     F2(0), F2(0), F4(m.extAttrs), F4(Trunc32(at))]
  }

  function EndFields(n: nat, cdSize: nat, cdOffset: nat): (fs: seq<Field>)
    ensures |fs| == 8 && AllFit(fs)
  {
    [F4(EOCDR_SIGNATURE), F2(0), F2(0), F2(n % U16), F2(n % U16), F4(Trunc32(cdSize)), F4(Trunc32(cdOffset)), F2(0)]
  }

  lemma {:induction false} LocalHeader(m: GoodItem)
    ensures var b := Encode(LocalFields(m), 11);
            |b| == LFH_BASE_SZ && Read32(b, 0) == LFH_SIGNATURE &&
            LfhFields(b) == LfhHeader(VERSION, 0, m.compMethod, m.modTime, m.modDate, m.crc32, |m.data|,
                                      m.uncompSize, |m.name|, |m.extra|)
  {
    hide Read16, Read32, Encode, AllFit, Offset;
    var fs := LocalFields(m);
    NoOffset(fs);
    ReadsField(fs, 11, 0, 0);
    ReadsField(fs, 11, 1, 4);
    ReadsField(fs, 11, 2, 6);
    ReadsField(fs, 11, 3, 8);
    ReadsField(fs, 11, 4, 10);
    ReadsField(fs, 11, 5, 12);
    ReadsField(fs, 11, 6, 14);
    ReadsField(fs, 11, 7, 18);
    ReadsField(fs, 11, 8, 22);
    ReadsField(fs, 11, 9, 26);
    ReadsField(fs, 11, 10, 28);
  }

  lemma {:induction false} CentralStart(m: GoodItem, at: nat)
    ensures var b := Encode(CentralFields(m, at), 17);
            && |b| >= 28 && Read32(b, 0) == CFH_SIGNATURE
            && Read16(b, 4) == VERSION && Read16(b, 6) == VERSION && Read16(b, 8) == 0
            && Read16(b, 10) == m.compMethod && Read16(b, 12) == m.modTime && Read16(b, 14) == m.modDate
            && Read32(b, 16) == m.crc32 && Read32(b, 20) == |m.data| && Read32(b, 24) == m.uncompSize
    ensures Offset(CentralFields(m, at), 10) == 28
  {
    hide Read16, Read32, Encode, AllFit, Offset;
    var fs := CentralFields(m, at);
    NoOffset(fs);
    ReadsField(fs, 17, 0, 0);
    ReadsField(fs, 17, 1, 4);
    ReadsField(fs, 17, 2, 6);
    ReadsField(fs, 17, 3, 8);
    ReadsField(fs, 17, 4, 10);
    ReadsField(fs, 17, 5, 12);
    ReadsField(fs, 17, 6, 14);
    ReadsField(fs, 17, 7, 16);
    ReadsField(fs, 17, 8, 20);
    ReadsField(fs, 17, 9, 24);
  }

  lemma {:induction false} CentralEnd(m: GoodItem, at: nat)
    requires at < U32 && Offset(CentralFields(m, at), 10) == 28
    ensures var b := Encode(CentralFields(m, at), 17);
            && |b| == CFH_BASE_SZ
            && Read16(b, 28) == |m.name| && Read16(b, 30) == |m.extra| && Read16(b, 32) == |m.comment|
            && Read16(b, 34) == 0 && Read16(b, 36) == 0 && Read32(b, 38) == m.extAttrs && Read32(b, 42) == at
  {
    hide Read16, Read32, Encode, AllFit, Offset;
    var fs := CentralFields(m, at);
    ReadsField(fs, 17, 10, 28);
    ReadsField(fs, 17, 11, 30);
    ReadsField(fs, 17, 12, 32);
    ReadsField(fs, 17, 13, 34);
    ReadsField(fs, 17, 14, 36);
    ReadsField(fs, 17, 15, 38);
    ReadsField(fs, 17, 16, 42);
  }

  lemma {:induction false} CentralHeader(m: GoodItem, at: nat)
    requires at < U32
    ensures var b := Encode(CentralFields(m, at), 17);
            |b| == CFH_BASE_SZ && Read32(b, 0) == CFH_SIGNATURE &&
            CfhFields(b) == CfhHeader(VERSION, VERSION, 0, m.compMethod, m.modTime, m.modDate, m.crc32, |m.data|,
                                      m.uncompSize, |m.name|, |m.extra|, |m.comment|, 0, 0, m.extAttrs, at)
  {
    hide Read16, Read32, Encode, AllFit, Offset, CentralFields;
    CentralStart(m, at);
    CentralEnd(m, at);
  }

  lemma EndHeader(n: nat, cdSize: nat, cdOffset: nat)
    requires n < U16 && cdSize < U32 && cdOffset < U32
    ensures var b := Encode(EndFields(n, cdSize, cdOffset), 8);
            |b| == EOCDR_BASE_SZ && Read32(b, 0) == EOCDR_SIGNATURE &&
            EocdrFields(b) == EocdrHeader(0, 0, n, n, cdSize, cdOffset, 0)
  {
    hide Read16, Read32, Encode, AllFit, Offset;
    var fs := EndFields(n, cdSize, cdOffset);
    NoOffset(fs);
    ReadsField(fs, 8, 0, 0);
    ReadsField(fs, 8, 1, 4);
    ReadsField(fs, 8, 2, 6);
    ReadsField(fs, 8, 3, 8);
    ReadsField(fs, 8, 4, 10);
    ReadsField(fs, 8, 5, 12);
    ReadsField(fs, 8, 6, 16);
    ReadsField(fs, 8, 7, 20);
  }

  function Local(m: GoodItem): Bytes {
    Encode(LocalFields(m), 11) + (m.name + m.extra + m.data)
  }

  function Central(m: GoodItem, at: nat): Bytes {
    Encode(CentralFields(m, at), 17) + (m.name + m.extra + m.comment)
  }

  /** The first k members with their local headers. */
  function Locals(ms: seq<GoodItem>, k: nat): Bytes
    requires k <= |ms|
  {
    if k == 0 then [] else Locals(ms, k - 1) + Local(ms[k - 1])
  }

  /** The first k entries of the central directory. */
  function Directory(ms: seq<GoodItem>, k: nat): Bytes
    requires k <= |ms|
  {
    if k == 0 then [] else Directory(ms, k - 1) + Central(ms[k - 1], |Locals(ms, k - 1)|)
  }

  function EndRecord(ms: seq<GoodItem>): Bytes {
    Encode(EndFields(|ms|, |Directory(ms, |ms|)|, |Locals(ms, |ms|)|), 8)
  }

  /** An archive of the members, with no comment. */
  function Write(ms: seq<GoodItem>): Bytes {
    Locals(ms, |ms|) + Directory(ms, |ms|) + EndRecord(ms)
  }

  /** The limits of the format. */
  predicate Writable(ms: seq<GoodItem>) {
    |ms| < U16 && |Write(ms)| < U32
  }

  function AsMember(m: GoodItem): Member {
    Member(m.name, m.modTime, m.modDate, m.data, m.compMethod, m.uncompSize, m.crc32, m.comment,
           m.extAttrs / EXT_ATTR_DIR % 2 == 1)
  }

  function AsMembers(ms: seq<GoodItem>, k: nat): seq<Member>
    requires k <= |ms|
    decreases |ms| - k
  {
    if k == |ms| then [] else [AsMember(ms[k])] + AsMembers(ms, k + 1)
  }

  // ------------------------------------------------------ where things are

  /** The bytes b stand at an offset of the source. */
  ghost predicate Placed(src: Bytes, at: nat, b: Bytes) {
    at + |b| <= |src| && Record(src, at, |b|) == b
  }

  lemma PlacedPart(src: Bytes, at: nat, a: Bytes, b: Bytes)
    requires Placed(src, at, a + b)
    ensures Placed(src, at, a) && Placed(src, at + |a|, b)
  {
    assert (a + b)[..|a|] == a && (a + b)[|a|..] == b;
    assert Record(src, at, |a|) == Record(src, at, |a + b|)[..|a|];
    assert Record(src, at + |a|, |b|) == Record(src, at, |a + b|)[|a|..];
  }

  lemma {:induction false} LocalPlaced(ms: seq<GoodItem>, src: Bytes, at: nat, n: nat, k: nat)
    requires k < n <= |ms| && Placed(src, at, Locals(ms, n))
    ensures Placed(src, at + |Locals(ms, k)|, Local(ms[k]))
  {
    hide Placed, Local;
    PlacedPart(src, at, Locals(ms, n - 1), Local(ms[n - 1]));
    if k < n - 1 {
      LocalPlaced(ms, src, at, n - 1, k);
    }
  }

  lemma {:induction false} CentralPlaced(ms: seq<GoodItem>, src: Bytes, at: nat, n: nat, k: nat)
    requires k < n <= |ms| && Placed(src, at, Directory(ms, n))
    ensures Placed(src, at + |Directory(ms, k)|, Central(ms[k], |Locals(ms, k)|))
  {
    hide Placed, Central;
    PlacedPart(src, at, Directory(ms, n - 1), Central(ms[n - 1], |Locals(ms, n - 1)|));
    if k < n - 1 {
      CentralPlaced(ms, src, at, n - 1, k);
    }
  }

  lemma {:induction false} LocalReads(src: Bytes, at: nat, m: GoodItem)
    requires Placed(src, at, Local(m))
    ensures LfhAt(src, at).Some?
    ensures var l := LfhAt(src, at).value;
            Placed(src, l.extra + l.h.extraLen, m.data)
  {
    hide LfhFields, Read32, Record, Encode;
    LocalHeader(m);
    var h := Encode(LocalFields(m), 11);
    PlacedPart(src, at, h, m.name + m.extra + m.data);
    PlacedPart(src, at + |h|, m.name + m.extra, m.data);
  }

  lemma {:induction false} CentralReads(src: Bytes, offset: nat, m: GoodItem, at: nat)
    requires Placed(src, offset, Central(m, at)) && at < U32
    ensures CfhAt(src, offset, 0).Some?
    ensures var c := CfhAt(src, offset, 0).value;
            && c.h == CfhHeader(VERSION, VERSION, 0, m.compMethod, m.modTime, m.modDate, m.crc32, |m.data|,
                                m.uncompSize, |m.name|, |m.extra|, |m.comment|, 0, 0, m.extAttrs, at)
            && c.lfhOffset == at && Placed(src, c.name, m.name) && Placed(src, c.comment, m.comment)
            && Next(offset, c) == offset + |Central(m, at)|
  {
    hide CfhFields, Read32, Record, Encode;
    CentralHeader(m, at);
    var h := Encode(CentralFields(m, at), 17);
    PlacedPart(src, offset, h, m.name + m.extra + m.comment);
    PlacedPart(src, offset + |h|, m.name + m.extra, m.comment);
    PlacedPart(src, offset + |h|, m.name, m.extra);
  }

  /** A directory entry with its local header in place is a good member, and reads back. */
  lemma {:induction false} MemberReads(src: Bytes, offset: nat, m: GoodItem, at: nat)
    requires Placed(src, offset, Central(m, at)) && Placed(src, at, Local(m)) && at < U32
    ensures CfhAt(src, offset, 0).Some? && MemberOk(src, CfhAt(src, offset, 0).value)
    ensures View(src, CfhAt(src, offset, 0).value) == AsMember(m)
    ensures Next(offset, CfhAt(src, offset, 0).value) == offset + |Central(m, at)|
  {
    hide CfhAt, LfhAt, Central, Local;
    CentralReads(src, offset, m, at);
    LocalReads(src, at, m);
  }

  /** The directory of a written archive, from entry k on. */
  lemma {:induction false} DirectoryReads(ms: seq<GoodItem>, src: Bytes, k: nat)
    requires k <= |ms| && |src| < U32
    requires Placed(src, 0, Locals(ms, |ms|)) && Placed(src, |Locals(ms, |ms|)|, Directory(ms, |ms|))
    ensures var start := |Locals(ms, |ms|)|;
            EndOfMembers(src, |ms| - k, start + |Directory(ms, k)|, 0) == Some(start + |Directory(ms, |ms|)|) &&
            Members(src, |ms| - k, start + |Directory(ms, k)|, 0) == AsMembers(ms, k)
    decreases |ms| - k
  {
    hide Record, CfhAt, MemberOk, View, Next, Central, Local;
    if k < |ms| {
      LocalPlaced(ms, src, 0, |ms|, k);
      CentralPlaced(ms, src, |Locals(ms, |ms|)|, |ms|, k);
      MemberReads(src, |Locals(ms, |ms|)| + |Directory(ms, k)|, ms[k], |Locals(ms, k)|);
      DirectoryReads(ms, src, k + 1);
    }
  }

  function WrittenZip(ms: seq<GoodItem>): Zip {
    var begin, end := |Locals(ms, |ms|)|, |Locals(ms, |ms|) + Directory(ms, |ms|)|;
    Zip(|ms|, |Write(ms)|, 0, begin, end, 0)
  }

  lemma {:induction false} EndReads(ms: seq<GoodItem>)
    requires Writable(ms)
    ensures |EndRecord(ms)| == EOCDR_BASE_SZ
    ensures var src := Write(ms);
            && Matches(src, 0)
            && EocdrAt(src, 0) == Eocdr(EocdrHeader(0, 0, |ms|, |ms|, |Directory(ms, |ms|)|, |Locals(ms, |ms|)|, 0),
                                        |Locals(ms, |ms|)|, |src|)
  {
    hide EocdrFields, Read32, Encode, Locals, Directory;
    var src, n := Write(ms), |ms|;
    EndHeader(n, |Directory(ms, n)|, |Locals(ms, n)|);
    assert Placed(src, 0, Locals(ms, n) + Directory(ms, n) + EndRecord(ms));
    PlacedPart(src, 0, Locals(ms, n) + Directory(ms, n), EndRecord(ms));
  }

  /** What is written reads back: the same members in the same order. */
  lemma {:induction false} WriteReads(ms: seq<GoodItem>)
    requires Writable(ms)
    ensures Lists(Write(ms), WrittenZip(ms), AsMembers(ms, 0))
  {
    hide Matches, EocdrAt, EndOfMembers, Members, Locals, Directory, EndRecord;
    var src, n := Write(ms), |ms|;
    EndReads(ms);
    assert Placed(src, 0, Locals(ms, n) + Directory(ms, n) + EndRecord(ms));
    PlacedPart(src, 0, Locals(ms, n) + Directory(ms, n), EndRecord(ms));
    PlacedPart(src, 0, Locals(ms, n), Directory(ms, n));
    EmptyDirectory(ms);
    DirectoryReads(ms, src, 0);
    assert Archive(src, EocdrAt(src, 0)) == Some(WrittenZip(ms));
  }

  lemma {:induction false} EmptyDirectory(ms: seq<GoodItem>)
    ensures Directory(ms, 0) == []
  {
  }

  /** A written archive put behind any prefix reads back as its members. */
  lemma {:induction false} RoundTripBehindPrefix(prefix: Bytes, ms: seq<GoodItem>)
    requires Writable(ms) && |prefix| + |Write(ms)| < U32
    ensures Lists(prefix + Write(ms), MovedZip(WrittenZip(ms), |prefix|), AsMembers(ms, 0))
  {
    hide Lists, Write, WrittenZip;
    WriteReads(ms);
    ReadsBehind(prefix, Write(ms), WrittenZip(ms), AsMembers(ms, 0));
  }

  // ------------------------------------------- an archive that needs its prefix

  lemma {:induction false} LocalNotEmpty(ms: seq<GoodItem>)
    requires ms != []
    ensures |Locals(ms, |ms|)| > 0
  {
    hide Encode;
    LocalHeader(ms[|ms| - 1]);
  }

  /** The first entry of a written directory points to the very start. */
  lemma {:induction false} FirstEntry(ms: seq<GoodItem>)
    requires Writable(ms) && ms != []
    ensures var c := CfhAt(Write(ms), |Locals(ms, |ms|)|, 0); c.Some? && c.value.lfhOffset == 0
  {
    hide CfhAt, Locals, Directory, EndRecord, Central;
    var src, n := Write(ms), |ms|;
    assert Placed(src, 0, Locals(ms, n) + Directory(ms, n) + EndRecord(ms));
    PlacedPart(src, 0, Locals(ms, n) + Directory(ms, n), EndRecord(ms));
    PlacedPart(src, 0, Locals(ms, n), Directory(ms, n));
    EmptyDirectory(ms);
    NoLocal(ms);
    CentralPlaced(ms, src, |Locals(ms, n)|, n, 0);
    CentralReads(src, |Locals(ms, n)|, ms[0], 0);
  }

  lemma {:induction false} NoLocal(ms: seq<GoodItem>)
    ensures Locals(ms, 0) == []
  {
  }

  lemma {:induction false} ReadsAsWritten(ms: seq<GoodItem>)
    requires Writable(ms)
    ensures forall z :: Reads(Write(ms), z) <==> z == WrittenZip(ms)
  {
    hide Matches, EocdrAt, Archive, Write, WrittenZip, EndOfMembers, Members;
    EndReads(ms);
    WriteReads(ms);
    FirstMatchDecides(Write(ms), 0);
  }

  lemma {:induction false} UsesStart(ms: seq<GoodItem>)
    requires Writable(ms) && ms != []
    ensures !StartsFrom(Write(ms), WrittenZip(ms), |Locals(ms, |ms|)|)
  {
    hide Write, Locals, CfhAt;
    FirstEntry(ms);
    LocalNotEmpty(ms);
  }

  /**
   * The directory and end record of a written archive are no archive, but become one behind the
   * members' local headers and data: acceptance behind a prefix does not give acceptance without.
   */
  lemma {:induction false} TailNeedsPrefix(ms: seq<GoodItem>)
    requires Writable(ms) && ms != []
    ensures Reads(Locals(ms, |ms|) + (Directory(ms, |ms|) + EndRecord(ms)), WrittenZip(ms))
    ensures forall z :: !Reads(Directory(ms, |ms|) + EndRecord(ms), z)
  {
    hide Locals, Directory, EndRecord, Reads, StartsFrom, WrittenZip;
    var n := |ms|;
    var p, tail := Locals(ms, n), Directory(ms, n) + EndRecord(ms);
    assert Write(ms) == p + tail;
    ReadsAsWritten(ms);
    UsesStart(ms);
    AcceptedBehindIff(p, tail);
  }
}
