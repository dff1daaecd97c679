/**
 * Which sources the zip reader accepts, byte by byte: the layout of PKWARE APPNOTE.TXT, sections
 * 4.3.7, 4.3.12 and 4.3.16, and the restrictions of 03_types_homework-12926-ac0783/main.c, without
 * the records and checks of the reader itself.
 */
module ZipBytes {
  import opened Wrappers
  import opened Zip

  predicate Stands(src: Bytes, at: nat, b: Bytes) {
    at + |b| <= |src| && src[at..at + |b|] == b
  }

  /** Little-endian numbers. */
  function Le16(src: Bytes, at: nat): nat
    requires at + 2 <= |src|
  {
    src[at] as nat + 256 * src[at + 1] as nat
  }

  function Le32(src: Bytes, at: nat): nat
    requires at + 4 <= |src|
  {
    Le16(src, at) + 65536 * Le16(src, at + 2)
  }

  lemma SameNumbers(src: Bytes, at: nat)
    ensures at + 2 <= |src| ==> Le16(src, at) == Read16(src, at)
    ensures at + 4 <= |src| ==> Le32(src, at) == Read32(src, at)
  {
  }

  lemma FourBytes(src: Bytes, at: nat, b: Bytes)
    requires at + 4 <= |src| && |b| == 4
    ensures Stands(src, at, b) <==>
            Read32(src, at) == b[0] as int + 0x100 * b[1] as int + 0x1_0000 * b[2] as int + 0x100_0000 * b[3] as int
  {
    var s := src[at..at + 4];
    assert s == b <==> s[0] == b[0] && s[1] == b[1] && s[2] == b[2] && s[3] == b[3];
  }

  /** A local header stands at an offset, with size bytes of data behind it. */
  predicate LocalOk(src: Bytes, at: nat, size: nat) {
    && Stands(src, at, [0x50, 0x4B, 3, 4]) && at + 30 <= |src|
    && at + 30 + Le16(src, at + 26) + Le16(src, at + 28) + size <= |src|
  }

  /** A directory entry stands at an offset: fully inside the source, and of a kind that is supported. */
  predicate EntryOk(src: Bytes, at: nat, zfo: nat) {
    && Stands(src, at, [0x50, 0x4B, 1, 2]) && at + 46 <= |src|
    && src[at + 8] as int % 2 == 0                                  // not encrypted
    && (Le16(src, at + 10) == 0 || Le16(src, at + 10) == 8)           // stored or deflated
    && (Le16(src, at + 10) == 0 ==> Le32(src, at + 20) == Le32(src, at + 24))
    && Le16(src, at + 34) == 0                                       // on the only volume
    && at + 46 + Le16(src, at + 28) + Le16(src, at + 30) + Le16(src, at + 32) <= |src|
    && 0 !in src[at + 46..at + 46 + Le16(src, at + 28)]
    && LocalOk(src, LocalAt(src, at, zfo), Le32(src, at + 20))
  }

  /** Where the local header of an entry is, counted from the start of the source. */
  function LocalAt(src: Bytes, at: nat, zfo: nat): nat
    requires at + 46 <= |src|
  {
    (Le32(src, at + 42) + zfo) % 0x1_0000_0000_0000_0000 % 0x1_0000_0000
  }

  function NextEntry(src: Bytes, at: nat): nat
    requires at + 46 <= |src|
  {
    at + 46 + Le16(src, at + 28) + Le16(src, at + 30) + Le16(src, at + 32)
  }

  /** Where a directory of n entries ends. */
  function DirectoryEnd(src: Bytes, n: nat, at: nat, zfo: nat): Option<nat> {
    if n == 0 then Some(at)
    else if EntryOk(src, at, zfo) then DirectoryEnd(src, n - 1, NextEntry(src, at), zfo)
    else None
  }

  /** An end record with a comment of c bytes ends the source. */
  predicate EndRecordAt(src: Bytes, c: nat) {
    22 + c <= |src| && Stands(src, |src| - 22 - c, [0x50, 0x4B, 5, 6]) && Le16(src, |src| - 2 - c) == c
  }

  /** The end record with a comment of c bytes describes archive z, all on one volume. */
  predicate Describes(src: Bytes, c: nat, z: Zip)
    requires 22 + c <= |src|
  {
    var p := |src| - 22 - c;
    && src[p + 4] == 0 && src[p + 5] == 0 && src[p + 6] == 0 && src[p + 7] == 0
    && Le16(src, p + 8) == Le16(src, p + 10) == z.numMembers
    && z.comment == p + 22 && z.commentLen == c
    && z.membersBegin == (p - Le32(src, p + 12)) % 0x1_0000_0000_0000_0000 % 0x1_0000_0000
    && z.zipFileOffset == (p - Le32(src, p + 12) - Le32(src, p + 16)) % 0x1_0000_0000_0000_0000
    && DirectoryEnd(src, z.numMembers, z.membersBegin, z.zipFileOffset) == Some(z.membersEnd)
  }

  // ---------------------------------------------------- the reader, in bytes

  lemma LocalOkIff(src: Bytes, at: nat, size: nat)
    ensures LocalOk(src, at, size) <==>
            LfhAt(src, at).Some? &&
            size <= |src| - (LfhAt(src, at).value.extra + LfhAt(src, at).value.h.extraLen)
  {
    hide Read16, Read32, Record, Stands, Le16;
    if at + 30 <= |src| {
      LfhInPlace(src, at);
      FourBytes(src, at, [0x50, 0x4B, 3, 4]);
      SameNumbers(src, at + 26);
      SameNumbers(src, at + 28);
    }
  }

  lemma LowBit(src: Bytes, at: nat)
    requires at + 2 <= |src|
    ensures Read16(src, at) % 2 == src[at] as int % 2
  {
  }

  /** What an entry whose signature and lengths fit says, in bytes. */
  lemma EntryRead(src: Bytes, at: nat, zfo: nat)
    ensures CfhAt(src, at, zfo).Some? <==>
            at + 46 <= |src| && Stands(src, at, [0x50, 0x4B, 1, 2]) && NextEntry(src, at) <= |src|
    ensures CfhAt(src, at, zfo).Some? ==>
              var c := CfhAt(src, at, zfo).value;
              && c.name == at + 46 && c.lfhOffset == LocalAt(src, at, zfo)
              && c.h.gpFlag % 2 == src[at + 8] as int % 2 && c.h.compMethod == Le16(src, at + 10)
              && c.h.modTime == Le16(src, at + 12) && c.h.modDate == Le16(src, at + 14)
              && c.h.crc32 == Le32(src, at + 16) && c.h.compSize == Le32(src, at + 20)
              && c.h.uncompSize == Le32(src, at + 24) && c.h.nameLen == Le16(src, at + 28)
              && c.h.extraLen == Le16(src, at + 30) && c.h.commentLen == Le16(src, at + 32)
              && c.h.diskNbrStart == Le16(src, at + 34) && c.h.extAttrs == Le32(src, at + 38)
              && Next(at, c) == NextEntry(src, at)
  {
    hide Read16, Read32, Record, Stands, Le16, Le32;
    if at + 46 <= |src| {
      CfhInPlace(src, at);
      FourBytes(src, at, [0x50, 0x4B, 1, 2]);
      LowBit(src, at + 8);
      SameNumbers(src, at + 10);
      SameNumbers(src, at + 12);
      SameNumbers(src, at + 14);
      SameNumbers(src, at + 16);
      SameNumbers(src, at + 20);
      SameNumbers(src, at + 24);
      SameNumbers(src, at + 28);
      SameNumbers(src, at + 30);
      SameNumbers(src, at + 32);
      SameNumbers(src, at + 34);
      SameNumbers(src, at + 38);
      SameNumbers(src, at + 42);
    }
  }

  /** The reader accepts a directory entry if and only if its bytes are these. */
  lemma EntryOkIff(src: Bytes, at: nat, zfo: nat)
    ensures EntryOk(src, at, zfo) <==> CfhAt(src, at, zfo).Some? && MemberOk(src, CfhAt(src, at, zfo).value)
    ensures EntryOk(src, at, zfo) ==> Next(at, CfhAt(src, at, zfo).value) == NextEntry(src, at)
  {
    hide CfhAt, LfhAt, Stands, Le16, Le32, LocalAt, LocalOk;
    EntryRead(src, at, zfo);
    if CfhAt(src, at, zfo).Some? {
      LocalOkIff(src, LocalAt(src, at, zfo), Le32(src, at + 20));
    }
  }

  lemma {:induction false} DirectoryEndIs(src: Bytes, n: nat, at: nat, zfo: nat)
    ensures DirectoryEnd(src, n, at, zfo) == EndOfMembers(src, n, at, zfo)
  {
    hide CfhAt, MemberOk, EntryOk, NextEntry, Next;
    if n > 0 {
      EntryOkIff(src, at, zfo);
      if EntryOk(src, at, zfo) {
        DirectoryEndIs(src, n - 1, NextEntry(src, at), zfo);
      }
    }
  }

  lemma EndRecordIff(src: Bytes, c: nat)
    ensures EndRecordAt(src, c) <==> Matches(src, c)
  {
    hide Read16, Read32, Record, Stands, Le16;
    if 22 + c <= |src| {
      EocdrInPlace(src, |src| - 22 - c);
      FourBytes(src, |src| - 22 - c, [0x50, 0x4B, 5, 6]);
      SameNumbers(src, |src| - 2 - c);
    }
  }

  lemma ZeroBytes(src: Bytes, at: nat)
    requires at + 2 <= |src|
    ensures Read16(src, at) == 0 <==> src[at] == 0 && src[at + 1] == 0
  {
  }

  lemma DescribesIff(src: Bytes, c: nat, z: Zip)
    requires EOCDR_BASE_SZ + c <= |src| && Matches(src, c)
    ensures Describes(src, c, z) <==> Archive(src, EocdrAt(src, c)) == Some(z)
  {
    hide Read16, Read32, Record, Le16, Le32, EndOfMembers, DirectoryEnd;
    var p := |src| - 22 - c;
    EocdrInPlace(src, p);
    ZeroBytes(src, p + 4);
    ZeroBytes(src, p + 6);
    SameNumbers(src, p + 8);
    SameNumbers(src, p + 10);
    SameNumbers(src, p + 12);
    SameNumbers(src, p + 16);
    DirectoryEndIs(src, z.numMembers, z.membersBegin, z.zipFileOffset);
  }

  /** The reader accepts a source, as archive z, if and only if its first end record describes z. */
  lemma ReadsIff(src: Bytes, z: Zip)
    ensures Reads(src, z) <==>
            exists c: nat | c < 65536 ::
              EndRecordAt(src, c) && (forall b: nat | b < c :: !EndRecordAt(src, b)) && Describes(src, c, z)
  {
    hide Matches, EndRecordAt, Describes, Archive, EocdrAt;
    forall c: nat ensures EndRecordAt(src, c) <==> Matches(src, c) {
      EndRecordIff(src, c);
    }
    forall c: nat | Matches(src, c) ensures Describes(src, c, z) <==> Archive(src, EocdrAt(src, c)) == Some(z) {
      DescribesIff(src, c, z);
    }
  }

  /** What the reader shows of an accepted entry, in bytes. */
  lemma ViewIs(src: Bytes, at: nat, zfo: nat)
    requires EntryOk(src, at, zfo)
    ensures CfhAt(src, at, zfo).Some? && MemberOk(src, CfhAt(src, at, zfo).value)
    ensures var l := LocalAt(src, at, zfo);
            var name := at + 46;
            var comment := name + Le16(src, at + 28) + Le16(src, at + 30);
            var data := l + 30 + Le16(src, l + 26) + Le16(src, l + 28);
            View(src, CfhAt(src, at, zfo).value)
            == Member(src[name..name + Le16(src, at + 28)], Le16(src, at + 12), Le16(src, at + 14),
                      src[data..data + Le32(src, at + 20)], Le16(src, at + 10), Le32(src, at + 24), Le32(src, at + 16),
                      src[comment..comment + Le16(src, at + 32)], Le32(src, at + 38) / 16 % 2 == 1)
  {
    hide CfhAt, LfhAt, Stands, Le16, Le32, LocalAt, Read16, Read32;
    EntryOkIff(src, at, zfo);
    EntryRead(src, at, zfo);
    CfhPlaces(src, at, zfo);
    LocalPlaces(src, LocalAt(src, at, zfo));
  }

  lemma CfhPlaces(src: Bytes, at: nat, zfo: nat)
    requires CfhAt(src, at, zfo).Some?
    ensures var c := CfhAt(src, at, zfo).value;
            c.comment == c.name + c.h.nameLen + c.h.extraLen
  {
  }

  lemma LocalPlaces(src: Bytes, at: nat)
    requires LfhAt(src, at).Some?
    ensures at + 30 <= |src|
    ensures LfhAt(src, at).value.extra + LfhAt(src, at).value.h.extraLen
         == at + 30 + Le16(src, at + 26) + Le16(src, at + 28)
  {
    hide Read16, Read32, Record, Le16;
    LfhInPlace(src, at);
    SameNumbers(src, at + 26);
    SameNumbers(src, at + 28);
  }
}
