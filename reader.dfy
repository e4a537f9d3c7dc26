/**
 * The byte cursor and directory reader of wadReader/src/reader.cpp.
 *
 * Every reader of the source takes the buffer and an offset held by
 * reference, reads a fixed number of bytes at that offset and advances it.
 * Here a reader is a function from (buffer, offset) to the value read and
 * the advanced offset.  No read of the source is bounds-checked, so every
 * reader requires the bytes it touches to lie inside the buffer.
 */
module Reader {
  import opened Bytes

  /** A value read from the buffer and the offset just past it. */
  datatype Cursor<T> = Cursor(value: T, offset: nat)

  function ReadInt(buffer: seq<byte>, offset: nat): (r: Cursor<int32>)
    requires offset + 4 <= |buffer|
    ensures r.offset == offset + 4
  {
    Cursor(ToInt32(LE32(buffer[offset], buffer[offset + 1], buffer[offset + 2], buffer[offset + 3])), offset + 4)
  }

  function ReadUInt(buffer: seq<byte>, offset: nat): (r: Cursor<uint32>)
    requires offset + 4 <= |buffer|
    ensures r.offset == offset + 4
  {
    Cursor(LE32(buffer[offset], buffer[offset + 1], buffer[offset + 2], buffer[offset + 3]), offset + 4)
  }

  function ReadInt16(buffer: seq<byte>, offset: nat): (r: Cursor<int16>)
    requires offset + 2 <= |buffer|
    ensures r.offset == offset + 2
  {
    Cursor(ToInt16(LE16(buffer[offset], buffer[offset + 1])), offset + 2)
  }

  function ReadUInt16(buffer: seq<byte>, offset: nat): (r: Cursor<uint16>)
    requires offset + 2 <= |buffer|
    ensures r.offset == offset + 2
  {
    Cursor(LE16(buffer[offset], buffer[offset + 1]), offset + 2)
  }

  // ---------------------------------------------------------------------
  // Each fixed-width read is the inverse of the little-endian encoding.
  // ---------------------------------------------------------------------

  /** Bytes that encode v at the offset read back as v, and the offset moves by 4. */
  lemma ReadIntEncoded(buffer: seq<byte>, offset: nat, v: int32)
    requires offset + 4 <= |buffer| && buffer[offset .. offset + 4] == EncodeI32(v)
    ensures ReadInt(buffer, offset) == Cursor(v, offset + 4)
  {
    Int32OfEncode(v);
    assert buffer[offset .. offset + 4][0] == buffer[offset];
  }

  lemma ReadUIntEncoded(buffer: seq<byte>, offset: nat, v: uint32)
    requires offset + 4 <= |buffer| && buffer[offset .. offset + 4] == EncodeU32(v)
    ensures ReadUInt(buffer, offset) == Cursor(v, offset + 4)
  {
    LE32OfEncode(v);
    assert buffer[offset .. offset + 4][0] == buffer[offset];
  }

  lemma ReadInt16Encoded(buffer: seq<byte>, offset: nat, v: int16)
    requires offset + 2 <= |buffer| && buffer[offset .. offset + 2] == EncodeI16(v)
    ensures ReadInt16(buffer, offset) == Cursor(v, offset + 2)
  {
    Int16OfEncode(v);
    assert buffer[offset .. offset + 2][0] == buffer[offset];
  }

  lemma ReadUInt16Encoded(buffer: seq<byte>, offset: nat, v: uint16)
    requires offset + 2 <= |buffer| && buffer[offset .. offset + 2] == EncodeU16(v)
    ensures ReadUInt16(buffer, offset) == Cursor(v, offset + 2)
  {
    LE16OfEncode(v);
    assert buffer[offset .. offset + 2][0] == buffer[offset];
  }

  /** The value read is the little-endian value of the bytes at the old offset. */
  lemma EncodeOfReadUInt(buffer: seq<byte>, offset: nat)
    requires offset + 4 <= |buffer|
    ensures EncodeU32(ReadUInt(buffer, offset).value) == buffer[offset .. offset + 4]
  {
    EncodeOfLE32(buffer[offset], buffer[offset + 1], buffer[offset + 2], buffer[offset + 3]);
  }

  lemma EncodeOfReadUInt16(buffer: seq<byte>, offset: nat)
    requires offset + 2 <= |buffer|
    ensures EncodeU16(ReadUInt16(buffer, offset).value) == buffer[offset .. offset + 2]
  {
    EncodeOfLE16(buffer[offset], buffer[offset + 1]);
  }

  /** ReadInt16 and ReadUInt16 of one position differ only in the signed reading. */
  lemma ReadInt16AgreesWithUInt16(buffer: seq<byte>, offset: nat)
    requires offset + 2 <= |buffer|
    ensures ReadInt16(buffer, offset).offset == ReadUInt16(buffer, offset).offset
    ensures ToUInt16(ReadInt16(buffer, offset).value) == ReadUInt16(buffer, offset).value
    ensures (ReadInt16(buffer, offset).value - ReadUInt16(buffer, offset).value) % 0x1_0000 == 0
  {
    SignedUnsigned16(buffer[offset], buffer[offset + 1]);
  }

  /** ReadInt and ReadUInt of one position agree modulo 2^32. */
  lemma ReadIntAgreesWithUInt(buffer: seq<byte>, offset: nat)
    requires offset + 4 <= |buffer|
    ensures ReadInt(buffer, offset).offset == ReadUInt(buffer, offset).offset
    ensures (ReadInt(buffer, offset).value - ReadUInt(buffer, offset).value) % 0x1_0000_0000 == 0
  {
    SignedUnsigned32(buffer[offset], buffer[offset + 1], buffer[offset + 2], buffer[offset + 3]);
  }

  // ---------------------------------------------------------------------
  // Names: an 8-byte field copied into a 9-byte zeroed buffer, so the
  // resulting string stops at the first NUL or after all 8 bytes.
  // ---------------------------------------------------------------------

  const NameSize: nat := 8

  /** The bytes of s up to (not including) the first NUL, as characters. */
  function NulTrim(s: seq<byte>): (r: string)
    ensures |r| <= |s|
    ensures forall i :: 0 <= i < |r| ==> s[i] != 0 && r[i] == s[i] as char
    ensures |r| < |s| ==> s[|r|] == 0
  {
    if s == [] || s[0] == 0 then [] else [s[0] as char] + NulTrim(s[1..])
  }

  function ReadName(buffer: seq<byte>, offset: nat): (r: Cursor<string>)
    requires offset + NameSize <= |buffer|
    ensures r.offset == offset + NameSize
    ensures |r.value| <= NameSize
    ensures forall i :: 0 <= i < |r.value| ==> r.value[i] != '\0' && r.value[i] == buffer[offset + i] as char
    ensures |r.value| < NameSize ==> buffer[offset + |r.value|] == 0
    ensures (forall i :: offset <= i < offset + NameSize ==> buffer[i] != 0) ==> |r.value| == NameSize
  {
    Cursor(NulTrim(buffer[offset .. offset + NameSize]), offset + NameSize)
  }

  /** A name that survives the fixed 8-byte field: at most 8 non-NUL byte-sized characters. */
  predicate ValidName(n: string) {
    |n| <= NameSize && forall i :: 0 <= i < |n| ==> 0 < n[i] as int < 0x100
  }

  /** The NUL-padded 8-byte field holding a name. */
  function EncodeName(n: string): (r: seq<byte>)
    requires ValidName(n)
    ensures |r| == NameSize
  {
    seq(NameSize, i requires 0 <= i < NameSize => if i < |n| then n[i] as int else 0)
  }

  /** NulTrim is characterised by its contract: the unique string it describes. */
  lemma {:induction false} NulTrimUnique(s: seq<byte>, n: string)
    requires |n| <= |s|
    requires forall i :: 0 <= i < |n| ==> s[i] != 0 && n[i] == s[i] as char
    requires |n| < |s| ==> s[|n|] == 0
    ensures NulTrim(s) == n
  {
    if n != [] {
      NulTrimUnique(s[1..], n[1..]);
      assert n == [s[0] as char] + n[1..];
    }
  }

  lemma ReadNameEncoded(buffer: seq<byte>, offset: nat, n: string)
    requires ValidName(n)
    requires offset + NameSize <= |buffer| && buffer[offset .. offset + NameSize] == EncodeName(n)
    ensures ReadName(buffer, offset) == Cursor(n, offset + NameSize)
  {
    var field := buffer[offset .. offset + NameSize];
    assert forall i :: 0 <= i < |n| ==> field[i] == n[i] as int;
    NulTrimUnique(field, n);
  }

  // ---------------------------------------------------------------------
  // The directory.
  // ---------------------------------------------------------------------

  /**
   * One directory record.  LumpOffset and LumpSize are `size_t` fields
   * assigned from signed 32-bit reads, so a negative value wraps modulo 2^64.
   * (The struct is declared in wadReader/include/lump_types.h.)
   */
  datatype DirectoryEntry = DirectoryEntry(lumpOffset: nat, lumpSize: nat, name: string)

  const DirectoryEntrySize: nat := 16
  const HeaderSize: nat := 12

  function ReadDirectoryEntry(buffer: seq<byte>, readOffset: nat): (r: Cursor<DirectoryEntry>)
    requires readOffset + DirectoryEntrySize <= |buffer|
    ensures r.offset == readOffset + DirectoryEntrySize
  {
    var lumpOffset := ReadInt(buffer, readOffset);
    var lumpSize := ReadInt(buffer, lumpOffset.offset);
    var name := ReadName(buffer, lumpSize.offset);
    Cursor(DirectoryEntry(ToSizeT(lumpOffset.value), ToSizeT(lumpSize.value), name.value), name.offset)
  }

  /** The 16 bytes of a directory record: offset, size, then the name field. */
  function EncodeDirectoryEntry(e: DirectoryEntry): (r: seq<byte>)
    requires Encodable(e)
    ensures |r| == DirectoryEntrySize
  {
    EncodeI32(e.lumpOffset) + EncodeI32(e.lumpSize) + EncodeName(e.name)
  }

  predicate Encodable(e: DirectoryEntry) {
    e.lumpOffset < 0x8000_0000 && e.lumpSize < 0x8000_0000 && ValidName(e.name)
  }

  /** A record is decoded from exactly bytes 0-3 (offset), 4-7 (size) and 8-15 (name). */
  lemma ReadDirectoryEntryEncoded(buffer: seq<byte>, readOffset: nat, e: DirectoryEntry)
    requires Encodable(e)
    requires readOffset + DirectoryEntrySize <= |buffer|
    requires buffer[readOffset .. readOffset + DirectoryEntrySize] == EncodeDirectoryEntry(e)
    ensures ReadDirectoryEntry(buffer, readOffset) == Cursor(e, readOffset + DirectoryEntrySize)
  {
    var rec := buffer[readOffset .. readOffset + DirectoryEntrySize];
    var a, b, c := EncodeI32(e.lumpOffset), EncodeI32(e.lumpSize), EncodeName(e.name);
    assert rec == a + b + c;
    assert rec[0..4] == a && rec[4..8] == b && rec[8..16] == c;
    SubSlice(buffer, readOffset, readOffset + 16, 0, 4);
    SubSlice(buffer, readOffset, readOffset + 16, 4, 8);
    SubSlice(buffer, readOffset, readOffset + 16, 8, 16);
    ReadIntEncoded(buffer, readOffset, e.lumpOffset);
    ReadIntEncoded(buffer, readOffset + 4, e.lumpSize);
    ReadNameEncoded(buffer, readOffset + 8, e.name);
  }

  /** A directory record depends only on its own 16 bytes. */
  lemma ReadDirectoryEntryLocal(a: seq<byte>, b: seq<byte>, o: nat)
    requires o + DirectoryEntrySize <= |a| && o + DirectoryEntrySize <= |b|
    requires a[o .. o + DirectoryEntrySize] == b[o .. o + DirectoryEntrySize]
    ensures ReadDirectoryEntry(a, o) == ReadDirectoryEntry(b, o)
  {
    forall k | o <= k < o + 16 ensures a[k] == b[k] {
      assert a[k] == a[o .. o + 16][k - o];
      assert b[k] == b[o .. o + 16][k - o];
    }
    SubSlice(a, o, o + 16, 8, 16);
    SubSlice(b, o, o + 16, 8, 16);
  }

  /** The lump count, read at byte 4 and compared as a `size_t`. */
  function LumpCount(buffer: seq<byte>): nat
    requires HeaderSize <= |buffer|
  {
    ToSizeT(ReadInt(buffer, 4).value)
  }

  /** The directory offset, read at byte 8 into a `size_t`. */
  function DirectoryOffset(buffer: seq<byte>): nat
    requires HeaderSize <= |buffer|
  {
    ToSizeT(ReadInt(buffer, 8).value)
  }

  /**
   * Every read of the directory lies inside the buffer.  The buffer comes
   * from a loader that reports its size as a C `int`, so it is shorter than
   * 2^31 bytes; a negative count or offset (huge once converted to `size_t`)
   * therefore never fits.
   */
  predicate DirectoryFits(buffer: seq<byte>) {
    HeaderSize <= |buffer| < 0x8000_0000 &&
    DirectoryOffset(buffer) + 16 * LumpCount(buffer) <= |buffer|
  }

  /** The directory as a value: entry i is the record at dirOffset + 16 * i. */
  function Directory(buffer: seq<byte>): seq<DirectoryEntry>
    requires DirectoryFits(buffer)
  {
    seq(LumpCount(buffer), i requires 0 <= i < LumpCount(buffer) =>
      ReadDirectoryEntry(buffer, DirectoryOffset(buffer) + 16 * i).value)
  }

  /** Directory record i lies inside the buffer. */
  lemma DirectoryRecordFits(buffer: seq<byte>, i: nat)
    requires DirectoryFits(buffer) && i < LumpCount(buffer)
    ensures DirectoryOffset(buffer) + 16 * i + 16 <= |buffer|
  {
    assert 16 * i + 16 <= 16 * LumpCount(buffer);
  }

  /** Reading record i extends the directory prefix by one entry. */
  lemma DirectoryStep(buffer: seq<byte>, i: nat)
    requires DirectoryFits(buffer) && i < LumpCount(buffer)
    ensures DirectoryOffset(buffer) + 16 * i + 16 <= |buffer|
    ensures Directory(buffer)[..i + 1] ==
      Directory(buffer)[..i] + [ReadDirectoryEntry(buffer, DirectoryOffset(buffer) + 16 * i).value]
  {
    DirectoryRecordFits(buffer, i);
    var d := Directory(buffer);
    PrefixStep(d, i);
  }

  /** One more record read at the running offset extends the directory prefix by one entry. */
  lemma DirectoryGrows(buffer: seq<byte>, lump: nat, entries: seq<DirectoryEntry>, dirOffset: nat)
    requires DirectoryFits(buffer) && lump < LumpCount(buffer)
    requires dirOffset == DirectoryOffset(buffer) + 16 * lump
    requires entries == Directory(buffer)[..lump]
    ensures dirOffset + DirectoryEntrySize <= |buffer|
    ensures entries + [ReadDirectoryEntry(buffer, dirOffset).value] == Directory(buffer)[..lump + 1]
  {
    DirectoryStep(buffer, lump);
  }

  /** A prefix one longer is the shorter prefix and one more element. */
  lemma PrefixStep<T>(s: seq<T>, i: nat)
    requires i < |s|
    ensures s[..i + 1] == s[..i] + [s[i]]
  {
  }

  /** The lump count at byte 4 and the directory offset after it, each widened to `size_t`. */
  method ReadHeader(buffer: seq<byte>) returns (count: nat, dirOffset: nat)
    requires HeaderSize <= |buffer|
    ensures count == LumpCount(buffer) && dirOffset == DirectoryOffset(buffer)
  {
    var offset := 4;
    var lumpCount := ReadInt(buffer, offset);
    offset := lumpCount.offset;
    var dir := ReadInt(buffer, offset);
    dirOffset := ToSizeT(dir.value);
    count := ToSizeT(lumpCount.value);
  }

  method ReadDirectoryEntries(buffer: seq<byte>) returns (entries: seq<DirectoryEntry>)
    requires DirectoryFits(buffer)
    ensures |entries| == LumpCount(buffer)
    ensures entries == Directory(buffer)
  {
    var count, dirOffset := ReadHeader(buffer);
    entries := [];
    var lump := 0;
    while lump < count
      invariant 0 <= lump <= count
      invariant dirOffset == DirectoryOffset(buffer) + 16 * lump
      invariant entries == Directory(buffer)[..lump]
    {
      DirectoryGrows(buffer, lump, entries, dirOffset);
      var entry := ReadDirectoryEntry(buffer, dirOffset);
      entries := entries + [entry.value];
      dirOffset := entry.offset;
      lump := lump + 1;
    }
  }

  /** The header bytes 0-3 (the magic) play no part in the count or the offset. */
  lemma HeaderIgnoresMagic(a: seq<byte>, b: seq<byte>)
    requires HeaderSize <= |a| && |a| == |b| && a[4..] == b[4..]
    ensures LumpCount(a) == LumpCount(b) && DirectoryOffset(a) == DirectoryOffset(b)
    ensures DirectoryFits(a) <==> DirectoryFits(b)
    ensures DirectoryFits(a) && DirectoryOffset(a) >= 4 ==> Directory(a) == Directory(b)
  {
    assert a[4..][0..8] == b[4..][0..8];
    SubSlice(a, 4, |a|, 0, 8);
    SubSlice(b, 4, |b|, 0, 8);
    assert forall k :: 4 <= k < 12 ==> a[k] == a[4..12][k - 4] == b[4..12][k - 4] == b[k];
    if DirectoryFits(a) && DirectoryOffset(a) >= 4 {
      forall i | 0 <= i < LumpCount(a)
        ensures ReadDirectoryEntry(a, DirectoryOffset(a) + 16 * i) == ReadDirectoryEntry(b, DirectoryOffset(a) + 16 * i)
      {
        var o := DirectoryOffset(a) + 16 * i;
        SubSlice(a, 4, |a|, o - 4, o + 12);
        SubSlice(b, 4, |b|, o - 4, o + 12);
        ReadDirectoryEntryLocal(a, b, o);
      }
      DirectoryExtensional(a, b);
    }
  }

  /** Two buffers whose headers and records agree have the same directory. */
  lemma DirectoryExtensional(a: seq<byte>, b: seq<byte>)
    requires DirectoryFits(a) && DirectoryFits(b)
    requires LumpCount(a) == LumpCount(b) && DirectoryOffset(a) == DirectoryOffset(b)
    requires forall i :: 0 <= i < LumpCount(a) ==>
      ReadDirectoryEntry(a, DirectoryOffset(a) + 16 * i) == ReadDirectoryEntry(b, DirectoryOffset(a) + 16 * i)
    ensures Directory(a) == Directory(b)
  {
  }

  /** An archive whose directory directly follows the 12-byte header. */
  function EncodeArchive(magic: seq<byte>, entries: seq<DirectoryEntry>): seq<byte>
    requires |magic| == 4 && 12 + 16 * |entries| < 0x8000_0000
    requires forall i :: 0 <= i < |entries| ==> Encodable(entries[i])
  {
    magic + EncodeI32(|entries|) + EncodeI32(HeaderSize) +
      Concat(seq(|entries|, i requires 0 <= i < |entries| => EncodeDirectoryEntry(entries[i])))
  }

  lemma ArchiveHeader(magic: seq<byte>, entries: seq<DirectoryEntry>)
    requires |magic| == 4 && 12 + 16 * |entries| < 0x8000_0000
    requires forall i :: 0 <= i < |entries| ==> Encodable(entries[i])
    ensures |EncodeArchive(magic, entries)| == 12 + 16 * |entries|
    ensures LumpCount(EncodeArchive(magic, entries)) == |entries|
    ensures DirectoryOffset(EncodeArchive(magic, entries)) == HeaderSize
  {
    var chunks := seq(|entries|, i requires 0 <= i < |entries| => EncodeDirectoryEntry(entries[i]));
    var buf := EncodeArchive(magic, entries);
    ConcatLength(chunks, 16);
    assert buf[4..8] == EncodeI32(|entries|);
    assert buf[8..12] == EncodeI32(HeaderSize);
    ReadIntEncoded(buf, 4, |entries|);
    ReadIntEncoded(buf, 8, HeaderSize);
  }

  lemma ArchiveRecord(magic: seq<byte>, entries: seq<DirectoryEntry>, i: nat)
    requires |magic| == 4 && 12 + 16 * |entries| < 0x8000_0000
    requires forall i :: 0 <= i < |entries| ==> Encodable(entries[i])
    requires i < |entries|
    ensures 12 + 16 * i + 16 <= |EncodeArchive(magic, entries)|
    ensures EncodeArchive(magic, entries)[12 + 16 * i .. 12 + 16 * i + 16] == EncodeDirectoryEntry(entries[i])
  {
    var chunks := seq(|entries|, i requires 0 <= i < |entries| => EncodeDirectoryEntry(entries[i]));
    var body := Concat(chunks);
    var buf := EncodeArchive(magic, entries);
    ConcatUniform(chunks, 16, i);
    assert buf[12..] == body;
    SubSlice(buf, 12, |buf|, 16 * i, 16 * i + 16);
  }

  /** Reading the directory of an encoded archive gives back its entries, in order. */
  lemma DirectoryOfEncoded(magic: seq<byte>, entries: seq<DirectoryEntry>)
    requires |magic| == 4 && 12 + 16 * |entries| < 0x8000_0000
    requires forall i :: 0 <= i < |entries| ==> Encodable(entries[i])
    ensures DirectoryFits(EncodeArchive(magic, entries))
    ensures Directory(EncodeArchive(magic, entries)) == entries
  {
    var buf := EncodeArchive(magic, entries);
    ArchiveHeader(magic, entries);
    ArchiveRecords(magic, entries);
    DirectoryOfRecords(buf, entries);
  }

  lemma ArchiveRecords(magic: seq<byte>, entries: seq<DirectoryEntry>)
    requires |magic| == 4 && 12 + 16 * |entries| < 0x8000_0000
    requires forall i :: 0 <= i < |entries| ==> Encodable(entries[i])
    ensures forall i :: 0 <= i < |entries| ==>
      12 + 16 * i + 16 <= |EncodeArchive(magic, entries)| &&
      ReadDirectoryEntry(EncodeArchive(magic, entries), 12 + 16 * i).value == entries[i]
  {
    forall i | 0 <= i < |entries|
      ensures 12 + 16 * i + 16 <= |EncodeArchive(magic, entries)|
      ensures ReadDirectoryEntry(EncodeArchive(magic, entries), 12 + 16 * i).value == entries[i]
    {
      ArchiveRecord(magic, entries, i);
      ReadDirectoryEntryEncoded(EncodeArchive(magic, entries), 12 + 16 * i, entries[i]);
    }
  }

  lemma DirectoryOfRecords(buf: seq<byte>, entries: seq<DirectoryEntry>)
    requires HeaderSize <= |buf| < 0x8000_0000 && |buf| == 12 + 16 * |entries|
    requires LumpCount(buf) == |entries| && DirectoryOffset(buf) == 12
    requires forall i :: 0 <= i < |entries| ==> 12 + 16 * i + 16 <= |buf| && ReadDirectoryEntry(buf, 12 + 16 * i).value == entries[i]
    ensures DirectoryFits(buf) && Directory(buf) == entries
  {
    assert DirectoryFits(buf);
    forall i | 0 <= i < |entries| ensures Directory(buf)[i] == entries[i] {
      DirectoryEntryAt(buf, i);
    }
    SameElements(Directory(buf), entries);
  }

  /** Entry i of the directory is the record at dirOffset + 16 * i. */
  lemma DirectoryEntryAt(buf: seq<byte>, i: nat)
    requires DirectoryFits(buf) && i < LumpCount(buf)
    ensures DirectoryOffset(buf) + 16 * i + 16 <= |buf|
    ensures Directory(buf)[i] == ReadDirectoryEntry(buf, DirectoryOffset(buf) + 16 * i).value
  {
    DirectoryRecordFits(buf, i);
  }

  /** Sequences of one length that agree at every index are equal. */
  lemma SameElements<T>(a: seq<T>, b: seq<T>)
    requires |a| == |b| && forall i :: 0 <= i < |a| ==> a[i] == b[i]
    ensures a == b
  {
  }
}
