/**
 The archive reads back as the name list it was written from.
 */
module ZipTheorems {
  import opened Wrappers
  import opened Wire
  import opened ZipArchive

  lemma {:induction false} AtSplit(buf: Bytes, i: nat, a: Bytes, b: Bytes)
    requires At(buf, i, a + b)
    ensures At(buf, i, a) && At(buf, i + |a|, b)
  {
    var whole := buf[i..i + |a + b|];
    assert whole[..|a|] == a && whole[|a|..] == b;
    assert buf[i..i + |a|] == whole[..|a|];
    assert buf[i + |a|..i + |a| + |b|] == whole[|a|..];
  }

  lemma {:induction false} WordAt(buf: Bytes, i: nat, v: nat)
    requires At(buf, i, Le16(v))
    ensures Read16(buf, i) == v % WORD
  {
    assert buf[i..i + 2][0] == buf[i] && buf[i..i + 2][1] == buf[i + 1];
  }

  lemma {:induction false} DoubleWordAt(buf: Bytes, i: nat, v: nat)
    requires At(buf, i, Le32(v))
    ensures Read32(buf, i) == v % DWORD
  {
    hide Le16, Read16;
    AtSplit(buf, i, Le16(v % WORD), Le16(v / WORD));
    WordAt(buf, i, v % WORD);
    WordAt(buf, i + 2, v / WORD);
    TwoWords(v);
  }

  /** A double word is its two words. */
  lemma {:induction false} TwoWords(v: nat)
    ensures v % WORD % WORD + WORD * (v / WORD % WORD) == v % DWORD
  {
    var low, high := v % WORD, v / WORD;
    var kept, lost := high % WORD, high / WORD;
    assert v == low + WORD * (kept + WORD * lost);
    Remainder(v, low + WORD * kept, lost);
  }

  lemma {:induction false} Remainder(v: nat, r: nat, q: nat)
    requires v == r + DWORD * q && r < DWORD
    ensures v % DWORD == r
  {
  }

  lemma {:induction false} SharedAt(buf: Bytes, i: nat, crc: nat, size: nat, nameLen: nat)
    requires At(buf, i, SharedFields(crc, size, nameLen))
    ensures Read16(buf, i) == 10 && Read16(buf, i + 2) == 0 && Read16(buf, i + 4) == 0
    ensures Read16(buf, i + 6) == 0 && Read16(buf, i + 8) == 33 && Read32(buf, i + 10) == crc % DWORD
    ensures Read32(buf, i + 14) == size % DWORD && Read32(buf, i + 18) == size % DWORD
    ensures Read16(buf, i + 22) == nameLen % WORD && Read16(buf, i + 24) == 0
  {
    hide Le16, Le32, Read16, Read32, At;
    var z := Le16(0);
    var tail1 := Le16(nameLen) + z;
    var tail2 := Le32(size) + tail1;
    var tail3 := Le32(size) + tail2;
    var tail4 := Le32(crc) + tail3;
    var tail5 := Le16(ZIP_DOS_DATE) + tail4;
    AtSplit(buf, i, Le16(ZIP_VERSION), z + (z + (z + tail5)));
    AtSplit(buf, i + 2, z, z + (z + tail5));
    AtSplit(buf, i + 4, z, z + tail5);
    AtSplit(buf, i + 6, z, tail5);
    AtSplit(buf, i + 8, Le16(ZIP_DOS_DATE), tail4);
    AtSplit(buf, i + 10, Le32(crc), tail3);
    AtSplit(buf, i + 14, Le32(size), tail2);
    AtSplit(buf, i + 18, Le32(size), tail1);
    AtSplit(buf, i + 22, Le16(nameLen), z);
    WordAt(buf, i, ZIP_VERSION);
    WordAt(buf, i + 2, 0);
    WordAt(buf, i + 4, 0);
    WordAt(buf, i + 6, 0);
    WordAt(buf, i + 8, ZIP_DOS_DATE);
    DoubleWordAt(buf, i + 10, crc);
    DoubleWordAt(buf, i + 14, size);
    DoubleWordAt(buf, i + 18, size);
    WordAt(buf, i + 22, nameLen);
    WordAt(buf, i + 24, 0);
  }

  lemma {:induction false} LocalAt(buf: Bytes, p: nat, crc: nat, size: nat, nameLen: nat)
    requires At(buf, p, LocalHeader(crc, size, nameLen))
    ensures At(buf, p, [0x50, 0x4b, 3, 4]) && p + LOCAL_SIZE <= |buf|
    ensures Read16(buf, p + 8) == 0 && Read32(buf, p + 14) == crc % DWORD
    ensures Read32(buf, p + 18) == size % DWORD && Read32(buf, p + 22) == size % DWORD
    ensures Read16(buf, p + 26) == nameLen % WORD && Read16(buf, p + 28) == 0
  {
    hide SharedFields, Read16, Read32;
    AtSplit(buf, p, LOCAL, SharedFields(crc, size, nameLen));
    SharedAt(buf, p + 4, crc, size, nameLen);
  }

  lemma {:induction false} CentralAt(buf: Bytes, p: nat, crc: nat, size: nat, nameLen: nat, offset: nat)
    requires At(buf, p, CentralHeader(crc, size, nameLen, offset))
    ensures At(buf, p, [0x50, 0x4b, 1, 2]) && p + CENTRAL_SIZE <= |buf| && Read16(buf, p + 4) == 10
    ensures Read16(buf, p + 34) == 0 && Read16(buf, p + 36) == 0 && Read32(buf, p + 38) == 0
    ensures Read32(buf, p + 16) == crc % DWORD && Read32(buf, p + 24) == size % DWORD
    ensures Read16(buf, p + 28) == nameLen % WORD && Read16(buf, p + 30) == 0 && Read16(buf, p + 32) == 0
    ensures Read32(buf, p + 42) == offset % DWORD
  {
    hide SharedFields, Read16, Read32, Le16, Le32, At;
    var z := Le16(0);
    var tail1 := Le32(0) + Le32(offset);
    var tail2 := z + (z + (z + tail1));
    var shared := SharedFields(crc, size, nameLen);
    AtSplit(buf, p, CENTRAL, Le16(ZIP_VERSION) + (shared + tail2));
    AtSplit(buf, p + 4, Le16(ZIP_VERSION), shared + tail2);
    AtSplit(buf, p + 6, shared, tail2);
    SharedAt(buf, p + 6, crc, size, nameLen);
    AtSplit(buf, p + 32, z, z + (z + tail1));
    AtSplit(buf, p + 34, z, z + tail1);
    AtSplit(buf, p + 36, z, tail1);
    AtSplit(buf, p + 38, Le32(0), Le32(offset));
    WordAt(buf, p + 4, ZIP_VERSION);
    WordAt(buf, p + 32, 0);
    WordAt(buf, p + 34, 0);
    WordAt(buf, p + 36, 0);
    DoubleWordAt(buf, p + 38, 0);
    DoubleWordAt(buf, p + 42, offset);
    AtEnds(buf, p + 42, Le32(offset));
  }

  lemma {:induction false} AtEnds(buf: Bytes, i: nat, part: Bytes)
    requires At(buf, i, part)
    ensures i + |part| <= |buf| && buf[i..i + |part|] == part
  {
  }

  lemma {:induction false} EndAt(buf: Bytes, p: nat, count: nat, centralSize: nat, bodySize: nat)
    requires At(buf, p, EndRecord(count, centralSize, bodySize))
    ensures At(buf, p, [0x50, 0x4b, 5, 6]) && p + END_SIZE <= |buf|
    ensures Read16(buf, p + 4) == 0 && Read16(buf, p + 6) == 0
    ensures Read16(buf, p + 8) == count % WORD && Read16(buf, p + 10) == count % WORD
    ensures Read32(buf, p + 12) == centralSize % DWORD && Read32(buf, p + 16) == bodySize % DWORD
    ensures Read16(buf, p + 20) == 0
  {
    hide Read16, Read32, Le16, Le32, At;
    var z := Le16(0);
    var tail1 := Le32(bodySize) + z;
    var tail2 := Le32(centralSize) + tail1;
    var tail3 := Le16(count) + (Le16(count) + tail2);
    AtSplit(buf, p, END, z + (z + tail3));
    AtSplit(buf, p + 4, z, z + tail3);
    AtSplit(buf, p + 6, z, tail3);
    AtSplit(buf, p + 8, Le16(count), Le16(count) + tail2);
    AtSplit(buf, p + 10, Le16(count), tail2);
    AtSplit(buf, p + 12, Le32(centralSize), tail1);
    AtSplit(buf, p + 16, Le32(bodySize), z);
    WordAt(buf, p + 4, 0);
    WordAt(buf, p + 6, 0);
    WordAt(buf, p + 8, count);
    WordAt(buf, p + 10, count);
    DoubleWordAt(buf, p + 12, centralSize);
    DoubleWordAt(buf, p + 16, bodySize);
    WordAt(buf, p + 20, 0);
    AtEnds(buf, p + 20, z);
  }

  // ---------------------------------------------------------------------------

  ghost predicate Is32Bit(crc: Checksum) {
    forall b :: crc(b) < DWORD
  }

  /** Name and content lengths fit their header fields. */
  ghost predicate LengthsFit(files: map<Bytes, Bytes>, names: seq<Bytes>)
    requires forall n <- names :: n in files
  {
    forall n <- names :: |n| < WORD && |files[n]| < DWORD
  }

  /** The entry count, the offsets and the sizes of both parts fit theirs. */
  ghost predicate Fits(files: map<Bytes, Bytes>, names: seq<Bytes>, crc: Checksum)
    requires forall n <- names :: n in files
  {
    && LengthsFit(files, names) && |names| < WORD
    && |Body(files, names, crc)| < DWORD && |Directory(files, names, 0, crc)| < DWORD
  }

  function Entries(files: map<Bytes, Bytes>, names: seq<Bytes>): seq<Entry>
    requires forall n <- names :: n in files
  {
    if names == [] then [] else [Entry(names[0], files[names[0]])] + Entries(files, names[1..])
  }

  lemma {:induction false} EntryReads(buf: Bytes, p: nat, name: Bytes, content: Bytes, crc: Checksum)
    requires At(buf, p, LocalEntry(name, content, crc)) && Is32Bit(crc)
    requires |name| < WORD && |content| < DWORD
    ensures ReadEntry(buf, p, name, |content|, crc(content), crc) == Some(content)
  {
    hide LocalHeader, Read16, Read32;
    var header := LocalHeader(crc(content), |content|, |name|);
    AtSplit(buf, p, header + name, content);
    AtSplit(buf, p, header, name);
    LocalAt(buf, p, crc(content), |content|, |name|);
    assert crc(content) < DWORD;
  }

  /** One central header gives its entry and leads to the next one. */
  lemma {:induction false} DirectoryStep(
    buf: Bytes, p: nat, count: nat, end: nat, name: Bytes, content: Bytes, offset: nat, crc: Checksum)
    requires At(buf, p, CentralEntry(name, content, offset, crc)) && At(buf, offset, LocalEntry(name, content, crc))
    requires count > 0 && p + |CentralEntry(name, content, offset, crc)| <= end <= |buf|
    requires Is32Bit(crc) && |name| < WORD && |content| < DWORD && offset < DWORD
    ensures
      var rest := ReadDirectory(buf, p + |CentralEntry(name, content, offset, crc)|, count - 1, end, crc);
      ReadDirectory(buf, p, count, end, crc) ==
      if rest.None? then None else Some([Entry(name, content)] + rest.value)
  {
    hide CentralHeader, LocalEntry, Read16, Read32, ReadEntry;
    var header := CentralHeader(crc(content), |content|, |name|, offset);
    AtSplit(buf, p, header, name);
    CentralAt(buf, p, crc(content), |content|, |name|, offset);
    assert crc(content) < DWORD;
    EntryReads(buf, offset, name, content, crc);
  }

  lemma {:induction false} DirectoryReads(
    buf: Bytes, p: nat, offset: nat, files: map<Bytes, Bytes>, names: seq<Bytes>, end: nat, crc: Checksum)
    requires (forall n <- names :: n in files) && Is32Bit(crc) && LengthsFit(files, names)
    requires At(buf, p, Directory(files, names, offset, crc)) && At(buf, offset, Body(files, names, crc))
    requires p + |Directory(files, names, offset, crc)| == end && offset + |Body(files, names, crc)| < DWORD
    ensures end <= |buf| && ReadDirectory(buf, p, |names|, end, crc) == Some(Entries(files, names))
    decreases |names|
  {
    hide CentralEntry, LocalEntry, At, Body, Directory, Entries, ReadDirectory, LengthsFit;
    AtEnds(buf, p, Directory(files, names, offset, crc));
    if names == [] {
      assert Directory(files, names, offset, crc) == [] && Entries(files, names) == [] by {
        NoEntries(files, offset, crc);
      }
      NothingToRead(buf, end, crc);
    } else {
      var name := names[0];
      FirstEntry(files, names, offset, crc);
      var content := files[name];
      var central, local := CentralEntry(name, content, offset, crc), LocalEntry(name, content, crc);
      AtSplit(buf, p, central, Directory(files, names[1..], offset + |local|, crc));
      AtSplit(buf, offset, local, Body(files, names[1..], crc));
      DirectoryStep(buf, p, |names|, end, name, content, offset, crc);
      DirectoryReads(buf, p + |central|, offset + |local|, files, names[1..], end, crc);
    }
  }

  lemma {:induction false} NoEntries(files: map<Bytes, Bytes>, offset: nat, crc: Checksum)
    ensures Directory(files, [], offset, crc) == [] && Entries(files, []) == []
  {
  }

  lemma {:induction false} FirstEntry(files: map<Bytes, Bytes>, names: seq<Bytes>, offset: nat, crc: Checksum)
    requires names != [] && (forall n <- names :: n in files) && LengthsFit(files, names)
    ensures
      var name, rest := names[0], names[1..];
      var content := files[name];
      var central, local := CentralEntry(name, content, offset, crc), LocalEntry(name, content, crc);
      && |name| < WORD && |content| < DWORD && LengthsFit(files, rest)
      && Directory(files, names, offset, crc) == central + Directory(files, rest, offset + |local|, crc)
      && Body(files, names, crc) == local + Body(files, rest, crc)
      && Entries(files, names) == [Entry(name, content)] + Entries(files, rest)
      && |local| > 0
  {
    hide LocalHeader, CentralEntry;
    assert names[0] in names;
  }

  lemma {:induction false} NothingToRead(buf: Bytes, end: nat, crc: Checksum)
    requires end <= |buf|
    ensures ReadDirectory(buf, end, 0, end, crc) == Some([])
  {
  }

  lemma {:induction false} FittingArchiveReadsBack(files: map<Bytes, Bytes>, names: seq<Bytes>, crc: Checksum)
    requires (forall n <- names :: n in files) && Is32Bit(crc) && Fits(files, names, crc)
    ensures ReadArchive(Archive(files, names, crc), crc) == Some(Entries(files, names))
  {
    hide Body, Directory, EndRecord, LengthsFit, ReadDirectory, Entries, Read16, Read32;
    var body, central := Body(files, names, crc), Directory(files, names, 0, crc);
    var end := EndRecord(|names|, |central|, |body|);
    var buf := body + central + end;
    assert buf == Archive(files, names, crc);
    var at := |body| + |central|;
    assert At(buf, 0, body) && At(buf, |body|, central) && At(buf, at, end) by {
      PartsAt(body, central, end);
    }
    EndAt(buf, at, |names|, |central|, |body|);
    DirectoryReads(buf, |body|, 0, files, names, at, crc);
  }

  lemma {:induction false} PartsAt(a: Bytes, b: Bytes, c: Bytes)
    ensures At(a + b + c, 0, a) && At(a + b + c, |a|, b) && At(a + b + c, |a| + |b|, c)
  {
    var all := a + b + c;
    assert all[0..|a|] == a && all[|a|..|a| + |b|] == b && all[|a| + |b|..|a| + |b| + |c|] == c;
  }

  // ---------------------------------------------------------------------------
  // Past the limits
  // ---------------------------------------------------------------------------

  lemma {:induction false} ReadsCount(buf: Bytes, p: nat, count: nat, end: nat, crc: Checksum)
    requires end <= |buf| && ReadDirectory(buf, p, count, end, crc).Some?
    ensures |ReadDirectory(buf, p, count, end, crc).value| == count
    decreases count
  {
    hide ReadEntry, Read16, Read32, At;
    if count > 0 {
      ReadsCount(buf, p + CENTRAL_SIZE + Read16(buf, p + 28) + Read16(buf, p + 30) + Read16(buf, p + 32), count - 1, end, crc);
    }
  }

  lemma {:induction false} EntriesCount(files: map<Bytes, Bytes>, names: seq<Bytes>)
    requires forall n <- names :: n in files
    ensures |Entries(files, names)| == |names|
  {
    if names != [] {
      EntriesCount(files, names[1..]);
    }
  }

  /** No reader of these headers gets a name or a content longer than they can say. */
  lemma {:induction false} ReadsShort(buf: Bytes, p: nat, count: nat, end: nat, crc: Checksum)
    requires end <= |buf| && ReadDirectory(buf, p, count, end, crc).Some?
    ensures forall e <- ReadDirectory(buf, p, count, end, crc).value :: |e.name| < WORD && |e.content| < DWORD
    decreases count
  {
    hide ReadEntry, Read16, Read32, At;
    if count > 0 {
      var nameLen := Read16(buf, p + 28);
      var next := p + CENTRAL_SIZE + nameLen + Read16(buf, p + 30) + Read16(buf, p + 32);
      WordBound(buf, p + 28);
      DoubleWordBound(buf, p + 24);
      var name := buf[p + CENTRAL_SIZE..p + CENTRAL_SIZE + nameLen];
      EntrySize(buf, Read32(buf, p + 42), name, Read32(buf, p + 24), Read32(buf, p + 16), crc);
      ReadsShort(buf, next, count - 1, end, crc);
    }
  }

  lemma {:induction false} WordBound(buf: Bytes, i: nat)
    requires i + 2 <= |buf|
    ensures Read16(buf, i) < WORD
  {
  }

  lemma {:induction false} DoubleWordBound(buf: Bytes, i: nat)
    requires i + 4 <= |buf|
    ensures Read32(buf, i) < DWORD
  {
    hide Read16;
    WordBound(buf, i);
    WordBound(buf, i + 2);
  }

  lemma {:induction false} EntrySize(buf: Bytes, p: nat, name: Bytes, size: nat, sum: nat, crc: Checksum)
    requires ReadEntry(buf, p, name, size, sum, crc).Some?
    ensures |ReadEntry(buf, p, name, size, sum, crc).value| == size
  {
    hide Read16, Read32, At;
  }

  lemma {:induction false} EntriesMember(files: map<Bytes, Bytes>, names: seq<Bytes>, n: Bytes)
    requires (forall n <- names :: n in files) && n in names
    ensures Entry(n, files[n]) in Entries(files, names)
  {
    if n != names[0] {
      EntriesMember(files, names[1..], n);
    }
  }

  /**
   A reader that starts from the end record finds exactly the names written, in their
   order, with their contents, exactly when every length, the entry count and the sizes
   of both parts fit their header fields.
   */
  lemma {:induction false} ArchiveReadsBack(files: map<Bytes, Bytes>, names: seq<Bytes>, crc: Checksum)
    requires (forall n <- names :: n in files) && Is32Bit(crc)
    ensures ReadArchive(Archive(files, names, crc), crc) == Some(Entries(files, names)) <==> Fits(files, names, crc)
  {
    hide Body, Directory, Archive, ReadArchive, Entries, LengthsFit;
    if Fits(files, names, crc) {
      FittingArchiveReadsBack(files, names, crc);
    }
    if ReadArchive(Archive(files, names, crc), crc) == Some(Entries(files, names)) {
      ReadBackFits(files, names, crc);
    }
  }

  lemma {:induction false} ReadBackFits(files: map<Bytes, Bytes>, names: seq<Bytes>, crc: Checksum)
    requires (forall n <- names :: n in files)
    requires ReadArchive(Archive(files, names, crc), crc) == Some(Entries(files, names))
    ensures Fits(files, names, crc)
  {
    hide Body, Directory, EndRecord, Read16, Read32, ReadDirectory, Entries;
    var body, central := Body(files, names, crc), Directory(files, names, 0, crc);
    var end := EndRecord(|names|, |central|, |body|);
    var buf := body + central + end;
    var at := |body| + |central|;
    PartsAt(body, central, end);
    EndAt(buf, at, |names|, |central|, |body|);
    EntriesCount(files, names);
    ReadsCount(buf, Read32(buf, at + 16), |names| % WORD, at, crc);
    ReadsShort(buf, Read32(buf, at + 16), |names| % WORD, at, crc);
    hide ReadArchive;
    forall n <- names
      ensures |n| < WORD && |files[n]| < DWORD
    {
      EntriesMember(files, names, n);
    }
  }
}
