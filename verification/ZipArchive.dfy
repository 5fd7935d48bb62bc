/**
 The archive writer: stored entries with local headers, a central directory and an end
 record (sections 4.3.7, 4.3.12 and 4.3.16 of PKWARE's APPNOTE.TXT), and a reader that
 starts from the end record. Lengths, offsets and the entry count are truncated to the
 width of their header fields.
 */
module ZipArchive {
  import opened Wrappers
  import opened Wire

  type Checksum = Bytes -> nat

  const WORD: nat := 0x1_0000
  const DWORD: nat := 0x1_0000_0000
  const ZIP_VERSION: nat := 10
  const ZIP_DOS_DATE: nat := 33

  const LOCAL: Bytes := [0x50, 0x4b, 3, 4]
  const CENTRAL: Bytes := [0x50, 0x4b, 1, 2]
  const END: Bytes := [0x50, 0x4b, 5, 6]

  const LOCAL_SIZE: nat := 30
  const CENTRAL_SIZE: nat := 46
  const END_SIZE: nat := 22

  /** v as an unsigned 16-bit word, least significant byte first. */
  function Le16(v: nat): (r: Bytes)
    ensures |r| == 2
  {
    [v % 256, v / 256 % 256]
  }

  function Le32(v: nat): (r: Bytes)
    ensures |r| == 4
  {
    Le16(v % WORD) + Le16(v / WORD)
  }

  /** The header fields that local and central headers share. */
  function SharedFields(crc: nat, size: nat, nameLen: nat): (r: Bytes)
    ensures |r| == 26
  {
    Le16(ZIP_VERSION) + (Le16(0) + (Le16(0) + (Le16(0) + (Le16(ZIP_DOS_DATE)
    + (Le32(crc) + (Le32(size) + (Le32(size)
    + (Le16(nameLen) + Le16(0)))))))))
  }

  function LocalHeader(crc: nat, size: nat, nameLen: nat): (r: Bytes)
    ensures |r| == LOCAL_SIZE
  {
    LOCAL + SharedFields(crc, size, nameLen)
  }

  function CentralHeader(crc: nat, size: nat, nameLen: nat, offset: nat): (r: Bytes)
    ensures |r| == CENTRAL_SIZE
  {
    CENTRAL + (Le16(ZIP_VERSION) + (SharedFields(crc, size, nameLen)
    + (Le16(0) + (Le16(0) + (Le16(0) + (Le32(0) + Le32(offset)))))))
  }

  function EndRecord(count: nat, centralSize: nat, bodySize: nat): (r: Bytes)
    ensures |r| == END_SIZE
  {
    END + (Le16(0) + (Le16(0) + (Le16(count) + (Le16(count) + (Le32(centralSize) + (Le32(bodySize) + Le16(0)))))))
  }

  // ---------------------------------------------------------------------------

  function LocalEntry(name: Bytes, content: Bytes, crc: Checksum): Bytes {
    LocalHeader(crc(content), |content|, |name|) + name + content
  }

  function CentralEntry(name: Bytes, content: Bytes, offset: nat, crc: Checksum): Bytes {
    CentralHeader(crc(content), |content|, |name|, offset) + name
  }

  function Body(files: map<Bytes, Bytes>, names: seq<Bytes>, crc: Checksum): Bytes
    requires forall n <- names :: n in files
  {
    if names == [] then []
    else LocalEntry(names[0], files[names[0]], crc) + Body(files, names[1..], crc)
  }

  /** The central headers of names, the first of whose local entries is at offset. */
  function Directory(files: map<Bytes, Bytes>, names: seq<Bytes>, offset: nat, crc: Checksum): Bytes
    requires forall n <- names :: n in files
  {
    if names == [] then []
    else
      CentralEntry(names[0], files[names[0]], offset, crc)
      + Directory(files, names[1..], offset + |LocalEntry(names[0], files[names[0]], crc)|, crc)
  }

  function Archive(files: map<Bytes, Bytes>, names: seq<Bytes>, crc: Checksum): Bytes
    requires forall n <- names :: n in files
  {
    var body, central := Body(files, names, crc), Directory(files, names, 0, crc);
    body + central + EndRecord(|names|, |central|, |body|)
  }

  // ---------------------------------------------------------------------------
  // The name list
  // ---------------------------------------------------------------------------

  /** Byte-wise lexicographic order. */
  predicate Before(a: Bytes, b: Bytes) {
    a == [] || (b != [] && (a[0] < b[0] || (a[0] == b[0] && Before(a[1..], b[1..]))))
  }

  function InsertName(n: Bytes, names: seq<Bytes>): seq<Bytes> {
    if names == [] || Before(n, names[0]) then [n] + names else [names[0]] + InsertName(n, names[1..])
  }

  function SortNames(names: seq<Bytes>): seq<Bytes> {
    if names == [] then [] else InsertName(names[0], SortNames(names[1..]))
  }

  predicate InOrder(names: seq<Bytes>) {
    |names| > 1 ==> Before(names[0], names[1]) && InOrder(names[1..])
  }

  lemma {:induction false} BeforeTotal(a: Bytes, b: Bytes)
    ensures Before(a, b) || Before(b, a)
  {
    if a != [] && b != [] && a[0] == b[0] {
      BeforeTotal(a[1..], b[1..]);
    }
  }

  /** The order is that of the first byte in which the names differ; a prefix comes first. */
  lemma {:induction false} BeforeExactly(a: Bytes, b: Bytes)
    ensures Before(a, b) <==> a <= b || exists k :: 0 <= k < |a| && k < |b| && a[..k] == b[..k] && a[k] < b[k]
    decreases |a|
  {
    if a != [] && b != [] {
      if a[0] == b[0] {
        BeforeExactly(a[1..], b[1..]);
        TailDiffers(a, b);
      } else if a[0] < b[0] {
        assert a[..0] == b[..0];
      } else {
        forall k | 0 <= k < |a| && k < |b| && a[..k] == b[..k]
          ensures k == 0
        {
          FirstsAgree(a, b, k);
        }
      }
    }
  }

  lemma {:induction false} FirstsAgree(a: Bytes, b: Bytes, k: nat)
    requires k <= |a| && k <= |b| && a[..k] == b[..k]
    ensures k > 0 ==> a[0] == b[0]
  {
    if k > 0 {
      assert a[..k][0] == b[..k][0];
    }
  }

  lemma {:induction false} TailDiffers(a: Bytes, b: Bytes)
    requires a != [] && b != [] && a[0] == b[0]
    ensures a <= b <==> a[1..] <= b[1..]
    ensures (exists k :: 0 <= k < |a| && k < |b| && a[..k] == b[..k] && a[k] < b[k])
       <==> exists k :: 0 <= k < |a[1..]| && k < |b[1..]| && a[1..][..k] == b[1..][..k] && a[1..][k] < b[1..][k]
  {
    assert a == [a[0]] + a[1..] && b == [b[0]] + b[1..];
    if exists k :: 0 <= k < |a| && k < |b| && a[..k] == b[..k] && a[k] < b[k] {
      var k :| 0 <= k < |a| && k < |b| && a[..k] == b[..k] && a[k] < b[k];
      assert a[1..][..k - 1] == a[..k][1..] == b[..k][1..] == b[1..][..k - 1];
      assert a[1..][k - 1] < b[1..][k - 1];
    }
    if exists k :: 0 <= k < |a[1..]| && k < |b[1..]| && a[1..][..k] == b[1..][..k] && a[1..][k] < b[1..][k] {
      var k :| 0 <= k < |a[1..]| && k < |b[1..]| && a[1..][..k] == b[1..][..k] && a[1..][k] < b[1..][k];
      assert a[..k + 1] == [a[0]] + a[1..][..k] && b[..k + 1] == [b[0]] + b[1..][..k];
      assert a[k + 1] < b[k + 1];
    }
  }

  lemma {:induction false} InsertInOrder(n: Bytes, names: seq<Bytes>)
    requires InOrder(names)
    ensures InOrder(InsertName(n, names)) && multiset(InsertName(n, names)) == multiset{n} + multiset(names)
  {
    hide Before;
    if names == [] || Before(n, names[0]) {
      assert ([n] + names)[1..] == names;
    } else {
      var r := InsertName(n, names[1..]);
      InsertInOrder(n, names[1..]);
      BeforeTotal(n, names[0]);
      assert ([names[0]] + r)[1..] == r;
      assert names == [names[0]] + names[1..];
    }
  }

  /** The names, all of them, in order. */
  lemma {:induction false} SortNamesSorts(names: seq<Bytes>)
    ensures InOrder(SortNames(names)) && multiset(SortNames(names)) == multiset(names)
  {
    if names != [] {
      SortNamesSorts(names[1..]);
      InsertInOrder(names[0], SortNames(names[1..]));
      assert names == [names[0]] + names[1..];
    }
  }

  /** The files and names put in the archive: a .jar gets a manifest unless the plugin wrote one. */
  datatype Listing = Listing(files: map<Bytes, Bytes>, names: seq<Bytes>)

  function Ascii(s: string): Bytes {
    seq(|s|, i requires 0 <= i < |s| => s[i] as int % 256)
  }

  const MANIFEST := Entry(
    Ascii("META-INF/MANIFEST.MF"),
    Ascii("Manifest-Version: 1.0\nCreated-By: 1.6.0 (protoc)\n\n"))

  function Listed(files: map<Bytes, Bytes>, sorted: seq<Bytes>, jar: bool): Listing {
    if jar && MANIFEST.name !in files then
      Listing(files[MANIFEST.name := MANIFEST.content], SortNames(sorted + [MANIFEST.name]))
    else Listing(files, sorted)
  }

  /** The list is in order and names exactly the files to be written. */
  lemma {:induction false} ListedIsComplete(files: map<Bytes, Bytes>, sorted: seq<Bytes>, jar: bool)
    requires InOrder(sorted) && forall n :: n in sorted <==> n in files
    ensures
      var l := Listed(files, sorted, jar);
      var manifest := Ascii("META-INF/MANIFEST.MF");
      && InOrder(l.names) && (forall n :: n in l.names <==> n in l.files)
      && (forall n <- files :: n in l.files && l.files[n] == files[n])
      && (forall n <- l.files :: n in files || (jar && n == manifest))
      && (jar ==> manifest in l.files)
  {
    hide InOrder, SortNames;
    var l := Listed(files, sorted, jar);
    if jar && MANIFEST.name !in files {
      var all := sorted + [MANIFEST.name];
      SortNamesSorts(all);
      forall n
        ensures n in l.names <==> n in all
      {
        assert n in multiset(l.names) <==> n in multiset(all);
      }
    }
  }

  // ---------------------------------------------------------------------------
  // Reading
  // ---------------------------------------------------------------------------

  datatype Entry = Entry(name: Bytes, content: Bytes)

  predicate At(buf: Bytes, i: nat, part: Bytes) {
    i + |part| <= |buf| && buf[i..i + |part|] == part
  }

  function Read16(buf: Bytes, i: nat): nat
    requires i + 2 <= |buf|
  {
    var low: int := buf[i];
    var high: int := buf[i + 1];
    low + 256 * high
  }

  function Read32(buf: Bytes, i: nat): nat
    requires i + 4 <= |buf|
  {
    Read16(buf, i) + WORD * Read16(buf, i + 2)
  }

  /** The end record, then the central directory it points to, then the entries. */
  function ReadArchive(buf: Bytes, crc: Checksum): Option<seq<Entry>> {
    if |buf| < END_SIZE then None
    else
      var at := |buf| - END_SIZE;
      if !At(buf, at, END) || Read16(buf, at + 20) != 0 || Read16(buf, at + 8) != Read16(buf, at + 10) then None
      else if Read32(buf, at + 16) + Read32(buf, at + 12) != at then None
      else ReadDirectory(buf, Read32(buf, at + 16), Read16(buf, at + 10), at, crc)
  }

  /** count central headers, ending at end. */
  function ReadDirectory(buf: Bytes, p: nat, count: nat, end: nat, crc: Checksum): Option<seq<Entry>>
    requires end <= |buf|
    decreases count
  {
    if count == 0 then (if p == end then Some([]) else None)
    else if p + CENTRAL_SIZE > end || !At(buf, p, CENTRAL) then None
    else
      var nameLen, extraLen, commentLen := Read16(buf, p + 28), Read16(buf, p + 30), Read16(buf, p + 32);
      var next := p + CENTRAL_SIZE + nameLen + extraLen + commentLen;
      if next > end then None
      else
        var name := buf[p + CENTRAL_SIZE..p + CENTRAL_SIZE + nameLen];
        var content :- ReadEntry(buf, Read32(buf, p + 42), name, Read32(buf, p + 24), Read32(buf, p + 16), crc);
        var rest :- ReadDirectory(buf, next, count - 1, end, crc);
        Some([Entry(name, content)] + rest)
  }

  /** The stored content behind a local header that agrees with the central one. */
  function ReadEntry(buf: Bytes, p: nat, name: Bytes, size: nat, sum: nat, crc: Checksum): Option<Bytes> {
    if p + LOCAL_SIZE > |buf| || !At(buf, p, LOCAL) then None
    else
      var nameLen, extraLen := Read16(buf, p + 26), Read16(buf, p + 28);
      var start := p + LOCAL_SIZE + nameLen + extraLen;
      if Read16(buf, p + 8) != 0 || Read32(buf, p + 18) != size || Read32(buf, p + 22) != size then None
      else if Read32(buf, p + 14) != sum || start + size > |buf| then None
      else if buf[p + LOCAL_SIZE..p + LOCAL_SIZE + nameLen] != name then None
      else if crc(buf[start..start + size]) != sum then None
      else Some(buf[start..start + size])
  }

  // ---------------------------------------------------------------------------
  // Writing
  // ---------------------------------------------------------------------------

  method WriteArchive(files: map<Bytes, Bytes>, sorted: seq<Bytes>, jar: bool, crc: Checksum) returns (buf: Bytes)
    requires forall n <- sorted :: n in files
    ensures var l := Listed(files, sorted, jar);
            (forall n <- l.names :: n in l.files) && buf == Archive(l.files, l.names, crc)
  {
    hide Body, Directory, EndRecord, SortNames;
    var all, names := files, sorted;
    if jar && MANIFEST.name !in files {
      all := all[MANIFEST.name := MANIFEST.content];
      names := SortNames(sorted + [MANIFEST.name]);
      SortNamesSorts(sorted + [MANIFEST.name]);
      assert forall n <- names :: n in multiset(names);
    }
    var body, central := WriteEntries(all, names, crc);
    buf := body + central + EndRecord(|names|, |central|, |body|);
  }

  /** One pass fills the local entries and the directory, with each entry's offset. */
  method WriteEntries(files: map<Bytes, Bytes>, names: seq<Bytes>, crc: Checksum) returns (body: Bytes, central: Bytes)
    requires forall n <- names :: n in files
    ensures body == Body(files, names, crc) && central == Directory(files, names, 0, crc)
  {
    hide LocalEntry, CentralEntry, Body, Directory;
    body, central := [], [];
    assert names[0..] == names;
    var i := 0;
    while i < |names|
      invariant 0 <= i <= |names|
      invariant body + Body(files, names[i..], crc) == Body(files, names, crc)
      invariant central + Directory(files, names[i..], |body|, crc) == Directory(files, names, 0, crc)
    {
      var name := names[i];
      var content := files[name];
      assert names[i..][0] == name && names[i..][1..] == names[i + 1..];
      var offset := |body|;
      WriteStep(files, names[i..], body, central, crc);
      body := body + LocalEntry(name, content, crc);
      central := central + CentralEntry(name, content, offset, crc);
      i := i + 1;
    }
    assert names[i..] == [];
    WroteAll(files, |body|, body, central, crc);
  }

  lemma {:induction false} WroteAll(files: map<Bytes, Bytes>, offset: nat, body: Bytes, central: Bytes, crc: Checksum)
    ensures body + Body(files, [], crc) == body && central + Directory(files, [], offset, crc) == central
  {
  }

  lemma {:induction false} WriteStep(
    files: map<Bytes, Bytes>, names: seq<Bytes>, body: Bytes, central: Bytes, crc: Checksum)
    requires names != [] && forall n <- names :: n in files
    ensures
      var name := names[0];
      var local, header := LocalEntry(name, files[name], crc), CentralEntry(name, files[name], |body|, crc);
      && body + local + Body(files, names[1..], crc) == body + Body(files, names, crc)
      && central + header + Directory(files, names[1..], |body + local|, crc)
      == central + Directory(files, names, |body|, crc)
  {
    hide LocalEntry, CentralEntry;
  }
}
