/** The layout of an archive: headers, the writer, the reader, and the round trip. */
module ZipArchive {
  import opened Wrappers
  import opened Zip

  type Bytes = seq<Byte>

  datatype File = File(name: Bytes, content: Bytes)

  /** What a reader recovers of one file. */
  datatype Found = Found(name: Bytes, content: Bytes, checksum: nat, modified: Date)

  /** The checksum field, as a number. */
  function Checksum(content: Bytes): nat { Crc(content) as nat }

  const LOCAL := 0x04034b50
  const CENTRAL := 0x02014b50
  const END := 0x06054b50

  /******* Headers *******/

  /** Section 4.3.7: 30 bytes before the name. */
  function LocalFields(name: nat, size: nat, checksum: nat, d: Date): (r: Bytes)
    ensures |r| == 30
  {
    U32(LOCAL) + U16(20) + U16(0x0800) + U16(0) + U16(DosTime(d)) + U16(DosDate(d))
    + U32(checksum) + U32(size) + U32(size) + U16(name) + U16(0)
  }

  function LocalHeader(f: File, d: Date): (r: Bytes)
    ensures |r| == 30
  {
    LocalFields(|f.name|, |f.content|, Checksum(f.content), d)
  }

  /** Section 4.3.12: 46 bytes before the name. */
  function CentralFields(name: nat, size: nat, checksum: nat, d: Date, offset: nat): (r: Bytes)
    ensures |r| == 46
  {
    U32(CENTRAL) + U16(20) + U16(20) + U16(0x0800) + U16(0) + U16(DosTime(d)) + U16(DosDate(d))
    + U32(checksum) + U32(size) + U32(size) + U16(name) + U16(0) + U16(0)
    + U16(0) + U16(0) + U32(0) + U32(offset)
  }

  function CentralHeader(f: File, d: Date, offset: nat): (r: Bytes)
    ensures |r| == 46
  {
    CentralFields(|f.name|, |f.content|, Checksum(f.content), d, offset)
  }

  /** Section 4.3.16: 22 bytes, no comment. */
  function EndRecord(count: nat, size: nat, offset: nat): (r: Bytes)
    ensures |r| == 22
  {
    U32(END) + U16(0) + U16(0) + U16(count) + U16(count) + U32(size) + U32(offset) + U16(0)
  }

  /******* Setting fields in place *******/

  method SetUint16(a: array<Byte>, i: nat, v: int)
    requires i + 2 <= a.Length
    modifies a
    ensures a[..i + 2] == old(a[..i]) + U16(v) && forall k :: i + 2 <= k < a.Length ==> a[k] == old(a[k])
  {
    a[i] := v % 256;
    a[i + 1] := v / 256 % 256;
  }

  method SetUint32(a: array<Byte>, i: nat, v: int)
    requires i + 4 <= a.Length
    modifies a
    ensures a[..i + 4] == old(a[..i]) + U32(v) && forall k :: i + 4 <= k < a.Length ==> a[k] == old(a[k])
  {
    a[i] := v % 256;
    a[i + 1] := v / 256 % 256;
    a[i + 2] := v / 65536 % 256;
    a[i + 3] := v / 16777216 % 256;
  }

  method WriteDosDateTime(a: array<Byte>, i: nat, d: Date)
    requires i + 4 <= a.Length
    modifies a
    ensures a[..i + 4] == old(a[..i]) + U16(DosTime(d)) + U16(DosDate(d)) && forall k :: i + 4 <= k < a.Length ==> a[k] == old(a[k])
  {
    SetUint16(a, i, DosTime(d));
    ghost var before := a[..i + 2];
    SetUint16(a, i + 2, DosDate(d));
    assert a[..i + 4] == before + U16(DosDate(d));
  }

  method ZipLocalFileHeader(name: nat, size: nat, checksum: nat, d: Date) returns (header: array<Byte>)
    ensures fresh(header) && header[..] == LocalFields(name, size, checksum, d)
  {
    hide U16, U32, DosTime, DosDate;
    header := new Byte[30](_ => 0);
    SetUint32(header, 0, LOCAL);
    ghost var done: Bytes := U32(LOCAL);
    assert header[..4] == done;
    SetUint16(header, 4, 20);
    done := done + U16(20);
    assert header[..6] == done;
    SetUint16(header, 6, 0x0800);
    done := done + U16(0x0800);
    assert header[..8] == done;
    SetUint16(header, 8, 0);
    done := done + U16(0);
    assert header[..10] == done;
    WriteDosDateTime(header, 10, d);
    done := done + U16(DosTime(d)) + U16(DosDate(d));
    assert header[..14] == done;
    SetUint32(header, 14, checksum);
    done := done + U32(checksum);
    assert header[..18] == done;
    SetUint32(header, 18, size);
    done := done + U32(size);
    assert header[..22] == done;
    SetUint32(header, 22, size);
    done := done + U32(size);
    assert header[..26] == done;
    SetUint16(header, 26, name);
    done := done + U16(name);
    assert header[..28] == done;
    SetUint16(header, 28, 0);
    done := done + U16(0);
    assert header[..30] == done;
    assert header[..] == header[..30];
  }

  method ZipCentralDirectoryHeader(name: nat, size: nat, checksum: nat, d: Date, offset: nat) returns (header: array<Byte>)
    ensures fresh(header) && header[..] == CentralFields(name, size, checksum, d, offset)
  {
    hide U16, U32, DosTime, DosDate;
    header := new Byte[46](_ => 0);
    SetUint32(header, 0, CENTRAL);
    ghost var done: Bytes := U32(CENTRAL);
    assert header[..4] == done;
    SetUint16(header, 4, 20);
    done := done + U16(20);
    assert header[..6] == done;
    SetUint16(header, 6, 20);
    done := done + U16(20);
    assert header[..8] == done;
    SetUint16(header, 8, 0x0800);
    done := done + U16(0x0800);
    assert header[..10] == done;
    SetUint16(header, 10, 0);
    done := done + U16(0);
    assert header[..12] == done;
    WriteDosDateTime(header, 12, d);
    done := done + U16(DosTime(d)) + U16(DosDate(d));
    assert header[..16] == done;
    SetUint32(header, 16, checksum);
    done := done + U32(checksum);
    assert header[..20] == done;
    SetUint32(header, 20, size);
    done := done + U32(size);
    assert header[..24] == done;
    SetUint32(header, 24, size);
    done := done + U32(size);
    assert header[..28] == done;
    SetUint16(header, 28, name);
    done := done + U16(name);
    assert header[..30] == done;
    SetUint16(header, 30, 0);
    done := done + U16(0);
    assert header[..32] == done;
    SetUint16(header, 32, 0);
    done := done + U16(0);
    assert header[..34] == done;
    SetUint16(header, 34, 0);
    done := done + U16(0);
    assert header[..36] == done;
    SetUint16(header, 36, 0);
    done := done + U16(0);
    assert header[..38] == done;
    SetUint32(header, 38, 0);
    done := done + U32(0);
    assert header[..42] == done;
    SetUint32(header, 42, offset);
    done := done + U32(offset);
    assert header[..46] == done;
    assert header[..] == header[..46];
  }

  method ZipEndOfCentralDirectory(count: nat, size: nat, offset: nat) returns (header: array<Byte>)
    ensures fresh(header) && header[..] == EndRecord(count, size, offset)
  {
    hide U16, U32;
    header := new Byte[22](_ => 0);
    SetUint32(header, 0, END);
    SetUint16(header, 4, 0);
    SetUint16(header, 6, 0);
    SetUint16(header, 8, count);
    SetUint16(header, 10, count);
    SetUint32(header, 12, size);
    SetUint32(header, 16, offset);
    SetUint16(header, 20, 0);
    assert header[..] == header[..22];
  }

  /******* The archive *******/

  function Locals(files: seq<File>, d: Date): Bytes {
    if files == [] then []
    else
      var f := files[|files| - 1];
      Locals(files[..|files| - 1], d) + LocalHeader(f, d) + f.name + f.content
  }

  function Centrals(files: seq<File>, d: Date): Bytes {
    if files == [] then []
    else
      var f := files[|files| - 1];
      Centrals(files[..|files| - 1], d) + CentralHeader(f, d, |Locals(files[..|files| - 1], d)|) + f.name
  }

  function Archive(files: seq<File>, d: Date): Bytes {
    Locals(files, d) + Centrals(files, d) + EndRecord(|files|, |Centrals(files, d)|, |Locals(files, d)|)
  }

  function Join(chunks: seq<Bytes>): Bytes {
    if chunks == [] then [] else Join(chunks[..|chunks| - 1]) + chunks[|chunks| - 1]
  }

  lemma JoinAppend(chunks: seq<Bytes>, more: seq<Bytes>)
    ensures Join(chunks + more) == Join(chunks) + Join(more)
  {
    if more == [] {
      assert chunks + more == chunks;
    } else {
      var front := more[..|more| - 1];
      JoinAppend(chunks, front);
      assert (chunks + more)[..|chunks + more| - 1] == chunks + front;
    }
  }

  lemma JoinNone()
    ensures Join([]) == []
  {
  }

  lemma JoinOne(a: Bytes)
    ensures Join([a]) == a
  {
    assert [a][..0] == [];
  }

  lemma JoinTwo(a: Bytes, b: Bytes)
    ensures Join([a, b]) == a + b
  {
    assert [a, b][..1] == [a];
    JoinOne(a);
  }

  lemma JoinThree(a: Bytes, b: Bytes, c: Bytes)
    ensures Join([a, b, c]) == a + b + c
  {
    assert [a, b, c][..2] == [a, b];
    JoinTwo(a, b);
  }

  method TotalLength(chunks: seq<Bytes>) returns (n: nat)
    ensures n == |Join(chunks)|
  {
    n := 0;
    for i := 0 to |chunks|
      invariant n == |Join(chunks[..i])|
    {
      assert chunks[..i + 1][..i] == chunks[..i];
      n := n + |chunks[i]|;
    }
    assert chunks[..|chunks|] == chunks;
  }

  /** `output.set(chunk, cursor)` for every chunk in turn. */
  method CopyChunks(chunks: seq<Bytes>, output: array<Byte>)
    requires output.Length == |Join(chunks)|
    modifies output
    ensures output[..] == Join(chunks)
  {
    var cursor := 0;
    for i := 0 to |chunks|
      invariant cursor == |Join(chunks[..i])| <= output.Length
      invariant output[..cursor] == Join(chunks[..i])
    {
      assert chunks[..i + 1][..i] == chunks[..i];
      assert chunks == chunks[..i + 1] + chunks[i + 1..];
      JoinAppend(chunks[..i + 1], chunks[i + 1..]);
      ghost var done := output[..cursor];
      var chunk := chunks[i];
      forall k | 0 <= k < |chunk| {
        output[cursor + k] := chunk[k];
      }
      assert output[..cursor + |chunk|] == done + chunk;
      cursor := cursor + |chunk|;
    }
    assert chunks[..|chunks|] == chunks;
  }

  /** createZipBytes: the writer's loop over files, then the directory, the end record and the copy. */
  method CreateZipBytes(files: seq<File>, d: Date) returns (output: array<Byte>)
    ensures fresh(output) && output[..] == Archive(files, d)
  {
    hide LocalFields, CentralFields, EndRecord, Join, Crc;
    var chunks: seq<Bytes>, directory: seq<Bytes> := [], [];
    var offset: nat := 0;
    JoinNone();
    for i := 0 to |files|
      invariant Join(chunks) == Locals(files[..i], d) && offset == |Locals(files[..i], d)|
      invariant Join(directory) == Centrals(files[..i], d)
    {
      assert files[..i + 1][..i] == files[..i];
      var f := files[i];
      var crc := Crc32(f.content);
      var checksum := crc as nat;
      var local := ZipLocalFileHeader(|f.name|, |f.content|, checksum, d);
      JoinThree(local[..], f.name, f.content);
      JoinAppend(chunks, [local[..], f.name, f.content]);
      Assoc(Join(chunks), local[..], f.name, f.content);
      chunks := chunks + [local[..], f.name, f.content];
      var central := ZipCentralDirectoryHeader(|f.name|, |f.content|, checksum, d, offset);
      JoinTwo(central[..], f.name);
      JoinAppend(directory, [central[..], f.name]);
      Assoc(Join(directory), central[..], f.name, []);
      directory := directory + [central[..], f.name];
      offset := offset + local.Length + |f.name| + |f.content|;
    }
    assert files[..|files|] == files;
    var directorySize := TotalLength(directory);
    JoinAppend(chunks, directory);
    chunks := chunks + directory;
    var end := ZipEndOfCentralDirectory(|files|, directorySize, offset);
    JoinAppend(chunks, [end[..]]);
    JoinOne(end[..]);
    chunks := chunks + [end[..]];
    var total := TotalLength(chunks);
    output := new Byte[total](_ => 0);
    CopyChunks(chunks, output);
  }

  lemma Assoc(a: Bytes, b: Bytes, c: Bytes, d: Bytes)
    ensures a + (b + c + d) == a + b + c + d
    ensures a + (b + c) == a + b + c
  {
  }

  /******* The reader *******/

  /** What both headers say of a plain file: version 2.0, names in UTF-8 (bit 11) and nothing else, stored. */
  predicate Plain(version: nat, flags: nat, compression: nat) { version == 20 && flags == 0x0800 && compression == 0 }

  /** A stored file behind its local header; the sizes, the checksum and the name must be those of the directory. */
  function ReadLocal(s: Bytes, pos: nat, size: nat, checksum: nat, name: Bytes): Option<Bytes> {
    if pos + 30 > |s| || ReadU32(s, pos) != LOCAL || !Plain(ReadU16(s, pos + 4), ReadU16(s, pos + 6), ReadU16(s, pos + 8))
       || ReadU32(s, pos + 14) != checksum || ReadU32(s, pos + 18) != size || ReadU32(s, pos + 22) != size then None
    else
      var n, e := ReadU16(s, pos + 26), ReadU16(s, pos + 28);
      var start := pos + 30 + n + e;
      if start + size > |s| || s[pos + 30..pos + 30 + n] != name then None else Some(s[start..start + size])
  }

  function ReadCentral(s: Bytes, pos: nat, count: nat): Option<seq<Found>>
    decreases count
  {
    if count == 0 then Some([])
    else if pos + 46 > |s| || ReadU32(s, pos) != CENTRAL || !Plain(ReadU16(s, pos + 6), ReadU16(s, pos + 8), ReadU16(s, pos + 10))
            || ReadU32(s, pos + 20) != ReadU32(s, pos + 24) || ReadU16(s, pos + 34) != 0 then None
    else
      var n, e, c := ReadU16(s, pos + 28), ReadU16(s, pos + 30), ReadU16(s, pos + 32);
      var next := pos + 46 + n + e + c;
      if next > |s| then None
      else
        var name := s[pos + 46..pos + 46 + n];
        var content := ReadLocal(s, ReadU32(s, pos + 42), ReadU32(s, pos + 20), ReadU32(s, pos + 16), name);
        var rest := ReadCentral(s, next, count - 1);
        if content.None? || rest.None? then None
        else
          var modified := ReadDate(ReadU16(s, pos + 12), ReadU16(s, pos + 14));
          Some([Found(name, content.value, ReadU32(s, pos + 16), modified)] + rest.value)
  }

  /** The end record is the last 22 bytes of one disk without a comment, and the directory ends where it starts. */
  function ReadArchive(s: Bytes): Option<seq<Found>> {
    if |s| < 22 || ReadU32(s, |s| - 22) != END then None
    else
      var end := |s| - 22;
      if ReadU16(s, end + 4) != 0 || ReadU16(s, end + 6) != 0 || ReadU16(s, end + 20) != 0
         || ReadU16(s, end + 8) != ReadU16(s, end + 10) || ReadU32(s, end + 16) + ReadU32(s, end + 12) != end then None
      else ReadCentral(s, ReadU32(s, end + 16), ReadU16(s, end + 10))
  }

  /******* The round trip *******/

  /** The date is what its two fields can hold; `DateReadsBackIff` says when that is the date itself. */
  function FoundOf(f: File, d: Date): Found {
    Found(f.name, f.content, Checksum(f.content), ReadDate(DosTime(d) % 65536, DosDate(d) % 65536))
  }

  function AllFound(files: seq<File>, d: Date): (r: seq<Found>)
    ensures |r| == |files|
  {
    seq(|files|, i requires 0 <= i < |files| => FoundOf(files[i], d))
  }

  lemma SubSlice(s: Bytes, pos: nat, n: nat, i: nat, j: nat)
    requires pos + n <= |s| && i <= j <= n
    ensures s[pos..pos + n][i..j] == s[pos + i..pos + j]
  {
    var a, b := s[pos..pos + n][i..j], s[pos + i..pos + j];
    forall k | 0 <= k < j - i ensures a[k] == b[k] {}
  }

  /** Where a piece of a file lies in a longer sequence. */
  ghost predicate At(s: Bytes, pos: nat, piece: Bytes) {
    pos + |piece| <= |s| && s[pos..pos + |piece|] == piece
  }

  /** A field of a header that lies somewhere in the archive. */
  lemma Field16(s: Bytes, pos: nat, h: Bytes, i: nat, v: int)
    requires At(s, pos, h) && i + 2 <= |h| && h[i..i + 2] == U16(v)
    ensures ReadU16(s, pos + i) == v % 65536
  {
    SubSlice(s, pos, |h|, i, i + 2);
    ReadsU16(s, pos + i, v);
  }

  lemma Field32(s: Bytes, pos: nat, h: Bytes, i: nat, v: int)
    requires At(s, pos, h) && i + 4 <= |h| && h[i..i + 4] == U32(v)
    ensures ReadU32(s, pos + i) == v % 0x1_0000_0000
  {
    SubSlice(s, pos, |h|, i, i + 4);
    ReadsU32(s, pos + i, v);
  }

  lemma CentralFront(s: Bytes, pos: nat, name: nat, size: nat, checksum: nat, d: Date, offset: nat)
    requires pos + 46 <= |s| && s[pos..pos + 46] == CentralFields(name, size, checksum, d, offset)
    ensures ReadU32(s, pos) == CENTRAL && Plain(ReadU16(s, pos + 6), ReadU16(s, pos + 8), ReadU16(s, pos + 10))
    ensures ReadU16(s, pos + 12) == DosTime(d) % 65536 && ReadU16(s, pos + 14) == DosDate(d) % 65536
  {
    hide U16, U32, DosTime, DosDate, ReadU16, ReadU32;
    var h := CentralFields(name, size, checksum, d, offset);
    assert h[0..4] == U32(CENTRAL);
    assert h[6..8] == U16(20);
    assert h[8..10] == U16(0x0800);
    assert h[10..12] == U16(0);
    assert h[12..14] == U16(DosTime(d));
    assert h[14..16] == U16(DosDate(d));
    Field32(s, pos, h, 0, CENTRAL);
    Field16(s, pos, h, 6, 20);
    Field16(s, pos, h, 8, 0x0800);
    Field16(s, pos, h, 10, 0);
    Field16(s, pos, h, 12, DosTime(d));
    Field16(s, pos, h, 14, DosDate(d));
  }

  lemma CentralSizes(s: Bytes, pos: nat, name: nat, size: nat, checksum: nat, d: Date, offset: nat)
    requires pos + 46 <= |s| && s[pos..pos + 46] == CentralFields(name, size, checksum, d, offset)
    ensures ReadU32(s, pos + 16) == checksum % 0x1_0000_0000 && ReadU32(s, pos + 20) == ReadU32(s, pos + 24) == size % 0x1_0000_0000
  {
    hide U16, U32, DosTime, DosDate, ReadU16, ReadU32;
    var h := CentralFields(name, size, checksum, d, offset);
    assert h[16..20] == U32(checksum);
    assert h[20..24] == U32(size);
    assert h[24..28] == U32(size);
    Field32(s, pos, h, 16, checksum);
    Field32(s, pos, h, 20, size);
    Field32(s, pos, h, 24, size);
  }

  lemma CentralBack(s: Bytes, pos: nat, name: nat, size: nat, checksum: nat, d: Date, offset: nat)
    requires pos + 46 <= |s| && s[pos..pos + 46] == CentralFields(name, size, checksum, d, offset)
    ensures ReadU16(s, pos + 28) == name % 65536 && ReadU16(s, pos + 30) == ReadU16(s, pos + 32) == ReadU16(s, pos + 34) == 0
    ensures ReadU32(s, pos + 42) == offset % 0x1_0000_0000
  {
    hide U16, U32, DosTime, DosDate, ReadU16, ReadU32;
    var h := CentralFields(name, size, checksum, d, offset);
    assert h[28..30] == U16(name);
    assert h[30..32] == U16(0);
    assert h[32..34] == U16(0);
    assert h[34..36] == U16(0);
    assert h[42..46] == U32(offset);
    Field16(s, pos, h, 28, name);
    Field16(s, pos, h, 30, 0);
    Field16(s, pos, h, 32, 0);
    Field16(s, pos, h, 34, 0);
    Field32(s, pos, h, 42, offset);
  }

  lemma CentralFieldsRead(s: Bytes, pos: nat, name: nat, size: nat, checksum: nat, d: Date, offset: nat)
    requires pos + 46 <= |s| && s[pos..pos + 46] == CentralFields(name, size, checksum, d, offset)
    ensures ReadU32(s, pos) == CENTRAL && Plain(ReadU16(s, pos + 6), ReadU16(s, pos + 8), ReadU16(s, pos + 10))
    ensures ReadU16(s, pos + 12) == DosTime(d) % 65536 && ReadU16(s, pos + 14) == DosDate(d) % 65536
    ensures ReadU32(s, pos + 16) == checksum % 0x1_0000_0000 && ReadU32(s, pos + 20) == ReadU32(s, pos + 24) == size % 0x1_0000_0000
    ensures ReadU16(s, pos + 28) == name % 65536 && ReadU16(s, pos + 30) == ReadU16(s, pos + 32) == ReadU16(s, pos + 34) == 0
    ensures ReadU32(s, pos + 42) == offset % 0x1_0000_0000
  {
    hide *;
    CentralFront(s, pos, name, size, checksum, d, offset);
    CentralSizes(s, pos, name, size, checksum, d, offset);
    CentralBack(s, pos, name, size, checksum, d, offset);
  }

  lemma LocalFieldsRead(s: Bytes, pos: nat, name: nat, size: nat, checksum: nat, d: Date)
    requires pos + 30 <= |s| && s[pos..pos + 30] == LocalFields(name, size, checksum, d)
    ensures ReadU32(s, pos) == LOCAL && Plain(ReadU16(s, pos + 4), ReadU16(s, pos + 6), ReadU16(s, pos + 8))
    ensures ReadU32(s, pos + 14) == checksum % 0x1_0000_0000 && ReadU32(s, pos + 18) == ReadU32(s, pos + 22) == size % 0x1_0000_0000
    ensures ReadU16(s, pos + 26) == name % 65536 && ReadU16(s, pos + 28) == 0
  {
    hide U16, U32, DosTime, DosDate, ReadU16, ReadU32;
    var h := LocalFields(name, size, checksum, d);
    assert h[0..4] == U32(LOCAL) && h[4..6] == U16(20) && h[6..8] == U16(0x0800);
    assert h[8..10] == U16(0) && h[14..18] == U32(checksum) && h[18..22] == U32(size);
    assert h[22..26] == U32(size) && h[26..28] == U16(name) && h[28..30] == U16(0);
    Field32(s, pos, h, 0, LOCAL);
    Field16(s, pos, h, 4, 20);
    Field16(s, pos, h, 6, 0x0800);
    Field16(s, pos, h, 8, 0);
    Field32(s, pos, h, 14, checksum);
    Field32(s, pos, h, 18, size);
    Field32(s, pos, h, 22, size);
    Field16(s, pos, h, 26, name);
    Field16(s, pos, h, 28, 0);
  }

  lemma EndRecordRead(s: Bytes, pos: nat, count: nat, size: nat, offset: nat)
    requires pos + 22 <= |s| && s[pos..pos + 22] == EndRecord(count, size, offset)
    ensures ReadU32(s, pos) == END && ReadU16(s, pos + 4) == ReadU16(s, pos + 6) == ReadU16(s, pos + 20) == 0
    ensures ReadU16(s, pos + 8) == ReadU16(s, pos + 10) == count % 65536
    ensures ReadU32(s, pos + 12) == size % 0x1_0000_0000 && ReadU32(s, pos + 16) == offset % 0x1_0000_0000
  {
    hide U16, U32, ReadU16, ReadU32;
    var h := EndRecord(count, size, offset);
    assert h[0..4] == U32(END) && h[4..6] == U16(0) && h[6..8] == U16(0);
    assert h[8..10] == U16(count) && h[10..12] == U16(count) && h[12..16] == U32(size);
    assert h[16..20] == U32(offset) && h[20..22] == U16(0);
    Field32(s, pos, h, 0, END);
    Field16(s, pos, h, 4, 0);
    Field16(s, pos, h, 6, 0);
    Field16(s, pos, h, 8, count);
    Field16(s, pos, h, 10, count);
    Field32(s, pos, h, 12, size);
    Field32(s, pos, h, 16, offset);
    Field16(s, pos, h, 20, 0);
  }

  lemma AtLonger(s: Bytes, pos: nat, piece: Bytes, more: Bytes)
    requires At(s, pos, piece)
    ensures At(s + more, pos, piece)
  {
  }

  lemma AtEnd(s: Bytes, piece: Bytes, more: Bytes)
    ensures At(s + piece + more, |s|, piece)
  {
  }

  lemma AtShifted(s: Bytes, pos: nat, piece: Bytes, before: Bytes)
    requires At(s, pos, piece)
    ensures At(before + s, |before| + pos, piece)
  {
    assert (before + s)[|before| + pos..|before| + pos + |piece|] == s[pos..pos + |piece|];
  }

  /** File `k` lies where the files before it end. */
  lemma {:induction false} LocalAt(files: seq<File>, d: Date, k: nat)
    requires k < |files|
    ensures var f := files[k]; var p := |Locals(files[..k], d)|;
      && At(Locals(files, d), p, LocalHeader(f, d)) && At(Locals(files, d), p + 30, f.name)
      && At(Locals(files, d), p + 30 + |f.name|, f.content)
  {
    hide LocalHeader;
    var n := |files| - 1;
    var front, last := files[..n], files[n];
    var base, h := Locals(front, d), LocalHeader(last, d);
    if k < n {
      assert front[..k] == files[..k];
      LocalAt(front, d, k);
      var f, p := files[k], |Locals(files[..k], d)|;
      LongerTwice(base, p, LocalHeader(f, d), h, last.name, last.content);
      LongerTwice(base, p + 30, f.name, h, last.name, last.content);
      LongerTwice(base, p + 30 + |f.name|, f.content, h, last.name, last.content);
    } else {
      assert At(base + h + last.name + last.content, |base|, h) by { AtEnd(base, h, last.name); AtLonger(base + h + last.name, |base|, h, last.content); }
      AtEnd(base + h, last.name, last.content);
      AtEnd(base + h + last.name, last.content, []);
      assert base + h + last.name + last.content + [] == base + h + last.name + last.content;
    }
  }

  lemma LongerTwice(s: Bytes, pos: nat, piece: Bytes, a: Bytes, b: Bytes, c: Bytes)
    requires At(s, pos, piece)
    ensures At(s + a + b + c, pos, piece)
  {
    AtLonger(s, pos, piece, a);
    AtLonger(s + a, pos, piece, b);
    AtLonger(s + a + b, pos, piece, c);
  }

  /** Every directory entry carries the position of its own local header. */
  lemma {:induction false} CentralAt(files: seq<File>, d: Date, k: nat)
    requires k < |files|
    ensures var f := files[k]; var p := |Centrals(files[..k], d)|;
      && At(Centrals(files, d), p, CentralHeader(f, d, |Locals(files[..k], d)|)) && At(Centrals(files, d), p + 46, f.name)
      && |Centrals(files[..k + 1], d)| == p + 46 + |f.name|
  {
    hide CentralHeader, Locals;
    var n := |files| - 1;
    var front, last := files[..n], files[n];
    var base, h := Centrals(front, d), CentralHeader(last, d, |Locals(front, d)|);
    assert files[..k + 1][..k] == files[..k];
    if k < n {
      assert front[..k] == files[..k] && front[..k + 1] == files[..k + 1];
      CentralAt(front, d, k);
      var f, p := files[k], |Centrals(files[..k], d)|;
      AtLonger(base, p, CentralHeader(f, d, |Locals(files[..k], d)|), h);
      AtLonger(base + h, p, CentralHeader(f, d, |Locals(files[..k], d)|), last.name);
      AtLonger(base, p + 46, f.name, h);
      AtLonger(base + h, p + 46, f.name, last.name);
    } else {
      assert files[..k + 1] == files;
      AtEnd(base, h, last.name);
      AtEnd(base + h, last.name, []);
      assert base + h + last.name + [] == base + h + last.name;
    }
  }

  /** What the formats can express. */
  ghost predicate Fits(files: seq<File>, d: Date) {
    && |files| < 65536 && |Archive(files, d)| < 0x1_0000_0000
    && forall i :: 0 <= i < |files| ==> |files[i].name| < 65536
  }

  lemma LocalReads(s: Bytes, f: File, d: Date, pos: nat)
    requires At(s, pos, LocalHeader(f, d)) && At(s, pos + 30, f.name) && At(s, pos + 30 + |f.name|, f.content)
    requires |f.name| < 65536 && |f.content| < 0x1_0000_0000
    ensures ReadLocal(s, pos, |f.content|, Checksum(f.content), f.name) == Some(f.content)
  {
    hide LocalFields, ReadU16, ReadU32, Plain, Checksum;
    ChecksumFits(f.content);
    LocalFieldsRead(s, pos, |f.name|, |f.content|, Checksum(f.content), d);
  }

  /** The pieces of file `k` in the whole archive. */
  lemma PiecesAt(files: seq<File>, d: Date, k: nat)
    requires k < |files|
    ensures var s := Archive(files, d); var f := files[k];
      var p, c := |Locals(files[..k], d)|, |Locals(files, d)| + |Centrals(files[..k], d)|;
      && At(s, p, LocalHeader(f, d)) && At(s, p + 30, f.name) && At(s, p + 30 + |f.name|, f.content)
      && At(s, c, CentralHeader(f, d, p)) && At(s, c + 46, f.name)
      && |Locals(files, d)| + |Centrals(files[..k + 1], d)| == c + 46 + |f.name|
  {
    hide LocalHeader, CentralHeader, Locals, Centrals, EndRecord;
    LocalAt(files, d, k);
    CentralAt(files, d, k);
    var a, b, e := Locals(files, d), Centrals(files, d), EndRecord(|files|, |Centrals(files, d)|, |Locals(files, d)|);
    var f, p, c := files[k], |Locals(files[..k], d)|, |Centrals(files[..k], d)|;
    LongerTwice(a, p, LocalHeader(f, d), b, e, []);
    LongerTwice(a, p + 30, f.name, b, e, []);
    LongerTwice(a, p + 30 + |f.name|, f.content, b, e, []);
    AtShifted(b, c, CentralHeader(f, d, p), a);
    AtLonger(a + b, |a| + c, CentralHeader(f, d, p), e);
    AtShifted(b, c + 46, f.name, a);
    AtLonger(a + b, |a| + c + 46, f.name, e);
    assert a + b + e + [] == a + b + e;
  }

  lemma {:induction false} CentralReads(files: seq<File>, d: Date, k: nat)
    requires Fits(files, d) && k <= |files|
    ensures ReadCentral(Archive(files, d), |Locals(files, d)| + |Centrals(files[..k], d)|, |files| - k) == Some(AllFound(files, d)[k..])
    decreases |files| - k
  {
    hide LocalHeader, CentralFields, Locals, Centrals, EndRecord, ReadU16, ReadU32, ReadDate, Plain, ReadLocal, Archive, Checksum;
    if k < |files| {
      var s, f := Archive(files, d), files[k];
      var p, c := |Locals(files[..k], d)|, |Locals(files, d)| + |Centrals(files[..k], d)|;
      PiecesAt(files, d, k);
      CentralReads(files, d, k + 1);
      CentralFieldsRead(s, c, |f.name|, |f.content|, Checksum(f.content), d, p);
      LocalReads(s, f, d, p);
      ChecksumFits(f.content);
      assert AllFound(files, d)[k..] == [FoundOf(f, d)] + AllFound(files, d)[k + 1..];
    } else {
      assert AllFound(files, d)[k..] == [];
    }
  }

  lemma ChecksumFits(content: Bytes)
    ensures Checksum(content) < 0x1_0000_0000
  {
    hide Crc;
  }

  lemma EndAt(files: seq<File>, d: Date)
    ensures var s := Archive(files, d);
      |s| >= 22 && At(s, |s| - 22, EndRecord(|files|, |Centrals(files, d)|, |Locals(files, d)|))
      && |Locals(files, d)| + |Centrals(files, d)| + 22 == |s|
  {
    hide Locals, Centrals, EndRecord;
    var a := Locals(files, d) + Centrals(files, d);
    var e := EndRecord(|files|, |Centrals(files, d)|, |Locals(files, d)|);
    assert (a + e)[|a|..] == e;
  }

  /**
   ZIP read-back. Every archive within the format's limits reads back exactly: the names, the contents and the
   checksums, in order, each found through the offset in its own directory entry.
   */
  lemma ArchiveReadsBack(files: seq<File>, d: Date)
    requires Fits(files, d)
    ensures ReadArchive(Archive(files, d)) == Some(AllFound(files, d))
  {
    hide Locals, Centrals, EndRecord, ReadU16, ReadU32, ReadCentral, Archive;
    var s := Archive(files, d);
    EndAt(files, d);
    EndRecordRead(s, |s| - 22, |files|, |Centrals(files, d)|, |Locals(files, d)|);
    CentralReads(files, d, 0);
    assert Centrals(files[..0], d) == [] by { NoCentrals(d); assert files[..0] == []; }
    assert AllFound(files, d)[0..] == AllFound(files, d);
  }

  lemma NoCentrals(d: Date)
    ensures Centrals([], d) == []
  {
  }

  /** With 65536 files or more the count in the end record wraps, and no reader that trusts it sees them all. */
  lemma TooManyFilesAreLost(files: seq<File>, d: Date)
    requires |files| >= 65536
    ensures ReadArchive(Archive(files, d)) != Some(AllFound(files, d))
  {
    hide Locals, Centrals, EndRecord, ReadU16, ReadU32, ReadCentral, Archive;
    var s := Archive(files, d);
    EndAt(files, d);
    EndRecordRead(s, |s| - 22, |files|, |Centrals(files, d)|, |Locals(files, d)|);
    CountLimits(s, ReadU32(s, |s| - 22 + 16), ReadU16(s, |s| - 22 + 10));
  }

  lemma {:induction false} CountLimits(s: Bytes, pos: nat, count: nat)
    ensures var r := ReadCentral(s, pos, count); r.Some? ==> |r.value| == count
    decreases count
  {
    hide ReadU16, ReadU32, ReadLocal;
    if count > 0 && pos + 46 <= |s| {
      var next := pos + 46 + ReadU16(s, pos + 28) + ReadU16(s, pos + 30) + ReadU16(s, pos + 32);
      CountLimits(s, next, count - 1);
    }
  }

  /** One directory entry at a time: the entry that is read, then the rest. */
  lemma EntryReads(files: seq<File>, d: Date, k: nat)
    requires k < |files| && |Archive(files, d)| < 0x1_0000_0000
    ensures
      var s, f := Archive(files, d), files[k];
      var c := |Locals(files, d)| + |Centrals(files[..k], d)|;
      var r := ReadCentral(s, c, |files| - k);
      && (|f.name| >= 65536 && r.Some? ==> r.value[0].name != f.name)
      && (|f.name| < 65536 && r.Some? ==>
            ReadCentral(s, |Locals(files, d)| + |Centrals(files[..k + 1], d)|, |files| - k - 1) == Some(r.value[1..]))
  {
    hide LocalHeader, CentralFields, Locals, Centrals, EndRecord, ReadU16, ReadU32, ReadDate, Plain, ReadLocal, Archive, Checksum;
    var s, f := Archive(files, d), files[k];
    var p, c := |Locals(files[..k], d)|, |Locals(files, d)| + |Centrals(files[..k], d)|;
    PiecesAt(files, d, k);
    CentralFieldsRead(s, c, |f.name|, |f.content|, Checksum(f.content), d, p);
    CountLimits(s, c, |files| - k);
  }

  lemma {:induction false} LongNameIsLost(files: seq<File>, d: Date, j: nat, k: nat)
    requires j <= k < |files| && |Archive(files, d)| < 0x1_0000_0000
    requires |files[k].name| >= 65536 && forall i :: 0 <= i < k ==> |files[i].name| < 65536
    ensures ReadCentral(Archive(files, d), |Locals(files, d)| + |Centrals(files[..j], d)|, |files| - j) != Some(AllFound(files, d)[j..])
    decreases k - j
  {
    hide ReadCentral, Archive, Locals, Centrals;
    EntryReads(files, d, j);
    assert AllFound(files, d)[j..][0] == FoundOf(files[j], d);
    if j < k {
      LongNameIsLost(files, d, j + 1, k);
      assert AllFound(files, d)[j..][1..] == AllFound(files, d)[j + 1..];
    }
  }

  /** Exactly then: below 4 GiB, an archive reads back if and only if its counts and name lengths fit 16 bits. */
  lemma ReadsBackIff(files: seq<File>, d: Date)
    requires |Archive(files, d)| < 0x1_0000_0000
    ensures ReadArchive(Archive(files, d)) == Some(AllFound(files, d))
      <==> |files| < 65536 && forall i :: 0 <= i < |files| ==> |files[i].name| < 65536
  {
    hide Locals, Centrals, EndRecord, ReadU16, ReadU32, ReadCentral, Archive;
    if |files| >= 65536 {
      TooManyFilesAreLost(files, d);
    } else if forall i :: 0 <= i < |files| ==> |files[i].name| < 65536 {
      ArchiveReadsBack(files, d);
    } else {
      var k := FirstLong(files);
      var s := Archive(files, d);
      EndAt(files, d);
      EndRecordRead(s, |s| - 22, |files|, |Centrals(files, d)|, |Locals(files, d)|);
      LongNameIsLost(files, d, 0, k);
      assert Centrals(files[..0], d) == [] by { NoCentrals(d); assert files[..0] == []; }
      assert AllFound(files, d)[0..] == AllFound(files, d);
    }
  }

  lemma FirstLong(files: seq<File>) returns (k: nat)
    requires exists i :: 0 <= i < |files| && |files[i].name| >= 65536
    ensures k < |files| && |files[k].name| >= 65536 && forall i :: 0 <= i < k ==> |files[i].name| < 65536
  {
    k := 0;
    while |files[k].name| < 65536
      invariant k < |files|
      invariant forall i :: 0 <= i < k ==> |files[i].name| < 65536
      decreases |files| - k
    {
      k := k + 1;
    }
  }
}
