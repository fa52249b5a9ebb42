/**
  The archive writer: stored files one after the other, then the central directory
  and its end record; and a reader that starts from the last 22 bytes.
*/
module ZipWriter {
  import opened Bytes
  import opened MachineWords
  import opened Slices
  import opened Wrappers
  import Crc32

  datatype Entry = Entry(name: seq<Byte>, contents: seq<Byte>)

  datatype FileInfo = FileInfo(name: seq<Byte>, offset: nat, size: nat, crc32: nat)

  // A byte as the checksum sees it.
  function Bits(s: seq<Byte>): seq<bv8> {
    seq(|s|, i requires 0 <= i < |s| => s[i] as bv8)
  }

  function CrcOf(s: seq<Byte>): (r: nat)
    ensures r < TWO32
  {
    Crc32.Checksum(Bits(s)) as int
  }

  // ----- The format: sections 4.3.7, 4.3.12 and 4.3.16 of PKWARE APPNOTE -----

  const LOCAL_MAGIC: nat := 0x0403_4b50
  const CENTRAL_MAGIC: nat := 0x0201_4b50
  const END_MAGIC: nat := 0x0605_4b50

  const LOCAL_WIDTHS: seq<nat> := [4, 2, 2, 2, 2, 2, 4, 4, 4, 2, 2]
  const CENTRAL_WIDTHS: seq<nat> := [4, 2, 2, 2, 2, 2, 2, 4, 4, 4, 2, 2, 2, 2, 2, 4, 4]
  const END_WIDTHS: seq<nat> := [4, 2, 2, 2, 2, 4, 4, 2]

  function LocalFields(crc: nat, size: nat, nameSize: nat): seq<Field> {
    [Field(4, LOCAL_MAGIC), Field(2, 10), Field(2, 0), Field(2, 0), Field(2, 0), Field(2, 0),
     Field(4, crc), Field(4, size), Field(4, size), Field(2, nameSize), Field(2, 0)]
  }

  function CentralFields(f: FileInfo): seq<Field> {
    [Field(4, CENTRAL_MAGIC), Field(2, 10), Field(2, 10), Field(2, 0), Field(2, 0), Field(2, 0), Field(2, 0),
     Field(4, f.crc32), Field(4, f.size), Field(4, f.size), Field(2, U16(|f.name|)), Field(2, 0), Field(2, 0),
     Field(2, 0), Field(2, 0), Field(4, 0), Field(4, f.offset)]
  }

  function EndFields(count: nat, size: nat, offset: nat): seq<Field> {
    [Field(4, END_MAGIC), Field(2, 0), Field(2, 0), Field(2, count), Field(2, count),
     Field(4, size), Field(4, offset), Field(2, 0)]
  }

  // A string longer than 32 bits can count is cut.
  function Cut(s: seq<Byte>): seq<Byte> {
    s[..U32(|s|)]
  }

  function LocalRecord(e: Entry): seq<Byte> {
    Encode(LocalFields(CrcOf(e.contents), U32(|e.contents|), U16(|e.name|))) + Cut(e.name) + Cut(e.contents)
  }

  function Locals(es: seq<Entry>): seq<Byte>
  {
    if es == [] then [] else Locals(es[..|es| - 1]) + LocalRecord(es[|es| - 1])
  }

  function Info(e: Entry, offset: nat): FileInfo {
    FileInfo(e.name, U32(offset), U32(|e.contents|), CrcOf(e.contents))
  }

  function Infos(es: seq<Entry>): (r: seq<FileInfo>)
    ensures |r| == |es|
  {
    if es == [] then [] else Infos(es[..|es| - 1]) + [Info(es[|es| - 1], |Locals(es[..|es| - 1])|)]
  }

  function CentralRecord(f: FileInfo): seq<Byte> {
    Encode(CentralFields(f)) + Cut(f.name)
  }

  function Central(fs: seq<FileInfo>): seq<Byte>
  {
    if fs == [] then [] else Central(fs[..|fs| - 1]) + CentralRecord(fs[|fs| - 1])
  }

  function Archive(es: seq<Entry>): seq<Byte> {
    var count := U16(|es|);
    var central := Central(Infos(es)[..count]);
    Locals(es) + central + Encode(EndFields(count, U32(|central|), U32(|Locals(es)|)))
  }

  // ----- The writer -----

  class ZipWriter {
    var stream: seq<Byte>
    var files: seq<FileInfo>
    var dirLen: nat
    // What was asked to be written, and the record being written.
    ghost var entries: seq<Entry>
    ghost var mark: seq<Byte>
    ghost var fields: seq<Field>

    // The count of bytes written is kept modulo 2^32.
    ghost predicate Counted()
      reads this
    {
      dirLen == U32(|stream|) && stream == mark + Encode(fields)
    }

    ghost predicate Valid()
      reads this
    {
      Counted() && stream == Locals(entries) && files == Infos(entries)
    }

    constructor ()
      ensures Valid() && entries == []
    {
      stream, files, dirLen := [], [], 0;
      entries, mark, fields := [], [], [];
    }

    method WriteLittleEndian32(val: nat)
      requires val < TWO32 && Counted()
      modifies this`stream, this`dirLen, this`fields
      ensures Counted() && fields == old(fields) + [Field(4, val)]
    {
      EncodeSnoc(fields, Field(4, val));
      fields := fields + [Field(4, val)];
      stream := stream + [val % 256];
      stream := stream + [val / 256 % 256];
      stream := stream + [val / 65536 % 256];
      stream := stream + [val / 16777216 % 256];
      dirLen := U32(dirLen + 4);
      FourBytes(val);
      CountOn(|old(stream)|, 4);
    }

    method WriteShort(val: nat)
      requires val < TWO16 && Counted()
      modifies this`stream, this`dirLen, this`fields
      ensures Counted() && fields == old(fields) + [Field(2, val)]
    {
      EncodeSnoc(fields, Field(2, val));
      fields := fields + [Field(2, val)];
      stream := stream + [val % 256];
      stream := stream + [val / 256 % 256];
      dirLen := U32(dirLen + 2);
      TwoBytes(val);
      CountOn(|old(stream)|, 2);
    }

    method WriteString(str: seq<Byte>)
      requires Counted()
      modifies this`stream, this`dirLen, this`mark, this`fields
      ensures Counted() && fields == [] && stream == old(stream) + Cut(str)
    {
      var size := U32(|str|);
      var i := 0;
      while i < size
        invariant 0 <= i <= size
        invariant stream == old(stream) + str[..i] && dirLen == U32(|stream|)
      {
        CountOn(|stream|, 1);
        stream := stream + [str[i]];
        dirLen := U32(dirLen + 1);
        i := i + 1;
      }
      mark, fields := stream, [];
    }

    // The local header of section 4.3.7.
    method WriteLocalHeader(crc: nat, size: nat, filenameSize: nat)
      requires crc < TWO32 && size < TWO32 && filenameSize < TWO16 && Counted() && fields == []
      modifies this`stream, this`dirLen, this`fields
      ensures Counted() && fields == LocalFields(crc, size, filenameSize)
    {
      hide Encode, Counted;
      WriteLittleEndian32(LOCAL_MAGIC);
      WriteShort(10);
      WriteShort(0);
      WriteShort(0);
      WriteShort(0);
      WriteShort(0);
      WriteLittleEndian32(crc);
      WriteLittleEndian32(size);
      WriteLittleEndian32(size);
      WriteShort(filenameSize);
      WriteShort(0);
    }

    method Write(filename: seq<Byte>, contents: seq<Byte>)
      requires Valid()
      modifies this
      ensures Valid() && entries == old(entries) + [Entry(filename, contents)]
    {
      hide Encode, Cut, LocalFields, Locals, Infos, LocalRecord, CrcOf;
      ghost var e := Entry(filename, contents);
      NothingEncoded();
      mark, fields := stream, [];
      var offset, size := dirLen, U32(|contents|);
      var x := Crc32.ComputeCRC32(Bits(contents));
      var crc := x as int;
      ChecksumOf(contents);
      files := files + [FileInfo(filename, offset, size, crc)];
      WriteLocalHeader(crc, size, U16(|filename|));
      WriteString(filename);
      WriteString(contents);
      RecordParts(old(stream), e);
      EntriesSnoc(entries, e);
      entries := entries + [e];
    }

    // The central header of section 4.3.12, up to the name's length.
    method WriteCentralStart(f: FileInfo)
      requires f.crc32 < TWO32 && f.size < TWO32 && Counted() && fields == []
      modifies this`stream, this`dirLen, this`fields
      ensures Counted() && fields == CentralFields(f)[..10]
    {
      hide Encode, Counted;
      WriteLittleEndian32(CENTRAL_MAGIC);
      WriteShort(10);
      WriteShort(10);
      WriteShort(0);
      WriteShort(0);
      WriteShort(0);
      WriteShort(0);
      WriteLittleEndian32(f.crc32);
      WriteLittleEndian32(f.size);
      WriteLittleEndian32(f.size);
    }

    method WriteCentralHeader(f: FileInfo)
      requires f.crc32 < TWO32 && f.size < TWO32 && f.offset < TWO32 && Counted() && fields == []
      modifies this`stream, this`dirLen, this`fields
      ensures Counted() && fields == CentralFields(f)
    {
      hide Encode, Counted;
      WriteCentralStart(f);
      WriteShort(U16(|f.name|));
      WriteShort(0);
      WriteShort(0);
      WriteShort(0);
      WriteShort(0);
      WriteLittleEndian32(0);
      WriteLittleEndian32(f.offset);
    }

    method WriteEnd(count: nat, size: nat, offset: nat)
      requires count < TWO16 && size < TWO32 && offset < TWO32 && Counted() && fields == []
      modifies this`stream, this`dirLen, this`fields
      ensures Counted() && fields == EndFields(count, size, offset)
    {
      hide Encode, Counted;
      WriteLittleEndian32(END_MAGIC);
      WriteShort(0);
      WriteShort(0);
      WriteShort(count);
      WriteShort(count);
      WriteLittleEndian32(size);
      WriteLittleEndian32(offset);
      WriteShort(0);
    }

    // One turn of the directory loop.
    method WriteCentralRecord(f: FileInfo)
      requires f.crc32 < TWO32 && f.size < TWO32 && f.offset < TWO32 && Counted() && fields == []
      modifies this`stream, this`dirLen, this`mark, this`fields
      ensures Counted() && fields == [] && stream == old(stream) + CentralRecord(f)
    {
      hide Encode, Cut, CentralFields;
      NothingEncoded();
      mark := stream;
      WriteCentralHeader(f);
      WriteString(f.name);
      assert old(stream) + Encode(CentralFields(f)) + Cut(f.name) == old(stream) + CentralRecord(f);
    }

    method WriteDirectory()
      requires Valid()
      modifies this
      ensures stream == Archive(entries) && entries == old(entries) && files == old(files)
    {
      hide Encode, CentralRecord, EndFields, Infos, Locals, Central, Counted;
      var count := U16(|files|);
      var start := Begin();
      var i := 0;
      InfosFit(entries);
      NothingListed(files);
      while i < count
        invariant 0 <= i <= count <= |files|
        invariant Counted() && fields == [] && files == old(files) && entries == old(entries)
        invariant stream == old(stream) + Central(files[..i])
      {
        WriteCentralRecord(files[i]);
        CentralSnoc(files, i);
        assert old(stream) + Central(files[..i]) + CentralRecord(files[i]) == old(stream) + Central(files[..i + 1]);
        i := i + 1;
      }
      WriteTail(count, start, |old(stream)|);
      assert stream == old(stream) + Central(files[..count]) + Encode(EndFields(count, U32(|Central(files[..count])|), start));
    }

    // The offset of the directory.
    method Begin() returns (start: nat)
      requires Counted()
      modifies this`mark, this`fields
      ensures Counted() && fields == [] && start == U32(|stream|)
    {
      NothingEncoded();
      mark, fields := stream, [];
      start := dirLen;
    }

    method WriteTail(count: nat, start: nat, ghost from: nat)
      requires Counted() && fields == [] && count < TWO16 && from <= |stream| && start == U32(from)
      modifies this`stream, this`dirLen, this`fields
      ensures stream == old(stream) + Encode(EndFields(count, U32(|old(stream)| - from), start))
    {
      hide Encode, EndFields;
      NothingEncoded();
      var size := U32(dirLen - start);
      SizeFromCount(from, |stream| - from);
      WriteEnd(count, size, start);
    }
  }

  lemma ChecksumOf(contents: seq<Byte>)
    ensures CrcOf(contents) == Crc32.Checksum(Bits(contents)) as int
  {
  }

  lemma RecordParts(before: seq<Byte>, e: Entry)
    ensures before + Encode(LocalFields(CrcOf(e.contents), U32(|e.contents|), U16(|e.name|))) + Cut(e.name) + Cut(e.contents) ==
            before + LocalRecord(e)
  {
    hide Encode, Cut, LocalFields, CrcOf;
  }

  lemma EntriesSnoc(es: seq<Entry>, e: Entry)
    ensures Locals(es + [e]) == Locals(es) + LocalRecord(e)
    ensures Infos(es + [e]) == Infos(es) + [Info(e, |Locals(es)|)]
  {
    assert (es + [e])[..|es|] == es;
  }

  lemma {:induction false} InfosFit(es: seq<Entry>)
    ensures forall i | 0 <= i < |es| :: Infos(es)[i].crc32 < TWO32 && Infos(es)[i].size < TWO32 && Infos(es)[i].offset < TWO32
  {
    if es != [] { InfosFit(es[..|es| - 1]); }
  }

  lemma NothingListed(fs: seq<FileInfo>)
    ensures fs[..0] == [] && Central(fs[..0]) == []
  {
  }

  lemma CentralSnoc(fs: seq<FileInfo>, i: nat)
    requires i < |fs|
    ensures Central(fs[..i + 1]) == Central(fs[..i]) + CentralRecord(fs[i])
  {
    assert fs[..i + 1][..i] == fs[..i];
  }

  lemma SizeFromCount(start: nat, size: nat)
    ensures U32(U32(start + size) - U32(start)) == U32(size)
  {
  }

  lemma NothingEncoded()
    ensures Encode([]) == []
  {
  }

  lemma FourBytes(val: nat)
    ensures Little(val, 4) == [val % 256, val / 256 % 256, val / 65536 % 256, val / 16777216 % 256]
  {
    assert Little(val / 16777216, 1) == [val / 16777216 % 256] + Little(val / 16777216 / 256, 0);
    assert val / 256 / 256 == val / 65536 && val / 65536 / 256 == val / 16777216;
    assert Little(val / 65536, 2) == [val / 65536 % 256] + Little(val / 16777216, 1);
    assert Little(val / 256, 3) == [val / 256 % 256] + Little(val / 65536, 2);
  }

  lemma TwoBytes(val: nat)
    ensures Little(val, 2) == [val % 256, val / 256 % 256]
  {
    assert Little(val / 256, 1) == [val / 256 % 256] + Little(val / 256 / 256, 0);
  }

  lemma CountOn(n: nat, k: nat)
    ensures U32(U32(n) + k) == U32(n + k)
  {
  }

  // ----- The reader -----

  function ReadLocal(b: seq<Byte>, offset: nat, name: seq<Byte>, crc: nat, size: nat): Option<seq<Byte>>
  {
    if offset + Sum(LOCAL_WIDTHS) + |name| + size > |b| then None
    else
      var f := Decode(b, offset, LOCAL_WIDTHS);
      var p := offset + Sum(LOCAL_WIDTHS);
      if f[0] == LOCAL_MAGIC && f[3] == 0 && f[6] == crc && f[7] == size && f[8] == size && f[9] == |name| && f[10] == 0 &&
         b[p..p + |name|] == name && CrcOf(b[p + |name|..p + |name| + size]) == crc
      then Some(b[p + |name|..p + |name| + size])
      else None
  }

  // The next entry of the directory, and where the one after it starts.
  function ReadCentral(b: seq<Byte>, p: nat): Option<(Entry, nat)>
  {
    if p + Sum(CENTRAL_WIDTHS) > |b| then None
    else
      var f := Decode(b, p, CENTRAL_WIDTHS);
      var q := p + Sum(CENTRAL_WIDTHS);
      if f[0] != CENTRAL_MAGIC || f[4] != 0 || f[8] != f[9] || f[11] != 0 || f[12] != 0 || q + f[10] > |b| then None
      else
        var name := b[q..q + f[10]];
        match ReadLocal(b, f[16], name, f[7], f[9])
        case None => None
        case Some(contents) => Some((Entry(name, contents), q + f[10]))
  }

  function ReadDirectory(b: seq<Byte>, p: nat, end: nat, count: nat): Option<seq<Entry>>
    decreases count
  {
    if count == 0 then if p == end then Some([]) else None
    else
      match ReadCentral(b, p)
      case None => None
      case Some((e, next)) =>
        match ReadDirectory(b, next, end, count - 1)
        case None => None
        case Some(rest) => Some([e] + rest)
  }

  // The end record is the last thing in the archive, and says where the directory is.
  function ReadArchive(b: seq<Byte>): Option<seq<Entry>>
  {
    if |b| < Sum(END_WIDTHS) then None
    else
      var p := |b| - Sum(END_WIDTHS);
      var f := Decode(b, p, END_WIDTHS);
      if f[0] == END_MAGIC && f[3] == f[4] && f[7] == 0 && f[6] + f[5] == p
      then ReadDirectory(b, f[6], p, f[4])
      else None
  }

  // ----- The reader recovers what was written -----

  // What the format can hold: counts and name sizes in 16 bits, offsets and sizes in 32.
  predicate Storable(es: seq<Entry>) {
    && |es| < TWO16
    && (forall i | 0 <= i < |es| :: |es[i].name| < TWO16 && |es[i].contents| < TWO32)
    && |Locals(es)| < TWO32 && |Central(Infos(es))| < TWO32
  }

  lemma SumSnoc(w: seq<nat>, x: nat)
    ensures Sum(w + [x]) == Sum(w) + x
  {
    assert (w + [x])[..|w|] == w;
  }

  // The end record is 22 bytes long.
  lemma EndSize()
    ensures Sum(END_WIDTHS) == 22
  {
    assert [4] + [2] == [4, 2] && [4, 2] + [2] == [4, 2, 2] && [4, 2, 2] + [2] == [4, 2, 2, 2];
    assert [4, 2, 2, 2] + [2] == [4, 2, 2, 2, 2] && [4, 2, 2, 2, 2] + [4] == [4, 2, 2, 2, 2, 4];
    assert [4, 2, 2, 2, 2, 4] + [4] == [4, 2, 2, 2, 2, 4, 4] && [4, 2, 2, 2, 2, 4, 4] + [2] == END_WIDTHS;
    SumSnoc([4], 2);
    SumSnoc([4, 2], 2);
    SumSnoc([4, 2, 2], 2);
    SumSnoc([4, 2, 2, 2], 2);
    SumSnoc([4, 2, 2, 2, 2], 4);
    SumSnoc([4, 2, 2, 2, 2, 4], 4);
    SumSnoc([4, 2, 2, 2, 2, 4, 4], 2);
  }

  lemma {:induction false} LocalAt(es: seq<Entry>, k: nat)
    requires k < |es|
    ensures Has(Locals(es), |Locals(es[..k])|, LocalRecord(es[k]))
    ensures |Locals(es[..k])| + |LocalRecord(es[k])| <= |Locals(es)|
  {
    hide LocalRecord;
    var init, last := es[..|es| - 1], es[|es| - 1];
    if k == |es| - 1 {
      HasInSum(Locals(init), LocalRecord(last), 0, LocalRecord(last));
    } else {
      LocalAt(init, k);
      assert init[..k] == es[..k];
      HasInSum(Locals(init), LocalRecord(last), |Locals(es[..k])|, LocalRecord(es[k]));
    }
  }

  lemma {:induction false} CentralAt(fs: seq<FileInfo>, k: nat)
    requires k < |fs|
    ensures Has(Central(fs), |Central(fs[..k])|, CentralRecord(fs[k]))
    ensures |Central(fs[..k + 1])| == |Central(fs[..k])| + |CentralRecord(fs[k])| <= |Central(fs)|
  {
    hide CentralRecord;
    CentralSnoc(fs, k);
    var init, last := fs[..|fs| - 1], fs[|fs| - 1];
    if k == |fs| - 1 {
      HasInSum(Central(init), CentralRecord(last), 0, CentralRecord(last));
    } else {
      CentralAt(init, k);
      assert init[..k] == fs[..k];
      HasInSum(Central(init), CentralRecord(last), |Central(fs[..k])|, CentralRecord(fs[k]));
    }
  }

  lemma {:induction false} InfoAt(es: seq<Entry>, k: nat)
    requires k < |es|
    ensures Infos(es)[k] == Info(es[k], |Locals(es[..k])|)
  {
    hide Locals, Info;
    if k < |es| - 1 {
      InfoAt(es[..|es| - 1], k);
      assert es[..|es| - 1][..k] == es[..k];
    }
  }

  lemma LocalFit(crc: nat, size: nat, nameSize: nat)
    requires crc < TWO32 && size < TWO32 && nameSize < TWO16
    ensures var fs := LocalFields(crc, size, nameSize);
            Fit(fs) && Widths(fs) == LOCAL_WIDTHS &&
            var v := Values(fs);
            v[0] == LOCAL_MAGIC && v[3] == 0 && v[6] == crc && v[7] == size && v[8] == size && v[9] == nameSize && v[10] == 0
  {
    Powers();
  }

  lemma CentralFit(f: FileInfo)
    requires f.crc32 < TWO32 && f.size < TWO32 && f.offset < TWO32
    ensures var fs := CentralFields(f);
            Fit(fs) && Widths(fs) == CENTRAL_WIDTHS &&
            var v := Values(fs);
            v[0] == CENTRAL_MAGIC && v[4] == 0 && v[7] == f.crc32 && v[8] == v[9] == f.size && v[10] == U16(|f.name|) &&
            v[11] == 0 && v[12] == 0 && v[16] == f.offset
  {
    Powers();
  }

  lemma EndFit(count: nat, size: nat, offset: nat)
    requires count < TWO16 && size < TWO32 && offset < TWO32
    ensures var fs := EndFields(count, size, offset);
            Fit(fs) && Widths(fs) == END_WIDTHS &&
            var v := Values(fs);
            v[0] == END_MAGIC && v[3] == v[4] == count && v[5] == size && v[6] == offset && v[7] == 0
  {
    Powers();
  }

  lemma Powers()
    ensures Power256(2) == TWO16 && Power256(4) == TWO32
  {
    assert Power256(1) == 256 * Power256(0);
    assert Power256(3) == 256 * Power256(2);
  }

  // A file is read back where its local record stands.
  lemma ReadLocalRecord(b: seq<Byte>, p: nat, e: Entry)
    requires Has(b, p, LocalRecord(e)) && |e.name| < TWO16 && |e.contents| < TWO32
    ensures ReadLocal(b, p, e.name, CrcOf(e.contents), |e.contents|) == Some(e.contents)
  {
    hide CrcOf, Encode, LocalFields, Fit, Widths, Values, Decode, Sum;
    var crc, size, n := CrcOf(e.contents), |e.contents|, |e.name|;
    var fs := LocalFields(crc, size, n);
    HasSplit(b, p, Encode(fs) + e.name, e.contents);
    HasSplit(b, p, Encode(fs), e.name);
    LocalFit(crc, size, n);
    EncodeLength(fs);
    DecodeInvertsEncode(b, p, fs);
  }

  lemma ReadCentralRecord(b: seq<Byte>, p: nat, e: Entry, offset: nat)
    requires |e.name| < TWO16 && |e.contents| < TWO32 && offset < TWO32
    requires Has(b, p, CentralRecord(Info(e, offset))) && Has(b, offset, LocalRecord(e))
    ensures ReadCentral(b, p) == Some((e, p + |CentralRecord(Info(e, offset))|))
  {
    hide CrcOf, Encode, CentralFields, LocalRecord, Fit, Widths, Values, Decode, Sum, ReadLocal;
    var f := Info(e, offset);
    var fs := CentralFields(f);
    HasSplit(b, p, Encode(fs), e.name);
    CentralFit(f);
    EncodeLength(fs);
    DecodeInvertsEncode(b, p, fs);
    ReadLocalRecord(b, offset, e);
  }

  // From the k-th record of the directory, the reader returns the entries from the k-th on.
  lemma {:induction false} ReadFrom(b: seq<Byte>, es: seq<Entry>, k: nat)
    requires Storable(es) && k <= |es|
    requires Has(b, 0, Locals(es)) && Has(b, |Locals(es)|, Central(Infos(es)))
    ensures ReadDirectory(b, |Locals(es)| + |Central(Infos(es)[..k])|, |Locals(es)| + |Central(Infos(es))|, |es| - k) == Some(es[k..])
    decreases |es| - k
  {
    hide ReadCentral, Locals, Central, Infos, LocalRecord, CentralRecord, Has;
    var fs := Infos(es);
    if k == |es| {
      assert fs[..k] == fs;
    } else {
      var offset := |Locals(es[..k])|;
      InfoAt(es, k);
      LocalAt(es, k);
      CentralAt(fs, k);
      HasInside(b, 0, Locals(es), offset, LocalRecord(es[k]));
      HasInside(b, |Locals(es)|, Central(fs), |Central(fs[..k])|, CentralRecord(fs[k]));
      ReadCentralRecord(b, |Locals(es)| + |Central(fs[..k])|, es[k], offset);
      ReadFrom(b, es, k + 1);
      assert es[k..] == [es[k]] + es[k + 1..];
    }
  }

  // Everything written is read back, name by name and byte by byte.
  lemma ArchiveRoundTrip(es: seq<Entry>)
    requires Storable(es)
    ensures ReadArchive(Archive(es)) == Some(es)
  {
    hide Locals, Central, Infos, Encode, EndFields, Decode, Fit, Widths, Values, Sum, ReadDirectory;
    var b, fs := Archive(es), Infos(es);
    var size, offset := |Central(fs)|, |Locals(es)|;
    var end := EndFields(|es|, size, offset);
    assert fs[..|es|] == fs;
    assert b == Locals(es) + Central(fs) + Encode(end);
    HasWhole(b);
    HasSplit(b, 0, Locals(es) + Central(fs), Encode(end));
    HasSplit(b, 0, Locals(es), Central(fs));
    EndFit(|es|, size, offset);
    EncodeLength(end);
    DecodeInvertsEncode(b, offset + size, end);
    ReadFrom(b, es, 0);
    NothingListed(fs);
  }

  lemma HasWhole(b: seq<Byte>)
    ensures Has(b, 0, b)
  {
    assert b[0..|b|] == b;
  }

  // ----- And nothing else can be recovered -----

  // No archive lists 65536 files or more: the count is a 16-bit field.
  lemma CountLimit(b: seq<Byte>)
    ensures ReadArchive(b).Some? ==> |ReadArchive(b).value| < TWO16
  {
    hide ReadCentral, Decode, Sum;
    if ReadArchive(b).Some? {
      var p := |b| - Sum(END_WIDTHS);
      DecodeBound(b, p, END_WIDTHS, 4);
      Powers();
      var f := Decode(b, p, END_WIDTHS);
      DirectoryCount(b, f[6], p, f[4]);
    }
  }

  lemma {:induction false} DirectoryCount(b: seq<Byte>, p: nat, end: nat, count: nat)
    ensures ReadDirectory(b, p, end, count).Some? ==> |ReadDirectory(b, p, end, count).value| == count
    decreases count
  {
    hide ReadCentral;
    if count > 0 && ReadCentral(b, p).Some? { DirectoryCount(b, ReadCentral(b, p).value.1, end, count - 1); }
  }

  predicate SizesFit(es: seq<Entry>) {
    forall i | 0 <= i < |es| :: |es[i].name| < TWO16 && |es[i].contents| < TWO32
  }

  lemma CentralSizes(b: seq<Byte>, p: nat)
    ensures ReadCentral(b, p).Some? ==>
              |ReadCentral(b, p).value.0.name| < TWO16 && |ReadCentral(b, p).value.0.contents| < TWO32
  {
    hide Decode, Sum, CrcOf;
    if ReadCentral(b, p).Some? {
      DecodeBound(b, p, CENTRAL_WIDTHS, 9);
      DecodeBound(b, p, CENTRAL_WIDTHS, 10);
      Powers();
    }
  }

  lemma {:induction false} DirectorySizes(b: seq<Byte>, p: nat, end: nat, count: nat)
    ensures ReadDirectory(b, p, end, count).Some? ==> SizesFit(ReadDirectory(b, p, end, count).value)
    decreases count
  {
    hide ReadCentral;
    CentralSizes(b, p);
    if count > 0 && ReadCentral(b, p).Some? { DirectorySizes(b, ReadCentral(b, p).value.1, end, count - 1); }
  }

  lemma NoWrap(a: nat, b: nat)
    requires U32(a) + U32(b) == a + b
    ensures a < TWO32 && b < TWO32
  {
  }

  // What a reader finds behind the records and a directory.
  lemma EndIsRead(b: seq<Byte>, p: nat, count: nat, size: nat, offset: nat)
    requires count < TWO16 && size < TWO32 && offset < TWO32
    requires p <= |b| && b[p..] == Encode(EndFields(count, size, offset))
    ensures Sum(END_WIDTHS) == |b| - p
    ensures var f := Decode(b, p, END_WIDTHS); f[4] == count && f[5] == size && f[6] == offset
  {
    hide Encode, EndFields, Decode, Fit, Widths, Values, Sum;
    var end := EndFields(count, size, offset);
    EndFit(count, size, offset);
    EncodeLength(end);
    assert Has(b, p, Encode(end));
    DecodeInvertsEncode(b, p, end);
  }

  // The end record of an archive delimits its directory only if both lengths fit their fields.
  lemma DirectoryFound(es: seq<Entry>, read: seq<Entry>, listed: seq<FileInfo>)
    requires ReadArchive(Archive(es)) == Some(read) && listed == Infos(es)[..U16(|es|)]
    ensures |Locals(es)| < TWO32 && |Central(listed)| < TWO32 && SizesFit(read)
  {
    hide Locals, Central, Infos, Encode, EndFields, Decode, Sum, ReadDirectory, SizesFit, U32;
    var b, central := Archive(es), Central(listed);
    var p := |Locals(es)| + |central|;
    var size, offset := U32(|central|), U32(|Locals(es)|);
    assert b[p..] == Encode(EndFields(U16(|es|), size, offset));
    U32Small(|central|);
    U32Small(|Locals(es)|);
    EndIsRead(b, p, U16(|es|), size, offset);
    NoWrap(|Locals(es)|, |central|);
    DirectorySizes(b, offset, p, U16(|es|));
  }

  lemma U32Small(n: nat)
    ensures U32(n) < TWO32
  {
  }

  // An archive gives back what was written exactly when the fields of the format can hold it.
  lemma ArchiveRoundTripIff(es: seq<Entry>)
    ensures ReadArchive(Archive(es)) == Some(es) <==> Storable(es)
  {
    hide ReadArchive, Archive, Locals, Central, Infos;
    if Storable(es) {
      ArchiveRoundTrip(es);
    }
    if ReadArchive(Archive(es)) == Some(es) {
      CountLimit(Archive(es));
      assert Infos(es)[..|es|] == Infos(es);
      DirectoryFound(es, es, Infos(es));
    }
  }

  // 65536 empty entries cannot be read back: the count written is 0.
  lemma TooManyEntries()
    ensures var es := seq(65536, i => Entry([], [])); ReadArchive(Archive(es)) != Some(es)
  {
    hide ReadArchive, Archive;
    ArchiveRoundTripIff(seq(65536, i => Entry([], [])));
  }
}
