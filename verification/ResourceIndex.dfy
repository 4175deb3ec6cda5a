/** The index item of an application MPU: its wire format, the cursor that reads it, and the parser. */
module ResourceIndex {
  import opened Bytes

  datatype FileRecord = FileRecord(item: nat, size: nat, version: byte, filename: seq<byte>,
                                   contentType: seq<byte>, compression: byte, originalSize: Option<nat>)

  /** What a read yields: the value and what is left to read. */
  datatype Read<+T> = Short | Got(value: T, rest: seq<byte>)

  const STORED: byte := 0xff

  function U8(s: seq<byte>): Read<byte> { if s == [] then Short else Got(s[0], s[1..]) }

  function U16(s: seq<byte>): Read<nat> { if |s| < 2 then Short else Got(Be16(s[0], s[1]), s[2..]) }

  function U32(s: seq<byte>): Read<nat> { if |s| < 4 then Short else Got(Be32(s[..4]), s[4..]) }

  function Text(size: nat, s: seq<byte>): Read<seq<byte>> { if |s| < size then Short else Got(s[..size], s[size..]) }

  /** A checksum is skipped, and present only when the top bit of its flag byte is set. */
  function Checksum(s: seq<byte>): Read<seq<byte>> {
    match U8(s)
    case Short => Short
    case Got(flag, rest) => if flag >= 0x80 then Text(4, rest) else Got([], rest)
  }

  function SizedText(s: seq<byte>): Read<seq<byte>> {
    match U8(s)
    case Short => Short
    case Got(size, rest) => Text(size, rest)
  }

  /** The size before compression, for a file that is compressed. */
  function OriginalSize(s: seq<byte>): Read<(byte, Option<nat>)> {
    match U8(s)
    case Short => Short
    case Got(compression, rest) =>
      if compression == STORED then Got((compression, None), rest)
      else match U32(rest)
           case Short => Short
           case Got(size, left) => Got((compression, Some(size)), left)
  }

  datatype Identity = Identity(item: nat, size: nat, version: byte)

  function ReadIdentity(s: seq<byte>): Read<Identity> {
    match U32(s)
    case Short => Short
    case Got(item, a) =>
      match U32(a)
      case Short => Short
      case Got(size, b) =>
        match U8(b)
        case Short => Short
        case Got(version, c) => Got(Identity(item, size, version), c)
  }

  function Record(s: seq<byte>): Read<FileRecord> {
    match ReadIdentity(s)
    case Short => Short
    case Got(id, a) =>
      match SizedText(a)
      case Short => Short
      case Got(filename, b) =>
        match Checksum(b)
        case Short => Short
        case Got(_, c) =>
          match SizedText(c)
          case Short => Short
          case Got(contentType, d) =>
            match OriginalSize(d)
            case Short => Short
            case Got(form, e) =>
              Got(FileRecord(id.item, id.size, id.version, filename, contentType, form.0, form.1), e)
  }

  function Records(count: nat, s: seq<byte>): Read<seq<FileRecord>> {
    if count == 0 then Got([], s)
    else match Record(s)
         case Short => Short
         case Got(first, rest) =>
           match Records(count - 1, rest)
           case Short => Short
           case Got(others, left) => Got([first] + others, left)
  }

  /** The whole item, with nothing left over. */
  function Index(data: seq<byte>): Option<seq<FileRecord>> {
    match U16(data)
    case Short => None
    case Got(count, rest) =>
      match Records(count, rest)
      case Short => None
      case Got(records, left) => if left == [] then Some(records) else None
  }

  // ----- the wire format

  /** The checksum field, which the parser reads past: its flag byte and four bytes when the flag says so. */
  datatype Note = Note(flag: byte, bytes: seq<byte>) {
    predicate Fits() { |bytes| == if flag >= 0x80 then 4 else 0 }
  }

  predicate Representable(r: FileRecord) {
    && r.item < UINT32 && r.size < UINT32 && |r.filename| < 256 && |r.contentType| < 256
    && (r.originalSize.Some? <==> r.compression != STORED)
    && (r.originalSize.Some? ==> r.originalSize.value < UINT32)
  }

  function WireForm(r: FileRecord): seq<byte>
    requires Representable(r)
  {
    [r.compression] + if r.originalSize.Some? then Wire32(r.originalSize.value) else []
  }

  function WireIdentity(r: FileRecord): seq<byte>
    requires Representable(r)
  {
    Wire32(r.item) + (Wire32(r.size) + [r.version])
  }

  function WireText(s: seq<byte>): seq<byte>
    requires |s| < 256
  {
    [|s|] + s
  }

  function WireRecord(r: FileRecord, note: Note): seq<byte>
    requires Representable(r)
  {
    WireIdentity(r) + (WireText(r.filename) + (([note.flag] + note.bytes) + (WireText(r.contentType) + WireForm(r))))
  }

  predicate AllFit(records: seq<FileRecord>, notes: seq<Note>) {
    && |notes| == |records|
    && (forall r :: r in records ==> Representable(r))
    && (forall n :: n in notes ==> n.Fits())
  }

  lemma FitFirst(records: seq<FileRecord>, notes: seq<Note>)
    requires AllFit(records, notes) && records != []
    ensures |notes| == |records|
    ensures Representable(records[0]) && notes[0].Fits() && AllFit(records[1..], notes[1..])
  {
    assert records[0] in records && notes[0] in notes;
    assert forall r :: r in records[1..] ==> r in records;
    assert forall n :: n in notes[1..] ==> n in notes;
  }

  function WireRecords(records: seq<FileRecord>, notes: seq<Note>): seq<byte>
    requires AllFit(records, notes)
    decreases |records|
  {
    if records == [] then []
    else
      FitFirst(records, notes);
      WireRecord(records[0], notes[0]) + WireRecords(records[1..], notes[1..])
  }

  ghost predicate IsIndex(data: seq<byte>, records: seq<FileRecord>, notes: seq<Note>) {
    && |records| < 0x1_0000
    && AllFit(records, notes)
    && data == Wire16(|records|) + WireRecords(records, notes)
  }

  // ----- reading back what was written

  lemma ReadsU32(v: nat, rest: seq<byte>)
    requires v < UINT32
    ensures U32(Wire32(v) + rest) == Got(v, rest)
  {
    assert (Wire32(v) + rest)[..4] == Wire32(v);
    assert (Wire32(v) + rest)[4..] == rest;
  }

  lemma ReadsText(s: seq<byte>, rest: seq<byte>)
    requires |s| < 256
    ensures SizedText(WireText(s) + rest) == Got(s, rest)
  {
    var all := WireText(s) + rest;
    assert all[1..] == s + rest;
    assert (s + rest)[..|s|] == s && (s + rest)[|s|..] == rest;
  }

  lemma ReadsNote(note: Note, rest: seq<byte>)
    requires note.Fits()
    ensures Checksum(([note.flag] + note.bytes) + rest) == Got(note.bytes, rest)
  {
    var all := ([note.flag] + note.bytes) + rest;
    assert all[1..] == note.bytes + rest;
    assert (note.bytes + rest)[..|note.bytes|] == note.bytes && (note.bytes + rest)[|note.bytes|..] == rest;
    if note.flag < 0x80 { assert note.bytes == []; }
  }

  lemma ReadsForm(r: FileRecord, rest: seq<byte>)
    requires Representable(r)
    ensures OriginalSize(WireForm(r) + rest) == Got((r.compression, r.originalSize), rest)
  {
    var all := WireForm(r) + rest;
    if r.originalSize.Some? {
      assert all[1..] == Wire32(r.originalSize.value) + rest;
      ReadsU32(r.originalSize.value, rest);
    } else {
      assert all[1..] == rest;
    }
  }

  lemma ReadsIdentity(r: FileRecord, rest: seq<byte>)
    requires Representable(r)
    ensures ReadIdentity(WireIdentity(r) + rest) == Got(Identity(r.item, r.size, r.version), rest)
  {
    hide U32;
    hide Wire32;
    var tail := [r.version] + rest;
    assert WireIdentity(r) + rest == Wire32(r.item) + (Wire32(r.size) + tail);
    ReadsU32(r.item, Wire32(r.size) + tail);
    ReadsU32(r.size, tail);
    assert tail[1..] == rest;
  }

  lemma ReadsRecord(r: FileRecord, note: Note, rest: seq<byte>)
    requires Representable(r) && note.Fits()
    ensures Record(WireRecord(r, note) + rest) == Got(r, rest)
  {
    hide ReadIdentity;
    hide SizedText;
    hide Checksum;
    hide OriginalSize;
    hide WireIdentity;
    hide WireText;
    hide WireForm;
    var e := WireForm(r) + rest;
    var d := WireText(r.contentType) + e;
    var c := ([note.flag] + note.bytes) + d;
    var b := WireText(r.filename) + c;
    assert WireRecord(r, note) + rest == WireIdentity(r) + b;
    ReadsIdentity(r, b);
    ReadsText(r.filename, c);
    ReadsNote(note, d);
    ReadsText(r.contentType, e);
    ReadsForm(r, rest);
  }

  lemma {:induction false} ReadsRecords(records: seq<FileRecord>, notes: seq<Note>, rest: seq<byte>)
    requires AllFit(records, notes)
    ensures Records(|records|, WireRecords(records, notes) + rest) == Got(records, rest)
    decreases |records|
  {
    hide Record;
    hide WireRecord;
    hide Representable;
    hide AllFit;
    if records == [] {
      assert WireRecords(records, notes) + rest == rest;
    } else {
      FitFirst(records, notes);
      var more := WireRecords(records[1..], notes[1..]);
      var first := WireRecord(records[0], notes[0]);
      assert WireRecords(records, notes) + rest == first + (more + rest);
      ReadsRecord(records[0], notes[0], more + rest);
      ReadsRecords(records[1..], notes[1..], rest);
      assert [records[0]] + records[1..] == records;
    }
  }

  /** Whatever is written for a list of records, with or without checksums, reads back as those records. */
  lemma RoundTrip(data: seq<byte>, records: seq<FileRecord>, notes: seq<Note>)
    requires IsIndex(data, records, notes)
    ensures Index(data) == Some(records)
  {
    hide Records;
    hide WireRecords;
    var body := WireRecords(records, notes);
    assert data[2..] == body;
    assert body + [] == body;
    ReadsRecords(records, notes, []);
  }

  // ----- nothing else is accepted

  lemma HalvesExact(hi: nat, lo: nat)
    requires hi < 0x1_0000 && lo < 0x1_0000
    ensures hi * 0x1_0000 + lo < UINT32 && Wire32(hi * 0x1_0000 + lo) == Wire16(hi) + Wire16(lo)
  {
    hide Wire16;
    assert (hi * 0x1_0000 + lo) / 0x1_0000 == hi && (hi * 0x1_0000 + lo) % 0x1_0000 == lo;
  }

  lemma Wire32Exact(s: seq<byte>)
    requires |s| == 4
    ensures Wire32(Be32(s)) == s
  {
    hide Wire16;
    hide Wire32;
    hide Be16;
    HalvesExact(Be16(s[0], s[1]), Be16(s[2], s[3]));
    Wire16Exact(s[0], s[1]);
    Wire16Exact(s[2], s[3]);
  }

  lemma WrittenU32(s: seq<byte>)
    requires U32(s).Got?
    ensures U32(s).value < UINT32 && s == Wire32(U32(s).value) + U32(s).rest
  {
    Wire32Exact(s[..4]);
  }

  lemma WrittenText(s: seq<byte>)
    requires SizedText(s).Got?
    ensures |SizedText(s).value| < 256 && s == WireText(SizedText(s).value) + SizedText(s).rest
  {
    assert s == [s[0]] + (s[1..][..s[0]] + s[1..][s[0]..]);
  }

  lemma WrittenNote(s: seq<byte>) returns (note: Note)
    requires Checksum(s).Got?
    ensures note.Fits() && s == ([note.flag] + note.bytes) + Checksum(s).rest
  {
    note := Note(s[0], Checksum(s).value);
    if s[0] >= 0x80 { assert s == [s[0]] + (s[1..][..4] + s[1..][4..]); }
  }

  predicate FormOk(compression: byte, originalSize: Option<nat>) {
    && (originalSize.Some? <==> compression != STORED)
    && (originalSize.Some? ==> originalSize.value < UINT32)
  }

  lemma WrittenForm(s: seq<byte>)
    requires OriginalSize(s).Got?
    ensures (var form := OriginalSize(s).value;
             FormOk(form.0, form.1)
             && s == ([form.0] + if form.1.Some? then Wire32(form.1.value) else []) + OriginalSize(s).rest)
  {
    hide Wire32;
    assert s == [s[0]] + s[1..];
    if s[0] != STORED { WrittenU32(s[1..]); }
  }

  lemma WrittenIdentity(s: seq<byte>)
    requires ReadIdentity(s).Got?
    ensures (var id := ReadIdentity(s).value;
             id.item < UINT32 && id.size < UINT32
             && s == (Wire32(id.item) + (Wire32(id.size) + [id.version])) + ReadIdentity(s).rest)
  {
    hide Wire32;
    WrittenU32(s);
    var a := U32(s).rest;
    WrittenU32(a);
    var b := U32(a).rest;
    assert b == [b[0]] + b[1..];
  }

  lemma WrittenRecord(s: seq<byte>) returns (note: Note)
    requires Record(s).Got?
    ensures note.Fits() && Representable(Record(s).value)
    ensures s == WireRecord(Record(s).value, note) + Record(s).rest
  {
    hide ReadIdentity;
    hide SizedText;
    hide Checksum;
    hide OriginalSize;
    hide Wire32;
    hide WireText;
    hide U32;
    var r := Record(s).value;
    WrittenIdentity(s);
    var a := ReadIdentity(s).rest;
    WrittenText(a);
    var b := SizedText(a).rest;
    note := WrittenNote(b);
    var c := Checksum(b).rest;
    WrittenText(c);
    var d := SizedText(c).rest;
    WrittenForm(d);
    assert Representable(r);
    var e := Record(s).rest;
    assert d == WireForm(r) + e;
    assert s == WireIdentity(r) + a;
    Regroup(WireIdentity(r), WireText(r.filename), [note.flag] + note.bytes, WireText(r.contentType), WireForm(r), e);
  }

  lemma Regroup(a: seq<byte>, b: seq<byte>, c: seq<byte>, d: seq<byte>, e: seq<byte>, rest: seq<byte>)
    ensures a + (b + (c + (d + (e + rest)))) == (a + (b + (c + (d + e)))) + rest
  {
    assert d + (e + rest) == (d + e) + rest;
    assert c + ((d + e) + rest) == (c + (d + e)) + rest;
    assert b + ((c + (d + e)) + rest) == (b + (c + (d + e))) + rest;
  }

  lemma {:induction false} WrittenRecords(count: nat, s: seq<byte>) returns (notes: seq<Note>)
    requires Records(count, s).Got?
    ensures |Records(count, s).value| == count && AllFit(Records(count, s).value, notes)
    ensures s == WireRecords(Records(count, s).value, notes) + Records(count, s).rest
    decreases count
  {
    hide Record;
    hide WireRecord;
    hide Representable;
    if count == 0 {
      notes := [];
      assert s == [] + s;
    } else {
      var note := WrittenRecord(s);
      var first, rest := Record(s).value, Record(s).rest;
      var more := WrittenRecords(count - 1, rest);
      var others := Records(count - 1, rest).value;
      notes := [note] + more;
      assert Records(count, s).value[1..] == others && notes[1..] == more;
      assert Records(count, s).value[0] == first;
    }
  }

  lemma IndexIsWritten(data: seq<byte>, records: seq<FileRecord>) returns (notes: seq<Note>)
    requires Index(data) == Some(records)
    ensures IsIndex(data, records, notes)
  {
    hide Records;
    hide WireRecords;
    hide AllFit;
    var count := Be16(data[0], data[1]);
    notes := WrittenRecords(count, data[2..]);
    assert Wire16(count) == data[..2];
    assert data == data[..2] + data[2..];
    assert WireRecords(records, notes) + [] == WireRecords(records, notes);
  }

  /** The parser accepts exactly the data that encodes some list of records. */
  lemma AcceptsExactly(data: seq<byte>, records: seq<FileRecord>)
    ensures Index(data) == Some(records) <==> exists notes :: IsIndex(data, records, notes)
  {
    hide Index;
    hide IsIndex;
    if Index(data) == Some(records) {
      var notes := IndexIsWritten(data, records);
    } else if exists notes :: IsIndex(data, records, notes) {
      var notes :| IsIndex(data, records, notes);
      RoundTrip(data, records, notes);
    }
  }

  // ----- the cursor and the loop

  class Cursor {
    const data: seq<byte>
    var at: nat

    ghost predicate Valid()
      reads this
    {
      at <= |data|
    }

    ghost function Left(): seq<byte>
      reads this
      requires Valid()
    {
      data[at..]
    }

    constructor (data: seq<byte>)
      ensures Valid() && this.data == data && Left() == data
    {
      this.data := data;
      at := 0;
      new;
      assert data[0..] == data;
    }

    method AtEnd() returns (end: bool)
      requires Valid()
      ensures end <==> Left() == []
    {
      end := at == |data|;
    }

    method ReadU8() returns (r: Option<byte>)
      requires Valid()
      modifies this
      ensures Valid()
      ensures (match U8(old(Left()))
               case Short => r == None && Left() == old(Left())
               case Got(v, rest) => r == Some(v) && Left() == rest)
    {
      if at >= |data| { return None; }
      r := Some(data[at]);
      at := at + 1;
    }

    method ReadU16() returns (r: Option<nat>)
      requires Valid()
      modifies this
      ensures Valid()
      ensures (match U16(old(Left()))
               case Short => r == None && Left() == old(Left())
               case Got(v, rest) => r == Some(v) && Left() == rest)
    {
      if |data| - at < 2 { return None; }
      r := Some(Be16(data[at], data[at + 1]));
      at := at + 2;
    }

    method ReadU32() returns (r: Option<nat>)
      requires Valid()
      modifies this
      ensures Valid()
      ensures (match U32(old(Left()))
               case Short => r == None && Left() == old(Left())
               case Got(v, rest) => r == Some(v) && Left() == rest)
    {
      if |data| - at < 4 { return None; }
      assert data[at..][..4] == data[at..at + 4];
      r := Some(Be32(data[at..at + 4]));
      at := at + 4;
    }

    method ReadText(size: nat) returns (r: Option<seq<byte>>)
      requires Valid()
      modifies this
      ensures Valid()
      ensures (match Text(size, old(Left()))
               case Short => r == None && Left() == old(Left())
               case Got(v, rest) => r == Some(v) && Left() == rest)
    {
      if size > |data| - at { return None; }
      assert data[at..][..size] == data[at..at + size];
      assert data[at..][size..] == data[at + size..];
      r := Some(data[at..at + size]);
      at := at + size;
    }

    method ReadIdentityFields() returns (r: Option<Identity>)
      requires Valid()
      modifies this
      ensures Valid()
      ensures r.Some? <==> ReadIdentity(old(Left())).Got?
      ensures r.Some? ==> ReadIdentity(old(Left())) == Got(r.value, Left())
    {
      hide U8;
      hide U32;
      var item := ReadU32();
      if item.None? { return None; }
      var size := ReadU32();
      if size.None? { return None; }
      var version := ReadU8();
      if version.None? { return None; }
      r := Some(Identity(item.value, size.value, version.value));
    }

    method ReadSizedText() returns (r: Option<seq<byte>>)
      requires Valid()
      modifies this
      ensures Valid()
      ensures r.Some? <==> SizedText(old(Left())).Got?
      ensures r.Some? ==> SizedText(old(Left())) == Got(r.value, Left())
    {
      hide U8;
      hide Text;
      var size := ReadU8();
      if size.None? { return None; }
      r := ReadText(size.value);
    }

    method SkipChecksum() returns (ok: bool)
      requires Valid()
      modifies this
      ensures Valid()
      ensures ok <==> Checksum(old(Left())).Got?
      ensures ok ==> Checksum(old(Left())).rest == Left()
    {
      hide U8;
      hide Text;
      var flag := ReadU8();
      if flag.None? { return false; }
      ok := true;
      if flag.value >= 0x80 {
        var skipped := ReadText(4);
        ok := skipped.Some?;
      }
    }

    method ReadForm() returns (r: Option<(byte, Option<nat>)>)
      requires Valid()
      modifies this
      ensures Valid()
      ensures r.Some? <==> OriginalSize(old(Left())).Got?
      ensures r.Some? ==> OriginalSize(old(Left())) == Got(r.value, Left())
    {
      hide U8;
      hide U32;
      var compression := ReadU8();
      if compression.None? { return None; }
      if compression.value == STORED { return Some((compression.value, None)); }
      var size := ReadU32();
      if size.None? { return None; }
      r := Some((compression.value, size));
    }

    method ReadRecord() returns (r: Option<FileRecord>)
      requires Valid()
      modifies this
      ensures Valid()
      ensures r.Some? <==> Record(old(Left())).Got?
      ensures r.Some? ==> Record(old(Left())) == Got(r.value, Left())
    {
      hide ReadIdentity;
      hide SizedText;
      hide Checksum;
      hide OriginalSize;
      var id := ReadIdentityFields();
      if id.None? { return None; }
      var filename := ReadSizedText();
      if filename.None? { return None; }
      var ok := SkipChecksum();
      if !ok { return None; }
      var contentType := ReadSizedText();
      if contentType.None? { return None; }
      var form := ReadForm();
      if form.None? { return None; }
      r := Some(FileRecord(id.value.item, id.value.size, id.value.version, filename.value,
                           contentType.value, form.value.0, form.value.1));
    }
  }

  lemma {:induction false} RecordsSnoc(count: nat, s: seq<byte>)
    requires Records(count, s).Got?
    ensures (var left := Records(count, s).rest;
             Records(count + 1, s) == match Record(left)
                                      case Short => Short
                                      case Got(last, rest) => Got(Records(count, s).value + [last], rest))
    decreases count
  {
    hide Record;
    if count == 0 {
      FirstRecord(s);
      var none: seq<FileRecord> := [];
      if Record(s).Got? { assert none + [Record(s).value] == [Record(s).value]; }
    } else {
      var first, rest := Record(s).value, Record(s).rest;
      RecordsSnoc(count - 1, rest);
      var others, left := Records(count - 1, rest).value, Records(count - 1, rest).rest;
      if Record(left).Got? {
        assert ([first] + others) + [Record(left).value] == [first] + (others + [Record(left).value]);
      }
    }
  }

  lemma FirstRecord(s: seq<byte>)
    ensures Records(0, s) == Got([], s)
    ensures Records(1, s) == match Record(s) case Short => Short case Got(first, rest) => Got([first], rest)
  {
    hide Record;
    if Record(s).Got? {
      assert Records(0, Record(s).rest) == Got([], Record(s).rest);
      assert [Record(s).value] + [] == [Record(s).value];
    }
  }

  lemma ShortNext(count: nat, s: seq<byte>)
    requires Records(count, s).Short?
    ensures Records(count + 1, s).Short?
    decreases count
  {
    hide Record;
    if count > 0 && Record(s).Got? { ShortNext(count - 1, Record(s).rest); }
  }

  lemma {:induction false} ShortStaysShort(count: nat, more: nat, s: seq<byte>)
    requires Records(count, s).Short? && count <= more
    ensures Records(more, s).Short?
    decreases more - count
  {
    if count < more {
      ShortNext(count, s);
      ShortStaysShort(count + 1, more, s);
    }
  }

  lemma IndexOf(data: seq<byte>)
    ensures U16(data).Short? ==> Index(data) == None
    ensures U16(data).Got? ==>
              Index(data) == match Records(U16(data).value, U16(data).rest)
                             case Short => None
                             case Got(records, left) => if left == [] then Some(records) else None
  {}

  method ParseIndex(data: seq<byte>) returns (r: Option<seq<FileRecord>>)
    ensures r == Index(data)
  {
    hide Record;
    hide Records;
    hide U16;
    hide Index;
    hide Cursor.Left;
    IndexOf(data);
    var cursor := new Cursor(data);
    var count := cursor.ReadU16();
    if count.None? { return None; }
    ghost var body := cursor.Left();
    var records: seq<FileRecord> := [];
    FirstRecord(body);
    for index := 0 to count.value
      invariant cursor.Valid()
      invariant Records(index, body) == Got(records, cursor.Left())
    {
      RecordsSnoc(index, body);
      var record := cursor.ReadRecord();
      if record.None? {
        ShortStaysShort(index + 1, count.value, body);
        return None;
      }
      records := records + [record.value];
    }
    var end := cursor.AtEnd();
    r := if end then Some(records) else None;
  }
}
