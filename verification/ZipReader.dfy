module ZipReader {
  /** The archive read back, path to bytes, refusing whatever it does not understand. */

  import opened Wrappers
  import opened Crc32
  import opened ZipFormat
  import opened Zip
  import opened ZipPaths

  type Files = map<string, seq<Byte>>

  function Subarray(b: seq<Byte>, from: nat, size: nat): seq<Byte> {
    if from >= |b| then [] else if from + size > |b| then b[from..] else b[from..][..size]
  }

  /** A buffer as its methods show it: two reads that need their bytes there, and a slice that clamps. */
  datatype Buffer = Buffer(length: nat, u16: nat -> nat, u32: nat -> nat, subarray: (nat, nat) -> seq<Byte>)

  function BufferOf(b: seq<Byte>): Buffer {
    Buffer(|b|,
           (at: nat) => if at + 2 <= |b| then U16(b, at) else 0,
           (at: nat) => if at + 4 <= |b| then U32(b, at) else 0,
           (from: nat, size: nat) => Subarray(b, from, size))
  }

  /** The last end signature at or before `at`, no earlier than `earliest`. */
  function EndFrom(b: Buffer, at: int, earliest: nat): (found: Option<nat>)
    ensures found.Some? ==> earliest <= found.value <= at && b.u32(found.value) == END_RECORD
    ensures forall k: nat | (if found.Some? then found.value < k else earliest <= k) && k <= at :: b.u32(k) != END_RECORD
    decreases at
  {
    if at < earliest then None
    else if b.u32(at) == END_RECORD then Some(at)
    else EndFrom(b, at - 1, earliest)
  }

  function Earliest(b: Buffer): nat {
    if b.length - 22 - MAX16 > 0 then b.length - 22 - MAX16 else 0
  }

  function EndOfDirectory(b: Buffer): (r: Result<nat, Refusal>)
    ensures r.Ok? ==> r.value + 22 <= b.length
  {
    var found := EndFrom(b, b.length - 22, Earliest(b));
    if found.None? then Err(NotAnArchive)
    else if b.u16(found.value + 4) != 0 || b.u16(found.value + 6) != 0 then Err(SplitArchive)
    else Ok(found.value)
  }

  /** What a central header says of its entry. */
  datatype Header = Header(path: string, scheme: nat, crc: nat, compressed: nat, uncompressed: nat, localAt: nat, next: nat)

  function HeaderAt(b: Buffer, at: nat, codec: Codec): Result<Header, Refusal> {
    if at + 4 > b.length then Err(OutOfRange)
    else if b.u32(at) != CENTRAL_HEADER then Err(BadCentralDirectory)
    else if at + 46 > b.length then Err(OutOfRange)
    else
      var nameLength := b.u16(at + 28);
      Understood(b.u16(at + 8),
                 Header(codec.text(b.subarray(at + 46, nameLength)), b.u16(at + 10), b.u32(at + 16),
                        b.u32(at + 20), b.u32(at + 24), b.u32(at + 42),
                        at + 46 + nameLength + b.u16(at + 30) + b.u16(at + 32)))
  }

  /** Refused: what is encrypted, what has its sizes behind its data, and what has them in ZIP64's fields. */
  function Understood(flags: nat, header: Header): Result<Header, Refusal> {
    if flags % 2 == 1 then Err(EncryptedEntry)
    else if flags / 8 % 2 == 1 then Err(StreamedEntry)
    else if header.compressed == MAX32 || header.uncompressed == MAX32 then Err(Zip64Entry)
    else Ok(header)
  }

  function ContentOf(b: Buffer, header: Header, codec: Codec): Result<seq<Byte>, Refusal> {
    var at := header.localAt;
    if at + 4 > b.length then Err(OutOfRange)
    else if b.u32(at) != LOCAL_HEADER then Err(BadLocalHeader)
    else if at + 30 > b.length then Err(OutOfRange)
    else
      var stored := b.subarray(at + 30 + b.u16(at + 26) + b.u16(at + 28), header.compressed);
      var content :=
        if header.scheme == 0 then Ok(stored)
        else if header.scheme == 8 then
          var inflated := codec.inflate(stored);
          if inflated.Some? then Ok(inflated.value) else Err(InflateFailed)
        else Err(UnsupportedCompression);
      if content.Ok? && |content.value| != header.uncompressed then Err(SizeMismatch) else content
  }

  datatype Found = Found(path: string, content: seq<Byte>, next: nat)

  /** One entry of the directory, its content checked. */
  function EntryAt(b: Buffer, at: nat, codec: Codec): Result<Found, Refusal> {
    var header := HeaderAt(b, at, codec);
    if header.Err? then Err(header.error)
    else
      var content := ContentOf(b, header.value, codec);
      if content.Err? then Err(content.error)
      else if Checksum(content.value) != header.value.crc then Err(ChecksumMismatch)
      else Ok(Found(header.value.path, content.value, header.value.next))
  }

  /** The entries left to read, from where the directory goes on. */
  function ReadFrom(entryAt: nat -> Result<Found, Refusal>, at: nat, count: nat, files: Files): Result<Files, Refusal>
    decreases count
  {
    if count == 0 then Ok(files)
    else
      var entry := entryAt(at);
      if entry.Err? then Err(entry.error)
      else if entry.value.path in files then Err(DuplicatePath)
      else ReadFrom(entryAt, entry.value.next, count - 1, files[entry.value.path := entry.value.content])
  }

  function EntryReader(b: Buffer, codec: Codec): nat -> Result<Found, Refusal> {
    (at: nat) => EntryAt(b, at, codec)
  }

  function ReadBuffer(b: Buffer, entryAt: nat -> Result<Found, Refusal>): Result<Files, Refusal> {
    var end := EndOfDirectory(b);
    if end.Err? then Err(end.error)
    else ReadFrom(entryAt, b.u32(end.value + 16), b.u16(end.value + 10), map[])
  }

  function Read(archive: seq<Byte>, codec: Codec): Result<Files, Refusal> {
    ReadBuffer(BufferOf(archive), EntryReader(BufferOf(archive), codec))
  }

  method FindEndOfCentralDirectory(b: Buffer) returns (r: Result<nat, Refusal>)
    ensures r == EndOfDirectory(b)
  {
    var earliest := Earliest(b);
    var at := b.length - 22;
    while at >= earliest
      invariant at <= b.length - 22
      invariant EndFrom(b, b.length - 22, earliest) == EndFrom(b, at, earliest)
      decreases at
    {
      if b.u32(at) == END_RECORD {
        if b.u16(at + 4) != 0 || b.u16(at + 6) != 0 { return Err(SplitArchive); }
        return Ok(at);
      }
      at := at - 1;
    }
    return Err(NotAnArchive);
  }

  method ReadEntry(b: Buffer, at: nat, codec: Codec, table: array<nat>) returns (r: Result<Found, Refusal>)
    requires IsTable(table)
    ensures r == EntryAt(b, at, codec)
  {
    var header := HeaderAt(b, at, codec);
    if header.Err? { return Err(header.error); }
    var content := ContentOf(b, header.value, codec);
    if content.Err? { return Err(content.error); }
    var crc := Compute(table, content.value);
    if crc != header.value.crc { return Err(ChecksumMismatch); }
    return Ok(Found(header.value.path, content.value, header.value.next));
  }

  /** Any bytes at all are read or refused, as `Read` says. */
  method ReadZip(archive: seq<Byte>, codec: Codec, table: array<nat>) returns (r: Result<Files, Refusal>)
    requires IsTable(table)
    ensures r == Read(archive, codec)
  {
    var bytes := BufferOf(archive);
    var end := FindEndOfCentralDirectory(bytes);
    if end.Err? { return Err(end.error); }
    r := ReadDirectory(bytes, bytes.u32(end.value + 16), bytes.u16(end.value + 10), codec, table);
  }

  method ReadDirectory(b: Buffer, start: nat, count: nat, codec: Codec, table: array<nat>) returns (r: Result<Files, Refusal>)
    requires IsTable(table)
    ensures r == ReadFrom(EntryReader(b, codec), start, count, map[])
  {
    hide EntryAt;
    ghost var entryAt := EntryReader(b, codec);
    var position := start;
    var files: Files := map[];
    for index := 0 to count
      invariant ReadFrom(entryAt, start, count, map[]) == ReadFrom(entryAt, position, count - index, files)
    {
      var entry := ReadEntry(b, position, codec, table);
      assert entryAt(position) == entry;
      if entry.Err? { return Err(entry.error); }
      if entry.value.path in files { return Err(DuplicatePath); }
      files := files[entry.value.path := entry.value.content];
      position := entry.value.next;
    }
    r := Ok(files);
  }

  // --- What is read has been checked ---------------------------------------------------------

  /** The central header at `at` and the data it leads to vouch for the file, by their bytes. */
  ghost predicate Vouched(b: Buffer, at: nat, codec: Codec, path: string, content: seq<Byte>) {
    && at + 46 <= b.length && b.u32(at) == 0x02014b50
    && b.u16(at + 8) % 2 == 0 && b.u16(at + 8) / 8 % 2 == 0
    && path == codec.text(b.subarray(at + 46, b.u16(at + 28)))
    && Checksum(content) == b.u32(at + 16) && |content| == b.u32(at + 24) != 0xffffffff && b.u32(at + 20) != 0xffffffff
    && var from := b.u32(at + 42);
       && from + 30 <= b.length && b.u32(from) == 0x04034b50
       && var data := b.subarray(from + 30 + b.u16(from + 26) + b.u16(from + 28), b.u32(at + 20));
          || (b.u16(at + 10) == 0 && content == data)
          || (b.u16(at + 10) == 8 && codec.inflate(data) == Some(content))
  }

  function PathAt(b: Buffer, at: nat, codec: Codec): string { codec.text(b.subarray(at + 46, b.u16(at + 28))) }

  function NextAt(b: Buffer, at: nat): nat { at + 46 + b.u16(at + 28) + b.u16(at + 30) + b.u16(at + 32) }

  lemma EntryIsVouched(b: Buffer, at: nat, codec: Codec)
    requires EntryAt(b, at, codec).Ok?
    ensures var found := EntryAt(b, at, codec).value;
            Vouched(b, at, codec, found.path, found.content) && found.path == PathAt(b, at, codec) && found.next == NextAt(b, at)
  {
    hide Checksum;
  }

  /** Header after header, so many from `at` on, each vouching for one file and no two for the same. */
  ghost predicate VouchedFrom(b: Buffer, at: nat, count: nat, codec: Codec, before: Files, files: Files)
    decreases count
  {
    if count == 0 then files == before
    else
      var path := PathAt(b, at, codec);
      && path !in before && path in files && Vouched(b, at, codec, path, files[path])
      && VouchedFrom(b, NextAt(b, at), count - 1, codec, before[path := files[path]], files)
  }

  lemma {:induction false} ReadFromGrows(entryAt: nat -> Result<Found, Refusal>, at: nat, count: nat, before: Files)
    requires ReadFrom(entryAt, at, count, before).Ok?
    ensures var files := ReadFrom(entryAt, at, count, before).value;
            before.Keys <= files.Keys && forall path | path in before :: files[path] == before[path]
    decreases count
  {
    if count > 0 {
      var entry := entryAt(at).value;
      ReadFromGrows(entryAt, entry.next, count - 1, before[entry.path := entry.content]);
    }
  }

  lemma {:induction false} ReadFromIsVouched(b: Buffer, at: nat, count: nat, codec: Codec, before: Files)
    requires ReadFrom(EntryReader(b, codec), at, count, before).Ok?
    ensures VouchedFrom(b, at, count, codec, before, ReadFrom(EntryReader(b, codec), at, count, before).value)
    decreases count
  {
    hide EntryAt, Vouched, PathAt, NextAt;
    if count > 0 {
      var entryAt := EntryReader(b, codec);
      assert entryAt(at) == EntryAt(b, at, codec);
      EntryIsVouched(b, at, codec);
      var entry := entryAt(at).value;
      ReadFromIsVouched(b, entry.next, count - 1, codec, before[entry.path := entry.content]);
      ReadFromGrows(entryAt, entry.next, count - 1, before[entry.path := entry.content]);
    }
  }

  /**
   Of any bytes whatever: if they are read, then from the last end signature as many
   headers as it says, one after another from where it says, vouch for the files read, each
   for its own path, size and checksum, and there are no other files.
   */
  lemma WhatIsReadIsVouched(archive: seq<Byte>, codec: Codec) returns (end: nat)
    requires Read(archive, codec).Ok?
    ensures var b := BufferOf(archive);
            && end + 22 <= b.length && b.u32(end) == 0x06054b50 && b.u16(end + 4) == 0 && b.u16(end + 6) == 0
            && (forall k: nat | end < k <= b.length - 22 :: b.u32(k) != 0x06054b50)
            && VouchedFrom(b, b.u32(end + 16), b.u16(end + 10), codec, map[], Read(archive, codec).value)
  {
    hide EntryReader, ReadFrom, VouchedFrom;
    var b := BufferOf(archive);
    end := EndOfDirectory(b).value;
    ReadFromIsVouched(b, b.u32(end + 16), b.u16(end + 10), codec, map[]);
  }

  // --- The round trip ----------------------------------------------------------------------

  /** The reader's view of an item: its name and body decode to its path and content. */
  ghost predicate Decodes(item: Item, codec: Codec) {
    && codec.text(item.name) == item.path
    && (item.scheme == 0 || item.scheme == 8)
    && (item.scheme == 0 ==> item.body == item.content)
    && (item.scheme == 8 ==> codec.inflate(item.body) == Some(item.content))
  }

  function FilesOf(items: seq<Item>, n: nat): Files
    requires n <= |items|
  {
    if n == 0 then map[] else FilesOf(items, n - 1)[items[n - 1].path := items[n - 1].content]
  }

  /** What is read in a part is read at the part's place in the whole. */
  lemma ReadShifts(b: seq<Byte>, at: nat, part: seq<Byte>)
    requires at + |part| <= |b| && b[at..][..|part|] == part
    ensures forall k | 0 <= k < |part| :: b[at + k] == part[k]
  {
    forall k | 0 <= k < |part| ensures b[at + k] == part[k] {
      assert b[at..][..|part|][k] == b[at + k];
    }
  }

  lemma Shift16(b: seq<Byte>, at: nat, part: seq<Byte>, k: nat)
    requires at + |part| <= |b| && (forall k | 0 <= k < |part| :: b[at + k] == part[k]) && k + 2 <= |part|
    ensures U16(b, at + k) == U16(part, k) == BufferOf(b).u16(at + k)
  {
    assert b[at + (k + 1)] == part[k + 1];
  }

  lemma Shift32(b: seq<Byte>, at: nat, part: seq<Byte>, k: nat)
    requires at + |part| <= |b| && (forall k | 0 <= k < |part| :: b[at + k] == part[k]) && k + 4 <= |part|
    ensures U32(b, at + k) == U32(part, k) == BufferOf(b).u32(at + k)
  {
    Shift16(b, at, part, k);
    Shift16(b, at, part, k + 2);
  }

  lemma SliceOfSlice(b: seq<Byte>, at: nat, part: seq<Byte>, from: nat, size: nat)
    requires at + |part| <= |b| && b[at..][..|part|] == part && from + size <= |part|
    ensures BufferOf(b).subarray(at + from, size) == part[from..][..size]
  {
    var whole, sliced := b[at + from..][..size], part[from..][..size];
    assert forall k | 0 <= k < size :: whole[k] == b[at + from + k] == sliced[k];
    assert whole == sliced;
    assert Subarray(b, at + from, size) == part[from..][..size];
  }

  /** The numbers a central header holds, as the reader asks for them. */
  predicate CentralNumbers(b: Buffer, at: nat, item: Item, offset: nat) {
    && at + CentralSize(item) <= b.length
    && b.u32(at) == CENTRAL_HEADER && b.u16(at + 8) == UTF8_NAME && b.u16(at + 10) == item.scheme
    && b.u32(at + 16) == Checksum(item.content) && b.u32(at + 20) == |item.body| && b.u32(at + 24) == |item.content|
    && b.u16(at + 28) == |item.name| && b.u16(at + 30) == 0 && b.u16(at + 32) == 0 && b.u32(at + 42) == offset
    && b.subarray(at + 46, |item.name|) == item.name
  }

  predicate LocalNumbers(b: Buffer, at: nat, item: Item) {
    && at + LocalSize(item) <= b.length
    && b.u32(at) == LOCAL_HEADER && b.u16(at + 26) == |item.name| && b.u16(at + 28) == 0
    && b.subarray(at + 30 + |item.name|, |item.body|) == item.body
  }

  predicate EndNumbers(b: Buffer, count: nat, directoryAt: nat) {
    && b.length >= 22
    && var at := b.length - 22;
       b.u32(at) == END_RECORD && b.u16(at + 4) == 0 && b.u16(at + 6) == 0 && b.u16(at + 10) == count && b.u32(at + 16) == directoryAt
  }

  lemma CentralHeld(part: seq<Byte>, item: Item, offset: nat)
    requires IsCentral(part, item, offset)
    ensures U32(part, 0) == CENTRAL_HEADER && U16(part, 8) == UTF8_NAME && U16(part, 10) == item.scheme
    ensures U32(part, 16) == Checksum(item.content) && U32(part, 20) == |item.body| && U32(part, 24) == |item.content|
    ensures U16(part, 28) == |item.name| && U16(part, 30) == 0 && U16(part, 32) == 0 && U32(part, 42) == offset
  {
    var fields := CentralFields(item, Checksum(item.content), offset);
    assert fields[0].HeldBy(part) && fields[3].HeldBy(part) && fields[4].HeldBy(part) && fields[7].HeldBy(part);
    assert fields[8].HeldBy(part) && fields[9].HeldBy(part) && fields[10].HeldBy(part) && fields[11].HeldBy(part);
    assert fields[12].HeldBy(part) && fields[16].HeldBy(part);
  }

  lemma LocalHeld(part: seq<Byte>, item: Item)
    requires IsLocal(part, item)
    ensures U32(part, 0) == LOCAL_HEADER && U16(part, 26) == |item.name| && U16(part, 28) == 0
  {
    var fields := LocalFields(item, Checksum(item.content));
    assert fields[0].HeldBy(part) && fields[9].HeldBy(part) && fields[10].HeldBy(part);
  }

  lemma EndHeld(end: seq<Byte>, count: nat, size: nat, at: nat)
    requires |end| == 22 && Holds(end, EndFields(count, size, at))
    ensures U32(end, 0) == END_RECORD && U16(end, 4) == 0 && U16(end, 6) == 0
    ensures U16(end, 10) == count && U32(end, 16) == at
  {
    var fields := EndFields(count, size, at);
    assert fields[0].HeldBy(end) && fields[1].HeldBy(end) && fields[2].HeldBy(end);
    assert fields[4].HeldBy(end) && fields[6].HeldBy(end);
  }

  lemma CentralReads(b: seq<Byte>, at: nat, part: seq<Byte>, item: Item, offset: nat)
    requires at + |part| <= |b| && b[at..][..|part|] == part && IsCentral(part, item, offset)
    ensures CentralNumbers(BufferOf(b), at, item, offset)
  {
    CentralHeld(part, item, offset);
    ReadShifts(b, at, part);
    Shift32(b, at, part, 0);
    Shift16(b, at, part, 8);
    Shift16(b, at, part, 10);
    Shift32(b, at, part, 16);
    Shift32(b, at, part, 20);
    Shift32(b, at, part, 24);
    Shift16(b, at, part, 28);
    Shift16(b, at, part, 30);
    Shift16(b, at, part, 32);
    Shift32(b, at, part, 42);
    SliceOfSlice(b, at, part, 46, |item.name|);
  }

  lemma LocalReads(b: seq<Byte>, at: nat, part: seq<Byte>, item: Item)
    requires at + |part| <= |b| && b[at..][..|part|] == part && IsLocal(part, item)
    ensures LocalNumbers(BufferOf(b), at, item)
  {
    LocalHeld(part, item);
    ReadShifts(b, at, part);
    Shift32(b, at, part, 0);
    Shift16(b, at, part, 26);
    Shift16(b, at, part, 28);
    SliceOfSlice(b, at, part, 30 + |item.name|, |item.body|);
  }

  lemma EndReads(b: seq<Byte>, end: seq<Byte>, count: nat, size: nat, directoryAt: nat)
    requires |b| >= 22 && b[|b| - 22..] == end && Holds(end, EndFields(count, size, directoryAt))
    ensures EndNumbers(BufferOf(b), count, directoryAt)
  {
    var at := |b| - 22;
    assert b[at..][..22] == end;
    EndHeld(end, count, size, directoryAt);
    ReadShifts(b, at, end);
    Shift32(b, at, end, 0);
    Shift16(b, at, end, 4);
    Shift16(b, at, end, 6);
    Shift16(b, at, end, 10);
    Shift32(b, at, end, 16);
  }

  function HeaderFor(item: Item, offset: nat, next: nat): Header {
    Header(item.path, item.scheme, Checksum(item.content), |item.body|, |item.content|, offset, next)
  }

  lemma PlainFlags(header: Header)
    ensures Understood(UTF8_NAME, header)
            == if header.compressed == MAX32 || header.uncompressed == MAX32 then Err(Zip64Entry) else Ok(header)
  {
  }

  lemma HeaderReads(b: Buffer, at: nat, item: Item, offset: nat, codec: Codec)
    requires CentralNumbers(b, at, item, offset) && codec.text(item.name) == item.path && |item.body| < MAX32
    ensures HeaderAt(b, at, codec) ==
            if |item.content| == MAX32 then Err(Zip64Entry) else Ok(HeaderFor(item, offset, at + CentralSize(item)))
  {
    hide Understood, Checksum;
    PlainFlags(HeaderFor(item, offset, at + CentralSize(item)));
  }

  lemma ContentReads(b: Buffer, item: Item, header: Header, codec: Codec)
    requires LocalNumbers(b, header.localAt, item) && Decodes(item, codec)
    requires header.scheme == item.scheme && header.compressed == |item.body| && header.uncompressed == |item.content|
    ensures ContentOf(b, header, codec) == Ok(item.content)
  {
  }

  /** An item's records read back as the item. */
  lemma EntryReads(b: Buffer, at: nat, item: Item, offset: nat, codec: Codec)
    requires CentralNumbers(b, at, item, offset) && LocalNumbers(b, offset, item)
    requires Decodes(item, codec) && |item.body| < MAX32
    ensures EntryAt(b, at, codec) ==
            if |item.content| == MAX32 then Err(Zip64Entry) else Ok(Found(item.path, item.content, at + CentralSize(item)))
  {
    hide HeaderAt, ContentOf, CentralNumbers, LocalNumbers, CentralSize, Checksum;
    HeaderReads(b, at, item, offset, codec);
    ContentReads(b, item, HeaderFor(item, offset, at + CentralSize(item)), codec);
  }

  /** No content needs ZIP64, whose marker the format's largest size is. */
  predicate Below4GB(items: seq<Item>, n: nat)
    requires n <= |items|
  {
    forall i | 0 <= i < n :: |items[i].content| != MAX32
  }

  ghost predicate AllDecode(items: seq<Item>, codec: Codec) {
    forall i | 0 <= i < |items| :: Decodes(items[i], codec) && |items[i].body| < MAX32
  }

  lemma {:induction false} PathsOf(items: seq<Item>, n: nat)
    requires n <= |items| && Distinct(items)
    ensures forall i | n <= i < |items| :: items[i].path !in FilesOf(items, n)
  {
    if n > 0 { PathsOf(items, n - 1); }
  }

  /** Every entry reads as its item says, from one place in the directory to the next. */
  ghost predicate EntriesRead(entryAt: nat -> Result<Found, Refusal>, items: seq<Item>, places: seq<nat>) {
    && |places| == |items| + 1
    && forall i {:trigger items[i]} | 0 <= i < |items| ::
        entryAt(places[i])
        == if |items[i].content| == MAX32 then Err(Zip64Entry)
           else Ok(Found(items[i].path, items[i].content, places[i + 1]))
  }

  lemma ReadOne(entryAt: nat -> Result<Found, Refusal>, at: nat, count: nat, files: Files)
    requires count > 0
    ensures entryAt(at).Err? ==> ReadFrom(entryAt, at, count, files) == Err(entryAt(at).error)
    ensures entryAt(at).Ok? && entryAt(at).value.path !in files ==>
              var entry := entryAt(at).value;
              ReadFrom(entryAt, at, count, files) == ReadFrom(entryAt, entry.next, count - 1, files[entry.path := entry.content])
  {
  }

  lemma {:induction false} DirectoryReads(entryAt: nat -> Result<Found, Refusal>, items: seq<Item>, places: seq<nat>, i: nat)
    requires i <= |items| && EntriesRead(entryAt, items, places) && Distinct(items) && Below4GB(items, i)
    ensures ReadFrom(entryAt, places[i], |items| - i, FilesOf(items, i))
            == if Below4GB(items, |items|) then Ok(FilesOf(items, |items|)) else Err(Zip64Entry)
    decreases |items| - i
  {
    if i < |items| {
      var item := items[i];
      ReadOne(entryAt, places[i], |items| - i, FilesOf(items, i));
      PathsOf(items, i);
      assert FilesOf(items, i + 1) == FilesOf(items, i)[item.path := item.content];
      if |item.content| != MAX32 {
        DirectoryReads(entryAt, items, places, i + 1);
      } else {
        assert !Below4GB(items, |items|);
      }
    }
  }

  function Places(items: seq<Item>): seq<nat> {
    seq(|items| + 1, i requires 0 <= i <= |items| => LocalAt(items, |items|) + CentralAt(items, i))
  }

  /** Each item's numbers are where the reader will ask for them. */
  ghost predicate NumbersRead(b: Buffer, items: seq<Item>, places: seq<nat>, offsets: seq<nat>) {
    && |places| == |items| + 1 && |offsets| == |items|
    && forall i {:trigger items[i]} | 0 <= i < |items| ::
        && CentralNumbers(b, places[i], items[i], offsets[i])
        && LocalNumbers(b, offsets[i], items[i])
        && places[i + 1] == places[i] + CentralSize(items[i])
  }

  lemma AllRead(b: Buffer, items: seq<Item>, places: seq<nat>, offsets: seq<nat>, codec: Codec)
    requires NumbersRead(b, items, places, offsets) && AllDecode(items, codec)
    ensures EntriesRead(EntryReader(b, codec), items, places)
  {
    hide EntryAt, CentralNumbers, LocalNumbers, Decodes;
    forall i {:trigger items[i]} | 0 <= i < |items|
      ensures EntryReader(b, codec)(places[i])
              == if |items[i].content| == MAX32 then Err(Zip64Entry)
                 else Ok(Found(items[i].path, items[i].content, places[i + 1]))
    {
      EntryReads(b, places[i], items[i], offsets[i], codec);
    }
  }

  function Offsets(items: seq<Item>): seq<nat> {
    seq(|items|, i requires 0 <= i < |items| => LocalAt(items, i))
  }

  lemma PartReads(parts: Parts, items: seq<Item>, i: nat)
    requires ArePartsOf(parts, items) && Sized(parts, items) && i < |items|
    ensures CentralNumbers(BufferOf(Bytes(parts)), LocalAt(items, |items|) + CentralAt(items, i), items[i], LocalAt(items, i))
    ensures LocalNumbers(BufferOf(Bytes(parts)), LocalAt(items, i), items[i])
  {
    var b := Bytes(parts);
    assert IsCentral(parts.centrals[i], items[i], LocalAt(items, i)) && IsLocal(parts.locals[i], items[i]);
    RecordsLie(parts, items, i);
    CentralReads(b, LocalAt(items, |items|) + CentralAt(items, i), parts.centrals[i], items[i], LocalAt(items, i));
    LocalReads(b, LocalAt(items, i), parts.locals[i], items[i]);
  }

  lemma PlacesStep(items: seq<Item>, i: nat)
    requires i < |items|
    ensures Places(items)[i] == LocalAt(items, |items|) + CentralAt(items, i) && Offsets(items)[i] == LocalAt(items, i)
    ensures Places(items)[i + 1] == Places(items)[i] + CentralSize(items[i])
  {
  }

  lemma ArchiveReads(parts: Parts, items: seq<Item>)
    requires ArePartsOf(parts, items) && Sized(parts, items)
    ensures NumbersRead(BufferOf(Bytes(parts)), items, Places(items), Offsets(items))
  {
    hide CentralNumbers, LocalNumbers, BufferOf, Bytes, ArePartsOf, Sized, LocalAt, CentralAt, CentralSize;
    forall i {:trigger items[i]} | 0 <= i < |items|
      ensures CentralNumbers(BufferOf(Bytes(parts)), Places(items)[i], items[i], Offsets(items)[i])
      ensures LocalNumbers(BufferOf(Bytes(parts)), Offsets(items)[i], items[i])
      ensures Places(items)[i + 1] == Places(items)[i] + CentralSize(items[i])
    {
      PartReads(parts, items, i);
      PlacesStep(items, i);
    }
  }

  /** What the writer puts in an archive decodes, whichever way it went in. */
  lemma PlannedDecode(plan: seq<Option<Item>>, entries: seq<Entry>, options: Options, codec: Codec)
    requires plan == Plan(entries, options, codec) && Sound(codec) && Accepts(plan)
    ensures AllDecode(Items(plan, |plan|), codec)
  {
    var items := Items(plan, |plan|);
    forall i | 0 <= i < |items| ensures Decodes(items[i], codec) && |items[i].body| < MAX32 {
      assert plan[i] == Some(items[i]) && plan[i] == PlanFor(entries[i], options, codec);
      LocalAtGrows(items, i, |items|);
    }
  }

  /**
   Reading what was written returns exactly the files, path to content — if and only if
   no content is 0xffffffff bytes long, the one size the writer accepts (deflated) that
   the reader takes for ZIP64.
   */
  lemma RoundTrip(entries: seq<Entry>, options: Options, codec: Codec, archive: seq<Byte>)
    requires var plan := Plan(entries, options, codec);
             Sound(codec) && Accepts(plan) && IsArchive(archive, Items(plan, |plan|))
    ensures var plan := Plan(entries, options, codec);
            var items := Items(plan, |plan|);
            Read(archive, codec) ==
            if Below4GB(items, |items|) then Ok(FilesOf(items, |items|)) else Err(Zip64Entry)
  {
    var plan := Plan(entries, options, codec);
    var items := Items(plan, |plan|);
    PlannedDecode(plan, entries, options, codec);
    ItemsRoundTrip(items, codec, archive);
  }

  /** Such a content is accepted wherever it deflates to what fits, and then what was written is refused. */
  lemma MarkerSizeIsRefused(entry: Entry, options: Options, codec: Codec, archive: seq<Byte>)
    requires Sound(codec) && !options.store && NormalisePath(entry.path).Some? && |entry.content| == MAX32
    requires OrElse(entry.modified, OrElse(options.modified, EPOCH)).year < 2108
    requires var name := codec.utf8(NormalisePath(entry.path).value);
             |name| <= MAX16 && 30 + |name| + |codec.deflate(entry.content)| <= MAX32
    ensures var plan := Plan([entry], options, codec);
            Accepts(plan) && (IsArchive(archive, Items(plan, |plan|)) ==> Read(archive, codec) == Err(Zip64Entry))
  {
    hide NormalisePath, Read, IsArchive;
    var plan := Plan([entry], options, codec);
    OneItem(plan, ItemOf(entry, NormalisePath(entry.path).value, options, codec));
    if IsArchive(archive, Items(plan, |plan|)) { RoundTrip([entry], options, codec, archive); }
  }

  lemma OneItem(plan: seq<Option<Item>>, item: Item)
    requires plan == [Some(item)] && FieldsFit(item) && LocalSize(item) <= MAX32
    ensures Accepts(plan) && Items(plan, |plan|) == [item]
  {
    assert Items(plan, 0) == [];
    var items := Items(plan, 1);
    assert LocalAt(items, 0) == 0 && CentralAt(items, 0) == 0;
  }

  lemma ItemsRoundTrip(items: seq<Item>, codec: Codec, archive: seq<Byte>)
    requires IsArchive(archive, items) && AllDecode(items, codec) && Distinct(items)
    ensures Read(archive, codec) == if Below4GB(items, |items|) then Ok(FilesOf(items, |items|)) else Err(Zip64Entry)
  {
    var parts :| ArePartsOf(parts, items) && archive == Bytes(parts);
    PartsAreSized(parts, items);
    ArchiveReads(parts, items);
    EndOfArchiveReads(parts, items);
    BufferRoundTrip(BufferOf(archive), items, Places(items), Offsets(items), codec);
  }

  lemma BufferRoundTrip(b: Buffer, items: seq<Item>, places: seq<nat>, offsets: seq<nat>, codec: Codec)
    requires NumbersRead(b, items, places, offsets) && EndNumbers(b, |items|, places[0])
    requires AllDecode(items, codec) && Distinct(items)
    ensures ReadBuffer(b, EntryReader(b, codec))
            == if Below4GB(items, |items|) then Ok(FilesOf(items, |items|)) else Err(Zip64Entry)
  {
    AllRead(b, items, places, offsets, codec);
    BufferReads(b, EntryReader(b, codec), items, places);
  }

  lemma EndOfArchiveReads(parts: Parts, items: seq<Item>)
    requires ArePartsOf(parts, items) && Sized(parts, items)
    ensures EndNumbers(BufferOf(Bytes(parts)), |items|, Places(items)[0])
  {
    EndLies(parts, items);
    EndReads(Bytes(parts), parts.end, |items|, CentralAt(items, |items|), LocalAt(items, |items|));
  }

  lemma BufferReads(b: Buffer, entryAt: nat -> Result<Found, Refusal>, items: seq<Item>, places: seq<nat>)
    requires EntriesRead(entryAt, items, places) && Distinct(items)
    requires EndNumbers(b, |items|, places[0])
    ensures ReadBuffer(b, entryAt) == if Below4GB(items, |items|) then Ok(FilesOf(items, |items|)) else Err(Zip64Entry)
  {
    DirectoryReads(entryAt, items, places, 0);
  }
}
