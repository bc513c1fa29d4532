module Zip {
  /**
   The archive writer and the reader that checks what it wrote.

   UTF-8 and DEFLATE are the runtime's: a `Codec` holds them as functions. Strings are
   sequences of Unicode scalar values, so every name is encodable.
   */

  import opened Wrappers
  import opened Crc32
  import opened ZipPaths
  import opened ZipFormat

  datatype Codec = Codec(
    utf8: string -> seq<Byte>,
    text: seq<Byte> -> string,
    deflate: seq<Byte> -> seq<Byte>,
    inflate: seq<Byte> -> Option<seq<Byte>>)

  /** Names decode to what was encoded, and inflating undoes deflating. */
  ghost predicate Sound(codec: Codec) {
    && (forall s :: codec.text(codec.utf8(s)) == s)
    && (forall b :: codec.inflate(codec.deflate(b)) == Some(b))
  }

  /** A moment as the local calendar fields of a `Date`. */
  type Stamp = s: StampFields | s.Valid() witness StampFields(1970, 1, 1, 0, 0, 0)

  datatype StampFields = StampFields(year: int, month: nat, day: nat, hours: nat, minutes: nat, seconds: nat) {
    predicate Valid() {
      1 <= month <= 12 && 1 <= day <= 31 && hours < 24 && minutes < 60 && seconds < 60
    }
  }

  datatype Entry = Entry(path: string, content: seq<Byte>, modified: Option<Stamp>)

  datatype Options = Options(modified: Option<Stamp>, store: bool)

  datatype Refusal =
    | EmptyArchive | DuplicatePath | InvalidPath | ArchiveTooLarge
    | OutOfRange  // the RangeError of a buffer's read or write
    | NotAnArchive | SplitArchive | BadCentralDirectory | EncryptedEntry | StreamedEntry | Zip64Entry
    | BadLocalHeader | UnsupportedCompression | InflateFailed | SizeMismatch | ChecksumMismatch

  const MAX16 := 0xffff
  const MAX32 := 0xffff_ffff

  /** Two-second resolution from 1980; anything earlier clamps to the first moment. */
  function DosTimestamp(when: Stamp): (r: (nat, nat))
    ensures r.0 <= MAX16
    ensures r.1 <= MAX16 <==> when.year < 2108
  {
    if when.year < 1980 then (0, 0x21)
    else (when.hours * 2048 + when.minutes * 32 + when.seconds / 2,
          (when.year - 1980) * 512 + when.month * 32 + when.day)
  }

  /** Every field is read back from its bits, the seconds to the even one below; before 1980 it is that year's first day. */
  lemma TimestampReadsBack(when: Stamp)
    ensures var (time, date) := DosTimestamp(when);
            if when.year < 1980 then time == 0 && date / 512 == 0 && date / 32 % 16 == 1 && date % 32 == 1
            else
              && time / 2048 == when.hours && time / 32 % 64 == when.minutes && 2 * (time % 32) == when.seconds - when.seconds % 2
              && 1980 + date / 512 == when.year && date / 32 % 16 == when.month && date % 32 == when.day
  {
    if when.year >= 1980 {
      Unpacked(when.hours, when.minutes, when.seconds / 2, 64);
      Unpacked(when.year - 1980, when.month, when.day, 16);
    }
  }

  lemma Unpacked(high: nat, middle: nat, low: nat, width: nat)
    requires (width == 16 || width == 64) && middle < width && low < 32
    ensures var packed := high * (32 * width) + middle * 32 + low;
            packed / (32 * width) == high && packed / 32 % width == middle && packed % 32 == low
  {
    var packed := high * (32 * width) + middle * 32 + low;
    assert packed / 32 == high * width + middle;
  }

  // --- What is written -------------------------------------------------------------------

  const EPOCH: Stamp := StampFields(1970, 1, 1, 0, 0, 0)

  function OrElse(given: Option<Stamp>, default: Stamp): Stamp {
    if given.Some? then given.value else default
  }

  /** The entry as it goes into the archive, stored unless deflating makes it smaller. */
  function ItemOf(entry: Entry, path: string, options: Options, codec: Codec): Item {
    var deflated := codec.deflate(entry.content);
    var useDeflate := !options.store && |deflated| < |entry.content|;
    var stamp := DosTimestamp(OrElse(entry.modified, OrElse(options.modified, EPOCH)));
    Item(path, codec.utf8(path), if useDeflate then 8 else 0, stamp.0, stamp.1,
         entry.content, if useDeflate then deflated else entry.content)
  }

  /** An entry keeps its content, by the shorter way unless it is to be stored, its own moment before the archive's, and its path normalised. */
  lemma PlannedAsAsked(entry: Entry, options: Options, codec: Codec)
    requires NormalisePath(entry.path).Some?
    ensures var item, deflated := ItemOf(entry, NormalisePath(entry.path).value, options, codec), codec.deflate(entry.content);
            && Some(item.path) == NormalisePath(entry.path) && item.name == codec.utf8(item.path) && item.content == entry.content
            && |item.body| <= |entry.content| && (!options.store ==> |item.body| <= |deflated|)
            && (item.scheme == 8 ==> item.body == deflated) && (item.scheme != 8 ==> item.scheme == 0 && item.body == entry.content)
            && (options.store || |deflated| >= |entry.content| ==> item.scheme == 0)
            && var stamp := if entry.modified.Some? then entry.modified.value
                            else if options.modified.Some? then options.modified.value else StampFields(1970, 1, 1, 0, 0, 0);
               (item.time, item.date) == DosTimestamp(stamp)
  {
  }

  /** The fields an item's headers hold are wide enough for it. */
  predicate FieldsFit(item: Item) {
    && item.scheme <= MAX16 && item.time <= MAX16 && item.date <= MAX16
    && |item.name| <= MAX16 && |item.body| <= MAX32 && |item.content| <= MAX32
  }

  /** The entry's item, unless its path is unusable. */
  function PlanFor(entry: Entry, options: Options, codec: Codec): Option<Item> {
    var path := NormalisePath(entry.path);
    if path.None? then None else Some(ItemOf(entry, path.value, options, codec))
  }

  function Plan(entries: seq<Entry>, options: Options, codec: Codec): seq<Option<Item>> {
    seq(|entries|, i requires 0 <= i < |entries| => PlanFor(entries[i], options, codec))
  }

  predicate PathsUsable(plan: seq<Option<Item>>, n: nat)
    requires n <= |plan|
  {
    forall i | 0 <= i < n :: plan[i].Some?
  }

  function Items(plan: seq<Option<Item>>, n: nat): (items: seq<Item>)
    requires n <= |plan| && PathsUsable(plan, n)
    ensures |items| == n && forall i | 0 <= i < n :: plan[i] == Some(items[i])
  {
    if n == 0 then [] else Items(plan, n - 1) + [plan[n - 1].value]
  }

  predicate Distinct(items: seq<Item>) {
    forall i, j | 0 <= i < j < |items| :: items[i].path != items[j].path
  }

  predicate AllFit(items: seq<Item>) {
    forall i | 0 <= i < |items| :: FieldsFit(items[i])
  }

  /** Exactly the lists an archive can be made of. */
  predicate Accepts(plan: seq<Option<Item>>) {
    && 0 < |plan| <= MAX16
    && PathsUsable(plan, |plan|)
    && var items := Items(plan, |plan|);
       && Distinct(items)
       && AllFit(items)
       && LocalAt(items, |items|) <= MAX32
       && CentralAt(items, |items|) <= MAX32
  }

  // --- The buffers -----------------------------------------------------------------------

  /** Fields one after another, each as wide as its value needs. */
  predicate Ascending(fields: seq<Field>) {
    && (forall i | 0 <= i < |fields| :: fields[i].Fits())
    && (forall i, j | 0 <= i < j < |fields| :: fields[i].at + fields[i].width <= fields[j].at)
  }

  /** `writeUInt16LE` and `writeUInt32LE`, field by field. */
  method WriteFields(buffer: array<Byte>, fields: seq<Field>)
    requires Ascending(fields)
    requires forall i | 0 <= i < |fields| :: fields[i].at + fields[i].width <= buffer.Length
    modifies buffer
    ensures Holds(buffer[..], fields)
  {
    for k := 0 to |fields|
      invariant Holds(buffer[..], fields[..k])
    {
      ghost var before := buffer[..];
      var f := fields[k];
      buffer[f.at] := f.value % 256;
      buffer[f.at + 1] := f.value / 256 % 256;
      if f.width == 4 {
        buffer[f.at + 2] := f.value / 0x1_0000 % 256;
        buffer[f.at + 3] := f.value / 0x100_0000;
      }
      forall i | 0 <= i < k ensures fields[i].HeldBy(buffer[..]) {
        assert fields[..k][i].HeldBy(before);
        StillHeld(before, buffer[..], fields[i], f.at);
      }
      Rebuilt(f.value);
      assert f.HeldBy(buffer[..]);
    }
    assert fields[..|fields|] == fields;
  }

  lemma StillHeld(before: seq<Byte>, after: seq<Byte>, field: Field, upTo: nat)
    requires field.HeldBy(before) && field.at + field.width <= upTo <= |before| == |after|
    requires forall k | 0 <= k < upTo :: after[k] == before[k]
    ensures field.HeldBy(after)
  {
  }

  lemma Rebuilt(n: nat)
    ensures n <= MAX16 ==> n % 256 + 256 * (n / 256 % 256) == n
    ensures n <= MAX32 ==>
              (n % 256 + 256 * (n / 256 % 256)) + 0x1_0000 * (n / 0x1_0000 % 256 + 256 * (n / 0x100_0000)) == n
  {
  }

  method LocalRecord(item: Item, crc: nat) returns (record: seq<Byte>)
    requires crc == Checksum(item.content) && Ascending(LocalFields(item, crc))
    ensures IsLocal(record, item)
  {
    var local := new Byte[30](_ => 0);
    var fields := LocalFields(item, crc);
    WriteFields(local, fields);
    record := local[..] + item.name + item.body;
    WithTail(local[..], item.name + item.body, fields);
    assert record == local[..] + (item.name + item.body);
  }

  lemma WithTail(header: seq<Byte>, tail: seq<Byte>, fields: seq<Field>)
    requires Holds(header, fields)
    ensures Holds(header + tail, fields)
  {
    forall i | 0 <= i < |fields| ensures fields[i].HeldBy(header + tail) {
      assert fields[i].HeldBy(header);
    }
  }

  method CentralRecord(item: Item, crc: nat, offset: nat) returns (record: seq<Byte>)
    requires crc == Checksum(item.content) && Ascending(CentralFields(item, crc, offset))
    ensures IsCentral(record, item, offset)
  {
    var header := new Byte[46](_ => 0);
    var fields := CentralFields(item, crc, offset);
    WriteFields(header, fields);
    record := header[..] + item.name;
    WithTail(header[..], item.name, fields);
  }

  method EndRecord(count: nat, directorySize: nat, directoryAt: nat) returns (record: seq<Byte>)
    requires Ascending(EndFields(count, directorySize, directoryAt))
    ensures |record| == 22 && Holds(record, EndFields(count, directorySize, directoryAt))
  {
    var end := new Byte[22](_ => 0);
    WriteFields(end, EndFields(count, directorySize, directoryAt));
    record := end[..];
  }

  lemma FieldsAscend(item: Item, crc: nat, offset: nat)
    requires FieldsFit(item) && crc <= MAX32 && offset <= MAX32
    ensures Ascending(LocalFields(item, crc))
    ensures Ascending(CentralFields(item, crc, offset))
  {
  }

  lemma EndAscends(count: nat, size: nat, at: nat)
    requires count <= MAX16 && size <= MAX32 && at <= MAX32
    ensures Ascending(EndFields(count, size, at))
  {
  }

  lemma OneMoreLocal(locals: seq<seq<Byte>>, local: seq<Byte>, items: seq<Item>, item: Item)
    requires AreLocals(locals, items) && IsLocal(local, item)
    ensures AreLocals(locals + [local], items + [item])
  {
    forall i | 0 <= i < |items| + 1 ensures IsLocal((locals + [local])[i], (items + [item])[i]) {
      if i < |items| { assert IsLocal(locals[i], items[i]); }
    }
  }

  lemma OneMoreCentral(centrals: seq<seq<Byte>>, central: seq<Byte>, items: seq<Item>, item: Item)
    requires AreCentrals(centrals, items) && IsCentral(central, item, LocalAt(items, |items|))
    ensures AreCentrals(centrals + [central], items + [item])
  {
    var more := items + [item];
    forall i | 0 <= i < |more| ensures IsCentral((centrals + [central])[i], more[i], LocalAt(more, i)) {
      PrefixOffsets(items, [item], i);
      if i < |items| { assert IsCentral(centrals[i], items[i], LocalAt(items, i)); }
    }
  }

  /** The first entries written: what the loop has when it comes to the next. */
  ghost predicate Written(plan: seq<Option<Item>>, items: seq<Item>, seen: set<string>, offset: nat) {
    && |items| <= |plan|
    && PathsUsable(plan, |items|) && items == Items(plan, |items|)
    && seen == (set item | item in items :: item.path)
    && Distinct(items)
    && AllFit(items)
    && offset == LocalAt(items, |items|) <= MAX32
  }

  lemma NextDistinct(items: seq<Item>, item: Item, seen: set<string>)
    requires Distinct(items) && seen == set each | each in items :: each.path
    ensures Distinct(items + [item]) <==> item.path !in seen
    ensures (set each | each in items + [item] :: each.path) == seen + {item.path}
  {
    var more := items + [item];
    assert more[|items|] == item;
    if item.path in seen {
      var k :| 0 <= k < |items| && items[k].path == item.path;
      assert more[k].path == more[|items|].path;
    } else {
      assert forall k | 0 <= k < |items| :: more[k] in items;
    }
  }

  lemma NextFits(items: seq<Item>, item: Item)
    requires AllFit(items)
    ensures AllFit(items + [item]) <==> FieldsFit(item)
  {
    assert (items + [item])[|items|] == item;
  }

  /** The next entry's item, and whether it may follow. */
  lemma NextEntry(plan: seq<Option<Item>>, items: seq<Item>, seen: set<string>, offset: nat, item: Item)
    requires Written(plan, items, seen, offset) && |items| < |plan| && plan[|items|] == Some(item)
    ensures item.path !in seen && FieldsFit(item) && offset + LocalSize(item) <= MAX32 ==>
              Written(plan, items + [item], seen + {item.path}, offset + LocalSize(item))
    ensures item.path in seen || !FieldsFit(item) || offset + LocalSize(item) > MAX32 ==> !Accepts(plan)
  {
    var i, more := |items|, items + [item];
    assert more == Items(plan, i + 1);
    NextDistinct(items, item, seen);
    NextFits(items, item);
    PrefixOffsets(items, [item], i);
    assert more[i] == item;
    if !Distinct(more) || !AllFit(more) || offset + LocalSize(item) > MAX32 {
      RefusedAt(plan, i + 1);
    }
  }

  method WriteEntry(item: Item, offset: nat, table: array<nat>) returns (local: seq<Byte>, central: seq<Byte>)
    requires IsTable(table) && FieldsFit(item) && offset <= MAX32
    ensures IsLocal(local, item) && IsCentral(central, item, offset)
  {
    var crc := Compute(table, item.content);
    ChecksumFits(item.content);
    FieldsAscend(item, crc, offset);
    local := LocalRecord(item, crc);
    central := CentralRecord(item, crc, offset);
  }

  /** The buffers so far, the paths they hold and their length. */
  datatype Progress = Progress(locals: seq<seq<Byte>>, centrals: seq<seq<Byte>>, seen: set<string>, offset: nat)

  ghost predicate Reached(plan: seq<Option<Item>>, items: seq<Item>, sofar: Progress) {
    Written(plan, items, sofar.seen, sofar.offset) && AreLocals(sofar.locals, items) && AreCentrals(sofar.centrals, items)
  }

  /** The first `n` entries are acceptable together, and what comes then is not: the next entry, or the directory. */
  ghost predicate RefusedFor(plan: seq<Option<Item>>, n: nat, error: Refusal) {
    && n <= |plan| && PathsUsable(plan, n)
    && var items := Items(plan, n);
       && Distinct(items) && AllFit(items) && LocalAt(items, n) <= MAX32
       && if n == |plan| then error == OutOfRange && (n > MAX16 || CentralAt(items, n) > MAX32)
          else if plan[n].None? then error == InvalidPath
          else if exists i :: 0 <= i < n && items[i].path == plan[n].value.path then error == DuplicatePath
          else if !FieldsFit(plan[n].value) then error == OutOfRange
          else error == ArchiveTooLarge && LocalAt(items, n) + LocalSize(plan[n].value) > MAX32
  }

  /** One turn of the loop over the entries. */
  method AddEntry(planned: Option<Item>, sofar: Progress, table: array<nat>, ghost plan: seq<Option<Item>>, ghost items: seq<Item>)
    returns (r: Result<Progress, Refusal>)
    requires IsTable(table) && Reached(plan, items, sofar) && |items| < |plan| && plan[|items|] == planned
    ensures r.Ok? ==> planned.Some? && Reached(plan, items + [planned.value], r.value)
    ensures r.Err? ==> !Accepts(plan) && r.error != EmptyArchive && RefusedFor(plan, |items|, r.error)
  {
    hide *;
    if planned.None? || planned.value.path in sofar.seen || !FieldsFit(planned.value) || sofar.offset + LocalSize(planned.value) > MAX32 {
      ghost var error := EntryRefused(plan, items, sofar);
      NotAccepted(plan, items, sofar);
    }
    if planned.None? { return Err(InvalidPath); }
    var item := planned.value;
    if item.path in sofar.seen { return Err(DuplicatePath); }
    if !FieldsFit(item) { return Err(OutOfRange); }
    var next := WriteNext(item, sofar, table, plan, items);
    if next.offset > MAX32 { return Err(ArchiveTooLarge); }
    r := Ok(next);
  }

  /** The entry's records after those before, its path among theirs. */
  method WriteNext(item: Item, sofar: Progress, table: array<nat>, ghost plan: seq<Option<Item>>, ghost items: seq<Item>)
    returns (next: Progress)
    requires IsTable(table) && Reached(plan, items, sofar) && |items| < |plan| && plan[|items|] == Some(item)
    requires item.path !in sofar.seen && FieldsFit(item)
    ensures next.offset == sofar.offset + LocalSize(item)
    ensures next.offset <= MAX32 ==> Reached(plan, items + [item], next)
  {
    hide FieldsFit, Accepts;
    NextEntry(plan, items, sofar.seen, sofar.offset, item);
    var local, central := WriteEntry(item, sofar.offset, table);
    OneMoreLocal(sofar.locals, local, items, item);
    OneMoreCentral(sofar.centrals, central, items, item);
    next := Progress(sofar.locals + [local], sofar.centrals + [central], sofar.seen + {item.path}, sofar.offset + |local|);
  }

  lemma EntryRefused(plan: seq<Option<Item>>, items: seq<Item>, sofar: Progress) returns (error: Refusal)
    requires Reached(plan, items, sofar) && |items| < |plan|
    requires var planned := plan[|items|];
             planned.None? || planned.value.path in sofar.seen || !FieldsFit(planned.value) || sofar.offset + LocalSize(planned.value) > MAX32
    ensures var planned := plan[|items|];
            error == if planned.None? then InvalidPath else if planned.value.path in sofar.seen then DuplicatePath
                     else if !FieldsFit(planned.value) then OutOfRange else ArchiveTooLarge
    ensures RefusedFor(plan, |items|, error)
  {
    hide FieldsFit, AllFit, Distinct;
    var planned := plan[|items|];
    error := if planned.None? then InvalidPath else if planned.value.path in sofar.seen then DuplicatePath
             else if !FieldsFit(planned.value) then OutOfRange else ArchiveTooLarge;
    assert forall i | 0 <= i < |items| :: items[i].path in sofar.seen;
  }

  lemma NotAccepted(plan: seq<Option<Item>>, items: seq<Item>, sofar: Progress)
    requires Reached(plan, items, sofar) && |items| < |plan|
    requires var planned := plan[|items|];
             planned.None? || planned.value.path in sofar.seen || !FieldsFit(planned.value) || sofar.offset + LocalSize(planned.value) > MAX32
    ensures !Accepts(plan)
  {
    if plan[|items|].Some? { NextEntry(plan, items, sofar.seen, sofar.offset, plan[|items|].value); }
  }

  lemma DirectoryRefused(plan: seq<Option<Item>>, items: seq<Item>, sofar: Progress)
    requires Reached(plan, items, sofar) && |items| == |plan| && (|items| > MAX16 || CentralAt(items, |items|) > MAX32)
    ensures RefusedFor(plan, |plan|, OutOfRange)
  {
  }

  method CreateZip(entries: seq<Entry>, options: Options, codec: Codec, table: array<nat>)
    returns (r: Result<seq<Byte>, Refusal>)
    requires IsTable(table)
    ensures var plan := Plan(entries, options, codec);
            && (r.Ok? <==> Accepts(plan))
            && (r.Ok? ==> IsArchive(r.value, Items(plan, |plan|)))
    ensures r == Err(EmptyArchive) <==> entries == []
    ensures r.Err? && entries != [] ==> exists n :: RefusedFor(Plan(entries, options, codec), n, r.error)
  {
    if entries == [] { return Err(EmptyArchive); }
    hide RefusedFor;
    ghost var plan := Plan(entries, options, codec);
    ghost var items: seq<Item> := [];
    var sofar := Progress([], [], {}, 0);
    for i := 0 to |entries|
      invariant |items| == i && Reached(plan, items, sofar)
    {
      var planned := PlanFor(entries[i], options, codec);
      var added := AddEntry(planned, sofar, table, plan, items);
      if added.Err? { return Err(added.error); }
      sofar := added.value;
      items := items + [planned.value];
    }
    r := Finish(sofar.locals, sofar.centrals, sofar.offset, items);
    if r.Err? { DirectoryRefused(plan, items, sofar); }
  }

  /** The directory and the end record, once every entry is written. */
  method Finish(locals: seq<seq<Byte>>, centrals: seq<seq<Byte>>, offset: nat, ghost items: seq<Item>)
    returns (r: Result<seq<Byte>, Refusal>)
    requires AreLocals(locals, items) && AreCentrals(centrals, items) && offset == LocalAt(items, |items|) <= MAX32
    ensures r.Ok? <==> |items| <= MAX16 && CentralAt(items, |items|) <= MAX32
    ensures r.Ok? ==> IsArchive(r.value, items)
    ensures r.Err? ==> r.error == OutOfRange
  {
    var directory := Concat(centrals);
    DirectorySize(centrals, items);
    if |centrals| > MAX16 || |directory| > MAX32 { return Err(OutOfRange); }
    EndAscends(|centrals|, |directory|, offset);
    var end := EndRecord(|centrals|, |directory|, offset);
    r := Ok(Concat(locals) + directory + end);
    Assembled(locals, centrals, end, items, |centrals|, |directory|, offset);
  }

  lemma Assembled(locals: seq<seq<Byte>>, centrals: seq<seq<Byte>>, end: seq<Byte>, items: seq<Item>, count: nat, size: nat, at: nat)
    requires AreLocals(locals, items) && AreCentrals(centrals, items)
    requires count == |items| && size == CentralAt(items, |items|) && at == LocalAt(items, |items|)
    requires |end| == 22 && Holds(end, EndFields(count, size, at))
    ensures IsArchive(Concat(locals) + Concat(centrals) + end, items)
  {
    var parts := Parts(locals, centrals, end);
    assert ArePartsOf(parts, items);
    assert Concat(locals) + Concat(centrals) + end == Bytes(parts);
  }

  lemma DirectorySize(centrals: seq<seq<Byte>>, items: seq<Item>)
    requires AreCentrals(centrals, items)
    ensures |Concat(centrals)| == CentralAt(items, |items|)
  {
    forall i | 0 <= i < |items| ensures |centrals[i]| == CentralSize(items[i]) {
      assert IsCentral(centrals[i], items[i], LocalAt(items, i));
    }
    DirectorySizeUpTo(centrals, items, |items|);
    assert centrals[..|items|] == centrals;
  }

  lemma {:induction false} DirectorySizeUpTo(centrals: seq<seq<Byte>>, items: seq<Item>, n: nat)
    requires n <= |items| == |centrals| && forall i | 0 <= i < |items| :: |centrals[i]| == CentralSize(items[i])
    ensures |Concat(centrals[..n])| == CentralAt(items, n)
  {
    if n > 0 {
      DirectorySizeUpTo(centrals, items, n - 1);
      assert centrals[..n][..n - 1] == centrals[..n - 1];
    }
  }

  lemma {:induction false} ItemsOfPrefix(plan: seq<Option<Item>>, n: nat, m: nat)
    requires n <= m <= |plan| && PathsUsable(plan, m)
    ensures Items(plan, n) + Items(plan, m)[n..] == Items(plan, m)
  {
  }

  /** What is wrong with the first entries is wrong with them all. */
  lemma RefusedAt(plan: seq<Option<Item>>, n: nat)
    requires n <= |plan| && PathsUsable(plan, n)
    requires var items := Items(plan, n); !Distinct(items) || !AllFit(items) || LocalAt(items, n) > MAX32
    ensures !Accepts(plan)
  {
    if Accepts(plan) {
      var all := Items(plan, |plan|);
      ItemsOfPrefix(plan, n, |plan|);
      PrefixOffsets(Items(plan, n), all[n..], n);
      LocalAtGrows(all, n, |all|);
      assert false;
    }
  }
}
