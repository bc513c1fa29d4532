/**
 The archive layout of PKWARE's APPNOTE (sections 4.3.7, 4.3.12 and 4.3.16), stated by
 what is read at each offset.
 */
module ZipFormat {
  import opened Crc32

  /** What one entry is in the archive. `body` is the content, or the content deflated. */
  datatype Item = Item(path: string, name: seq<Byte>, scheme: nat, time: nat, date: nat, content: seq<Byte>, body: seq<Byte>)

  const LOCAL_HEADER := 0x04034b50
  const CENTRAL_HEADER := 0x02014b50
  const END_RECORD := 0x06054b50
  const UTF8_NAME := 0x0800
  const UNIX_MODE := 0x81a4_0000  // 0o100644 in the high two bytes

  /** Little-endian reads, where there are bytes to read. */
  function U16(b: seq<Byte>, at: nat): (n: nat)
    requires at + 2 <= |b|
    ensures n < 0x1_0000
  {
    (b[at] as int) + 256 * (b[at + 1] as int)
  }

  function U32(b: seq<Byte>, at: nat): (n: nat)
    requires at + 4 <= |b|
    ensures n < 0x1_0000_0000
  {
    U16(b, at) + 0x1_0000 * U16(b, at + 2)
  }

  /** A number of `width` bytes at an offset. */
  datatype Field = Field(at: nat, width: nat, value: nat) {
    predicate Fits() {
      (width == 2 && value <= 0xffff) || (width == 4 && value <= 0xffff_ffff)
    }

    predicate HeldBy(b: seq<Byte>) {
      && at + width <= |b|
      && (width == 2 ==> U16(b, at) == value)
      && (width == 4 ==> U32(b, at) == value)
    }
  }

  predicate Holds(b: seq<Byte>, fields: seq<Field>) {
    forall i | 0 <= i < |fields| :: fields[i].HeldBy(b)
  }

  /** Section 4.3.7. */
  function LocalFields(item: Item, crc: nat): seq<Field> {
    [Field(0, 4, LOCAL_HEADER),
     Field(4, 2, 20),
     Field(6, 2, UTF8_NAME),
     Field(8, 2, item.scheme),
     Field(10, 2, item.time),
     Field(12, 2, item.date),
     Field(14, 4, crc),
     Field(18, 4, |item.body|),
     Field(22, 4, |item.content|),
     Field(26, 2, |item.name|),
     Field(28, 2, 0)]
  }

  /** Section 4.3.12. */
  function CentralFields(item: Item, crc: nat, offset: nat): seq<Field> {
    [Field(0, 4, CENTRAL_HEADER),
     Field(4, 2, 20),
     Field(6, 2, 20),
     Field(8, 2, UTF8_NAME),
     Field(10, 2, item.scheme),
     Field(12, 2, item.time),
     Field(14, 2, item.date),
     Field(16, 4, crc),
     Field(20, 4, |item.body|),
     Field(24, 4, |item.content|),
     Field(28, 2, |item.name|),
     Field(30, 2, 0),
     Field(32, 2, 0),
     Field(34, 2, 0),
     Field(36, 2, 0),
     Field(38, 4, UNIX_MODE),
     Field(42, 4, offset)]
  }

  /** Section 4.3.16. */
  function EndFields(count: nat, directorySize: nat, directoryAt: nat): seq<Field> {
    [Field(0, 4, END_RECORD),
     Field(4, 2, 0),
     Field(6, 2, 0),
     Field(8, 2, count),
     Field(10, 2, count),
     Field(12, 4, directorySize),
     Field(16, 4, directoryAt),
     Field(20, 2, 0)]
  }

  function LocalSize(item: Item): nat {
    30 + |item.name| + |item.body|
  }

  function CentralSize(item: Item): nat {
    46 + |item.name|
  }

  /** A local header, the name, the body. */
  predicate IsLocal(b: seq<Byte>, item: Item) {
    && |b| == LocalSize(item)
    && Holds(b, LocalFields(item, Checksum(item.content)))
    && b[30..30 + |item.name|] == item.name
    && b[30 + |item.name|..] == item.body
  }

  /** A central header, naming the offset of the local one, and the name. */
  predicate IsCentral(b: seq<Byte>, item: Item, offset: nat) {
    && |b| == CentralSize(item)
    && Holds(b, CentralFields(item, Checksum(item.content), offset))
    && b[46..] == item.name
  }

  /** `Buffer.concat` */
  function Concat(parts: seq<seq<Byte>>): seq<Byte> {
    if parts == [] then []
    else
      var last := |parts| - 1;
      Concat(parts[..last]) + parts[last]
  }

  predicate AreLocals(parts: seq<seq<Byte>>, items: seq<Item>) {
    |parts| == |items| && forall i | 0 <= i < |items| :: IsLocal(parts[i], items[i])
  }

  /** Each central header names the offset its local one lies at. */
  predicate AreCentrals(parts: seq<seq<Byte>>, items: seq<Item>) {
    |parts| == |items| && forall i | 0 <= i < |items| :: IsCentral(parts[i], items[i], LocalAt(items, i))
  }

  /** Where the `i`th local header lies, records lying one after another from the start. */
  function LocalAt(items: seq<Item>, i: nat): nat
    requires i <= |items|
  {
    if i == 0 then 0 else LocalAt(items, i - 1) + LocalSize(items[i - 1])
  }

  /** Where the `i`th central header lies, from the start of the directory. */
  function CentralAt(items: seq<Item>, i: nat): nat
    requires i <= |items|
  {
    if i == 0 then 0 else CentralAt(items, i - 1) + CentralSize(items[i - 1])
  }

  /** The archive's parts: the local records, the directory, the end record. */
  datatype Parts = Parts(locals: seq<seq<Byte>>, centrals: seq<seq<Byte>>, end: seq<Byte>)

  predicate ArePartsOf(parts: Parts, items: seq<Item>) {
    && AreLocals(parts.locals, items)
    && AreCentrals(parts.centrals, items)
    && |parts.end| == 22
    && Holds(parts.end, EndFields(|items|, CentralAt(items, |items|), LocalAt(items, |items|)))
  }

  function Bytes(parts: Parts): seq<Byte> {
    Concat(parts.locals) + Concat(parts.centrals) + parts.end
  }

  /** The whole archive of `items`, and nothing else. */
  ghost predicate IsArchive(b: seq<Byte>, items: seq<Item>) {
    exists parts :: ArePartsOf(parts, items) && b == Bytes(parts)
  }

  lemma {:induction false} LocalAtGrows(items: seq<Item>, i: nat, j: nat)
    requires i <= j <= |items|
    ensures LocalAt(items, i) <= LocalAt(items, j)
    ensures i < j ==> LocalAt(items, i) + |items[i].body| < LocalAt(items, j)
    decreases j
  {
    if i < j { LocalAtGrows(items, i, j - 1); }
  }

  lemma {:induction false} PrefixOffsets(items: seq<Item>, more: seq<Item>, i: nat)
    requires i <= |items|
    ensures LocalAt(items + more, i) == LocalAt(items, i)
    ensures CentralAt(items + more, i) == CentralAt(items, i)
  {
    if i > 0 { PrefixOffsets(items, more, i - 1); }
  }

  /** The parts' sizes alone, which is all that placing them needs. */
  predicate Sized(parts: Parts, items: seq<Item>) {
    && |parts.locals| == |parts.centrals| == |items|
    && (forall i | 0 <= i < |items| :: |parts.locals[i]| == LocalSize(items[i]))
    && (forall i | 0 <= i < |items| :: |parts.centrals[i]| == CentralSize(items[i]))
    && |parts.end| == 22
  }

  lemma PartsAreSized(parts: Parts, items: seq<Item>)
    requires ArePartsOf(parts, items)
    ensures Sized(parts, items)
  {
    forall i | 0 <= i < |items|
      ensures |parts.locals[i]| == LocalSize(items[i]) && |parts.centrals[i]| == CentralSize(items[i])
    {
      assert IsLocal(parts.locals[i], items[i]);
      assert IsCentral(parts.centrals[i], items[i], LocalAt(items, i));
    }
  }

  lemma {:induction false} SizesUpTo(parts: Parts, items: seq<Item>, n: nat)
    requires Sized(parts, items) && n <= |items|
    ensures |Concat(parts.locals[..n])| == LocalAt(items, n)
    ensures |Concat(parts.centrals[..n])| == CentralAt(items, n)
  {
    if n > 0 {
      SizesUpTo(parts, items, n - 1);
      assert parts.locals[..n][..n - 1] == parts.locals[..n - 1];
      assert parts.centrals[..n][..n - 1] == parts.centrals[..n - 1];
    }
  }

  lemma {:induction false} ConcatSlice(parts: seq<seq<Byte>>, i: nat)
    requires i < |parts|
    ensures |Concat(parts[..i])| + |parts[i]| <= |Concat(parts)|
    ensures Concat(parts)[|Concat(parts[..i])|..][..|parts[i]|] == parts[i]
    decreases |parts|
  {
    var last := |parts| - 1;
    if i < last {
      ConcatSlice(parts[..last], i);
      assert parts[..last][..i] == parts[..i];
      var a, at, size := Concat(parts[..last]), |Concat(parts[..i])|, |parts[i]|;
      assert (a + parts[last])[at..][..size] == a[at..][..size];
    }
  }

  lemma SliceOfPrefix(a: seq<Byte>, b: seq<Byte>, at: nat, size: nat)
    requires at + size <= |a|
    ensures (a + b)[at..][..size] == a[at..][..size]
  {
  }

  lemma SliceOfMiddle(a: seq<Byte>, b: seq<Byte>, c: seq<Byte>, at: nat, size: nat)
    requires at + size <= |b|
    ensures (a + b + c)[|a| + at..][..size] == b[at..][..size]
  {
  }

  lemma PartsLie(parts: Parts, i: nat)
    ensures i < |parts.locals| ==>
              var at := |Concat(parts.locals[..i])|;
              && at + |parts.locals[i]| <= |Bytes(parts)|
              && Bytes(parts)[at..][..|parts.locals[i]|] == parts.locals[i]
    ensures i < |parts.centrals| ==>
              var at := |Concat(parts.locals)| + |Concat(parts.centrals[..i])|;
              && at + |parts.centrals[i]| <= |Bytes(parts)|
              && Bytes(parts)[at..][..|parts.centrals[i]|] == parts.centrals[i]
  {
    var locals, centrals := Concat(parts.locals), Concat(parts.centrals);
    if i < |parts.locals| {
      ConcatSlice(parts.locals, i);
      SliceOfPrefix(locals, centrals, |Concat(parts.locals[..i])|, |parts.locals[i]|);
      SliceOfPrefix(locals + centrals, parts.end, |Concat(parts.locals[..i])|, |parts.locals[i]|);
    }
    if i < |parts.centrals| {
      ConcatSlice(parts.centrals, i);
      SliceOfMiddle(locals, centrals, parts.end, |Concat(parts.centrals[..i])|, |parts.centrals[i]|);
    }
  }

  /** Every recorded offset lands on its header, every central header lies in its place in the directory, and the end is the end. */
  lemma RecordsLie(parts: Parts, items: seq<Item>, i: nat)
    requires Sized(parts, items) && i < |items|
    ensures var at := LocalAt(items, i);
            && at + LocalSize(items[i]) <= |Bytes(parts)|
            && Bytes(parts)[at..][..LocalSize(items[i])] == parts.locals[i]
    ensures var at := LocalAt(items, |items|) + CentralAt(items, i);
            && at + CentralSize(items[i]) <= |Bytes(parts)|
            && Bytes(parts)[at..][..CentralSize(items[i])] == parts.centrals[i]
  {
    hide Concat, LocalAt, CentralAt, LocalSize, CentralSize, Bytes;
    SizesUpTo(parts, items, i);
    SizesUpTo(parts, items, |items|);
    assert parts.locals[..|items|] == parts.locals;
    PartsLie(parts, i);
  }

  lemma EndLies(parts: Parts, items: seq<Item>)
    requires Sized(parts, items)
    ensures |Bytes(parts)| == LocalAt(items, |items|) + CentralAt(items, |items|) + 22
    ensures Bytes(parts)[|Bytes(parts)| - 22..] == parts.end
  {
    SizesUpTo(parts, items, |items|);
    assert parts.locals[..|items|] == parts.locals && parts.centrals[..|items|] == parts.centrals;
  }
}
