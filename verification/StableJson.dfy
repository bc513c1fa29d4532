/**
 What a payload's fingerprint is taken of: one text for each JSON value, whatever order
 its keys came in, and a different text for every other value.
 */
module StableJson {

  datatype Json =
    | Null
    | Bool(value: bool)
    | Number(text: string)
    | Text(text: string)
    | Bytes(digest: string)
    | Arr(items: seq<Json>)
    | Obj(fields: seq<Field>)

  datatype Field = Field(key: string, value: Json)

  // --- The text -----------------------------------------------------------------------------

  function HexDigit(n: nat): char
    requires n < 16
  {
    if n < 10 then '0' + n as char else 'a' + (n - 10) as char
  }

  /** How `JSON.stringify` writes a character inside quotes. */
  function Escape(c: char): string {
    if c == '"' then "\\\""
    else if c == '\\' then "\\\\"
    else if c == 8 as char then "\\b"
    else if c == 9 as char then "\\t"
    else if c == 10 as char then "\\n"
    else if c == 12 as char then "\\f"
    else if c == 13 as char then "\\r"
    else if c < 32 as char then "\\u00" + [HexDigit(c as nat / 16), HexDigit(c as nat % 16)]
    else [c]
  }

  function Escaped(s: string): string {
    if s == [] then [] else Escape(s[0]) + Escaped(s[1..])
  }

  function Quoted(s: string): string { "\"" + Escaped(s) + "\"" }

  function Print(v: Json): string
    decreases v, 0
  {
    match v
    case Null => "null"
    case Bool(b) => if b then "true" else "false"
    case Number(text) => text
    case Text(s) => Quoted(s)
    case Bytes(digest) => "bytes:" + digest
    case Arr(items) => "[" + PrintItems(items) + "]"
    case Obj(fields) => "{" + PrintFields(fields) + "}"
  }

  function PrintItems(items: seq<Json>): string
    decreases items, 1
  {
    if items == [] then ""
    else Print(items[0]) + (if |items| == 1 then "" else "," + PrintItems(items[1..]))
  }

  function PrintFields(fields: seq<Field>): string
    decreases fields, 1
  {
    if fields == [] then ""
    else
      assert fields[0].value < fields[0];
      Quoted(fields[0].key) + ":" + Print(fields[0].value) + (if |fields| == 1 then "" else "," + PrintFields(fields[1..]))
  }

  // --- No two values share a text --------------------------------------------------------------

  predicate Stop(c: char) { c == ',' || c == ']' || c == '}' }

  predicate Stops(rest: string) { rest == "" || Stop(rest[0]) }

  predicate IsWord(s: string) {
    s != "" && forall i | 0 <= i < |s| :: !Stop(s[i])
  }

  predicate IsHex(c: char) { '0' <= c <= '9' || 'a' <= c <= 'f' }

  /** A number is written as JSON writes numbers, a digest in hexadecimal. */
  predicate Printable(v: Json)
    decreases v, 0
  {
    match v
    case Number(text) => IsWord(text) && (text[0] == '-' || '0' <= text[0] <= '9')
    case Bytes(digest) => forall i | 0 <= i < |digest| :: IsHex(digest[i])
    case Arr(items) => forall i | 0 <= i < |items| :: Printable(items[i])
    case Obj(fields) => forall i | 0 <= i < |fields| :: (assert fields[i].value < fields[i]; Printable(fields[i].value))
    case _ => true
  }

  predicate IsLeaf(v: Json) { v.Null? || v.Bool? || v.Number? || v.Bytes? }

  /** Of two beginnings of one text the shorter begins the longer. */
  lemma Beginnings(a: string, b: string, r: string, s: string)
    requires a + r == b + s && |a| <= |b|
    ensures a == b[..|a|] && r == b[|a|..] + s && (|a| < |b| ==> r != "" && r[0] == b[|a|])
    ensures a != "" ==> a[0] == b[0]
  {
    var whole := a + r;
    assert whole[..|a|] == a && whole[|a|..] == r;
    assert (b + s)[..|a|] == b[..|a|] && (b + s)[|a|..] == b[|a|..] + s;
  }

  lemma WordsEnd(a: string, b: string, r: string, s: string)
    requires IsWord(a) && IsWord(b) && Stops(r) && Stops(s) && a + r == b + s
    ensures a == b && r == s
  {
    if |a| <= |b| { Beginnings(a, b, r, s); } else { Beginnings(b, a, s, r); }
  }

  lemma FixedWords()
    ensures IsWord("null") && IsWord("true") && IsWord("false") && IsWord("bytes:")
  {
  }

  lemma LeafWords(v: Json)
    requires IsLeaf(v) && Printable(v)
    ensures IsWord(Print(v))
  {
    FixedWords();
    if v.Bytes? {
      forall i | 0 <= i < |Print(v)| ensures !Stop(Print(v)[i]) {
        assert i < 6 ==> Print(v)[i] == "bytes:"[i];
        assert i >= 6 ==> Print(v)[i] == v.digest[i - 6];
      }
    }
  }

  lemma LeavesDiffer(v: Json, w: Json)
    requires IsLeaf(v) && IsLeaf(w) && Printable(v) && Printable(w) && Print(v) == Print(w)
    ensures v == w
  {
    assert Print(v)[0] == Print(w)[0];
    if v.Bytes? && w.Bytes? { assert Print(v)[6..] == v.digest && Print(w)[6..] == w.digest; }
  }

  lemma SameEscape(c: char, d: char)
    requires Escape(c) <= Escape(d) || Escape(d) <= Escape(c)
    ensures c == d
  {
    assert Escape(c)[0] == Escape(d)[0];
    if Escape(c)[0] == '\\' {
      assert Escape(c)[1] == Escape(d)[1];
      if Escape(c)[1] == 'u' {
        assert Escape(c)[4] == Escape(d)[4] && Escape(c)[5] == Escape(d)[5];
        HexReadsBack(c as nat / 16, d as nat / 16);
        HexReadsBack(c as nat % 16, d as nat % 16);
      }
    }
  }

  /** An escape is told by its first characters. */
  lemma EscapesDiffer(c: char, d: char, a: string, b: string)
    requires Escape(c) + a == Escape(d) + b
    ensures c == d && a == b
  {
    hide Escape;
    if |Escape(c)| <= |Escape(d)| { Beginnings(Escape(c), Escape(d), a, b); } else { Beginnings(Escape(d), Escape(c), b, a); }
    SameEscape(c, d);
    assert Escape(c)[|Escape(c)|..] + b == b && Escape(d)[|Escape(d)|..] + a == a;
  }

  lemma HexReadsBack(m: nat, n: nat)
    requires m < 16 && n < 16 && HexDigit(m) == HexDigit(n)
    ensures m == n
  {
  }

  lemma NeverQuote(c: char)
    ensures Escape(c) != "" && Escape(c)[0] != '"'
  {
  }

  lemma EscapedStarts(s: string)
    ensures s == "" ==> Escaped(s) == ""
    ensures s != "" ==> Escaped(s) != "" && Escaped(s)[0] != '"' && Escaped(s) == Escape(s[0]) + Escaped(s[1..])
  {
    hide Escape;
    if s != "" { NeverQuote(s[0]); }
  }

  function Closed(text: string, close: char, rest: string): string { text + [close] + rest }

  /** What comes first is the text's, unless the text is empty. */
  lemma ClosedStarts(text: string, close: char, rest: string)
    ensures Closed(text, close, rest)[0] == if text == "" then close else text[0]
    ensures Closed("", close, rest)[1..] == rest
  {
  }

  lemma ClosedLonger(start: string, text: string, close: char, rest: string)
    ensures Closed(start + text, close, rest) == start + Closed(text, close, rest)
  {
  }

  lemma {:induction false} QuotesEnd(s: string, t: string, a: string, b: string)
    requires Closed(Escaped(s), '"', a) == Closed(Escaped(t), '"', b)
    ensures s == t && a == b
    decreases |s| + |t|
  {
    hide Escape, Escaped, Closed;
    EscapedStarts(s);
    EscapedStarts(t);
    ClosedStarts(Escaped(s), '"', a);
    ClosedStarts(Escaped(t), '"', b);
    if s != "" && t != "" {
      ClosedLonger(Escape(s[0]), Escaped(s[1..]), '"', a);
      ClosedLonger(Escape(t[0]), Escaped(t[1..]), '"', b);
      EscapesDiffer(s[0], t[0], Closed(Escaped(s[1..]), '"', a), Closed(Escaped(t[1..]), '"', b));
      QuotesEnd(s[1..], t[1..], a, b);
      assert s == [s[0]] + s[1..] && t == [t[0]] + t[1..];
    }
  }

  /** How each kind of value begins, and what follows. */
  lemma Begins(v: Json, r: string)
    requires Printable(v)
    ensures Print(v) != "" && (Print(v) + r)[0] == Print(v)[0] && Print(v)[0] != ']' && Print(v)[0] != '}'
    ensures Print(v)[0] == '"' <==> v.Text?
    ensures Print(v)[0] == '[' <==> v.Arr?
    ensures Print(v)[0] == '{' <==> v.Obj?
    ensures v.Text? ==> (Print(v) + r)[1..] == Closed(Escaped(v.text), '"', r)
    ensures v.Arr? ==> (Print(v) + r)[1..] == Closed(PrintItems(v.items), ']', r)
    ensures v.Obj? ==> (Print(v) + r)[1..] == Closed(PrintFields(v.fields), '}', r)
  {
    hide PrintItems, PrintFields, Escaped;
    if IsLeaf(v) { LeafWords(v); }
  }

  lemma {:induction false} TextsEnd(v: Json, w: Json, r: string, s: string)
    requires Printable(v) && Printable(w) && Stops(r) && Stops(s) && Print(v) + r == Print(w) + s
    ensures v == w && r == s
    decreases v, 0
  {
    hide Print, PrintItems, PrintFields, Escaped, Closed, Stops;
    Begins(v, r);
    Begins(w, s);
    if IsLeaf(v) {
      LeafWords(v);
      LeafWords(w);
      WordsEnd(Print(v), Print(w), r, s);
      LeavesDiffer(v, w);
    } else if v.Text? {
      QuotesEnd(v.text, w.text, r, s);
    } else if v.Arr? {
      ItemsEnd(v.items, w.items, r, s);
    } else {
      FieldsEnd(v.fields, w.fields, r, s);
    }
  }

  /** What follows an item, and a field: the rest of the list, and its end. */
  function AfterItem(items: seq<Json>, r: string): string
    requires items != []
  {
    if |items| == 1 then "]" + r else "," + Closed(PrintItems(items[1..]), ']', r)
  }

  lemma ItemFirst(items: seq<Json>, r: string)
    requires items != [] && Printable(items[0])
    ensures Closed(PrintItems(items), ']', r) == Print(items[0]) + AfterItem(items, r) && Stops(AfterItem(items, r))
    ensures Closed(PrintItems(items), ']', r)[0] != ']' && AfterItem(items, r) != ""
    ensures AfterItem(items, r)[0] == (if |items| == 1 then ']' else ',')
    ensures AfterItem(items, r)[1..] == if |items| == 1 then r else Closed(PrintItems(items[1..]), ']', r)
  {
    hide Print, Closed;
    var rest := if |items| == 1 then "" else "," + PrintItems(items[1..]);
    ClosedLonger(Print(items[0]), rest, ']', r);
    ClosedEmpty(']', r);
    if |items| > 1 { ClosedLonger(",", PrintItems(items[1..]), ']', r); }
    Begins(items[0], AfterItem(items, r));
  }

  lemma ClosedEmpty(close: char, rest: string)
    ensures Closed("", close, rest) == [close] + rest
  {
  }

  lemma NoItems(r: string)
    ensures Closed(PrintItems([]), ']', r)[0] == ']' && Closed(PrintItems([]), ']', r)[1..] == r
    ensures Closed(PrintFields([]), '}', r)[0] == '}' && Closed(PrintFields([]), '}', r)[1..] == r
  {
  }

  lemma {:induction false} ItemsEnd(a: seq<Json>, b: seq<Json>, r: string, s: string)
    requires (forall i | 0 <= i < |a| :: Printable(a[i])) && (forall i | 0 <= i < |b| :: Printable(b[i]))
    requires Closed(PrintItems(a), ']', r) == Closed(PrintItems(b), ']', s)
    ensures a == b && r == s
    decreases a, 1
  {
    hide Print, PrintItems, Closed, AfterItem, Stops;
    NoItems(r);
    NoItems(s);
    if a != [] { ItemFirst(a, r); }
    if b != [] { ItemFirst(b, s); }
    if a != [] && b != [] {
      TextsEnd(a[0], b[0], AfterItem(a, r), AfterItem(b, s));
      assert a == [a[0]] + a[1..] && b == [b[0]] + b[1..];
      if |a| > 1 { ItemsEnd(a[1..], b[1..], r, s); }
    }
  }

  function AfterField(fields: seq<Field>, r: string): string
    requires fields != []
  {
    if |fields| == 1 then "}" + r else "," + Closed(PrintFields(fields[1..]), '}', r)
  }

  function AfterKey(fields: seq<Field>, r: string): string
    requires fields != []
  {
    ":" + (Print(fields[0].value) + AfterField(fields, r))
  }

  lemma FieldFirst(fields: seq<Field>, r: string)
    requires fields != []
    ensures Closed(PrintFields(fields), '}', r) == "\"" + Closed(Escaped(fields[0].key), '"', AfterKey(fields, r))
    ensures Closed(PrintFields(fields), '}', r)[0] == '"'
    ensures Closed(PrintFields(fields), '}', r)[1..] == Closed(Escaped(fields[0].key), '"', AfterKey(fields, r))
    ensures Stops(AfterField(fields, r)) && AfterField(fields, r) != ""
    ensures AfterField(fields, r)[0] == (if |fields| == 1 then '}' else ',')
    ensures AfterField(fields, r)[1..] == if |fields| == 1 then r else Closed(PrintFields(fields[1..]), '}', r)
    ensures AfterKey(fields, r)[1..] == Print(fields[0].value) + AfterField(fields, r)
  {
    hide Print, Escaped, Closed;
    var rest := if |fields| == 1 then "" else "," + PrintFields(fields[1..]);
    FieldText(Escaped(fields[0].key), Print(fields[0].value), rest, r);
    ClosedEmpty('}', r);
    if |fields| > 1 { ClosedLonger(",", PrintFields(fields[1..]), '}', r); }
  }

  lemma FieldText(key: string, value: string, rest: string, r: string)
    ensures Closed("\"" + key + "\"" + ":" + value + rest, '}', r) == "\"" + Closed(key, '"', ":" + (value + Closed(rest, '}', r)))
  {
  }

  lemma {:induction false} FieldsEnd(a: seq<Field>, b: seq<Field>, r: string, s: string)
    requires (forall i | 0 <= i < |a| :: Printable(a[i].value)) && (forall i | 0 <= i < |b| :: Printable(b[i].value))
    requires Closed(PrintFields(a), '}', r) == Closed(PrintFields(b), '}', s)
    ensures a == b && r == s
    decreases a, 1
  {
    hide Print, PrintFields, Closed, AfterField, AfterKey, Escaped, Stops;
    NoItems(r);
    NoItems(s);
    if a != [] { FieldFirst(a, r); }
    if b != [] { FieldFirst(b, s); }
    if a != [] && b != [] {
      assert a[0].value < a[0];
      QuotesEnd(a[0].key, b[0].key, AfterKey(a, r), AfterKey(b, s));
      TextsEnd(a[0].value, b[0].value, AfterField(a, r), AfterField(b, s));
      assert a == [a[0]] + a[1..] && b == [b[0]] + b[1..];
      if |a| > 1 { FieldsEnd(a[1..], b[1..], r, s); }
    }
  }

  // --- Keys in order ------------------------------------------------------------------------------

  predicate Less(a: string, b: string) {
    b != "" && (a == "" || a[0] < b[0] || (a[0] == b[0] && Less(a[1..], b[1..])))
  }

  lemma {:induction false} LessIsTotal(a: string, b: string)
    ensures a != b ==> Less(a, b) || Less(b, a)
    ensures Less(a, b) ==> !Less(b, a) && a != b
  {
    if a != "" && b != "" {
      LessIsTotal(a[1..], b[1..]);
      assert a == [a[0]] + a[1..] && b == [b[0]] + b[1..];
    }
  }

  lemma {:induction false} LessChains(a: string, b: string, c: string)
    requires Less(a, b) && Less(b, c)
    ensures Less(a, c)
  {
    if a != "" && a[0] == b[0] && b[0] == c[0] { LessChains(a[1..], b[1..], c[1..]); }
  }

  predicate Ascending(fields: seq<Field>) {
    forall i, j | 0 <= i < j < |fields| :: Less(fields[i].key, fields[j].key)
  }

  predicate DistinctKeys(fields: seq<Field>) {
    forall i, j | 0 <= i < j < |fields| :: fields[i].key != fields[j].key
  }

  function Insert(f: Field, sorted: seq<Field>): (r: seq<Field>)
    ensures forall g :: g in r <==> g == f || g in sorted
    ensures |r| == |sorted| + 1
  {
    if sorted == [] then [f]
    else if Less(f.key, sorted[0].key) then [f] + sorted
    else [sorted[0]] + Insert(f, sorted[1..])
  }

  function SortFields(fields: seq<Field>): (r: seq<Field>)
    ensures forall g :: g in r <==> g in fields
    ensures |r| == |fields|
  {
    if fields == [] then [] else Insert(fields[|fields| - 1], SortFields(fields[..|fields| - 1]))
  }

  lemma {:induction false} InsertAscends(f: Field, sorted: seq<Field>)
    requires Ascending(sorted) && forall g | g in sorted :: g.key != f.key
    ensures Ascending(Insert(f, sorted))
  {
    if sorted != [] {
      if Less(f.key, sorted[0].key) {
        forall j | 0 < j < |sorted| ensures Less(f.key, sorted[j].key) { LessChains(f.key, sorted[0].key, sorted[j].key); }
      } else {
        LessIsTotal(f.key, sorted[0].key);
        InsertAscends(f, sorted[1..]);
        var rest := Insert(f, sorted[1..]);
        forall k | 0 <= k < |rest| ensures Less(sorted[0].key, rest[k].key) { assert rest[k] in rest; }
      }
    }
  }

  lemma {:induction false} SortAscends(fields: seq<Field>)
    requires DistinctKeys(fields)
    ensures Ascending(SortFields(fields))
    decreases |fields|
  {
    if fields != [] {
      var before, last := fields[..|fields| - 1], fields[|fields| - 1];
      SortAscends(before);
      forall g | g in SortFields(before) ensures g.key != last.key { assert g in before; }
      InsertAscends(last, SortFields(before));
    }
  }

  /** A set of fields has one order. */
  lemma {:induction false} OneOrder(a: seq<Field>, b: seq<Field>)
    requires Ascending(a) && Ascending(b) && forall f :: f in a <==> f in b
    ensures a == b
    decreases |a|
  {
    if a == [] {
      FirstIsIn(b);
    } else {
      assert a[0] in a && a[0] in b && b[0] in b && b[0] in a;
      LessIsTotal(a[0].key, b[0].key);
      assert a[0] == b[0];
      RestSame(a, b);
      RestSame(b, a);
      OneOrder(a[1..], b[1..]);
      assert a == [a[0]] + a[1..] && b == [b[0]] + b[1..];
    }
  }

  lemma FirstIsIn(fields: seq<Field>)
    ensures fields != [] ==> exists f :: f in fields
  {
    if fields != [] { assert fields[0] in fields; }
  }

  lemma RestSame(a: seq<Field>, b: seq<Field>)
    requires a != [] && b != [] && a[0] == b[0] && Ascending(a) && forall f | f in a :: f in b
    ensures forall f | f in a[1..] :: f in b[1..]
  {
    forall f | f in a[1..] ensures f in b[1..] {
      var i :| 0 < i < |a| && a[i] == f;
      LessIsTotal(a[0].key, a[i].key);
      assert f in b && f != b[0];
      var j :| 0 <= j < |b| && b[j] == f;
      assert b[1..][j - 1] == f;
    }
  }

  // --- The text a fingerprint is taken of -----------------------------------------------------------

  /** Every object's keys put in order. */
  function Normal(v: Json): Json
    decreases v, 0
  {
    match v
    case Arr(items) => Arr(NormalItems(items))
    case Obj(fields) => Obj(SortFields(NormalFields(fields)))
    case _ => v
  }

  function NormalItems(items: seq<Json>): (r: seq<Json>)
    ensures |r| == |items| && forall i | 0 <= i < |r| :: r[i] == Normal(items[i])
    decreases items, 1
  {
    if items == [] then [] else [Normal(items[0])] + NormalItems(items[1..])
  }

  function NormalFields(fields: seq<Field>): (r: seq<Field>)
    ensures |r| == |fields| && forall i | 0 <= i < |r| :: r[i] == Field(fields[i].key, Normal(fields[i].value))
    decreases fields, 1
  {
    if fields == [] then []
    else
      assert fields[0].value < fields[0];
      [Field(fields[0].key, Normal(fields[0].value))] + NormalFields(fields[1..])
  }

  function StableStringify(v: Json): string { Print(Normal(v)) }

  /** No object has a key twice. */
  predicate WellKeyed(v: Json)
    decreases v
  {
    match v
    case Arr(items) => forall i | 0 <= i < |items| :: WellKeyed(items[i])
    case Obj(fields) => DistinctKeys(fields) && forall i | 0 <= i < |fields| :: (assert fields[i].value < fields[i]; WellKeyed(fields[i].value))
    case _ => true
  }

  /** The same value but for the order of keys. */
  ghost predicate Same(v: Json, w: Json)
    decreases v
  {
    match v
    case Arr(items) => w.Arr? && |w.items| == |items| && forall i | 0 <= i < |items| :: Same(items[i], w.items[i])
    case Obj(fields) => w.Obj? && |w.fields| == |fields| && forall i | 0 <= i < |fields| :: HasSame(fields[i], w.fields)
    case _ => v == w
  }

  ghost predicate HasSame(f: Field, fields: seq<Field>)
    decreases f
  {
    exists j :: 0 <= j < |fields| && fields[j].key == f.key && Same(f.value, fields[j].value)
  }

  lemma {:induction false} NormalSame(v: Json, w: Json)
    requires WellKeyed(v) && WellKeyed(w)
    ensures Normal(v) == Normal(w) <==> Same(v, w)
    decreases v
  {
    if v.Arr? && w.Arr? && |v.items| == |w.items| {
      forall i | 0 <= i < |v.items| ensures Normal(v.items[i]) == Normal(w.items[i]) <==> Same(v.items[i], w.items[i]) {
        NormalSame(v.items[i], w.items[i]);
      }
      assert Normal(v) == Normal(w) <==> NormalItems(v.items) == NormalItems(w.items);
      assert NormalItems(v.items) == NormalItems(w.items) <==> forall i | 0 <= i < |v.items| :: Normal(v.items[i]) == Normal(w.items[i]);
    } else if v.Obj? && w.Obj? {
      forall i, j | 0 <= i < |v.fields| && 0 <= j < |w.fields|
        ensures Normal(v.fields[i].value) == Normal(w.fields[j].value) <==> Same(v.fields[i].value, w.fields[j].value)
      {
        assert v.fields[i].value < v.fields[i];
        NormalSame(v.fields[i].value, w.fields[j].value);
      }
      FieldsSame(v.fields, w.fields);
    }
  }

  /** Fields by fields the normal values are equal where the values are the same. */
  ghost predicate NormalTells(a: seq<Field>, b: seq<Field>) {
    forall i, j | 0 <= i < |a| && 0 <= j < |b| :: Normal(a[i].value) == Normal(b[j].value) <==> Same(a[i].value, b[j].value)
  }

  lemma SortedIsSame(a: seq<Field>, b: seq<Field>)
    requires NormalTells(a, b) && SortFields(NormalFields(a)) == SortFields(NormalFields(b))
    ensures |a| == |b| && forall i | 0 <= i < |a| :: HasSame(a[i], b)
  {
    hide Normal, Same, SortFields;
    var m, n := NormalFields(a), NormalFields(b);
    forall i | 0 <= i < |a| ensures HasSame(a[i], b) {
      assert m[i] in m && m[i] in SortFields(n) && m[i] in n;
      var j :| 0 <= j < |n| && n[j] == m[i];
      assert b[j].key == a[i].key && Same(a[i].value, b[j].value);
    }
  }

  lemma SameIsSorted(a: seq<Field>, b: seq<Field>)
    requires DistinctKeys(a) && DistinctKeys(b) && NormalTells(a, b)
    requires |a| == |b| && forall i | 0 <= i < |a| :: HasSame(a[i], b)
    ensures SortFields(NormalFields(a)) == SortFields(NormalFields(b))
  {
    hide Normal, Same, SortFields;
    var m, n := NormalFields(a), NormalFields(b);
    SortAscends(m);
    SortAscends(n);
    forall f | f in m ensures f in n {
      var i :| 0 <= i < |m| && m[i] == f;
      assert HasSame(a[i], b);
      var j :| 0 <= j < |b| && b[j].key == a[i].key && Same(a[i].value, b[j].value);
      assert n[j] == f;
    }
    AllOfThem(m, n);
    OneOrder(SortFields(m), SortFields(n));
  }

  lemma FieldsSame(a: seq<Field>, b: seq<Field>)
    requires DistinctKeys(a) && DistinctKeys(b) && NormalTells(a, b)
    ensures SortFields(NormalFields(a)) == SortFields(NormalFields(b)) <==> |a| == |b| && forall i | 0 <= i < |a| :: HasSame(a[i], b)
  {
    hide *;
    if SortFields(NormalFields(a)) == SortFields(NormalFields(b)) { SortedIsSame(a, b); }
    if |a| == |b| && forall i | 0 <= i < |a| :: HasSame(a[i], b) { SameIsSorted(a, b); }
  }

  /** As many distinct fields, all among the others, are all of the others. */
  lemma AllOfThem(m: seq<Field>, n: seq<Field>)
    requires DistinctKeys(m) && |m| == |n| && forall f | f in m :: f in n
    ensures forall f | f in n :: f in m
  {
    var ms, ns := set f | f in m, set f | f in n;
    DistinctSize(m);
    SizeAtMost(n);
    assert ms <= ns;
    assert ns == ms + (ns - ms);
    assert |ns - ms| == 0;
    forall f | f in n ensures f in m { assert f in ns; }
  }

  lemma {:induction false} DistinctSize(m: seq<Field>)
    requires DistinctKeys(m)
    ensures |set f | f in m| == |m|
    decreases |m|
  {
    if m != [] {
      var before, last := m[..|m| - 1], m[|m| - 1];
      DistinctSize(before);
      assert m == before + [last] && last !in before;
      assert (set f | f in m) == (set f | f in before) + {last};
    }
  }

  lemma {:induction false} SizeAtMost(n: seq<Field>)
    ensures |set f | f in n| <= |n|
    decreases |n|
  {
    if n != [] {
      var before, last := n[..|n| - 1], n[|n| - 1];
      SizeAtMost(before);
      assert n == before + [last];
      assert (set f | f in n) == (set f | f in before) + {last};
    }
  }

  lemma {:induction false} NormalIsPrintable(v: Json)
    requires Printable(v)
    ensures Printable(Normal(v))
    decreases v
  {
    if v.Arr? {
      forall i | 0 <= i < |v.items| ensures Printable(NormalItems(v.items)[i]) { NormalIsPrintable(v.items[i]); }
    } else if v.Obj? {
      var m := NormalFields(v.fields);
      forall i | 0 <= i < |v.fields| ensures Printable(m[i].value) {
        assert v.fields[i].value < v.fields[i];
        NormalIsPrintable(v.fields[i].value);
      }
      forall k | 0 <= k < |SortFields(m)| ensures Printable(SortFields(m)[k].value) {
        assert SortFields(m)[k] in m;
        var i :| 0 <= i < |m| && m[i] == SortFields(m)[k];
      }
    }
  }

  /** Two payloads have one text if and only if they are the same but for the order of their keys. */
  lemma SameTextIffSame(v: Json, w: Json)
    requires WellKeyed(v) && WellKeyed(w) && Printable(v) && Printable(w)
    ensures StableStringify(v) == StableStringify(w) <==> Same(v, w)
  {
    NormalSame(v, w);
    NormalIsPrintable(v);
    NormalIsPrintable(w);
    if StableStringify(v) == StableStringify(w) {
      assert Print(Normal(v)) + "" == Print(Normal(w)) + "";
      TextsEnd(Normal(v), Normal(w), "", "");
    }
  }
}
