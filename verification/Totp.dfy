/** Base32 keys by shifting accumulators, against the bits they stand for; and the step a code was made for. */
module Totp {
  import opened Numbers
  import opened Texts
  import opened Wrappers

  type Byte = b: int | 0 <= b < 256
  type Bit = b: int | 0 <= b < 2

  // --- Bits, most significant first ---------------------------------------------------------

  function Word(bits: seq<Bit>): nat {
    if bits == [] then 0 else 2 * Word(bits[..|bits| - 1]) + bits[|bits| - 1]
  }

  function BitsOf(n: nat, width: nat): (bits: seq<Bit>)
    ensures |bits| == width
  {
    if width == 0 then [] else BitsOf(n / 2, width - 1) + [n % 2]
  }

  function Stream(bytes: seq<Byte>): (bits: seq<Bit>)
    ensures |bits| == 8 * |bytes|
  {
    if bytes == [] then [] else Stream(bytes[..|bytes| - 1]) + BitsOf(bytes[|bytes| - 1], 8)
  }

  lemma {:induction false} WordOfBits(n: nat, width: nat)
    requires n < Pow2(width)
    ensures Word(BitsOf(n, width)) == n
    decreases width
  {
    if width > 0 {
      WordOfBits(n / 2, width - 1);
      assert BitsOf(n, width)[..width - 1] == BitsOf(n / 2, width - 1);
    }
  }

  lemma {:induction false} BitsOfWord(bits: seq<Bit>)
    ensures Word(bits) < Pow2(|bits|) && BitsOf(Word(bits), |bits|) == bits
    decreases |bits|
  {
    if bits != [] { BitsOfWord(bits[..|bits| - 1]); }
  }

  lemma {:induction false} WordJoined(a: seq<Bit>, b: seq<Bit>)
    ensures Word(a + b) == Word(a) * Pow2(|b|) + Word(b)
    decreases |b|
  {
    if b == [] {
      assert a + b == a;
    } else {
      var before := b[..|b| - 1];
      WordJoined(a, before);
      assert (a + b)[..|a + b| - 1] == a + before && (a + b)[|a + b| - 1] == b[|b| - 1];
      OneMoreBit(Word(a), Word(before), Pow2(|before|), b[|b| - 1]);
    }
  }

  lemma OneMoreBit(v: nat, w: nat, p: nat, bit: Bit)
    ensures 2 * (v * p + w) + bit == v * (2 * p) + (2 * w + bit)
  {
  }

  lemma Doubles(v: nat, p: nat)
    ensures 2 * (v * p) == v * (2 * p)
  {
  }

  // --- The encoding of section 6 of RFC 4648, unpadded ----------------------------------------

  /** The letters, then 2 to 7. */
  function CharOf(n: nat): char
    requires n < 32
  {
    if n < 26 then 'A' + n as char else '2' + (n - 26) as char
  }

  function Zeros(n: nat): (bits: seq<Bit>)
    ensures |bits| == n && Word(bits) == 0
  {
    if n == 0 then [] else Zeros(n - 1) + [0]
  }

  /** A character for each five bits, the last of them filled up with zeros. */
  function Quintets(bits: seq<Bit>): string {
    if bits == [] then []
    else if |bits| < 5 then
      BitsOfWord(bits + Zeros(5 - |bits|));
      Small(5);
      [CharOf(Word(bits + Zeros(5 - |bits|)))]
    else
      BitsOfWord(bits[..5]);
      Small(5);
      [CharOf(Word(bits[..5]))] + Quintets(bits[5..])
  }

  lemma Small(n: nat)
    ensures n == 5 ==> Pow2(n) == 32
    ensures n == 8 ==> Pow2(n) == 256
  {
    assert Pow2(1) == 2 && Pow2(2) == 4 && Pow2(3) == 8 && Pow2(4) == 16 && Pow2(5) == 32 && Pow2(6) == 64;
  }

  function IndexOf(c: char): (i: Option<nat>)
    ensures i.Some? ==> i.value < 32 && CharOf(i.value) == c
  {
    if 'A' <= c <= 'Z' then Some((c - 'A') as nat) else if '2' <= c <= '7' then Some(26 + (c - '2') as nat) else None
  }

  /** The bits the characters stand for, if every one is in the alphabet. */
  function Unquintets(clean: string): Option<seq<Bit>>
    decreases |clean|
  {
    if clean == [] then Some([])
    else
      var before, last := Unquintets(clean[..|clean| - 1]), IndexOf(clean[|clean| - 1]);
      if before.None? || last.None? then None else Some(before.value + BitsOf(last.value, 5))
  }

  /** Whole bytes; what is left over is dropped. */
  function Octets(bits: seq<Bit>): seq<Byte> {
    if |bits| < 8 then []
    else
      BitsOfWord(bits[..8]);
      Small(8);
      [Word(bits[..8])] + Octets(bits[8..])
  }

  predicate Separator(c: char) { IsSpace(c) || c == '=' || c == '-' }

  /**
   A character in upper case, where that is letters of the alphabet; any other keeps a
   character outside it, and is left as it is. Sharp s, long s, dotless i and the
   ligatures of f and of st are those outside ASCII.
   */
  function Upper(c: char): string {
    if 'a' <= c <= 'z' then [c - 'a' + 'A']
    else match c
      case '\U{00DF}' => "SS"
      case '\U{0131}' => "I"
      case '\U{017F}' => "S"
      case '\U{FB00}' => "FF"
      case '\U{FB01}' => "FI"
      case '\U{FB02}' => "FL"
      case '\U{FB03}' => "FFI"
      case '\U{FB04}' => "FFL"
      case '\U{FB05}' => "ST"
      case '\U{FB06}' => "ST"
      case _ => [c]
  }

  /** Spaces, dashes and padding dropped, and upper case. */
  function Clean(text: string): string {
    if text == [] then []
    else
      var last := text[|text| - 1];
      Clean(text[..|text| - 1]) + if Separator(last) then [] else Upper(last)
  }

  function Decoded(text: string): Option<seq<Byte>> {
    var bits := Unquintets(Clean(text));
    if bits.None? then None else Some(Octets(bits.value))
  }

  // --- Decoding undoes encoding ----------------------------------------------------------------

  lemma CharIndexed(n: nat)
    requires n < 32
    ensures IndexOf(CharOf(n)) == Some(n) && !Separator(CharOf(n)) && Upper(CharOf(n)) == [CharOf(n)]
  {
  }

  /** The alphabet of table 3 of RFC 4648, one way and the other. */
  lemma AlphabetIs(n: nat)
    requires n < 32
    ensures var alphabet := "ABCDEFGHIJKLMNOPQRSTUVWXYZ234567";
            CharOf(n) == alphabet[n] && forall c: char :: IndexOf(c) == Some(n) <==> c == alphabet[n]
  {
  }

  lemma {:induction false} UnquintetsFirst(c: char, rest: string)
    ensures Unquintets([c] + rest) ==
            if IndexOf(c).None? || Unquintets(rest).None? then None else Some(BitsOf(IndexOf(c).value, 5) + Unquintets(rest).value)
    decreases |rest|
  {
    hide IndexOf, BitsOf, CharOf;
    var whole := [c] + rest;
    if rest == [] {
      assert whole[..0] == [] && whole == [c];
      if IndexOf(c).Some? { assert [] + BitsOf(IndexOf(c).value, 5) == BitsOf(IndexOf(c).value, 5) + []; }
    } else {
      var before := rest[..|rest| - 1];
      UnquintetsFirst(c, before);
      assert whole[..|whole| - 1] == [c] + before;
      if IndexOf(c).Some? && Unquintets(before).Some? && IndexOf(rest[|rest| - 1]).Some? {
        var a, b, d := BitsOf(IndexOf(c).value, 5), Unquintets(before).value, BitsOf(IndexOf(rest[|rest| - 1]).value, 5);
        assert (a + b) + d == a + (b + d);
      }
    }
  }

  lemma NothingQuintets()
    ensures Unquintets("") == Some([])
  {
  }

  lemma GroupBack(group: seq<Bit>)
    requires |group| == 5
    ensures Word(group) < 32 && IndexOf(CharOf(Word(group))) == Some(Word(group)) && BitsOf(Word(group), 5) == group
  {
    BitsOfWord(group);
    Small(5);
    CharIndexed(Word(group));
  }

  /** The characters of a stream stand for it, filled up to a whole number of them. */
  lemma {:induction false} QuintetsBack(bits: seq<Bit>) returns (fill: nat)
    ensures fill < 5 && Unquintets(Quintets(bits)) == Some(bits + Zeros(fill))
    ensures forall i | 0 <= i < |Quintets(bits)| :: IndexOf(Quintets(bits)[i]).Some?
    decreases |bits|
  {
    hide Word, Pow2, IndexOf, CharOf, BitsOf, Unquintets;
    NothingQuintets();
    if bits == [] {
      fill := 0;
      assert bits + Zeros(0) == [];
    } else {
      var group := if |bits| < 5 then bits + Zeros(5 - |bits|) else bits[..5];
      GroupBack(group);
      if |bits| < 5 {
        fill := 5 - |bits|;
        UnquintetsFirst(CharOf(Word(group)), []);
        assert [CharOf(Word(group))] + [] == [CharOf(Word(group))];
        assert group + [] == group;
      } else {
        fill := QuintetsBack(bits[5..]);
        UnquintetsFirst(CharOf(Word(group)), Quintets(bits[5..]));
        assert group + (bits[5..] + Zeros(fill)) == bits + Zeros(fill);
      }
    }
  }

  lemma {:induction false} StreamFirst(b: Byte, rest: seq<Byte>)
    ensures Stream([b] + rest) == BitsOf(b, 8) + Stream(rest)
    decreases |rest|
  {
    var whole := [b] + rest;
    if rest == [] {
      assert whole[..0] == [] && [] + BitsOf(b, 8) == BitsOf(b, 8) + [];
    } else {
      var before, last := rest[..|rest| - 1], BitsOf(rest[|rest| - 1], 8);
      StreamFirst(b, before);
      assert whole[..|whole| - 1] == [b] + before;
      assert (BitsOf(b, 8) + Stream(before)) + last == BitsOf(b, 8) + (Stream(before) + last);
    }
  }

  lemma {:induction false} OctetsBack(bytes: seq<Byte>, rest: seq<Bit>)
    requires |rest| < 8
    ensures Octets(Stream(bytes) + rest) == bytes
    decreases |bytes|
  {
    if bytes == [] {
      assert Stream(bytes) + rest == rest;
    } else {
      var b := bytes[0];
      assert bytes == [b] + bytes[1..];
      StreamFirst(b, bytes[1..]);
      var whole := Stream(bytes) + rest;
      assert whole[..8] == BitsOf(b, 8) && whole[8..] == Stream(bytes[1..]) + rest;
      Small(8);
      WordOfBits(b, 8);
      OctetsBack(bytes[1..], rest);
    }
  }

  lemma {:induction false} CleanAlready(s: string)
    requires forall i | 0 <= i < |s| :: IndexOf(s[i]).Some?
    ensures Clean(s) == s
    decreases |s|
  {
    hide IndexOf, Upper, Separator;
    if s != [] {
      var last := s[|s| - 1];
      CleanAlready(s[..|s| - 1]);
      CharIndexed(IndexOf(last).value);
      assert s == s[..|s| - 1] + [last];
    }
  }

  function Encoded(bytes: seq<Byte>): string { Quintets(Stream(bytes)) }

  /** Every byte string comes back from its encoding. */
  lemma DecodeEncode(bytes: seq<Byte>)
    ensures Decoded(Encoded(bytes)) == Some(bytes)
  {
    var fill := QuintetsBack(Stream(bytes));
    CleanAlready(Encoded(bytes));
    OctetsBack(bytes, Zeros(fill));
  }

  lemma {:induction false} CleanJoined(a: string, b: string)
    ensures Clean(a + b) == Clean(a) + Clean(b)
    decreases |b|
  {
    hide Upper, Separator;
    if b == [] {
      assert a + b == a;
    } else {
      var before, last := b[..|b| - 1], b[|b| - 1];
      CleanJoined(a, before);
      assert (a + b)[..|a + b| - 1] == a + before;
      var more := if Separator(last) then [] else Upper(last);
      assert (Clean(a) + Clean(before)) + more == Clean(a) + (Clean(before) + more);
    }
  }

  /** Characters that clean to the same clean to the same anywhere. */
  lemma CleanAnywhere(before: string, a: string, b: string, after: string)
    requires Clean(a) == Clean(b)
    ensures Clean(before + a + after) == Clean(before + b + after)
  {
    hide Clean;
    CleanJoined(before + a, after);
    CleanJoined(before, a);
    CleanJoined(before + b, after);
    CleanJoined(before, b);
  }

  /** A space, a dash or padding put in anywhere changes nothing, nor does the case of any character. */
  lemma SeparatorsAndCaseAreForgiven(before: string, c: char, after: string)
    ensures Separator(c) ==> Decoded(before + [c] + after) == Decoded(before + after)
    ensures Decoded(before + [c] + after) == Decoded(before + Upper(c) + after)
    ensures 'A' <= c <= 'Z' ==> Decoded(before + [c - 'A' + 'a'] + after) == Decoded(before + [c] + after)
  {
    hide Clean, Unquintets, Octets, Upper;
    if Separator(c) {
      OneClean(c);
      CleanAnywhere(before, [c], [], after);
      assert before + [] + after == before + after;
    }
    UpperStands(c);
    CleanAnywhere(before, [c], Upper(c), after);
    if 'A' <= c <= 'Z' {
      UpperStands(c - 'A' + 'a');
      LowerIsUpped(c);
      CleanAnywhere(before, [c - 'A' + 'a'], [c], after);
    }
  }

  lemma LowerIsUpped(c: char)
    requires 'A' <= c <= 'Z'
    ensures Upper(c - 'A' + 'a') == [c]
  {
  }

  lemma UpperStands(c: char)
    ensures Clean([c]) == Clean(Upper(c))
  {
    OneClean(c);
    if Upper(c) != [c] {
      UpperIndexed(c);
      CleanAlready(Upper(c));
    }
  }

  lemma UpperIndexed(c: char)
    requires Upper(c) != [c]
    ensures !Separator(c) && forall i | 0 <= i < |Upper(c)| :: IndexOf(Upper(c)[i]).Some?
  {
  }

  lemma OneClean(c: char)
    ensures Clean([c]) == (if Separator(c) then [] else Upper(c)) && Clean([]) == []
  {
    assert [c][..0] == [];
  }

  // --- The accumulators --------------------------------------------------------------------

  /** The low `|pending|` bits of the accumulator are the bits not yet written. */
  ghost predicate Live(value: nat, pending: seq<Bit>) {
    value < 65536 && value % Pow2(|pending|) == Word(pending)
  }

  lemma Powers(n: nat)
    ensures n == 0 ==> Pow2(n) == 1
    ensures n == 1 ==> Pow2(n) == 2
    ensures n == 2 ==> Pow2(n) == 4
    ensures n == 3 ==> Pow2(n) == 8
    ensures n == 4 ==> Pow2(n) == 16
    ensures n == 5 ==> Pow2(n) == 32
    ensures n == 6 ==> Pow2(n) == 64
    ensures n == 7 ==> Pow2(n) == 128
    ensures n == 8 ==> Pow2(n) == 256
  {
    assert Pow2(1) == 2 && Pow2(2) == 4 && Pow2(3) == 8 && Pow2(4) == 16 && Pow2(5) == 32 && Pow2(6) == 64 && Pow2(7) == 128;
  }

  lemma {:induction false} PowersAdd(a: nat, b: nat)
    ensures Pow2(a + b) == Pow2(a) * Pow2(b)
    decreases b
  {
    if b > 0 {
      PowersAdd(a, b - 1);
      Doubles(Pow2(a), Pow2(b - 1));
    }
  }

  /** Shifting a few bits in under the mask loses none that is still to be written. */
  lemma ShiftIn(value: nat, pending: seq<Bit>, n: nat, width: nat)
    requires Live(value, pending) && n < Pow2(width) && ((width == 8 && |pending| <= 4) || (width == 5 && |pending| <= 7))
    ensures Live((value * Pow2(width) + n) % 65536, pending + BitsOf(n, width))
  {
    hide Word, BitsOf, Pow2;
    var p, s := Pow2(|pending|), Pow2(width);
    Powers(|pending|);
    Powers(width);
    PowersAdd(|pending|, width);
    WordOfBits(n, width);
    WordJoined(pending, BitsOf(n, width));
    MaskKeeps(value, n, p, s);
  }

  lemma MaskKeeps(value: nat, n: nat, p: nat, s: nat)
    requires (s == 256 && n < 256 && p in {1, 2, 4, 8, 16}) || (s == 32 && n < 32 && p in {1, 2, 4, 8, 16, 32, 64, 128})
    ensures (value * s + n) % 65536 % (p * s) == (value % p) * s + n
  {
    var k := MaskIsMultiple(p, s);
    MultipleKeeps(value, n, p, s, k);
  }

  lemma MultipleKeeps(value: nat, n: nat, p: nat, s: nat, k: nat)
    requires n < s && p > 0 && k > 0 && p * s > 0 && 65536 == p * s * k
    ensures (value * s + n) % 65536 % (p * s) == (value % p) * s + n
  {
    var x, m, q, r := value * s + n, p * s, value / p, value % p;
    Divide(value, p);
    Shifted(value, p, q, r, s);
    ShiftedBelow(r, p, s, n);
    MaskThenMod(x, m, k);
    QuotientIs(x, m, q, r * s + n);
  }

  lemma MaskIsMultiple(p: nat, s: nat) returns (k: nat)
    requires (s == 256 && p in {1, 2, 4, 8, 16}) || (s == 32 && p in {1, 2, 4, 8, 16, 32, 64, 128})
    ensures k > 0 && 65536 == p * s * k
  {
    var unit := if s == 256 then 256 else 2048;
    k := if p == 1 then unit else if p == 2 then unit / 2 else if p == 4 then unit / 4 else if p == 8 then unit / 8
         else if p == 16 then unit / 16 else if p == 32 then unit / 32 else if p == 64 then unit / 64 else unit / 128;
  }

  lemma Shifted(value: nat, p: nat, q: nat, r: nat, s: nat)
    requires value == r + p * q
    ensures value * s == p * s * q + r * s
  {
  }

  lemma ShiftedBelow(r: nat, p: nat, s: nat, n: nat)
    requires r < p && n < s
    ensures r * s + n < p * s
  {
    Multiples(s, p - r);
  }

  lemma MaskThenMod(x: nat, m: nat, k: nat)
    requires m > 0 && k > 0 && 65536 == m * k
    ensures x % 65536 % m == x % m
  {
    var y := x % 65536;
    Divide(x, 65536);
    Divide(y, m);
    assert x == m * (k * (x / 65536) + y / m) + y % m by { Regrouped(m, k, x / 65536, y / m); }
    QuotientIs(x, m, k * (x / 65536) + y / m, y % m);
  }

  lemma Regrouped(m: nat, k: nat, a: nat, b: nat)
    ensures m * k * a + m * b == m * (k * a + b)
  {
  }

  /** The first `width` live bits are what is shifted down and masked off; the rest stay live. */
  lemma TakeOut(value: nat, pending: seq<Bit>, width: nat)
    requires Live(value, pending) && (width == 5 || width == 8) && width <= |pending| <= 12
    ensures value / Pow2(|pending| - width) % Pow2(width) == Word(pending[..width])
    ensures Live(value, pending[width..])
  {
    hide Word, Pow2;
    var group, rest := pending[..width], pending[width..];
    assert pending == group + rest;
    WordJoined(group, rest);
    BitsOfWord(rest);
    Powers(|rest|);
    Powers(width);
    PowersAdd(|rest|, width);
    BitsOfWord(group);
    Split(value, Word(group), Word(rest), Pow2(|rest|), Pow2(width));
  }

  lemma Split(value: nat, high: nat, low: nat, a: nat, m: nat)
    requires a > 0 && m > 0 && value % (a * m) == high * a + low && low < a && high < m
    ensures value / a % m == high && value % a == low
  {
    var q := value / (a * m);
    Divide(value, a * m);
    assert value == a * (m * q + high) + low by { Regrouped(a, m, q, high); }
    QuotientIs(value, a, m * q + high, low);
    QuotientIs(m * q + high, m, q, high);
  }

  /** What is left is shifted up to make a last character. */
  lemma FillUp(value: nat, pending: seq<Bit>)
    requires Live(value, pending) && 0 < |pending| < 5
    ensures value * Pow2(5 - |pending|) % 32 == Word(pending + Zeros(5 - |pending|))
  {
    hide Word, Pow2;
    var p, q := Pow2(|pending|), Pow2(5 - |pending|);
    PowersAdd(|pending|, 5 - |pending|);
    Powers(5);
    Powers(|pending|);
    Powers(5 - |pending|);
    WordJoined(pending, Zeros(5 - |pending|));
    ShiftUp(value, p, q);
  }

  lemma ShiftUp(value: nat, p: nat, q: nat)
    requires p > 0 && q > 0 && p * q == 32
    ensures value * q % 32 == value % p * q
  {
    var q', r := value / p, value % p;
    Divide(value, p);
    Shifted(value, p, q', r, q);
    ShiftedBelow(r, p, q, 0);
    QuotientIs(value * q, 32, q', r * q);
  }

  lemma {:induction false} QuintetsJoined(a: seq<Bit>, b: seq<Bit>)
    requires |a| % 5 == 0
    ensures Quintets(a + b) == Quintets(a) + Quintets(b)
    decreases |a|
  {
    hide Word, BitsOf, Pow2;
    if a == [] {
      assert a + b == b;
    } else {
      QuintetsJoined(a[5..], b);
      assert (a + b)[..5] == a[..5] && (a + b)[5..] == a[5..] + b;
    }
  }

  lemma {:induction false} OctetsJoined(a: seq<Bit>, b: seq<Bit>)
    requires |a| % 8 == 0
    ensures Octets(a + b) == Octets(a) + Octets(b)
    decreases |a|
  {
    hide Word, BitsOf, Pow2;
    if a == [] {
      assert a + b == b;
    } else {
      OctetsJoined(a[8..], b);
      assert (a + b)[..8] == a[..8] && (a + b)[8..] == a[8..] + b;
    }
  }

  lemma OneGroup(group: seq<Bit>)
    ensures |group| == 5 ==> Word(group) < 32 && Quintets(group) == [CharOf(Word(group))]
    ensures |group| == 8 ==> Word(group) < 256 && Octets(group) == [Word(group)]
    ensures |group| < 8 ==> Octets(group) == []
  {
    BitsOfWord(group);
    Powers(|group|);
    if |group| == 5 { assert group[..5] == group && group[5..] == []; }
    if |group| == 8 { assert group[..8] == group && group[8..] == []; }
  }

  /** Bytes in, five bits at a time out. */
  method Base32Encode(bytes: seq<Byte>) returns (out: string)
    ensures out == Encoded(bytes)
  {
    hide Word, Pow2, Quintets, BitsOf, Stream;
    var value: nat, bits: nat := 0, 0;
    out := [];
    ghost var written: seq<Bit>, pending: seq<Bit> := [], [];
    Nothing();
    for i := 0 to |bytes|
      invariant bits == |pending| < 5 && Live(value, pending)
      invariant |written| % 5 == 0 && out == Quintets(written) && written + pending == Stream(bytes[..i])
    {
      OneMoreByte(bytes, i);
      Powers(8);
      ShiftIn(value, pending, bytes[i], 8);
      value := (value * 256 + bytes[i]) % 65536;
      bits := bits + 8;
      pending := pending + BitsOf(bytes[i], 8);
      while bits >= 5
        invariant bits == |pending| <= 12 && Live(value, pending)
        invariant |written| % 5 == 0 && out == Quintets(written) && written + pending == Stream(bytes[..i + 1])
      {
        out, written, pending := EmitQuintet(value, bits, out, written, pending);
        bits := bits - 5;
      }
    }
    assert bytes[..|bytes|] == bytes;
    QuintetsJoined(written, pending);
    if bits > 0 {
      FillUp(value, pending);
      LastQuintet(pending);
      out := out + [CharOf(value * Pow2(5 - bits) % 32)];
    } else {
      assert pending == [] && out + [] == out;
      LastQuintet(pending);
    }
  }

  lemma LastQuintet(pending: seq<Bit>)
    requires |pending| < 5
    ensures Word(pending + Zeros(5 - |pending|)) < 32
    ensures Quintets(pending) == if pending == [] then [] else [CharOf(Word(pending + Zeros(5 - |pending|)))]
  {
    BitsOfWord(pending + Zeros(5 - |pending|));
    Small(5);
  }

  lemma Nothing()
    ensures Stream([]) == [] && Quintets([]) == [] && Word([]) == 0 && Pow2(0) == 1 && Octets([]) == [] && Unquintets([]) == Some([])
  {
  }

  lemma OneMoreByte(bytes: seq<Byte>, i: nat)
    requires i < |bytes|
    ensures Stream(bytes[..i + 1]) == Stream(bytes[..i]) + BitsOf(bytes[i], 8)
  {
    assert bytes[..i + 1][..i] == bytes[..i];
  }

  method EmitQuintet(value: nat, bits: nat, out: string, ghost written: seq<Bit>, ghost pending: seq<Bit>)
    returns (longer: string, ghost written': seq<Bit>, ghost pending': seq<Bit>)
    requires 5 <= bits == |pending| <= 12 && Live(value, pending) && |written| % 5 == 0 && out == Quintets(written)
    ensures longer == out + [CharOf(value / Pow2(bits - 5) % 32)]
    ensures written' == written + pending[..5] && pending' == pending[5..] && Live(value, pending') && longer == Quintets(written')
    ensures |written'| % 5 == 0 && written' + pending' == written + pending
  {
    hide Word, Pow2, Quintets, BitsOf;
    TakeOut(value, pending, 5);
    Powers(5);
    QuintetsJoined(written, pending[..5]);
    OneGroup(pending[..5]);
    longer := out + [CharOf(value / Pow2(bits - 5) % 32)];
    written', pending' := written + pending[..5], pending[5..];
  }

  method EmitOctet(value: nat, bits: nat, bytes: seq<Byte>, ghost written: seq<Bit>, ghost pending: seq<Bit>)
    returns (longer: seq<Byte>, ghost written': seq<Bit>, ghost pending': seq<Bit>)
    requires 8 <= bits == |pending| <= 12 && Live(value, pending) && |written| % 8 == 0 && bytes == Octets(written)
    ensures longer == bytes + [value / Pow2(bits - 8) % 256]
    ensures written' == written + pending[..8] && pending' == pending[8..] && Live(value, pending') && longer == Octets(written')
    ensures |written'| % 8 == 0 && written' + pending' == written + pending
  {
    hide Word, Pow2, Octets, BitsOf, Live;
    TakeOut(value, pending, 8);
    Powers(8);
    OctetsJoined(written, pending[..8]);
    OneGroup(pending[..8]);
    longer := bytes + [value / Pow2(bits - 8) % 256];
    written', pending' := written + pending[..8], pending[8..];
  }

  method Base32Decode(text: string) returns (r: Option<seq<Byte>>)
    ensures r == Decoded(text)
  {
    hide Word, Pow2, Octets, BitsOf, Unquintets, Clean;
    var clean := Clean(text);
    var bytes: seq<Byte> := [];
    var value: nat, bits: nat := 0, 0;
    ghost var written: seq<Bit>, pending: seq<Bit> := [], [];
    Nothing();
    assert clean[..0] == [] && written + pending == [];
    for i := 0 to |clean|
      invariant bits == |pending| < 8 && Live(value, pending)
      invariant |written| % 8 == 0 && bytes == Octets(written) && Unquintets(clean[..i]) == Some(written + pending)
    {
      var index := IndexOf(clean[i]);
      OneMoreChar(clean, i);
      if index.None? {
        UnknownStays(clean, i + 1);
        return None;
      }
      Powers(5);
      ShiftIn(value, pending, index.value, 5);
      value := (value * 32 + index.value) % 65536;
      bits := bits + 5;
      assert written + (pending + BitsOf(index.value, 5)) == written + pending + BitsOf(index.value, 5);
      pending := pending + BitsOf(index.value, 5);
      if bits >= 8 {
        bytes, written, pending := EmitOctet(value, bits, bytes, written, pending);
        bits := bits - 8;
      }
    }
    assert clean[..|clean|] == clean;
    OctetsJoined(written, pending);
    OneGroup(pending);
    assert bytes + [] == bytes;
    r := Some(bytes);
  }

  lemma OneMoreChar(clean: string, i: nat)
    requires i < |clean|
    ensures Unquintets(clean[..i + 1]) ==
            if Unquintets(clean[..i]).None? || IndexOf(clean[i]).None? then None
            else Some(Unquintets(clean[..i]).value + BitsOf(IndexOf(clean[i]).value, 5))
  {
    assert clean[..i + 1][..i] == clean[..i];
  }

  lemma {:induction false} UnknownStays(clean: string, i: nat)
    requires i <= |clean| && Unquintets(clean[..i]).None?
    ensures Unquintets(clean).None?
    decreases |clean| - i
  {
    if i < |clean| {
      OneMoreChar(clean, i);
      UnknownStays(clean, i + 1);
    } else {
      assert clean[..i] == clean;
    }
  }

  // --- The step a code was made for -----------------------------------------------------------

  const TOTP_DIGITS: nat := 6

  /** The code for each time step, as the key makes them. */
  type CodeOf = nat -> string

  /** A text without its white space. */
  function Stripped(text: string): string
    decreases |text|
  {
    if text == [] then []
    else
      var last := text[|text| - 1];
      Stripped(text[..|text| - 1]) + if IsSpace(last) then [] else [last]
  }

  /** `^\d{digits}$` */
  predicate IsCode(given: string, digits: nat) {
    |given| == digits && forall i | 0 <= i < |given| :: '0' <= given[i] <= '9'
  }

  /** The text, but for its white space, is so many digits and the step's code. */
  predicate Matches(codeOf: CodeOf, code: string, step: int, digits: nat) {
    step >= 0 && IsCode(Stripped(code), digits) && codeOf(step) == Stripped(code)
  }

  /** The first step within the window whose code it is. */
  method MatchTotpStep(codeOf: CodeOf, code: string, now: int, window: nat, digits: nat) returns (r: Option<nat>)
    ensures r.Some? ==> now - window <= r.value <= now + window && Matches(codeOf, code, r.value, digits)
    ensures r.Some? ==> forall step | now - window <= step < r.value :: !Matches(codeOf, code, step, digits)
    ensures r.None? ==> forall step | now - window <= step <= now + window :: !Matches(codeOf, code, step, digits)
  {
    var given := Stripped(code);
    if !IsCode(given, digits) { return None; }
    for step := now - window to now + window + 1
      invariant forall earlier | now - window <= earlier < step :: !Matches(codeOf, code, earlier, digits)
    {
      if step < 0 { continue; }
      if codeOf(step) == given { return Some(step); }
    }
    return None;
  }
}
