/** Text wrapped to a printer's paper, breaking on spaces where it can. */
module Wrapping {
  import opened Wrappers
  import opened Texts

  // --- What wrapping does ------------------------------------------------------------------------

  /** The leading white space of a paragraph. */
  function IndentOf(paragraph: string): string {
    TrimStartOnce(paragraph);
    paragraph[..|paragraph| - |TrimStart(paragraph)|]
  }

  /** A word put after what is on the line, if there is room, or on the next. */
  datatype Line = Line(pushed: seq<string>, current: string)

  function Placed(word: string, current: string, room: nat): Line {
    if current == "" then Line([], word)
    else if |current| + 1 + |word| <= room then Line([], current + " " + word)
    else Line([current], word)
  }

  /** What is too long for a line broken off it. */
  function Broken(current: string, room: nat): (line: Line)
    requires room > 0
    ensures |line.current| <= room && forall i | 0 <= i < |line.pushed| :: |line.pushed[i]| == room
    decreases |current|
  {
    if |current| <= room then Line([], current)
    else
      var rest := Broken(current[room..], room);
      Line([current[..room]] + rest.pushed, rest.current)
  }

  function Indented(indent: string, lines: seq<string>): seq<string> {
    if lines == [] then [] else Indented(indent, lines[..|lines| - 1]) + [indent + lines[|lines| - 1]]
  }

  /** The lines, not yet indented, of the words to come after what is on the line. */
  function Fill(words: seq<string>, current: string, room: nat): (lines: seq<string>)
    requires room > 0 && |current| <= room
    ensures forall i | 0 <= i < |lines| :: |lines[i]| <= room
    decreases |words|
  {
    if words == [] then [current]
    else
      var placed := Placed(words[0], current, room);
      var broken := Broken(placed.current, room);
      placed.pushed + broken.pushed + Fill(words[1..], broken.current, room)
  }

  function Filled(paragraph: string, indent: string, room: nat): seq<string>
    requires room > 0
  {
    Indented(indent, Fill(Split(TrimStart(paragraph), ' '), "", room))
  }

  /** Wrapping, nested no deeper than `depth`. */
  function WrapWithin(text: string, width: int, depth: nat): Option<seq<string>>
    decreases depth, 0
  {
    if text == "" then Some([])
    else if depth == 0 then None
    else ParagraphsWithin(Split(text, '\n'), width, depth)
  }

  function ParagraphsWithin(paragraphs: seq<string>, width: int, depth: nat): Option<seq<string>>
    requires depth > 0
    decreases depth - 1, 1, |paragraphs|
  {
    if paragraphs == [] then Some([])
    else
      var last := paragraphs[|paragraphs| - 1];
      var before := ParagraphsWithin(paragraphs[..|paragraphs| - 1], width, depth);
      var indent := IndentOf(last);
      var lines :=
        if width - |indent| < 1 then WrapWithin(TrimStart(last), width, depth - 1)
        else Some(Filled(last, indent, width - |indent|));
      if before.None? || lines.None? then None else Some(before.value + lines.value)
  }

  // --- It ends, for paper at least a character wide ----------------------------------------------

  predicate HasInk(paragraphs: seq<string>) {
    exists i :: 0 <= i < |paragraphs| && TrimStart(paragraphs[i]) != ""
  }

  lemma TrimmedAgain(s: string)
    ensures TrimStart(TrimStart(s)) == TrimStart(s) && IndentOf(TrimStart(s)) == ""
  {
    TrimStartOnce(s);
  }

  /** A trimmed piece of one line is a paragraph of its own, without an indent. */
  lemma TrimmedPiece(s: string)
    requires '\n' !in s
    ensures '\n' !in TrimStart(s) && Split(TrimStart(s), '\n') == [TrimStart(s)]
  {
    TrimStartOnce(s);
    var t := TrimStart(s);
    forall i | 0 <= i < |t| ensures t[i] != '\n' { assert t[i] == s[|s| - |t| + i]; }
    SplitWhole(t, '\n');
  }

  lemma {:induction false} SplitWhole(s: string, separator: char)
    requires separator !in s
    ensures Split(s, separator) == [s]
  {
    if s != [] {
      SplitWhole(s[1..], separator);
      assert s == [s[0]] + s[1..];
    }
  }

  lemma {:induction false} ParagraphsEnd(paragraphs: seq<string>, width: int, depth: nat)
    requires depth >= 2 && width >= 1 && forall i | 0 <= i < |paragraphs| :: '\n' !in paragraphs[i]
    ensures ParagraphsWithin(paragraphs, width, depth).Some?
    decreases |paragraphs|
  {
    hide Filled, IndentOf;
    if paragraphs != [] {
      var last := paragraphs[|paragraphs| - 1];
      ParagraphsEnd(paragraphs[..|paragraphs| - 1], width, depth);
      TrimmedWraps(last, width, depth - 1);
    }
  }

  /** A piece without an indent has room: one paragraph, filled. */
  lemma TrimmedWraps(s: string, width: int, depth: nat)
    requires depth >= 1 && width >= 1 && '\n' !in s
    ensures WrapWithin(TrimStart(s), width, depth) ==
            Some(if TrimStart(s) == "" then [] else Filled(TrimStart(s), "", width))
  {
    TrimmedPiece(s);
    TrimmedAgain(s);
    if TrimStart(s) != "" { OneParagraph(TrimStart(s), "", width, depth); }
  }

  lemma OneParagraph(paragraph: string, indent: string, width: int, depth: nat)
    requires depth > 0 && indent == IndentOf(paragraph)
    ensures width - |indent| >= 1 ==> ParagraphsWithin([paragraph], width, depth) == Some(Filled(paragraph, indent, width - |indent|))
    ensures width - |indent| < 1 ==> ParagraphsWithin([paragraph], width, depth) == WrapWithin(TrimStart(paragraph), width, depth - 1)
  {
    hide Filled, WrapWithin, IndentOf;
    var none: seq<string> := [];
    assert [paragraph][..0] == [] && ParagraphsWithin([], width, depth) == Some(none);
    if width - |indent| >= 1 { assert none + Filled(paragraph, indent, width - |indent|) == Filled(paragraph, indent, width - |indent|); }
    if width - |indent| < 1 && WrapWithin(TrimStart(paragraph), width, depth - 1).Some? {
      assert none + WrapWithin(TrimStart(paragraph), width, depth - 1).value == WrapWithin(TrimStart(paragraph), width, depth - 1).value;
    }
  }

  lemma {:induction false} NeverEnds(s: string, width: int, depth: nat)
    requires width < 1 && '\n' !in s && TrimStart(s) != ""
    ensures WrapWithin(TrimStart(s), width, depth).None?
    decreases depth
  {
    if depth > 0 {
      TrimmedPiece(s);
      TrimmedAgain(s);
      NeverEnds(s, width, depth - 1);
    }
  }

  lemma InkBeforeOrLast(paragraphs: seq<string>)
    requires HasInk(paragraphs)
    ensures HasInk(paragraphs[..|paragraphs| - 1]) || TrimStart(paragraphs[|paragraphs| - 1]) != ""
  {
    var i :| 0 <= i < |paragraphs| && TrimStart(paragraphs[i]) != "";
    if i < |paragraphs| - 1 { assert paragraphs[..|paragraphs| - 1][i] == paragraphs[i]; }
  }

  lemma {:induction false} InkNeverEnds(paragraphs: seq<string>, width: int, depth: nat)
    requires depth > 0 && width < 1 && HasInk(paragraphs) && forall i | 0 <= i < |paragraphs| :: '\n' !in paragraphs[i]
    ensures ParagraphsWithin(paragraphs, width, depth).None?
    decreases |paragraphs|
  {
    var before, last := paragraphs[..|paragraphs| - 1], paragraphs[|paragraphs| - 1];
    if HasInk(before) {
      InkNeverEnds(before, width, depth);
    } else {
      InkBeforeOrLast(paragraphs);
      NeverEnds(last, width, depth - 1);
    }
  }

  lemma {:induction false} BlankEnds(paragraphs: seq<string>, width: int, depth: nat)
    requires depth > 0 && width < 1 && !HasInk(paragraphs)
    ensures ParagraphsWithin(paragraphs, width, depth).Some?
    decreases |paragraphs|
  {
    if paragraphs != [] {
      var before := paragraphs[..|paragraphs| - 1];
      assert !HasInk(before) by {
        forall i | 0 <= i < |before| ensures TrimStart(before[i]) == "" { assert before[i] == paragraphs[i]; }
      }
      BlankEnds(before, width, depth);
      assert TrimStart(paragraphs[|paragraphs| - 1]) == "";
    }
  }

  ghost predicate Ends(text: string, width: int) {
    exists depth: nat :: WrapWithin(text, width, depth).Some?
  }

  /** Wrapping ends if and only if the paper is at least a character wide, or there is nothing to print. */
  lemma EndsIff(text: string, width: int)
    ensures Ends(text, width) <==> width >= 1 || !HasInk(Split(text, '\n'))
    ensures width >= 1 ==> WrapWithin(text, width, 2).Some?
  {
    SplitLeavesOut(text, '\n');
    var paragraphs := Split(text, '\n');
    if width >= 1 {
      if text != "" { ParagraphsEnd(paragraphs, width, 2); }
      assert WrapWithin(text, width, 2).Some?;
    } else if HasInk(paragraphs) {
      forall depth: nat ensures WrapWithin(text, width, depth).None? {
        if depth > 0 { InkNeverEnds(paragraphs, width, depth); }
      }
    } else {
      BlankEnds(paragraphs, width, 1);
      assert WrapWithin(text, width, 1).Some?;
    }
  }

  function Wrap(text: string, width: int): seq<string>
    requires width >= 1
  {
    EndsIff(text, width);
    WrapWithin(text, width, 2).value
  }

  // --- Every line fits -----------------------------------------------------------------------------

  predicate Fit(lines: seq<string>, width: int) {
    forall i | 0 <= i < |lines| :: |lines[i]| <= width
  }

  lemma {:induction false} IndentedFit(indent: string, lines: seq<string>, room: nat)
    requires forall i | 0 <= i < |lines| :: |lines[i]| <= room
    ensures Fit(Indented(indent, lines), |indent| + room)
    decreases |lines|
  {
    if lines != [] { IndentedFit(indent, lines[..|lines| - 1], room); }
  }

  lemma FilledFit(paragraph: string, indent: string, room: nat)
    requires room > 0
    ensures Fit(Filled(paragraph, indent, room), |indent| + room)
  {
    hide Fill;
    IndentedFit(indent, Fill(Split(TrimStart(paragraph), ' '), "", room), room);
  }

  lemma {:induction false} ParagraphsFit(paragraphs: seq<string>, width: int, depth: nat)
    requires depth >= 2 && width >= 1 && forall i | 0 <= i < |paragraphs| :: '\n' !in paragraphs[i]
    ensures ParagraphsWithin(paragraphs, width, depth).Some? && Fit(ParagraphsWithin(paragraphs, width, depth).value, width)
    decreases |paragraphs|
  {
    hide Filled, IndentOf;
    ParagraphsEnd(paragraphs, width, depth);
    if paragraphs != [] {
      var last := paragraphs[|paragraphs| - 1];
      ParagraphsFit(paragraphs[..|paragraphs| - 1], width, depth);
      var indent := IndentOf(last);
      if width - |indent| >= 1 {
        FilledFit(last, indent, width - |indent|);
      } else {
        TrimmedWraps(last, width, depth - 1);
        FilledFit(TrimStart(last), "", width);
      }
    }
  }

  /** No line is longer than the paper is wide. */
  lemma EveryLineFits(text: string, width: int)
    requires width >= 1
    ensures Fit(Wrap(text, width), width)
  {
    SplitLeavesOut(text, '\n');
    if text != "" { ParagraphsFit(Split(text, '\n'), width, 2); }
  }

  // --- Nothing printed is lost ------------------------------------------------------------------------

  /** The characters that print, in order. */
  function Ink(s: string): string
    decreases |s|
  {
    if s == "" then ""
    else Ink(s[..|s| - 1]) + if IsSpace(s[|s| - 1]) then "" else [s[|s| - 1]]
  }

  function InkOf(lines: seq<string>): string
    decreases |lines|
  {
    if lines == [] then "" else Ink(lines[0]) + InkOf(lines[1..])
  }

  lemma {:induction false} InkJoined(a: string, b: string)
    ensures Ink(a + b) == Ink(a) + Ink(b)
    decreases |b|
  {
    hide IsSpace;
    if b == "" {
      assert a + b == a;
    } else {
      InkJoined(a, b[..|b| - 1]);
      assert (a + b)[..|a + b| - 1] == a + b[..|b| - 1] && (a + b)[|a + b| - 1] == b[|b| - 1];
    }
  }

  lemma {:induction false} InkOfJoined(a: seq<string>, b: seq<string>)
    ensures InkOf(a + b) == InkOf(a) + InkOf(b)
    decreases |a|
  {
    if a == [] {
      assert a + b == b;
    } else {
      InkOfJoined(a[1..], b);
      assert (a + b)[0] == a[0] && (a + b)[1..] == a[1..] + b;
    }
  }

  lemma {:induction false} NoInk(s: string)
    requires forall i | 0 <= i < |s| :: IsSpace(s[i])
    ensures Ink(s) == ""
    decreases |s|
  {
    if s != "" { NoInk(s[..|s| - 1]); }
  }

  lemma InkTrimmed(s: string)
    ensures Ink(TrimStart(s)) == Ink(s) && Ink(IndentOf(s)) == ""
  {
    hide Ink, TrimStart, IsSpace;
    TrimStartOnce(s);
    var indent := IndentOf(s);
    assert s == indent + TrimStart(s);
    assert forall i | 0 <= i < |indent| :: indent[i] == s[i];
    NoInk(indent);
    InkJoined(IndentOf(s), TrimStart(s));
  }

  lemma InkOfFirst(first: string, rest: seq<string>)
    ensures InkOf([first] + rest) == Ink(first) + InkOf(rest)
  {
    hide Ink;
    assert ([first] + rest)[0] == first && ([first] + rest)[1..] == rest;
  }

  lemma {:induction false} InkSplit(s: string, separator: char)
    requires IsSpace(separator)
    ensures InkOf(Split(s, separator)) == Ink(s)
  {
    hide Ink, InkOf;
    if s == "" {
      NoInkOf();
    } else {
      var rest := Split(s[1..], separator);
      InkSplit(s[1..], separator);
      assert s == [s[0]] + s[1..];
      InkJoined([s[0]], s[1..]);
      if s[0] == separator {
        NoInk([s[0]]);
        NoInkOf();
        InkOfFirst([], rest);
      } else {
        InkJoined([s[0]], rest[0]);
        InkOfFirst([s[0]] + rest[0], rest[1..]);
        InkOfFirst(rest[0], rest[1..]);
        assert [rest[0]] + rest[1..] == rest;
      }
    }
  }

  lemma NoInkOf()
    ensures Ink("") == "" && InkOf([[]]) == ""
  {
  }

  lemma {:induction false} InkIndented(indent: string, lines: seq<string>)
    requires Ink(indent) == ""
    ensures InkOf(Indented(indent, lines)) == InkOf(lines)
    decreases |lines|
  {
    if lines != [] {
      var before, last := lines[..|lines| - 1], lines[|lines| - 1];
      InkIndented(indent, before);
      InkJoined(indent, last);
      InkOfJoined(Indented(indent, before), [indent + last]);
      InkOfJoined(before, [last]);
      assert lines == before + [last];
      OneLine(last);
      OneLine(indent + last);
    }
  }

  lemma OneLine(line: string)
    ensures InkOf([line]) == Ink(line)
  {
    assert [line][1..] == [] && InkOf([]) == "";
  }

  lemma {:induction false} InkBroken(current: string, room: nat)
    requires room > 0
    ensures InkOf(Broken(current, room).pushed) + Ink(Broken(current, room).current) == Ink(current)
    decreases |current|
  {
    hide Ink;
    if |current| > room {
      var rest := Broken(current[room..], room);
      InkBroken(current[room..], room);
      InkJoined(current[..room], current[room..]);
      assert current == current[..room] + current[room..];
      InkOfJoined([current[..room]], rest.pushed);
      OneLine(current[..room]);
    }
  }

  lemma InkPlaced(word: string, current: string, room: nat)
    ensures InkOf(Placed(word, current, room).pushed) + Ink(Placed(word, current, room).current) == Ink(current) + Ink(word)
  {
    OneLine(current);
    NoInk(" ");
    InkJoined(current, " ");
    InkJoined(current + " ", word);
  }

  lemma {:induction false} InkFilled(words: seq<string>, current: string, room: nat)
    requires room > 0 && |current| <= room
    ensures InkOf(Fill(words, current, room)) == Ink(current) + InkOf(words)
    decreases |words|
  {
    hide Ink, InkOf, Placed, Broken;
    if words == [] {
      OneLine(current);
      NoLines(Ink(current));
    } else {
      var placed := Placed(words[0], current, room);
      var broken := Broken(placed.current, room);
      var rest := Fill(words[1..], broken.current, room);
      InkPlaced(words[0], current, room);
      InkBroken(placed.current, room);
      InkFilled(words[1..], broken.current, room);
      InkOfJoined(placed.pushed + broken.pushed, rest);
      InkOfJoined(placed.pushed, broken.pushed);
      InkFirst(words);
      Regroup(InkOf(placed.pushed), InkOf(broken.pushed), Ink(broken.current), Ink(placed.current),
              Ink(current), Ink(words[0]), InkOf(words[1..]));
    }
  }

  lemma NoLines(ink: string)
    ensures ink + InkOf([]) == ink
  {
  }

  lemma InkFirst(lines: seq<string>)
    requires lines != []
    ensures InkOf(lines) == Ink(lines[0]) + InkOf(lines[1..])
  {
  }

  lemma Regroup(pushed: string, broken: string, left: string, placed: string, current: string, word: string, rest: string)
    requires pushed + placed == current + word && broken + left == placed
    ensures pushed + broken + (left + rest) == current + (word + rest)
  {
    assert pushed + broken + (left + rest) == pushed + (broken + left) + rest;
    assert current + (word + rest) == current + word + rest;
  }

  lemma InkOfFilled(paragraph: string, indent: string, room: nat)
    requires room > 0 && Ink(indent) == ""
    ensures InkOf(Filled(paragraph, indent, room)) == Ink(paragraph)
  {
    hide Fill, Ink, InkOf;
    var words := Split(TrimStart(paragraph), ' ');
    InkIndented(indent, Fill(words, "", room));
    InkFilled(words, "", room);
    InkSplit(TrimStart(paragraph), ' ');
    InkTrimmed(paragraph);
    NoInk("");
    assert "" + InkOf(words) == InkOf(words);
  }

  lemma {:induction false} InkOfParagraphs(paragraphs: seq<string>, width: int, depth: nat)
    requires depth >= 2 && width >= 1 && forall i | 0 <= i < |paragraphs| :: '\n' !in paragraphs[i]
    ensures ParagraphsWithin(paragraphs, width, depth).Some?
    ensures InkOf(ParagraphsWithin(paragraphs, width, depth).value) == InkOf(paragraphs)
    decreases |paragraphs|
  {
    hide Filled, IndentOf, Ink;
    ParagraphsEnd(paragraphs, width, depth);
    if paragraphs != [] {
      var before, last := paragraphs[..|paragraphs| - 1], paragraphs[|paragraphs| - 1];
      InkOfParagraphs(before, width, depth);
      InkTrimmed(last);
      assert paragraphs == before + [last];
      InkOfJoined(before, [last]);
      OneLine(last);
      var indent := IndentOf(last);
      if width - |indent| >= 1 {
        InkOfFilled(last, indent, width - |indent|);
        InkOfJoined(ParagraphsWithin(before, width, depth).value, Filled(last, indent, width - |indent|));
      } else {
        TrimmedWraps(last, width, depth - 1);
        NoInk("");
        InkOfFilled(TrimStart(last), "", width);
        InkOfJoined(ParagraphsWithin(before, width, depth).value, WrapWithin(TrimStart(last), width, depth - 1).value);
      }
    }
  }

  /** What prints is what was to be printed, in its order. */
  lemma NothingIsLost(text: string, width: int)
    requires width >= 1
    ensures InkOf(Wrap(text, width)) == Ink(text)
  {
    SplitLeavesOut(text, '\n');
    InkSplit(text, '\n');
    if text != "" { InkOfParagraphs(Split(text, '\n'), width, 2); }
  }

  // --- What fits is left alone ---------------------------------------------------------------------

  /** A line goes on with each word in turn. */
  function Continued(current: string, words: seq<string>): string
    decreases |words|
  {
    if words == [] then current else Continued(current + " " + words[0], words[1..])
  }

  lemma {:induction false} ContinuedGrows(current: string, words: seq<string>)
    ensures |Continued(current, words)| >= |current|
    decreases |words|
  {
    if words != [] { ContinuedGrows(current + " " + words[0], words[1..]); }
  }

  lemma {:induction false} FillContinues(words: seq<string>, current: string, room: nat)
    requires room > 0 && current != "" && |Continued(current, words)| <= room && |current| <= room
    ensures Fill(words, current, room) == [Continued(current, words)]
    decreases |words|
  {
    if words != [] {
      ContinuedGrows(current + " " + words[0], words[1..]);
      FillContinues(words[1..], current + " " + words[0], room);
    }
  }

  lemma {:induction false} ContinuedIsJoined(current: string, words: seq<string>)
    ensures Continued(current, words) == Join([current] + words, ' ')
    decreases |words|
  {
    if words == [] {
      assert [current] + words == [current];
    } else {
      ContinuedIsJoined(current + " " + words[0], words[1..]);
      assert ([current] + words)[1..] == words;
      var next := [current + " " + words[0]] + words[1..];
      assert next[1..] == words[1..];
      if |words| > 1 { assert words[1..] != []; }
    }
  }

  lemma FillsOneLine(trimmed: string, room: nat)
    requires room > 0 && |trimmed| <= room && TrimStart(trimmed) == trimmed
    ensures Fill(Split(trimmed, ' '), "", room) == [trimmed]
  {
    JoinOfSplit(trimmed, ' ');
    var words := Split(trimmed, ' ');
    if trimmed == "" {
      assert words == [""] && words[1..] == [];
      assert Fill(words, "", room) == Fill([], "", room) == [""];
    } else {
      TrimStartOnce(trimmed);
      assert words[0] != "" && words == [words[0]] + words[1..];
      ContinuedIsJoined(words[0], words[1..]);
      ContinuedGrows(words[0], words[1..]);
      FillContinues(words[1..], words[0], room);
    }
  }

  lemma FilledUnchanged(paragraph: string, width: int)
    requires |paragraph| <= width && |IndentOf(paragraph)| < width
    ensures Filled(paragraph, IndentOf(paragraph), width - |IndentOf(paragraph)|) == [paragraph]
  {
    hide Fill;
    var indent, trimmed := IndentOf(paragraph), TrimStart(paragraph);
    TrimStartOnce(paragraph);
    assert paragraph == indent + trimmed;
    TrimmedAgain(paragraph);
    FillsOneLine(trimmed, width - |indent|);
    assert [trimmed][..0] == [] && Indented(indent, []) == [];
    assert Indented(indent, [trimmed]) == [indent + trimmed];
  }

  lemma {:induction false} ParagraphsUnchanged(paragraphs: seq<string>, width: int, depth: nat)
    requires depth >= 1 && forall i | 0 <= i < |paragraphs| :: |paragraphs[i]| <= width && |IndentOf(paragraphs[i])| < width
    ensures ParagraphsWithin(paragraphs, width, depth) == Some(paragraphs)
    decreases |paragraphs|
  {
    hide Filled, IndentOf;
    if paragraphs != [] {
      var before, last := paragraphs[..|paragraphs| - 1], paragraphs[|paragraphs| - 1];
      ParagraphsUnchanged(before, width, depth);
      FilledUnchanged(last, width);
      assert paragraphs == before + [last];
    }
  }

  /** Paragraphs that fit, with room beside their indents, are printed as they are. */
  lemma WhatFitsIsLeftAlone(text: string, width: int)
    requires width >= 1 && text != ""
    requires forall p | p in Split(text, '\n') :: |p| <= width && |IndentOf(p)| < width
    ensures Wrap(text, width) == Split(text, '\n')
  {
    ParagraphsUnchanged(Split(text, '\n'), width, 2);
  }

  // --- It breaks only where it must -----------------------------------------------------------------

  function FirstWord(s: string): string {
    if s == "" || s[0] == ' ' then "" else [s[0]] + FirstWord(s[1..])
  }

  /** No line had room for the word the next one begins with. */
  predicate Tight(lines: seq<string>, room: nat) {
    forall i | 0 <= i < |lines| - 1 :: |lines[i]| + 1 + |FirstWord(lines[i + 1])| > room
  }

  lemma {:induction false} WholeWord(s: string)
    requires ' ' !in s
    ensures FirstWord(s) == s
  {
    if s != "" {
      WholeWord(s[1..]);
      assert s == [s[0]] + s[1..];
    }
  }

  lemma {:induction false} StillFirst(s: string, more: string)
    ensures FirstWord(s + " " + more) == FirstWord(s)
  {
    if s == "" {
      assert (s + " " + more)[0] == ' ';
    } else {
      StillFirst(s[1..], more);
      assert (s + " " + more)[0] == s[0] && (s + " " + more)[1..] == s[1..] + " " + more;
    }
  }

  lemma TightAfterFull(full: seq<string>, rest: seq<string>, room: nat)
    requires Tight(rest, room) && forall i | 0 <= i < |full| :: |full[i]| == room
    ensures Tight(full + rest, room)
  {
    hide FirstWord;
    var lines := full + rest;
    forall i | 0 <= i < |lines| - 1 ensures |lines[i]| + 1 + |FirstWord(lines[i + 1])| > room {
      if i >= |full| { assert lines[i] == rest[i - |full|] && lines[i + 1] == rest[i - |full| + 1]; }
    }
  }

  lemma TightAfter(first: string, rest: seq<string>, room: nat)
    requires Tight(rest, room) && rest != [] && |first| + 1 + |FirstWord(rest[0])| > room
    ensures Tight([first] + rest, room)
  {
    hide FirstWord;
    var lines := [first] + rest;
    forall i | 0 <= i < |lines| - 1 ensures |lines[i]| + 1 + |FirstWord(lines[i + 1])| > room {
      if i > 0 { assert lines[i] == rest[i - 1] && lines[i + 1] == rest[i]; }
    }
  }

  lemma {:induction false} FillIsTight(words: seq<string>, current: string, room: nat)
    requires room > 0 && |current| <= room && forall i | 0 <= i < |words| :: ' ' !in words[i]
    ensures Fill(words, current, room) != [] && Tight(Fill(words, current, room), room)
    ensures current != "" ==> FirstWord(Fill(words, current, room)[0]) == FirstWord(current)
    decreases |words|
  {
    hide FirstWord, Tight, Placed, Broken;
    if words == [] {
      OneIsTight(current, room);
    } else {
      var placed := Placed(words[0], current, room);
      var broken := Broken(placed.current, room);
      var rest := Fill(words[1..], broken.current, room);
      FillIsTight(words[1..], broken.current, room);
      FillGoesOn(words, current, room, broken.pushed, rest);
      hide Fill;
      TightAfterFull(broken.pushed, rest, room);
      PlacedIs(words[0], current, room);
      BrokenIs(placed.current, room);
      if placed.pushed == [] {
        StillFirst(current, words[0]);
      } else {
        NextBeginsWith(words[0], broken, rest, room);
        TightAfter(current, broken.pushed + rest, room);
      }
    }
  }

  lemma FillGoesOn(words: seq<string>, current: string, room: nat, broken: seq<string>, rest: seq<string>)
    requires room > 0 && |current| <= room && words != []
    requires var placed := Placed(words[0], current, room);
             broken == Broken(placed.current, room).pushed && rest == Fill(words[1..], Broken(placed.current, room).current, room)
    ensures Fill(words, current, room) == Placed(words[0], current, room).pushed + (broken + rest)
    ensures Placed(words[0], current, room).pushed == [] ==> Fill(words, current, room) == broken + rest
  {
    var placed := Placed(words[0], current, room);
    hide Placed, Broken;
    assert placed.pushed + broken + rest == placed.pushed + (broken + rest);
    assert [] + (broken + rest) == broken + rest;
  }

  /** A word put on a line of its own is what that line begins with, or fills it. */
  lemma NextBeginsWith(word: string, broken: Line, rest: seq<string>, room: nat)
    requires room > 0 && ' ' !in word && broken == Broken(word, room) && rest != []
    requires broken.current != "" ==> FirstWord(rest[0]) == FirstWord(broken.current)
    ensures |FirstWord((broken.pushed + rest)[0])| >= if |word| <= room then |word| else room
  {
    BrokenIs(word, room);
    WholeWord(word);
    if |word| > room { WholeWord(word[..room]); }
  }

  lemma OneIsTight(line: string, room: nat)
    ensures Tight([line], room)
  {
  }

  lemma PlacedIs(word: string, current: string, room: nat)
    ensures var placed := Placed(word, current, room);
            || (placed.pushed == [] && current == "" && placed.current == word)
            || (placed.pushed == [] && placed.current == current + " " + word && |placed.current| <= room)
            || (placed.pushed == [current] && placed.current == word && |current| + 1 + |word| > room)
  {
  }

  lemma BrokenIs(current: string, room: nat)
    requires room > 0
    ensures var broken := Broken(current, room);
            && (|current| <= room ==> broken.pushed == [] && broken.current == current)
            && (|current| > room ==> broken.pushed != [] && broken.pushed[0] == current[..room])
  {
  }

  /** One paragraph's lines: each begins with the paragraph's indent, and ends where the next word did not fit. */
  predicate IsBlock(block: seq<string>, indent: string, width: nat) {
    && (forall i | 0 <= i < |block| :: indent <= block[i])
    && (forall i | 0 <= i < |block| - 1 :: |block[i]| + 1 + |FirstWord(block[i + 1][|indent|..])| > width)
  }

  lemma {:induction false} IndentedAt(indent: string, lines: seq<string>)
    ensures |Indented(indent, lines)| == |lines|
    ensures forall i | 0 <= i < |lines| :: Indented(indent, lines)[i] == indent + lines[i]
    decreases |lines|
  {
    if lines != [] { IndentedAt(indent, lines[..|lines| - 1]); }
  }

  lemma FilledIsBlock(paragraph: string, indent: string, width: nat)
    requires |indent| < width
    ensures IsBlock(Filled(paragraph, indent, width - |indent|), indent, width)
  {
    hide FirstWord, Fill;
    var words, room := Split(TrimStart(paragraph), ' '), width - |indent|;
    var lines, block := Fill(words, "", room), Filled(paragraph, indent, room);
    SplitLeavesOut(TrimStart(paragraph), ' ');
    FillIsTight(words, "", room);
    IndentedAt(indent, lines);
    forall i | 0 <= i < |block| ensures indent <= block[i] && block[i][|indent|..] == lines[i] && |block[i]| == |indent| + |lines[i]| {
      assert block[i] == indent + lines[i];
    }
  }

  function Joined(blocks: seq<seq<string>>): seq<string> {
    if blocks == [] then [] else Joined(blocks[..|blocks| - 1]) + blocks[|blocks| - 1]
  }

  /** The indent of a paragraph's lines: none where its own would fill the paper. */
  function IndentKept(paragraph: string, width: nat): string {
    if |IndentOf(paragraph)| < width then IndentOf(paragraph) else ""
  }

  ghost predicate AreBlocks(blocks: seq<seq<string>>, paragraphs: seq<string>, width: nat) {
    && |blocks| == |paragraphs|
    && forall n | 0 <= n < |blocks| :: IsBlock(blocks[n], IndentKept(paragraphs[n], width), width) && InkOf(blocks[n]) == Ink(paragraphs[n])
  }

  lemma ParagraphIsBlock(paragraph: string, width: nat, depth: nat) returns (block: seq<string>)
    requires depth >= 1 && width >= 1 && '\n' !in paragraph
    ensures var indent := IndentOf(paragraph);
            Some(block) == if width - |indent| < 1 then WrapWithin(TrimStart(paragraph), width, depth)
                           else Some(Filled(paragraph, indent, width - |indent|))
    ensures IsBlock(block, IndentKept(paragraph, width), width) && InkOf(block) == Ink(paragraph)
  {
    hide Filled, IndentOf, Ink, IsBlock;
    var indent := IndentOf(paragraph);
    InkTrimmed(paragraph);
    if width - |indent| >= 1 {
      block := Filled(paragraph, indent, width - |indent|);
      FilledIsBlock(paragraph, indent, width);
      InkOfFilled(paragraph, indent, width - |indent|);
    } else {
      TrimmedWraps(paragraph, width, depth);
      NoInk("");
      InkOfFilled(TrimStart(paragraph), "", width);
      FilledIsBlock(TrimStart(paragraph), "", width);
      NoLinesAreBlock(width);
      block := if TrimStart(paragraph) == "" then [] else Filled(TrimStart(paragraph), "", width);
    }
  }

  lemma NoLinesAreBlock(width: nat)
    ensures IsBlock([], "", width)
  {
  }

  lemma {:induction false} ParagraphsAreBlocks(paragraphs: seq<string>, width: nat, depth: nat) returns (blocks: seq<seq<string>>)
    requires depth >= 2 && width >= 1 && forall i | 0 <= i < |paragraphs| :: '\n' !in paragraphs[i]
    ensures ParagraphsWithin(paragraphs, width, depth) == Some(Joined(blocks)) && AreBlocks(blocks, paragraphs, width)
    decreases |paragraphs|
  {
    hide Filled, IndentOf, Ink, InkOf, IsBlock, WrapWithin, IndentKept, AreBlocks;
    if paragraphs == [] {
      blocks := [];
      NoBlocks(width);
    } else {
      var last := |paragraphs| - 1;
      var before := ParagraphsAreBlocks(paragraphs[..last], width, depth);
      var block := ParagraphIsBlock(paragraphs[last], width, depth - 1);
      blocks := before + [block];
      OneMoreBlock(before, paragraphs, block, width);
    }
  }

  lemma NoBlocks(width: nat)
    ensures AreBlocks([], [], width)
  {
  }

  lemma OneMoreBlock(before: seq<seq<string>>, paragraphs: seq<string>, block: seq<string>, width: nat)
    requires paragraphs != [] && AreBlocks(before, paragraphs[..|paragraphs| - 1], width)
    requires var p := paragraphs[|paragraphs| - 1]; IsBlock(block, IndentKept(p, width), width) && InkOf(block) == Ink(p)
    ensures AreBlocks(before + [block], paragraphs, width) && Joined(before + [block]) == Joined(before) + block
  {
    hide IsBlock, IndentKept, Ink, InkOf;
    assert (before + [block])[..|before|] == before;
  }

  /**
   The lines come paragraph by paragraph, in order. A paragraph's lines print what it
   prints, keep its indent unless that fills the paper, and break only where the next
   word did not fit.
   */
  lemma BreaksOnlyWhereItMust(text: string, width: nat) returns (blocks: seq<seq<string>>)
    requires width >= 1 && text != ""
    ensures Wrap(text, width) == Joined(blocks) && AreBlocks(blocks, Split(text, '\n'), width)
  {
    SplitLeavesOut(text, '\n');
    blocks := ParagraphsAreBlocks(Split(text, '\n'), width, 2);
  }

  // --- The loops ------------------------------------------------------------------------------------

  method WrapText(text: string, width: int) returns (lines: seq<string>)
    requires width >= 1
    ensures lines == Wrap(text, width)
  {
    EndsIff(text, width);
    lines := [];
    if text == "" { return; }
    SplitLeavesOut(text, '\n');
    var paragraphs := Split(text, '\n');
    assert paragraphs[..0] == [] && ParagraphsWithin([], width, 2) == Some(lines);
    hide ParagraphsWithin, Filled, IndentOf;
    for n := 0 to |paragraphs|
      invariant ParagraphsWithin(paragraphs[..n], width, 2) == Some(lines)
    {
      var indent := IndentOf(paragraphs[n]);
      NextParagraph(paragraphs, n, width);
      if width - |indent| < 1 {
        var more := WrapParagraph(TrimStart(paragraphs[n]), "", width);
        lines := lines + if TrimStart(paragraphs[n]) == "" then [] else more;
      } else {
        var more := WrapParagraph(paragraphs[n], indent, width - |indent|);
        lines := lines + more;
      }
    }
    assert paragraphs[..|paragraphs|] == paragraphs;
  }

  lemma NextParagraph(paragraphs: seq<string>, n: nat, width: int)
    requires n < |paragraphs| && width >= 1 && '\n' !in paragraphs[n] && ParagraphsWithin(paragraphs[..n], width, 2).Some?
    ensures var p, indent := paragraphs[n], IndentOf(paragraphs[n]);
            ParagraphsWithin(paragraphs[..n + 1], width, 2) ==
            Some(ParagraphsWithin(paragraphs[..n], width, 2).value
                 + if width - |indent| >= 1 then Filled(p, indent, width - |indent|)
                   else if TrimStart(p) == "" then [] else Filled(TrimStart(p), "", width))
  {
    hide Filled, IndentOf;
    assert paragraphs[..n + 1][..n] == paragraphs[..n];
    TrimmedWraps(paragraphs[n], width, 1);
  }

  method WrapParagraph(paragraph: string, indent: string, room: nat) returns (lines: seq<string>)
    requires room > 0
    ensures lines == Filled(paragraph, indent, room)
  {
    var words := Split(TrimStart(paragraph), ' ');
    ghost var bare: seq<string> := [];
    lines := [];
    var current := "";
    NoneYet(words, indent, room);
    hide Fill, Broken, Indented;
    for k := 0 to |words|
      invariant |current| <= room && lines == Indented(indent, bare)
      invariant bare + Fill(words[k..], current, room) == Fill(words, "", room)
    {
      ghost var before, was := bare, current;
      var next := words[k];
      if current == "" {
        current := next;
      } else if |current| + 1 + |next| <= room {
        current := current + " " + next;
      } else {
        lines, bare := Push(lines, bare, indent, current);
        current := next;
      }
      ghost var placed := Placed(next, was, room);
      assert bare == before + placed.pushed && current == placed.current;
      lines, bare, current := BreakOff(lines, bare, indent, current, room);
      FillStep(words, k, was, room);
      Pushed(before, placed.pushed, Broken(placed.current, room).pushed, Fill(words[k + 1..], current, room));
    }
    LastLine(words, current, room);
    lines, bare := Push(lines, bare, indent, current);
  }

  lemma NoneYet(words: seq<string>, indent: string, room: nat)
    requires room > 0
    ensures Indented(indent, []) == [] && [] + Fill(words[0..], "", room) == Fill(words, "", room)
  {
    assert words[0..] == words;
  }

  lemma Pushed(before: seq<string>, placed: seq<string>, broken: seq<string>, rest: seq<string>)
    ensures before + (placed + broken + rest) == before + placed + broken + rest
  {
  }

  lemma LastLine(words: seq<string>, current: string, room: nat)
    requires room > 0 && |current| <= room
    ensures Fill(words[|words|..], current, room) == [current]
  {
    assert words[|words|..] == [];
  }

  /** A single word longer than the paper is broken. */
  method BreakOff(lines: seq<string>, ghost bare: seq<string>, indent: string, word: string, room: nat)
    returns (longer: seq<string>, ghost barer: seq<string>, current: string)
    requires room > 0 && lines == Indented(indent, bare)
    ensures barer == bare + Broken(word, room).pushed && current == Broken(word, room).current && longer == Indented(indent, barer)
  {
    longer, barer, current := lines, bare, word;
    while |current| > room
      invariant longer == Indented(indent, barer)
      invariant barer + Broken(current, room).pushed == bare + Broken(word, room).pushed
      invariant Broken(current, room).current == Broken(word, room).current
      decreases |current|
    {
      ghost var before, was := barer, current;
      longer, barer := Push(longer, barer, indent, current[..room]);
      current := current[room..];
      assert before + Broken(was, room).pushed == before + [was[..room]] + Broken(current, room).pushed;
    }
    assert barer + [] == barer;
  }

  lemma FillStep(words: seq<string>, k: nat, current: string, room: nat)
    requires k < |words| && room > 0 && |current| <= room
    ensures var placed := Placed(words[k], current, room);
            var broken := Broken(placed.current, room);
            Fill(words[k..], current, room) == placed.pushed + broken.pushed + Fill(words[k + 1..], broken.current, room)
  {
    assert words[k..][1..] == words[k + 1..];
  }

  method Push(lines: seq<string>, ghost bare: seq<string>, indent: string, line: string) returns (longer: seq<string>, ghost barer: seq<string>)
    requires lines == Indented(indent, bare)
    ensures longer == lines + [indent + line] && barer == bare + [line] && longer == Indented(indent, barer)
  {
    longer, barer := lines + [indent + line], bare + [line];
    assert barer[..|bare|] == bare;
  }
}
