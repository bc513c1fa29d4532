/** Paths inside an archive, made safe to extract. */
module ZipPaths {
  import opened Wrappers
  import opened Texts

  function ForwardSlashes(s: string): string {
    if s == [] then [] else [if s[0] == '\\' then '/' else s[0]] + ForwardSlashes(s[1..])
  }

  predicate Keeps(segment: string) {
    segment != "" && segment != "." && segment != ".."
  }

  /** Each piece trimmed, the meaningless and the climbing ones dropped. */
  function Segments(pieces: seq<string>): seq<string> {
    if pieces == [] then []
    else (if Keeps(Trim(pieces[0])) then [Trim(pieces[0])] else []) + Segments(pieces[1..])
  }

  function NormalisePath(path: string): Option<string> {
    var segments := Segments(Split(ForwardSlashes(path), '/'));
    if segments == [] then None else Some(Join(segments, '/'))
  }

  // --- What makes a path safe -------------------------------------------------------------

  predicate SafeSegment(segment: string) {
    Keeps(segment) && '/' !in segment && '\\' !in segment && Trim(segment) == segment
  }

  lemma {:induction false} TrimKeepsOut(s: string, c: char)
    requires c !in s
    ensures c !in TrimStart(s) && c !in TrimEnd(s)
    decreases |s|
  {
    if s != [] {
      TrimKeepsOut(s[1..], c);
      TrimKeepsOut(s[..|s| - 1], c);
    }
  }

  lemma {:induction false} TrimEndOnce(s: string)
    ensures TrimEnd(TrimEnd(s)) == TrimEnd(s)
    ensures TrimEnd(s) <= s
    decreases |s|
  {
    if s != [] { TrimEndOnce(s[..|s| - 1]); }
  }

  lemma TrimOnce(s: string)
    ensures Trim(Trim(s)) == Trim(s)
  {
    TrimStartOnce(s);
    TrimEndOnce(TrimStart(s));
    assert TrimStart(Trim(s)) == Trim(s);
  }

  lemma {:induction false} SplitKeepsOut(s: string)
    requires '\\' !in s
    ensures forall k | 0 <= k < |Split(s, '/')| :: '/' !in Split(s, '/')[k] && '\\' !in Split(s, '/')[k]
  {
    if s != [] { SplitKeepsOut(s[1..]); }
  }

  lemma {:induction false} SlashesForward(s: string)
    ensures '\\' !in ForwardSlashes(s)
    ensures '\\' !in s ==> ForwardSlashes(s) == s
  {
    if s != [] { SlashesForward(s[1..]); }
  }

  lemma {:induction false} SegmentsAreSafe(pieces: seq<string>)
    requires forall k | 0 <= k < |pieces| :: '/' !in pieces[k] && '\\' !in pieces[k]
    ensures forall k | 0 <= k < |Segments(pieces)| :: SafeSegment(Segments(pieces)[k])
  {
    if pieces != [] {
      SegmentsAreSafe(pieces[1..]);
      var piece := pieces[0];
      TrimOnce(piece);
      TrimKeepsOut(piece, '/');
      TrimKeepsOut(TrimStart(piece), '/');
      TrimKeepsOut(piece, '\\');
      TrimKeepsOut(TrimStart(piece), '\\');
    }
  }

  lemma {:induction false} SplitOne(s: string)
    requires '/' !in s
    ensures Split(s, '/') == [s]
  {
    if s != [] {
      SplitOne(s[1..]);
      assert [s[0]] + s[1..] == s;
    }
  }

  lemma {:induction false} SplitAfter(s: string, rest: string)
    requires '/' !in s
    ensures Split(s + "/" + rest, '/') == [s] + Split(rest, '/')
  {
    if s == [] {
      assert s + "/" + rest == "/" + rest;
      assert ("/" + rest)[1..] == rest;
    } else {
      assert (s + "/" + rest)[1..] == s[1..] + "/" + rest;
      SplitAfter(s[1..], rest);
      assert [s[0]] + s[1..] == s;
      assert ([s[1..]] + Split(rest, '/'))[1..] == Split(rest, '/');
    }
  }

  lemma {:induction false} SplitOfJoin(segments: seq<string>)
    requires segments != [] && forall k | 0 <= k < |segments| :: SafeSegment(segments[k])
    ensures Split(Join(segments, '/'), '/') == segments && '\\' !in Join(segments, '/')
    ensures Segments(segments) == segments
  {
    if |segments| == 1 {
      SplitOne(segments[0]);
      assert segments[1..] == [] && Segments([]) == [];
    } else {
      SplitOfJoin(segments[1..]);
      SplitAfter(segments[0], Join(segments[1..], '/'));
    }
  }

  /**
   Whatever the path, its normalised form is made of safe segments alone — none empty,
   none `.` or `..`, none holding a separator, so nothing climbs out — and is a path it
   leaves as it is.
   */
  lemma NormalisedIsSafe(path: string)
    requires NormalisePath(path).Some?
    ensures var normal := NormalisePath(path).value;
            && NormalisePath(normal) == Some(normal)
            && '\\' !in normal
            && forall k | 0 <= k < |Split(normal, '/')| :: SafeSegment(Split(normal, '/')[k])
  {
    var segments := Segments(Split(ForwardSlashes(path), '/'));
    SlashesForward(path);
    SplitKeepsOut(ForwardSlashes(path));
    SegmentsAreSafe(Split(ForwardSlashes(path), '/'));
    SplitOfJoin(segments);
    SlashesForward(Join(segments, '/'));
  }

  // --- What of the path is kept -------------------------------------------------------------

  /** The text without the white space around it, found by what is left of it. */
  ghost predicate IsTrimmed(text: string, trimmed: string) {
    exists a: nat, b: nat {:trigger text[a..b]} :: a <= b <= |text| && trimmed == text[a..b] && OnlySpaceOutside(text, a, b)
  }

  predicate OnlySpaceOutside(text: string, a: nat, b: nat)
    requires a <= b <= |text|
  {
    && (forall i | 0 <= i < a :: IsSpace(text[i])) && (forall i | b <= i < |text| :: IsSpace(text[i]))
    && (a < b ==> !IsSpace(text[a]) && !IsSpace(text[b - 1]))
  }

  lemma {:induction false} TrimEndIs(s: string)
    ensures var n := |TrimEnd(s)|;
            n <= |s| && TrimEnd(s) == s[..n] && (forall i | n <= i < |s| :: IsSpace(s[i])) && (n > 0 ==> !IsSpace(s[n - 1]))
    decreases |s|
  {
    if s != [] && IsSpace(s[|s| - 1]) { TrimEndIs(s[..|s| - 1]); }
  }

  lemma TrimIs(text: string)
    ensures IsTrimmed(text, Trim(text))
  {
    hide IsSpace, TrimStart, TrimEnd;
    TrimStartOnce(text);
    var rest := TrimStart(text);
    TrimEndIs(rest);
    var a, b := |text| - |rest|, |text| - |rest| + |Trim(text)|;
    assert Trim(text) == rest[..|Trim(text)|] == text[a..b];
    assert forall i | b <= i < |text| :: text[i] == rest[i - a];
    if a < b { assert text[a] == rest[0] && text[b - 1] == rest[b - 1 - a]; }
  }

  /** Trimmed it is something, and neither `.` nor `..`. */
  predicate IsSegment(piece: string) {
    Trim(piece) != "" && Trim(piece) != "." && Trim(piece) != ".."
  }

  /** The segments are the pieces that make one, trimmed, each where it stands. */
  ghost predicate AreKept(pieces: seq<string>, kept: seq<nat>, segments: seq<string>) {
    ArePicked(0, pieces, kept, segments) && Rises(kept) && AllPicked(0, pieces, kept)
  }

  predicate ArePicked(from: nat, pieces: seq<string>, kept: seq<nat>, segments: seq<string>) {
    && |kept| == |segments|
    && forall k | 0 <= k < |kept| :: from <= kept[k] < |pieces| && IsSegment(pieces[kept[k]]) && segments[k] == Trim(pieces[kept[k]])
  }

  predicate Rises(kept: seq<nat>) {
    forall j, k | 0 <= j < k < |kept| :: kept[j] < kept[k]
  }

  ghost predicate AllPicked(from: nat, pieces: seq<string>, kept: seq<nat>) {
    forall i: nat | from <= i < |pieces| && IsSegment(pieces[i]) :: Picks(kept, i)
  }

  ghost predicate Picks(kept: seq<nat>, i: nat) {
    exists k :: 0 <= k < |kept| && kept[k] == i
  }

  lemma {:induction false} SegmentsAreKept(pieces: seq<string>) returns (kept: seq<nat>)
    ensures AreKept(pieces, kept, Segments(pieces))
    decreases |pieces|
  {
    hide Trim, ArePicked, Rises, AllPicked;
    kept := [];
    if pieces == [] {
      NothingPicked();
    } else {
      var rest := SegmentsAreKept(pieces[1..]);
      RestPicked(pieces, rest, Segments(pieces[1..]));
      RestAllPicked(pieces, rest);
      kept := Shifted(rest);
      if IsSegment(pieces[0]) {
        FirstPicked(pieces, kept, Segments(pieces[1..]));
        FirstAllPicked(pieces, kept);
        kept := [0] + kept;
      } else {
        FirstDropped(pieces, kept, Segments(pieces[1..]));
        assert [] + Segments(pieces[1..]) == Segments(pieces[1..]);
      }
    }
  }

  lemma NothingPicked()
    ensures AreKept([], [], [])
  {
  }

  function Shifted(rest: seq<nat>): (later: seq<nat>)
    ensures |later| == |rest| && forall k | 0 <= k < |rest| :: later[k] == rest[k] + 1
  {
    seq(|rest|, k requires 0 <= k < |rest| => rest[k] + 1)
  }

  lemma RestPicked(pieces: seq<string>, rest: seq<nat>, segments: seq<string>)
    requires pieces != [] && ArePicked(0, pieces[1..], rest, segments) && Rises(rest)
    ensures ArePicked(1, pieces, Shifted(rest), segments) && Rises(Shifted(rest))
  {
    hide Trim, IsSegment;
    var later := Shifted(rest);
    forall k | 0 <= k < |later|
      ensures 1 <= later[k] < |pieces| && IsSegment(pieces[later[k]]) && segments[k] == Trim(pieces[later[k]])
    {
      assert pieces[later[k]] == pieces[1..][rest[k]];
    }
  }

  lemma RestAllPicked(pieces: seq<string>, rest: seq<nat>)
    requires pieces != [] && AllPicked(0, pieces[1..], rest)
    ensures AllPicked(1, pieces, Shifted(rest))
  {
    hide IsSegment;
    var later := Shifted(rest);
    forall i: nat | 1 <= i < |pieces| && IsSegment(pieces[i]) ensures Picks(later, i) {
      assert pieces[1..][i - 1] == pieces[i];
      var k :| 0 <= k < |rest| && rest[k] == i - 1;
      assert later[k] == i;
    }
  }

  lemma FirstPicked(pieces: seq<string>, later: seq<nat>, segments: seq<string>)
    requires pieces != [] && ArePicked(1, pieces, later, segments) && Rises(later) && IsSegment(pieces[0])
    ensures ArePicked(0, pieces, [0] + later, [Trim(pieces[0])] + segments) && Rises([0] + later)
  {
    hide Trim, IsSegment;
    var kept, all := [0] + later, [Trim(pieces[0])] + segments;
    assert forall k | 0 < k < |kept| :: kept[k] == later[k - 1] && all[k] == segments[k - 1];
  }

  lemma FirstAllPicked(pieces: seq<string>, later: seq<nat>)
    requires AllPicked(1, pieces, later)
    ensures AllPicked(0, pieces, [0] + later)
  {
    hide IsSegment;
    var kept := [0] + later;
    forall i: nat | i < |pieces| && IsSegment(pieces[i]) ensures Picks(kept, i) {
      if i == 0 {
        assert kept[0] == 0;
      } else {
        var k :| 0 <= k < |later| && later[k] == i;
        assert kept[k + 1] == i;
      }
    }
  }

  lemma FirstDropped(pieces: seq<string>, later: seq<nat>, segments: seq<string>)
    requires pieces != [] && ArePicked(1, pieces, later, segments) && AllPicked(1, pieces, later) && !IsSegment(pieces[0])
    ensures ArePicked(0, pieces, later, segments) && AllPicked(0, pieces, later)
  {
    hide Trim, Picks;
  }

  lemma {:induction false} SlashesByPlace(s: string)
    ensures |ForwardSlashes(s)| == |s| && forall i | 0 <= i < |s| :: ForwardSlashes(s)[i] == if s[i] == '\\' then '/' else s[i]
  {
    if s != [] { SlashesByPlace(s[1..]); }
  }

  /**
   From the text alone. The pieces are the path's, cut at every slash of either kind; the
   normalised path is those that are segments, trimmed and in their order, a slash between,
   and there is none if no piece is one.
   */
  lemma NormalisedFromText(path: string) returns (pieces: seq<string>, kept: seq<nat>, segments: seq<string>)
    ensures |Join(pieces, '/')| == |path| && forall i | 0 <= i < |path| :: Join(pieces, '/')[i] == if path[i] == '\\' then '/' else path[i]
    ensures pieces != [] && forall k | 0 <= k < |pieces| :: '/' !in pieces[k] && IsTrimmed(pieces[k], Trim(pieces[k]))
    ensures AreKept(pieces, kept, segments)
    ensures NormalisePath(path) == if segments == [] then None else Some(Join(segments, '/'))
  {
    pieces := Split(ForwardSlashes(path), '/');
    SlashesByPlace(path);
    JoinOfSplit(ForwardSlashes(path), '/');
    SplitLeavesOut(ForwardSlashes(path), '/');
    segments := Segments(pieces);
    kept := SegmentsAreKept(pieces);
    forall k | 0 <= k < |pieces| ensures IsTrimmed(pieces[k], Trim(pieces[k])) { TrimIs(pieces[k]); }
  }

  /** Joining is the pieces one after another with one separator between. */
  lemma {:induction false} JoinInPlaces(pieces: seq<string>, more: seq<string>)
    requires pieces != [] && more != []
    ensures Join(pieces + more, '/') == Join(pieces, '/') + "/" + Join(more, '/')
    ensures Join([pieces[0]], '/') == pieces[0]
    decreases |pieces|
  {
    if |pieces| == 1 {
      assert (pieces + more)[0] == pieces[0] && (pieces + more)[1..] == more;
    } else {
      JoinInPlaces(pieces[1..], more);
      assert (pieces + more)[0] == pieces[0] && (pieces + more)[1..] == pieces[1..] + more;
    }
  }
}
