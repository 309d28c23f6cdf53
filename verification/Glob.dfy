/**
 Ignore patterns with `**`: the search over two boundaries, against what a pattern is
 meant to say. Patterns and paths are lists of segments; `**` is a segment of its own.
 */
module Glob {
  import opened Basics

  const STARS := "**"

  // How one segment of a pattern, with no `**`, matches one segment of a path.
  type Matcher = (string, string) -> bool

  // ── What a pattern means ───────────────────────────────────────────────────

  // `**` absorbs any number of segments; every other segment matches exactly one.
  predicate Meant(m: Matcher, pattern: seq<string>, segments: seq<string>)
    decreases |pattern|
  {
    if pattern == [] then segments == []
    else if pattern[0] == STARS then exists j :: 0 <= j <= |segments| && Meant(m, pattern[1..], segments[j..])
    else segments != [] && m(pattern[0], segments[0]) && Meant(m, pattern[1..], segments[1..])
  }

  // One segment each.
  predicate Aligned(m: Matcher, pattern: seq<string>, segments: seq<string>) {
    |pattern| == |segments| && forall i :: 0 <= i < |pattern| ==> m(pattern[i], segments[i])
  }

  function FirstStars(pattern: seq<string>): (k: nat)
    ensures k <= |pattern| && (k < |pattern| ==> pattern[k] == STARS)
    ensures forall i :: 0 <= i < k ==> pattern[i] != STARS
  {
    if pattern == [] || pattern[0] == STARS then 0 else 1 + FirstStars(pattern[1..])
  }

  // Segments without `**` take one segment each, off the front.
  lemma {:induction false} Peel(m: Matcher, pattern: seq<string>, segments: seq<string>, n: nat)
    requires n <= |pattern| && forall i :: 0 <= i < n ==> pattern[i] != STARS
    ensures Meant(m, pattern, segments) <==>
      n <= |segments| && Aligned(m, pattern[..n], segments[..n]) && Meant(m, pattern[n..], segments[n..])
  {
    if n == 0 {
      assert pattern[0..] == pattern && segments[0..] == segments;
    } else {
      Peel(m, pattern, segments, n - 1);
      if n - 1 <= |segments| {
        var rest, left := pattern[n - 1..], segments[n - 1..];
        assert rest[0] == pattern[n - 1] && rest[1..] == pattern[n..];
        assert left != [] ==> left[0] == segments[n - 1] && left[1..] == segments[n..];
        assert n <= |segments| ==> (Aligned(m, pattern[..n], segments[..n]) <==>
          Aligned(m, pattern[..n - 1], segments[..n - 1]) && m(pattern[n - 1], segments[n - 1]));
      }
    }
  }

  // The first `**`, and the two boundaries around what it absorbs.
  predicate Around(m: Matcher, pattern: seq<string>, k: nat, segments: seq<string>, j: nat)
    requires k < |pattern|
  {
    && k <= j <= |segments| && Aligned(m, pattern[..k], segments[..k])
    && Meant(m, pattern[k + 1..], segments[j..])
  }

  lemma PlainIsAligned(m: Matcher, pattern: seq<string>, segments: seq<string>)
    requires FirstStars(pattern) == |pattern|
    ensures Meant(m, pattern, segments) <==> Aligned(m, pattern, segments)
  {
    Peel(m, pattern, segments, |pattern|);
    assert pattern[..|pattern|] == pattern && pattern[|pattern|..] == [];
    assert |pattern| == |segments| ==> segments[..|pattern|] == segments;
  }

  lemma AroundIsMeant(m: Matcher, pattern: seq<string>, segments: seq<string>, j: nat)
    requires FirstStars(pattern) < |pattern| && Around(m, pattern, FirstStars(pattern), segments, j)
    ensures Meant(m, pattern, segments)
  {
    var k := FirstStars(pattern);
    var rest, left := pattern[k..], segments[k..];
    assert rest[0] == STARS && rest[1..] == pattern[k + 1..] && left[j - k..] == segments[j..];
    assert Meant(m, rest, left);
    Peel(m, pattern, segments, k);
  }

  lemma MeantIsAround(m: Matcher, pattern: seq<string>, segments: seq<string>) returns (j: nat)
    requires FirstStars(pattern) < |pattern| && Meant(m, pattern, segments)
    ensures Around(m, pattern, FirstStars(pattern), segments, j)
  {
    var k := FirstStars(pattern);
    Peel(m, pattern, segments, k);
    var rest, left := pattern[k..], segments[k..];
    assert rest[0] == STARS && rest[1..] == pattern[k + 1..];
    var more :| 0 <= more <= |left| && Meant(m, rest[1..], left[more..]);
    j := k + more;
    assert left[more..] == segments[j..];
  }

  lemma MeantAround(m: Matcher, pattern: seq<string>, segments: seq<string>)
    ensures var k := FirstStars(pattern);
      && (k == |pattern| ==> (Meant(m, pattern, segments) <==> Aligned(m, pattern, segments)))
      && (k < |pattern| ==> (Meant(m, pattern, segments) <==> exists j :: Around(m, pattern, k, segments, j)))
  {
    var k := FirstStars(pattern);
    if k == |pattern| {
      PlainIsAligned(m, pattern, segments);
    } else if Meant(m, pattern, segments) {
      var j := MeantIsAround(m, pattern, segments);
    } else {
      forall j | Around(m, pattern, k, segments, j) ensures false { AroundIsMeant(m, pattern, segments, j); }
    }
  }

  // ── The search ─────────────────────────────────────────────────────────────

  // Segments joined and split again: no segments come back as one empty one.
  function Rejoined(segments: seq<string>): seq<string> {
    if segments == [] then [""] else segments
  }

  function Segments(candidate: seq<string>): seq<string> {
    if candidate == [""] then [] else candidate
  }

  predicate IsCandidate(candidate: seq<string>) {
    candidate == [""] || (candidate != [] && forall i :: 0 <= i < |candidate| ==> candidate[i] != "")
  }

  // A part between two `**`, or at an end, that is one segment and matches nothing.
  predicate Lone(m: Matcher, part: seq<string>) {
    |part| == 1 && m(part[0], "")
  }

  // No part of a pattern with `**` can be matched by nothing at all.
  predicate Firm(m: Matcher, pattern: seq<string>)
    decreases |pattern|
  {
    var k := FirstStars(pattern);
    !Lone(m, pattern[..k]) && (k < |pattern| ==> Firm(m, pattern[k + 1..]))
  }

  // What precedes the first `**` matches the first i segments; when nothing precedes
  // it, only none of them.
  predicate HeadMatches(m: Matcher, pattern: seq<string>, candidate: seq<string>, i: nat)
    requires i <= |candidate|
  {
    var k := FirstStars(pattern);
    if k == 0 then i == 0 else Aligned(m, pattern[..k], Rejoined(candidate[..i]))
  }

  // What the search finds: a pair of boundaries with the head before the first and the
  // tail after the second.
  predicate Fits(m: Matcher, pattern: seq<string>, candidate: seq<string>, i: nat, j: nat)
    requires FirstStars(pattern) < |pattern| && i <= j <= |candidate|
    decreases |pattern|, 0
  {
    && HeadMatches(m, pattern, candidate, i)
    && TailMatches(m, pattern[FirstStars(pattern) + 1..], Rejoined(candidate[j..]))
  }

  // When nothing follows, the rest may be anything.
  predicate TailMatches(m: Matcher, tail: seq<string>, rest: seq<string>)
    decreases |tail|, 2
  {
    tail == [] || Found(m, tail, rest)
  }

  predicate Found(m: Matcher, pattern: seq<string>, candidate: seq<string>)
    decreases |pattern|, 1
  {
    if FirstStars(pattern) == |pattern| then Aligned(m, pattern, candidate)
    else exists i, j :: 0 <= i <= j <= |candidate| && Fits(m, pattern, candidate, i, j)
  }

  // ── Finding and meaning ────────────────────────────────────────────────────

  lemma FitsIsFound(m: Matcher, pattern: seq<string>, candidate: seq<string>, i: nat, j: nat)
    requires FirstStars(pattern) < |pattern| && i <= j <= |candidate| && HeadMatches(m, pattern, candidate, i)
    requires TailMatches(m, pattern[FirstStars(pattern) + 1..], Rejoined(candidate[j..]))
    ensures Found(m, pattern, candidate)
  {
    assert Fits(m, pattern, candidate, i, j);
  }

  lemma FoundFits(m: Matcher, pattern: seq<string>, candidate: seq<string>) returns (i: nat, j: nat)
    requires FirstStars(pattern) < |pattern| && Found(m, pattern, candidate)
    ensures i <= j <= |candidate| && HeadMatches(m, pattern, candidate, i)
    ensures TailMatches(m, pattern[FirstStars(pattern) + 1..], Rejoined(candidate[j..]))
  {
    i, j :| i <= j <= |candidate| && Fits(m, pattern, candidate, i, j);
  }

  // Whatever is meant is found.
  lemma {:induction false} MeantIsFound(m: Matcher, pattern: seq<string>, candidate: seq<string>)
    requires pattern != [] && IsCandidate(candidate) && Meant(m, pattern, Segments(candidate))
    ensures Found(m, pattern, candidate)
    decreases |pattern|
  {
    var segments := Segments(candidate);
    if FirstStars(pattern) == |pattern| {
      PlainIsAligned(m, pattern, segments);
    } else {
      var j := MeantIsAround(m, pattern, segments);
      if pattern[FirstStars(pattern) + 1..] != [] {
        var end := SuffixOf(candidate, j);
        MeantIsFound(m, pattern[FirstStars(pattern) + 1..], Rejoined(candidate[j..]));
      }
      AroundMatches(m, pattern, candidate, j);
      FitsIsFound(m, pattern, candidate, FirstStars(pattern), j);
    }
  }

  lemma AroundMatches(m: Matcher, pattern: seq<string>, candidate: seq<string>, j: nat)
    requires FirstStars(pattern) < |pattern| && IsCandidate(candidate)
    requires Around(m, pattern, FirstStars(pattern), Segments(candidate), j)
    ensures FirstStars(pattern) <= |candidate| && HeadMatches(m, pattern, candidate, FirstStars(pattern))
  {
    assert FirstStars(pattern) > 0 && candidate != [""] ==>
      Rejoined(candidate[..FirstStars(pattern)]) == Segments(candidate)[..FirstStars(pattern)];
  }

  lemma PlainIsMeant(m: Matcher, pattern: seq<string>, candidate: seq<string>)
    requires FirstStars(pattern) == |pattern| && Found(m, pattern, candidate)
    requires !Lone(m, pattern) || candidate != [""]
    ensures Meant(m, pattern, Segments(candidate))
  {
    PlainIsAligned(m, pattern, Segments(candidate));
  }

  lemma FirmParts(m: Matcher, pattern: seq<string>)
    requires FirstStars(pattern) < |pattern| && (Firm(m, pattern) || STARS !in pattern)
    ensures !Lone(m, pattern[..FirstStars(pattern)]) && Firm(m, pattern[FirstStars(pattern) + 1..])
  {
    assert pattern[FirstStars(pattern)] == STARS;
  }

  // Whatever is found is meant, for a path and a pattern without `**`, and for any
  // pattern in which no part is a lone segment that matches nothing.
  lemma {:induction false} FoundIsMeant(m: Matcher, pattern: seq<string>, candidate: seq<string>)
    requires IsCandidate(candidate) && Found(m, pattern, candidate)
    requires Firm(m, pattern) || (STARS !in pattern && candidate != [""])
    ensures Meant(m, pattern, Segments(candidate))
    decreases |pattern|, 1
  {
    var k := FirstStars(pattern);
    if k == |pattern| {
      assert pattern[..k] == pattern;
      PlainIsMeant(m, pattern, candidate);
    } else {
      var i, j := FoundFits(m, pattern, candidate);
      FirmParts(m, pattern);
      FitsIsMeant(m, pattern, candidate, i, j);
    }
  }

  lemma {:induction false} FitsIsMeant(m: Matcher, pattern: seq<string>, candidate: seq<string>, i: nat, j: nat)
    requires IsCandidate(candidate) && FirstStars(pattern) < |pattern| && i <= j <= |candidate|
    requires HeadMatches(m, pattern, candidate, i) && !Lone(m, pattern[..FirstStars(pattern)])
    requires Firm(m, pattern[FirstStars(pattern) + 1..])
    requires TailMatches(m, pattern[FirstStars(pattern) + 1..], Rejoined(candidate[j..]))
    ensures Meant(m, pattern, Segments(candidate))
    decreases |pattern|, 0
  {
    var tail := pattern[FirstStars(pattern) + 1..];
    if tail != [] {
      RejoinedIsCandidate(candidate, j);
      FoundIsMeant(m, tail, Rejoined(candidate[j..]));
    }
    FitIsMeant(m, pattern, candidate, i, j);
  }

  lemma RejoinedIsCandidate(candidate: seq<string>, j: nat)
    requires IsCandidate(candidate) && j <= |candidate|
    ensures IsCandidate(Rejoined(candidate[j..]))
  {}

  lemma FitIsMeant(m: Matcher, pattern: seq<string>, candidate: seq<string>, i: nat, j: nat)
    requires IsCandidate(candidate) && FirstStars(pattern) < |pattern| && i <= j <= |candidate|
    requires HeadMatches(m, pattern, candidate, i) && !Lone(m, pattern[..FirstStars(pattern)])
    requires var tail := pattern[FirstStars(pattern) + 1..];
      tail == [] || Meant(m, tail, Segments(Rejoined(candidate[j..])))
    ensures Meant(m, pattern, Segments(candidate))
  {
    HeadIsAligned(m, pattern, candidate, i);
    var end := TailIsMeant(m, pattern, candidate, j);
    AroundIsMeant(m, pattern, Segments(candidate), end);
  }

  lemma SuffixOf(candidate: seq<string>, j: nat) returns (end: nat)
    requires IsCandidate(candidate) && j <= |candidate|
    ensures end <= |Segments(candidate)| && Segments(candidate)[end..] == Segments(Rejoined(candidate[j..]))
    ensures end == if candidate == [""] then 0 else j
  {
    end := if candidate == [""] then 0 else j;
    assert j < |candidate| ==> candidate[j..][0] == candidate[j];
  }

  lemma TailIsMeant(m: Matcher, pattern: seq<string>, candidate: seq<string>, j: nat) returns (end: nat)
    requires IsCandidate(candidate) && FirstStars(pattern) < |pattern| && j <= |candidate|
    requires var k, segments := FirstStars(pattern), Segments(candidate);
      k <= |segments| && Aligned(m, pattern[..k], segments[..k]) && (candidate != [""] ==> k <= j)
    requires var tail := pattern[FirstStars(pattern) + 1..];
      tail == [] || Meant(m, tail, Segments(Rejoined(candidate[j..])))
    ensures Around(m, pattern, FirstStars(pattern), Segments(candidate), end)
  {
    if pattern[FirstStars(pattern) + 1..] == [] {
      end := |Segments(candidate)|;
      assert Segments(candidate)[end..] == [];
    } else {
      end := SuffixOf(candidate, j);
    }
  }

  lemma HeadIsAligned(m: Matcher, pattern: seq<string>, candidate: seq<string>, i: nat)
    requires IsCandidate(candidate) && i <= |candidate| && HeadMatches(m, pattern, candidate, i)
    requires !Lone(m, pattern[..FirstStars(pattern)])
    ensures var k, segments := FirstStars(pattern), Segments(candidate);
      k <= |segments| && Aligned(m, pattern[..k], segments[..k]) && (candidate != [""] ==> k == i)
  {
    var k := FirstStars(pattern);
    assert k > 0 && Rejoined(candidate[..i]) == [""] ==> Lone(m, pattern[..k]);
  }

  // `*/**/*` is meant to need two segments; it is found to match one.
  lemma ALoneStarIsSkipped(m: Matcher)
    requires m("*", "") && m("*", "x")
    ensures Found(m, ["*", STARS, "*"], ["x"]) && !Meant(m, ["*", STARS, "*"], ["x"])
  {
    var pattern, candidate := ["*", STARS, "*"], ["x"];
    assert pattern[1..][0] == STARS;
    assert FirstStars(pattern) == 1;
    assert pattern[..1] == ["*"] && pattern[2..] == ["*"] && candidate[..0] == [] && candidate[0..] == ["x"];
    assert Found(m, ["*"], ["x"]);
    assert Fits(m, pattern, candidate, 0, 0);
    MeantAround(m, pattern, candidate);
    assert candidate[1..] == [];
    assert forall j :: Around(m, pattern, 1, candidate, j) ==> j == 1;
  }

  // ── Where the search is right ──────────────────────────────────────────────

  predicate IsSegment(s: string) {
    s != "" && '/' !in s
  }

  predicate AllSegments(path: seq<string>) {
    forall i :: 0 <= i < |path| ==> IsSegment(path[i])
  }

  predicate IsPath(path: seq<string>) {
    path != [] && AllSegments(path)
  }

  // The segments of a pattern that are not `**`.
  function Ordinary(pattern: seq<string>): nat {
    if pattern == [] then 0 else One(pattern[0] != STARS) + Ordinary(pattern[1..])
  }

  // What matches nothing is made of stars, and matches any segment.
  ghost predicate BlankMatchesAny(m: Matcher) {
    forall p, s :: m(p, "") && IsSegment(s) ==> m(p, s)
  }

  ghost predicate Matchable(m: Matcher, p: string) {
    exists s :: IsSegment(s) && m(p, s)
  }

  // Every segment but `**` is there for something.
  ghost predicate AllMatchable(m: Matcher, pattern: seq<string>) {
    forall i :: 0 <= i < |pattern| && pattern[i] != STARS ==> Matchable(m, pattern[i])
  }

  lemma {:induction false} OrdinaryAround(pattern: seq<string>)
    ensures var k := FirstStars(pattern);
      Ordinary(pattern) == k + if k < |pattern| then Ordinary(pattern[k + 1..]) else 0
  {
    if pattern != [] && pattern[0] != STARS {
      OrdinaryAround(pattern[1..]);
      var k := FirstStars(pattern);
      assert k < |pattern| ==> pattern[1..][k..] == pattern[k + 1..];
    }
  }

  lemma {:induction false} MeantNeedsSegments(m: Matcher, pattern: seq<string>, segments: seq<string>)
    requires Meant(m, pattern, segments)
    ensures |segments| >= Ordinary(pattern)
    decreases |pattern|
  {
    if pattern != [] {
      if pattern[0] == STARS {
        var j :| 0 <= j <= |segments| && Meant(m, pattern[1..], segments[j..]);
        MeantNeedsSegments(m, pattern[1..], segments[j..]);
      } else {
        MeantNeedsSegments(m, pattern[1..], segments[1..]);
      }
    }
  }

  // One segment for each that is not `**`.
  lemma {:induction false} Witnesses(m: Matcher, pattern: seq<string>) returns (path: seq<string>)
    requires AllMatchable(m, pattern)
    ensures |path| == Ordinary(pattern) && Meant(m, pattern, path)
    ensures AllSegments(path)
  {
    if pattern == [] {
      path := [];
    } else {
      path := Witnesses(m, pattern[1..]);
      if pattern[0] == STARS {
        assert path[0..] == path;
      } else {
        assert Matchable(m, pattern[0]);
        var s :| IsSegment(s) && m(pattern[0], s);
        path := [s] + path;
        assert path[1..] == path[1..];
      }
    }
  }

  lemma RejoinedSegments(path: seq<string>)
    requires AllSegments(path)
    ensures IsCandidate(Rejoined(path)) && Segments(Rejoined(path)) == path
  {
    assert path != [] ==> path[0] != "";
  }

  // Nothing before the first `**` is taken for the head, and all of it for the tail.
  lemma FoundWithoutTheHead(m: Matcher, pattern: seq<string>, candidate: seq<string>)
    requires FirstStars(pattern) < |pattern| && Lone(m, pattern[..FirstStars(pattern)])
    requires TailMatches(m, pattern[FirstStars(pattern) + 1..], candidate) && candidate != []
    ensures Found(m, pattern, candidate)
  {
    NothingForTheHead(m, pattern, candidate);
    assert candidate[0..] == candidate;
    FitsIsFound(m, pattern, candidate, 0, 0);
  }

  lemma NothingForTheHead(m: Matcher, pattern: seq<string>, candidate: seq<string>)
    requires Lone(m, pattern[..FirstStars(pattern)])
    ensures HeadMatches(m, pattern, candidate, 0)
  {
    assert candidate[..0] == [];
  }

  lemma NothingForAll(m: Matcher, pattern: seq<string>)
    requires FirstStars(pattern) == |pattern| && Lone(m, pattern[..|pattern|])
    ensures |pattern| == 1 && Found(m, pattern, [""])
  {
    assert pattern[..|pattern|] == pattern;
  }

  lemma FoundBehindTheHead(m: Matcher, pattern: seq<string>, head: seq<string>, rest: seq<string>)
    requires var k := FirstStars(pattern);
      k < |pattern| && Aligned(m, pattern[..k], head) && Found(m, pattern[k + 1..], Rejoined(rest))
    ensures Found(m, pattern, Rejoined(head + rest))
  {
    var k, candidate := FirstStars(pattern), Rejoined(head + rest);
    if k == 0 {
      assert head + rest == rest && candidate[0..] == candidate;
    } else {
      assert candidate[..k] == head && candidate[k..] == rest;
    }
    FitsIsFound(m, pattern, candidate, k, k);
  }

  lemma {:induction false} NoStarsInFront(pattern: seq<string>)
    ensures var k := FirstStars(pattern);
      FirstStars(pattern[..k]) == k && Ordinary(pattern[..k]) == k
  {
    var k := FirstStars(pattern);
    if k > 0 {
      NoStarsInFront(pattern[1..]);
      assert pattern[..k][1..] == pattern[1..][..k - 1];
    }
  }

  // One segment for each of the tail.
  lemma WithoutTheHead(m: Matcher, pattern: seq<string>) returns (path: seq<string>)
    requires AllMatchable(m, pattern)
    requires FirstStars(pattern) < |pattern| && Lone(m, pattern[..FirstStars(pattern)])
    ensures |path| == Ordinary(pattern[FirstStars(pattern) + 1..]) && Found(m, pattern, Rejoined(path))
    ensures AllSegments(path)
  {
    var tail := pattern[FirstStars(pattern) + 1..];
    path := Witnesses(m, tail);
    RejoinedSegments(path);
    if tail != [] {
      MeantIsFound(m, tail, Rejoined(path));
    }
    FoundWithoutTheHead(m, pattern, Rejoined(path));
  }

  // The tail's path behind one segment for each of the head.
  lemma BehindTheHead(m: Matcher, pattern: seq<string>, rest: seq<string>) returns (path: seq<string>)
    requires AllMatchable(m, pattern) && FirstStars(pattern) < |pattern|
    requires Found(m, pattern[FirstStars(pattern) + 1..], Rejoined(rest))
    requires AllSegments(rest)
    ensures |path| == FirstStars(pattern) + |rest| && Found(m, pattern, Rejoined(path))
    ensures AllSegments(path)
  {
    var k := FirstStars(pattern);
    var head := Witnesses(m, pattern[..k]);
    NoStarsInFront(pattern);
    PlainIsAligned(m, pattern[..k], head);
    FoundBehindTheHead(m, pattern, head, rest);
    path := head + rest;
  }

  lemma LoneFurtherOn(m: Matcher, pattern: seq<string>)
    requires AllMatchable(m, pattern) && !Firm(m, pattern) && !Lone(m, pattern[..FirstStars(pattern)])
    ensures FirstStars(pattern) < |pattern|
    ensures AllMatchable(m, pattern[FirstStars(pattern) + 1..]) && !Firm(m, pattern[FirstStars(pattern) + 1..])
  {}

  // A path with one segment too few that is found all the same: the first lone part is
  // left out.
  lemma {:induction false} OneTooFew(m: Matcher, pattern: seq<string>) returns (path: seq<string>)
    requires AllMatchable(m, pattern) && !Firm(m, pattern)
    ensures |path| + 1 == Ordinary(pattern) && Found(m, pattern, Rejoined(path))
    ensures AllSegments(path)
    decreases |pattern|
  {
    var k := FirstStars(pattern);
    OrdinaryAround(pattern);
    if Lone(m, pattern[..k]) {
      if k < |pattern| {
        path := WithoutTheHead(m, pattern);
      } else {
        path := [];
        NothingForAll(m, pattern);
      }
    } else {
      LoneFurtherOn(m, pattern);
      var rest := OneTooFew(m, pattern[k + 1..]);
      path := BehindTheHead(m, pattern, rest);
    }
  }

  // A pattern of `**` and one segment that matches anything is meant for every path
  // when it ends in `**`, and otherwise for every path of one segment.
  lemma {:induction false} MeantFromTheFront(m: Matcher, pattern: seq<string>, path: seq<string>)
    requires IsPath(path) && Ordinary(pattern) == 1
    requires forall i, s :: 0 <= i < |pattern| && pattern[i] != STARS && IsSegment(s) ==> m(pattern[i], s)
    requires pattern[|pattern| - 1] == STARS || |path| == 1
    ensures Meant(m, pattern, path)
    decreases |pattern|
  {
    if pattern[0] == STARS {
      MeantFromTheFront(m, pattern[1..], path);
      assert path[0..] == path;
    } else if pattern[1..] != [] {
      OnlyStars(m, pattern[1..], path[1..]);
    }
  }

  lemma {:induction false} OnlyStars(m: Matcher, pattern: seq<string>, segments: seq<string>)
    requires pattern != [] && Ordinary(pattern) == 0
    ensures Meant(m, pattern, segments)
    decreases |pattern|
  {
    if pattern[1..] == [] {
      assert segments[|segments|..] == [];
    } else {
      OnlyStars(m, pattern[1..], segments);
      assert segments[0..] == segments;
    }
  }

  lemma {:induction false} TheOnlyOne(pattern: seq<string>, i: nat, j: nat)
    requires i < j < |pattern| && pattern[i] != STARS && pattern[j] != STARS
    ensures Ordinary(pattern) >= 2
    decreases |pattern|
  {
    if i > 0 {
      TheOnlyOne(pattern[1..], i - 1, j - 1);
    } else {
      AtLeastOne(pattern[1..], j - 1);
    }
  }

  lemma {:induction false} AtLeastOne(pattern: seq<string>, j: nat)
    requires j < |pattern| && pattern[j] != STARS
    ensures Ordinary(pattern) >= 1
    decreases |pattern|
  {
    if j > 0 {
      AtLeastOne(pattern[1..], j - 1);
    }
  }

  lemma {:induction false} LoneMatchesNothing(m: Matcher, pattern: seq<string>) returns (i: nat)
    requires !Firm(m, pattern)
    ensures i < |pattern| && pattern[i] != STARS && m(pattern[i], "")
    decreases |pattern|
  {
    var k := FirstStars(pattern);
    if Lone(m, pattern[..k]) {
      i := 0;
    } else {
      var more := LoneMatchesNothing(m, pattern[k + 1..]);
      i := k + 1 + more;
    }
  }

  // With one lone segment and `**` beside it, every path is meant.
  lemma LoneAmongStars(m: Matcher, pattern: seq<string>, path: seq<string>)
    requires BlankMatchesAny(m) && IsPath(path) && STARS in pattern
    requires !Firm(m, pattern) && Ordinary(pattern) == 1
    ensures Meant(m, pattern, path)
  {
    var lone := LoneMatchesNothing(m, pattern);
    forall i, s | 0 <= i < |pattern| && pattern[i] != STARS && IsSegment(s) ensures m(pattern[i], s) {
      if i < lone { TheOnlyOne(pattern, i, lone); } else if lone < i { TheOnlyOne(pattern, lone, i); }
      assert m(pattern[lone], "");
    }
    if pattern[|pattern| - 1] == STARS {
      MeantFromTheFront(m, pattern, path);
    } else {
      if pattern[0] != STARS && |pattern| > 1 { TheOnlyOne(pattern, 0, |pattern| - 1); }
      assert pattern[0] == STARS;
      MeantFromTheFront(m, pattern[1..], path[|path| - 1..]);
    }
  }

  predicate AgreesOn(m: Matcher, pattern: seq<string>, path: seq<string>) {
    Found(m, pattern, path) <==> Meant(m, pattern, path)
  }

  lemma AgreesWhenFirm(m: Matcher, pattern: seq<string>, path: seq<string>)
    requires BlankMatchesAny(m) && IsPath(path) && (Firm(m, pattern) || Ordinary(pattern) == 1)
    ensures AgreesOn(m, pattern, path)
  {
    assert IsSegment(path[0]);
    if pattern != [] && Meant(m, pattern, path) {
      MeantIsFound(m, pattern, path);
    }
    if Found(m, pattern, path) {
      if Firm(m, pattern) || STARS !in pattern {
        FoundIsMeant(m, pattern, path);
      } else {
        LoneAmongStars(m, pattern, path);
      }
    }
  }

  // On every path the search finds exactly what is meant, if and only if no part of the
  // pattern is a lone segment that matches nothing, or that segment is the only one
  // beside `**`.
  lemma FoundExactlyWhereMeant(m: Matcher, pattern: seq<string>)
    requires BlankMatchesAny(m) && AllMatchable(m, pattern)
    ensures (forall path :: IsPath(path) ==> AgreesOn(m, pattern, path)) <==> Firm(m, pattern) || Ordinary(pattern) == 1
  {
    if Firm(m, pattern) || Ordinary(pattern) == 1 {
      forall path | IsPath(path) ensures AgreesOn(m, pattern, path) { AgreesWhenFirm(m, pattern, path); }
    } else {
      var path := OneTooFew(m, pattern);
      assert IsPath(path) && Rejoined(path) == path;
      if Meant(m, pattern, path) {
        MeantNeedsSegments(m, pattern, path);
      }
      assert !AgreesOn(m, pattern, path);
    }
  }
}
