/**
 The search on the text of a pattern and a path, with recursion on what is left and right
 of the first `**`. It finds what the pattern cut up into segments finds, wherever in the
 text its `**` stand.
 */
module GlobText {
  import opened Basics
  import opened Glob

  // ── Text ───────────────────────────────────────────────────────────────────

  predicate StarsAt(text: string, i: nat) {
    i + 2 <= |text| && text[i] == '*' && text[i + 1] == '*'
  }

  // Where the first `**` is, or the length where there is none.
  function Cut(text: string): (k: nat)
    ensures k <= |text| && (k < |text| ==> StarsAt(text, k))
    ensures forall i: nat :: i < k ==> !StarsAt(text, i)
  {
    if text == "" || StarsAt(text, 0) then 0
    else
      assert forall i: nat :: 0 < i < |text| ==> StarsAt(text, i) == StarsAt(text[1..], i - 1);
      1 + Cut(text[1..])
  }

  function TrimSuffix(text: string): string {
    if text != "" && text[|text| - 1] == '/' then text[..|text| - 1] else text
  }

  function TrimPrefix(text: string): string {
    if text != "" && text[0] == '/' then text[1..] else text
  }

  function Head(glob: string): (head: string)
    requires Cut(glob) < |glob|
    ensures |head| < |glob|
  {
    TrimSuffix(glob[..Cut(glob)])
  }

  function Tail(glob: string): (tail: string)
    requires Cut(glob) < |glob|
    ensures |tail| < |glob|
  {
    TrimPrefix(glob[Cut(glob) + 2..])
  }

  function Split(text: string): (segments: seq<string>)
    ensures segments != []
  {
    if text == "" then [""]
    else
      var rest := Split(text[1..]);
      if text[0] == '/' then [""] + rest else [[text[0]] + rest[0]] + rest[1..]
  }

  function Join(segments: seq<string>): string {
    if segments == [] then ""
    else if |segments| == 1 then segments[0]
    else segments[0] + "/" + Join(segments[1..])
  }

  // ── The search ─────────────────────────────────────────────────────────────

  predicate FitsText(m: Matcher, glob: string, segments: seq<string>, i: nat, j: nat)
    requires Cut(glob) < |glob| && i <= j <= |segments|
    decreases |glob|, 1
  {
    HeadFits(m, glob, segments[..i]) && TailFits(m, glob, segments[j..])
  }

  predicate HeadFits(m: Matcher, glob: string, before: seq<string>)
    requires Cut(glob) < |glob|
    decreases |glob|, 0
  {
    if Head(glob) == "" then before == [] else FoundText(m, Head(glob), Join(before))
  }

  predicate TailFits(m: Matcher, glob: string, after: seq<string>)
    requires Cut(glob) < |glob|
    decreases |glob|, 0
  {
    Tail(glob) == "" || FoundText(m, Tail(glob), Join(after))
  }

  predicate FoundText(m: Matcher, glob: string, candidate: string)
    decreases |glob|, 2
  {
    if Cut(glob) == |glob| then m(glob, candidate)
    else exists i, j :: 0 <= i <= j <= |Split(candidate)| && FitsText(m, glob, Split(candidate), i, j)
  }

  method GlobMatch(m: Matcher, glob: string, candidate: string) returns (matched: bool)
    ensures matched == FoundText(m, glob, candidate)
    decreases |glob|, 1
  {
    if Cut(glob) == |glob| {
      return m(glob, candidate);
    }
    var head, segments := Head(glob), Split(candidate);
    var i := 0;
    while i <= |segments|
      invariant i <= |segments| + 1
      invariant forall a: nat, b: nat :: a < i && a <= b <= |segments| ==> !FitsText(m, glob, segments, a, b)
    {
      if head == "" {
        // Nothing precedes it, so it starts at the beginning.
        if i != 0 {
          assert forall a: nat :: 0 < a <= |segments| ==> !HeadFits(m, glob, segments[..a]);
          break;
        }
      } else {
        matched := GlobMatch(m, head, Join(segments[..i]));
        if !matched {
          i := i + 1;
          continue;
        }
      }
      assert HeadFits(m, glob, segments[..i]);
      matched := MatchTail(m, glob, segments, i);
      if matched {
        ghost var j: nat :| i <= j <= |segments| && TailFits(m, glob, segments[j..]);
        assert FitsText(m, glob, segments, i, j);
        return;
      }
      i := i + 1;
    }
    return false;
  }

  // The second boundary, from the first one on.
  method MatchTail(m: Matcher, glob: string, segments: seq<string>, i: nat) returns (matched: bool)
    requires Cut(glob) < |glob| && i <= |segments|
    ensures matched == exists j :: i <= j <= |segments| && TailFits(m, glob, segments[j..])
    decreases |glob|, 0
  {
    var tail, j := Tail(glob), i;
    while j <= |segments|
      invariant i <= j <= |segments| + 1
      invariant forall b :: i <= b < j ==> !TailFits(m, glob, segments[b..])
    {
      // A trailing `**` matches everything below.
      if tail == "" {
        assert TailFits(m, glob, segments[j..]);
        return true;
      }
      matched := GlobMatch(m, tail, Join(segments[j..]));
      if matched {
        assert TailFits(m, glob, segments[j..]);
        return;
      }
      j := j + 1;
    }
    return false;
  }

  // ── Segments ───────────────────────────────────────────────────────────────

  // A pattern cut up: every `**` by itself, and what is between split at the slashes.
  function Pattern(glob: string): (pattern: seq<string>)
    ensures pattern != []
    decreases |glob|
  {
    if Cut(glob) == |glob| then Split(glob)
    else
      (if Head(glob) == "" then [] else Split(Head(glob))) + [STARS]
        + (if Tail(glob) == "" then [] else Pattern(Tail(glob)))
  }

  predicate Slashless(segments: seq<string>) {
    forall i :: 0 <= i < |segments| ==> '/' !in segments[i]
  }

  ghost predicate Starless(text: string) {
    forall i: nat {:trigger StarsAt(text, i)} :: !StarsAt(text, i)
  }

  // No character class and no escape, inside which a slash is no separator.
  predicate Simple(glob: string) {
    '[' !in glob && '\\' !in glob
  }

  // How one pattern without `**` matches: segment by segment.
  ghost predicate BySegments(m: Matcher) {
    forall glob, candidate {:trigger m(glob, candidate)} :: Cut(glob) == |glob| && Simple(glob) ==>
      (m(glob, candidate) <==> Aligned(m, Split(glob), Split(candidate)))
  }

  lemma {:induction false} SplitIsSlashless(text: string)
    ensures Slashless(Split(text))
  {
    if text != "" {
      SplitIsSlashless(text[1..]);
    }
  }

  lemma {:induction false} SplitOne(segment: string)
    requires '/' !in segment
    ensures Split(segment) == [segment]
  {
    if segment != "" {
      SplitOne(segment[1..]);
      assert [segment[0]] + segment[1..] == segment;
    }
  }

  lemma {:induction false} SplitAtSlash(segment: string, rest: string)
    requires '/' !in segment
    ensures Split(segment + "/" + rest) == [segment] + Split(rest)
  {
    var text := segment + "/" + rest;
    if segment == "" {
      assert text[1..] == rest;
    } else {
      SplitAtSlash(segment[1..], rest);
      assert text[1..] == segment[1..] + "/" + rest;
      assert [segment[0]] + segment[1..] == segment;
    }
  }

  lemma {:induction false} SplitOfJoin(segments: seq<string>)
    requires Slashless(segments)
    ensures Split(Join(segments)) == Rejoined(segments)
  {
    if |segments| == 1 {
      SplitOne(segments[0]);
    } else if segments != [] {
      SplitOfJoin(segments[1..]);
      SplitAtSlash(segments[0], Join(segments[1..]));
    }
  }

  // Where a text has no `**`, none of its segments is one.
  lemma {:induction false} NoSegmentIsStars(text: string)
    requires Starless(text)
    ensures Split(text)[0] <= text && STARS !in Split(text)
  {
    if text != "" {
      forall i: nat ensures !StarsAt(text[1..], i) { assert !StarsAt(text, i + 1); }
      NoSegmentIsStars(text[1..]);
      if text[0] != '/' {
        var rest := Split(text[1..])[0];
        assert Split(text)[0] == [text[0]] + rest && !StarsAt(text, 0);
        assert rest != "" ==> rest[0] == text[1];
      }
    }
  }

  function HeadSegments(glob: string): seq<string>
    requires Cut(glob) < |glob|
  {
    if Head(glob) == "" then [] else Split(Head(glob))
  }

  function TailSegments(glob: string): seq<string>
    requires Cut(glob) < |glob|
  {
    if Tail(glob) == "" then [] else Pattern(Tail(glob))
  }

  lemma HeadIsStarless(glob: string)
    requires Cut(glob) < |glob|
    ensures Starless(Head(glob)) && Cut(Head(glob)) == |Head(glob)|
  {
    forall i: nat ensures !StarsAt(Head(glob), i) { assert StarsAt(Head(glob), i) ==> StarsAt(glob, i); }
  }

  lemma PatternParts(glob: string)
    requires Cut(glob) < |glob|
    ensures var pattern, k := Pattern(glob), FirstStars(Pattern(glob));
      && k < |pattern| && (k == 0 <==> Head(glob) == "")
      && pattern[..k] == HeadSegments(glob) && pattern[k + 1..] == TailSegments(glob)
  {
    var head := HeadSegments(glob);
    HeadIsStarless(glob);
    NoSegmentIsStars(Head(glob));
    assert Pattern(glob) == head + [STARS] + TailSegments(glob);
    assert Pattern(glob)[|head|] == STARS;
    assert forall i :: 0 <= i < |head| ==> Pattern(glob)[i] == head[i];
    assert FirstStars(Pattern(glob)) == |head|;
  }

  // ── Text and segments ──────────────────────────────────────────────────────

  // Any pattern finds in any path what its segments find in the path's segments.
  lemma {:induction false} TextIsPattern(m: Matcher, glob: string, candidate: string)
    requires BySegments(m) && Simple(glob)
    ensures FoundText(m, glob, candidate) <==> Found(m, Pattern(glob), Split(candidate))
    decreases |glob|, 2
  {
    var segments := Split(candidate);
    SplitIsSlashless(candidate);
    if Cut(glob) == |glob| {
      NoSegmentIsStars(glob);
    } else {
      PatternParts(glob);
      forall i, j | 0 <= i <= j <= |segments|
        ensures FitsText(m, glob, segments, i, j) <==> Fits(m, Pattern(glob), segments, i, j)
      {
        FitsTheSame(m, glob, segments, i, j);
      }
    }
  }

  lemma {:induction false} FitsTheSame(m: Matcher, glob: string, segments: seq<string>, i: nat, j: nat)
    requires BySegments(m) && Simple(glob) && Cut(glob) < |glob|
    requires Slashless(segments) && i <= j <= |segments| && FirstStars(Pattern(glob)) < |Pattern(glob)|
    ensures FitsText(m, glob, segments, i, j) <==> Fits(m, Pattern(glob), segments, i, j)
    decreases |glob|, 1
  {
    PatternParts(glob);
    HeadsTheSame(m, glob, segments, i);
    TailsTheSame(m, glob, segments, j);
  }

  lemma HeadsTheSame(m: Matcher, glob: string, segments: seq<string>, i: nat)
    requires BySegments(m) && Simple(glob) && Cut(glob) < |glob| && Slashless(segments) && i <= |segments|
    ensures HeadFits(m, glob, segments[..i]) <==> HeadMatches(m, Pattern(glob), segments, i)
  {
    PatternParts(glob);
    HeadIsStarless(glob);
    if Head(glob) != "" {
      PlainText(m, Head(glob), segments[..i]);
    }
  }

  lemma PlainText(m: Matcher, glob: string, segments: seq<string>)
    requires BySegments(m) && Simple(glob) && Cut(glob) == |glob| && Slashless(segments)
    ensures FoundText(m, glob, Join(segments)) <==> Aligned(m, Split(glob), Rejoined(segments))
  {
    SplitOfJoin(segments);
  }

  lemma {:induction false} TailsTheSame(m: Matcher, glob: string, segments: seq<string>, j: nat)
    requires BySegments(m) && Simple(glob) && Cut(glob) < |glob| && Slashless(segments) && j <= |segments|
    ensures TailFits(m, glob, segments[j..]) <==> TailMatches(m, TailSegments(glob), Rejoined(segments[j..]))
    decreases |glob|, 0
  {
    SplitOfJoin(segments[j..]);
    if Tail(glob) != "" {
      TextIsPattern(m, Tail(glob), Join(segments[j..]));
    }
  }

  predicate TextAgreesOn(m: Matcher, glob: string, path: seq<string>) {
    FoundText(m, glob, Join(path)) <==> Meant(m, Pattern(glob), path)
  }

  // On the text of every path the search finds exactly what the pattern's segments mean,
  // on the condition that is known for segments.
  lemma TextFoundExactlyWhereMeant(m: Matcher, glob: string)
    requires BySegments(m) && Simple(glob) && BlankMatchesAny(m) && AllMatchable(m, Pattern(glob))
    ensures (forall path :: IsPath(path) ==> TextAgreesOn(m, glob, path)) <==>
      Firm(m, Pattern(glob)) || Ordinary(Pattern(glob)) == 1
  {
    forall path | IsPath(path)
      ensures TextAgreesOn(m, glob, path) <==> AgreesOn(m, Pattern(glob), path)
    {
      PathText(path);
      TextIsPattern(m, glob, Join(path));
    }
    FoundExactlyWhereMeant(m, Pattern(glob));
  }

  lemma PathText(path: seq<string>)
    requires IsPath(path)
    ensures Slashless(path) && Split(Join(path)) == path
  {
    forall i | 0 <= i < |path| ensures '/' !in path[i] { assert IsSegment(path[i]); }
    SplitOfJoin(path);
  }

  // ── `**` in any place ──────────────────────────────────────────────────────

  lemma CutAt(before: string, after: string)
    requires Starless(before) && (before != "" ==> before[|before| - 1] != '*')
    ensures Cut(before + STARS + after) == |before|
    ensures var glob := before + STARS + after; glob[..|before|] == before && glob[|before| + 2..] == after
  {
    var glob := before + STARS + after;
    assert StarsAt(glob, |before|) by {
      assert glob[|before|] == STARS[0] && glob[|before| + 1] == STARS[1];
    }
    forall i: nat | i < |before| ensures !StarsAt(glob, i) {
      assert !StarsAt(before, i) && glob[i] == before[i];
      assert i + 1 < |before| ==> glob[i + 1] == before[i + 1];
    }
  }

  lemma SlashBehind(text: string)
    requires Starless(text)
    ensures Starless(text + "/")
  {
    forall i: nat ensures !StarsAt(text + "/", i) {
      assert !StarsAt(text, i);
      assert StarsAt(text + "/", i) ==> i + 1 < |text|;
    }
  }

  // Beside other text in a segment `**` means what it means between slashes.
  lemma SlashesMakeNoDifference(m: Matcher, before: string, after: string, candidate: string)
    requires Starless(before) && (before != "" ==> before[|before| - 1] !in "*/")
    requires after != "" ==> after[0] != '/'
    ensures FoundText(m, before + STARS + after, candidate) <==> FoundText(m, before + "/" + STARS + "/" + after, candidate)
  {
    var plain, spaced := before + STARS + after, before + "/" + STARS + "/" + after;
    CutAt(before, after);
    SlashBehind(before);
    CutAt(before + "/", "/" + after);
    assert spaced == (before + "/") + STARS + ("/" + after);
    assert Head(plain) == before == Head(spaced);
    assert Tail(plain) == after == Tail(spaced);
    var segments := Split(candidate);
    forall i, j | 0 <= i <= j <= |segments|
      ensures FitsText(m, plain, segments, i, j) <==> FitsText(m, spaced, segments, i, j)
    {
      assert HeadFits(m, plain, segments[..i]) <==> HeadFits(m, spaced, segments[..i]);
      assert TailFits(m, plain, segments[j..]) <==> TailFits(m, spaced, segments[j..]);
    }
  }

  // ── `**` by itself ─────────────────────────────────────────────────────────

  // A segment of a pattern as it is meant to be written.
  ghost predicate ProperOne(segment: string) {
    segment != "" && '/' !in segment && (segment == STARS || Starless(segment))
  }

  ghost predicate Proper(segments: seq<string>) {
    forall i :: 0 <= i < |segments| ==> ProperOne(segments[i])
  }

  lemma JoinMore(first: string, rest: seq<string>)
    ensures Join([first] + rest) == if rest == [] then first else first + "/" + Join(rest)
  {
    assert ([first] + rest)[1..] == rest;
  }

  function Before(segments: seq<string>): string {
    if segments == [] then "" else Join(segments) + "/"
  }

  function After(segments: seq<string>): string {
    if segments == [] then "" else "/" + Join(segments)
  }

  lemma BeforeMore(first: string, rest: seq<string>)
    ensures Before([first] + rest) == first + "/" + Before(rest)
  {
    JoinMore(first, rest);
  }

  lemma InFront(first: string, before: string, segment: string, after: string)
    ensures first + "/" + (before + segment + after) == (first + "/" + before) + segment + after
  {}

  lemma {:induction false} JoinAround(head: seq<string>, segment: string, tail: seq<string>)
    ensures Join(head + [segment] + tail) == Before(head) + segment + After(tail)
  {
    if head == [] {
      assert [] + [segment] + tail == [segment] + tail;
      JoinMore(segment, tail);
    } else {
      var first, rest := head[0], head[1..];
      assert head == [first] + rest && head + [segment] + tail == [first] + (rest + [segment] + tail);
      JoinMore(first, rest + [segment] + tail);
      JoinAround(rest, segment, tail);
      BeforeMore(first, rest);
      InFront(first, Before(rest), segment, After(tail));
    }
  }

  lemma {:induction false} JoinIsStarless(segments: seq<string>)
    requires forall i :: 0 <= i < |segments| ==> Starless(segments[i])
    ensures Starless(Join(segments))
  {
    if |segments| > 1 {
      var first, rest := segments[0], Join(segments[1..]);
      JoinIsStarless(segments[1..]);
      forall i: nat ensures !StarsAt(first + "/" + rest, i) {
        assert !StarsAt(first, i);
        assert i > |first| ==> !StarsAt(rest, i - |first| - 1);
      }
    }
  }

  lemma {:induction false} JoinIsSomething(segments: seq<string>)
    requires segments != [] && Proper(segments)
    ensures Join(segments) != ""
  {
  }

  lemma HeadAndTail(head: seq<string>, tail: seq<string>)
    requires Proper(head) && Proper(tail) && Starless(Join(head))
    ensures var glob := Before(head) + STARS + After(tail);
      && Cut(glob) < |glob| && Head(glob) == Join(head) && Tail(glob) == Join(tail)
      && (head == [] <==> Head(glob) == "") && (tail == [] <==> Tail(glob) == "")
  {
    SlashBehind(Join(head));
    CutAt(Before(head), After(tail));
    if head != [] { JoinIsSomething(head); }
    if tail != [] { JoinIsSomething(tail); }
  }

  lemma PatternAround(head: seq<string>, tail: seq<string>)
    requires Proper(head) && Proper(tail) && Starless(Join(head))
    requires tail != [] ==> Pattern(Join(tail)) == tail
    ensures Pattern(Before(head) + STARS + After(tail)) == head + [STARS] + tail
  {
    HeadAndTail(head, tail);
    SplitOfJoin(head);
  }

  lemma ProperParts(segments: seq<string>, k: nat)
    requires Proper(segments) && k < |segments|
    ensures Proper(segments[..k]) && Proper(segments[k + 1..])
    ensures segments == segments[..k] + [segments[k]] + segments[k + 1..]
  {}

  lemma StarlessBefore(segments: seq<string>)
    requires Proper(segments) && STARS !in segments
    ensures Starless(Join(segments))
  {
    forall i | 0 <= i < |segments| ensures Starless(segments[i]) { assert ProperOne(segments[i]); }
    JoinIsStarless(segments);
  }

  lemma PatternWithoutStars(segments: seq<string>)
    requires segments != [] && Proper(segments) && FirstStars(segments) == |segments|
    ensures Pattern(Join(segments)) == segments
  {
    StarlessBefore(segments);
    SplitOfJoin(segments);
  }

  // Text written so is cut up into its segments.
  lemma {:induction false} PatternOfJoin(segments: seq<string>)
    requires segments != [] && Proper(segments)
    ensures Pattern(Join(segments)) == segments
    decreases |segments|
  {
    var k := FirstStars(segments);
    if k == |segments| {
      PatternWithoutStars(segments);
    } else {
      ProperParts(segments, k);
      JoinAround(segments[..k], STARS, segments[k + 1..]);
      StarlessBefore(segments[..k]);
      if segments[k + 1..] != [] {
        PatternOfJoin(segments[k + 1..]);
      }
      PatternAround(segments[..k], segments[k + 1..]);
    }
  }
}
