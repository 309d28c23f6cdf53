/**
 Reading the copier's output as it arrives: lines cut at either terminator however the
 bytes were delivered, progress told apart from files, and only the last lines kept.
 */
module ProgressStream {
  import opened Basics

  const KEPT_LINES := 64
  const MAX_PARTIAL := 65536

  datatype Progress = Progress(
    filesDone: int, filesTotal: int, filesCopied: int, bytes: int, scanning: bool, seen: nat, percent: int)

  const NO_PROGRESS := Progress(0, 0, 0, 0, false, 0, 0)

  predicate IsTerminator(c: char) {
    c == '\r' || c == '\n'
  }

  // ── A stream in lines ──────────────────────────────────────────────────────

  // How far to the first terminator, or the whole length without one.
  function FirstStretch(s: string): (n: nat)
    ensures n <= |s|
  {
    if s == "" || IsTerminator(s[0]) then 0 else 1 + FirstStretch(s[1..])
  }

  lemma {:induction false} FirstStretchIs(s: string)
    ensures var n := FirstStretch(s);
      (forall i :: 0 <= i < n ==> !IsTerminator(s[i])) && (n < |s| ==> IsTerminator(s[n]))
    decreases |s|
  {
    if s != "" && !IsTerminator(s[0]) {
      FirstStretchIs(s[1..]);
      assert forall i :: 1 <= i < FirstStretch(s) ==> s[i] == s[1..][i - 1];
    }
  }

  datatype Cut = NoCut | Cut(line: string, rest: string)

  function FirstCut(s: string): (cut: Cut)
    ensures cut.Cut? ==> |cut.rest| < |s|
  {
    var n := FirstStretch(s);
    if n == |s| then NoCut else Cut(s[..n], s[n + 1..])
  }

  // The stretches that a terminator ends, and what is left after the last.
  function Terminated(s: string): seq<string>
    decreases |s|
  {
    match FirstCut(s) case NoCut => [] case Cut(line, rest) => [line] + Terminated(rest)
  }

  function Unterminated(s: string): string
    decreases |s|
  {
    match FirstCut(s) case NoCut => s case Cut(_, rest) => Unterminated(rest)
  }

  lemma {:induction false} FirstStretchOfBoth(a: string, b: string)
    requires FirstStretch(a) < |a|
    ensures FirstStretch(a + b) == FirstStretch(a)
    decreases |a|
  {
    if !IsTerminator(a[0]) {
      assert (a + b)[1..] == a[1..] + b;
      FirstStretchOfBoth(a[1..], b);
    }
  }

  // A stream can be cut anywhere: what is left of the first part goes before the second.
  lemma {:induction false} CutAnywhere(a: string, b: string)
    ensures Terminated(a + b) == Terminated(a) + Terminated(Unterminated(a) + b)
    ensures Unterminated(a + b) == Unterminated(Unterminated(a) + b)
    decreases |a|
  {
    match FirstCut(a)
    case NoCut =>
    case Cut(line, rest) =>
      FirstCutOfBoth(a, b);
      CutAnywhere(rest, b);
      Regroup([line], Terminated(rest), Terminated(Unterminated(rest) + b));
  }

  lemma FirstCutOfBoth(a: string, b: string)
    requires FirstCut(a).Cut?
    ensures FirstCut(a + b) == Cut(FirstCut(a).line, FirstCut(a).rest + b)
  {
    FirstStretchOfBoth(a, b);
  }

  lemma {:induction false} UnterminatedIsOpen(s: string)
    ensures FirstCut(Unterminated(s)) == NoCut
    decreases |s|
  {
    match FirstCut(s)
    case NoCut =>
    case Cut(_, rest) => UnterminatedIsOpen(rest);
  }

  // ── The same in pieces ─────────────────────────────────────────────────────

  // The lines consumed so far, and what waits for its terminator.
  datatype Stream = Stream(lines: seq<string>, partial: string)

  // One write. What waits too long is taken for a line.
  function Take(st: Stream, p: string): Stream {
    var s := st.partial + p;
    var rest := Unterminated(s);
    if |rest| > MAX_PARTIAL then Stream(st.lines + Terminated(s) + [rest], "")
    else Stream(st.lines + Terminated(s), rest)
  }

  const EMPTY: Stream := Stream([], "")

  function TakeAll(st: Stream, writes: seq<string>): Stream
    decreases |writes|
  {
    if writes == [] then st else Take(TakeAll(st, writes[..|writes| - 1]), writes[|writes| - 1])
  }

  function Whole(writes: seq<string>): string {
    if writes == [] then "" else Whole(writes[..|writes| - 1]) + writes[|writes| - 1]
  }

  predicate LineIsShort(s: string, i: nat) {
    i < |Terminated(s)| ==> |Terminated(s)[i]| <= MAX_PARTIAL
  }

  ghost predicate NoLongStretch(s: string) {
    (forall i: nat {:trigger LineIsShort(s, i)} :: LineIsShort(s, i)) && |Unterminated(s)| <= MAX_PARTIAL
  }

  lemma {:induction false} OpenStretch(u: string, b: string)
    requires FirstStretch(u) == |u|
    ensures FirstStretch(u + b) >= |u|
    decreases |u|
  {
    if u != "" {
      assert (u + b)[1..] == u[1..] + b;
      OpenStretch(u[1..], b);
    }
  }

  lemma NoLongStretchInFirst(a: string, b: string)
    requires NoLongStretch(a + b)
    ensures NoLongStretch(a)
  {
    var u := Unterminated(a);
    var terminated, more := Terminated(a), Terminated(u + b);
    CutAnywhere(a, b);
    UnterminatedIsOpen(a);
    OpenStretch(u, b);
    forall i: nat ensures LineIsShort(a, i) {
      assert LineIsShort(a + b, i);
      assert i < |terminated| ==> Terminated(a + b)[i] == terminated[i];
    }
    assert LineIsShort(a + b, |terminated|);
    assert |more| > 0 ==> more[0] == FirstCut(u + b).line && Terminated(a + b)[|terminated|] == more[0];
  }

  // However a stream is delivered, if no stretch of it is over the limit its lines are
  // those of the whole.
  lemma {:induction false} DeliveryDoesNotMatter(writes: seq<string>)
    requires NoLongStretch(Whole(writes))
    ensures TakeAll(EMPTY, writes) == Stream(Terminated(Whole(writes)), Unterminated(Whole(writes)))
    decreases |writes|
  {
    if writes != [] {
      var before, p := Whole(writes[..|writes| - 1]), writes[|writes| - 1];
      NoLongStretchInFirst(before, p);
      DeliveryDoesNotMatter(writes[..|writes| - 1]);
      CutAnywhere(before, p);
    }
  }

  // What follows an open stretch ends as many lines as it does by itself.
  lemma AfterAnOpenStretch(u: string, b: string)
    requires FirstCut(u) == NoCut
    ensures |Terminated(u + b)| == |Terminated(b)|
    ensures FirstCut(Unterminated(u + b)) == NoCut
  {
    StretchOfBoth(u, b);
    UnterminatedIsOpen(u + b);
    var n := FirstStretch(b);
    if n < |b| {
      assert (u + b)[|u| + n + 1..] == b[n + 1..];
      assert FirstCut(u + b).rest == FirstCut(b).rest;
    }
  }

  lemma {:induction false} StretchOfBoth(u: string, b: string)
    requires FirstStretch(u) == |u|
    ensures FirstStretch(u + b) == |u| + FirstStretch(b)
    decreases |u|
  {
    if u == "" {
      assert u + b == b;
    } else {
      assert (u + b)[1..] == u[1..] + b;
      StretchOfBoth(u[1..], b);
    }
  }

  // How often a run of writes left too much waiting, so that it was taken for a line.
  function CutsMade(writes: seq<string>): nat
    decreases |writes|
  {
    if writes == [] then 0
    else
      var before, p := writes[..|writes| - 1], writes[|writes| - 1];
      CutsMade(before) + One(|Unterminated(TakeAll(EMPTY, before).partial + p)| > MAX_PARTIAL)
  }

  // The lines taken are as many as the whole stream has, and one for each cut.
  lemma {:induction false} CutsAreLines(writes: seq<string>)
    ensures |TakeAll(EMPTY, writes).lines| == |Terminated(Whole(writes))| + CutsMade(writes)
    ensures FirstCut(TakeAll(EMPTY, writes).partial) == NoCut
    decreases |writes|
  {
    if writes != [] {
      var before, p := writes[..|writes| - 1], writes[|writes| - 1];
      CutsAreLines(before);
      AfterAnOpenStretch(TakeAll(EMPTY, before).partial, p);
      CutAnywhere(Whole(before), p);
      UnterminatedIsOpen(Whole(before));
      AfterAnOpenStretch(Unterminated(Whole(before)), p);
    }
  }

  // What waits after k writes, were nothing ever cut, is within the limit.
  predicate RestIsShort(writes: seq<string>, k: nat) {
    k <= |writes| ==> |Unterminated(Whole(writes[..k]))| <= MAX_PARTIAL
  }

  predicate RestsAreShort(writes: seq<string>) {
    forall k: nat {:trigger RestIsShort(writes, k)} :: k <= |writes| ==> RestIsShort(writes, k)
  }

  predicate AsAWhole(writes: seq<string>) {
    TakeAll(EMPTY, writes) == Stream(Terminated(Whole(writes)), Unterminated(Whole(writes)))
  }

  lemma RestsOfOneMore(writes: seq<string>)
    requires writes != []
    ensures RestsAreShort(writes) <==> RestsAreShort(writes[..|writes| - 1]) && RestIsShort(writes, |writes|)
  {
    var before := writes[..|writes| - 1];
    forall k: nat | k < |writes| ensures RestIsShort(writes, k) <==> RestIsShort(before, k) {
      assert before[..k] == writes[..k];
    }
    if RestsAreShort(writes) {
      forall k: nat | k <= |before| ensures RestIsShort(before, k) { assert RestIsShort(writes, k); }
    }
    if RestsAreShort(before) && RestIsShort(writes, |writes|) {
      forall k: nat | k <= |writes| ensures RestIsShort(writes, k) { assert k < |writes| ==> RestIsShort(before, k); }
    }
  }

  lemma {:induction false} UncutIsWhole(writes: seq<string>)
    ensures RestsAreShort(writes) <==> CutsMade(writes) == 0
    ensures RestsAreShort(writes) ==> AsAWhole(writes)
    decreases |writes|
  {
    if writes == [] {
      assert writes[..0] == [];
    } else {
      var before, p := writes[..|writes| - 1], writes[|writes| - 1];
      UncutIsWhole(before);
      RestsOfOneMore(writes);
      CutAnywhere(Whole(before), p);
      assert writes[..|writes|] == writes;
    }
  }

  // One run of writes gives the lines of the whole stream if and only if no write ends
  // with more than the limit still unterminated.
  lemma DeliveredAsAWhole(writes: seq<string>)
    ensures AsAWhole(writes) <==> RestsAreShort(writes)
  {
    CutsAreLines(writes);
    UncutIsWhole(writes);
  }

  lemma {:induction false} StretchIs(s: string, n: nat)
    requires n < |s| && IsTerminator(s[n]) && forall i :: 0 <= i < n ==> !IsTerminator(s[i])
    ensures FirstStretch(s) == n
  {
    if n > 0 {
      StretchIs(s[1..], n - 1);
    }
  }

  lemma {:induction false} OpenIs(s: string)
    requires forall i :: 0 <= i < |s| ==> !IsTerminator(s[i])
    ensures FirstStretch(s) == |s|
    decreases |s|
  {
    if s != "" {
      OpenIs(s[1..]);
    }
  }

  lemma LineIsOpen(s: string)
    requires FirstCut(s).Cut?
    ensures var line := FirstCut(s).line;
      |line| < |s| && s[..|line|] == line && Unterminated(line) == line
  {
    FirstStretchIs(s);
    OpenIs(FirstCut(s).line);
  }

  lemma InTwoSlices(s: string, m: nat, n: nat)
    requires m <= n <= |s|
    ensures s[..n][m..] == s[m..][..n - m]
  {}

  lemma PrefixPastTheLine(s: string, k: nat)
    requires FirstCut(s).Cut? && k <= |FirstCut(s).rest|
    ensures var n := |FirstCut(s).line| + 1 + k;
      n <= |s| && Unterminated(s[..n]) == Unterminated(FirstCut(s).rest[..k])
  {
    var Cut(line, rest) := FirstCut(s);
    var n := |line| + 1 + k;
    FirstStretchIs(s);
    StretchIs(s[..n], |line|);
    InTwoSlices(s, |line| + 1, n);
  }

  lemma LongAfterTheLine(s: string)
    requires FirstCut(s).Cut? && |FirstCut(s).line| <= MAX_PARTIAL && !NoLongStretch(s)
    ensures !NoLongStretch(FirstCut(s).rest)
  {
    var Cut(line, rest) := FirstCut(s);
    if NoLongStretch(rest) {
      forall i: nat ensures LineIsShort(s, i) {
        assert i > 0 ==> LineIsShort(rest, i - 1);
      }
    }
  }

  // Where to cut a stream with a stretch over the limit so that too much is waiting.
  lemma {:induction false} InTheLongStretch(s: string) returns (k: nat)
    requires !NoLongStretch(s)
    ensures k <= |s| && |Unterminated(s[..k])| > MAX_PARTIAL
    decreases |s|
  {
    match FirstCut(s)
    case NoCut =>
      k := |s|;
      forall i: nat ensures LineIsShort(s, i) {}
      assert s[..k] == s;
    case Cut(line, rest) =>
      if |line| > MAX_PARTIAL {
        k := |line|;
        LineIsOpen(s);
      } else {
        LongAfterTheLine(s);
        var more := InTheLongStretch(rest);
        k := |line| + 1 + more;
        PrefixPastTheLine(s, more);
      }
  }

  // A stream gives the same lines however it is delivered if and only if it has no
  // stretch over the limit.
  lemma DeliveryMatters(s: string)
    ensures NoLongStretch(s) <==> forall writes :: Whole(writes) == s ==> AsAWhole(writes)
  {
    if NoLongStretch(s) {
      forall writes | Whole(writes) == s ensures AsAWhole(writes) { DeliveryDoesNotMatter(writes); }
    } else {
      var k := InTheLongStretch(s);
      var writes := [s[..k], s[k..]];
      WholeOfTwo(s[..k], s[k..]);
      assert s[..k] + s[k..] == s;
      assert !RestIsShort(writes, 1);
      DeliveredAsAWhole(writes);
    }
  }

  lemma WholeOfTwo(a: string, b: string)
    ensures Whole([a, b]) == a + b && Whole([a, b][..1]) == a
  {
    assert [a, b][..1] == [a] && [a][..0] == [];
    assert Whole([a]) == "" + a == a;
  }

  // A stretch over the limit is cut where a write happens to end.
  lemma ALongStretchIsCut(a: string, b: string)
    requires FirstStretch(a) == |a| > MAX_PARTIAL && FirstStretch(b) == |b| > 0
    ensures TakeAll(EMPTY, [a + b + "\n"]).lines == [a + b]
    ensures TakeAll(EMPTY, [a, b + "\n"]).lines == [a, b]
  {
    OpenBoth(a, b);
    TakeLine([], a + b);
    TakeLong(a);
    TakeLine([a], b);
    TakeAllOne(a + b + "\n");
    TakeAllTwo(a, b + "\n", Stream([a], ""));
  }

  lemma {:induction false} OpenBoth(a: string, b: string)
    requires FirstStretch(a) == |a| && FirstStretch(b) == |b|
    ensures FirstStretch(a + b) == |a + b|
    decreases |a|
  {
    if a == "" {
      assert a + b == b;
    } else {
      assert (a + b)[1..] == a[1..] + b;
      OpenBoth(a[1..], b);
    }
  }

  lemma TakeAllTwo(p: string, q: string, between: Stream)
    requires Take(EMPTY, p) == between
    ensures TakeAll(EMPTY, [p, q]) == Take(between, q)
  {
    TakeAllOne(p);
    assert [p, q][..1] == [p];
  }

  lemma TakeLong(s: string)
    requires FirstStretch(s) == |s| > MAX_PARTIAL
    ensures Take(EMPTY, s) == Stream([s], "")
  {
    assert "" + s == s;
  }

  lemma TakeLine(lines: seq<string>, s: string)
    requires FirstStretch(s) == |s|
    ensures Take(Stream(lines, ""), s + "\n") == Stream(lines + [s], "")
  {
    OneTerminated(s);
    assert "" + (s + "\n") == s + "\n";
  }

  lemma TakeAllOne(p: string)
    ensures TakeAll(EMPTY, [p]) == Take(EMPTY, p)
  {
    assert [p][..0] == [];
  }

  lemma {:induction false} OneTerminated(s: string)
    requires FirstStretch(s) == |s|
    ensures Terminated(s + "\n") == [s] && Unterminated(s + "\n") == ""
  {
    OpenStretch(s, "\n");
    FirstStretchIs(s + "\n");
    assert (s + "\n")[|s|] == '\n';
    assert FirstCut(s + "\n") == Cut(s, "") by {
      assert (s + "\n")[..|s|] == s && (s + "\n")[|s| + 1..] == "";
    }
  }

  // ── What the lines say ─────────────────────────────────────────────────────

  datatype Reader = Reader(expected: int, parse: string -> Option<Progress>)

  predicate Counts(r: Reader, line: string) {
    line != "" && r.parse(line) == None
  }

  predicate OpensStats(r: Reader, line: string) {
    Counts(r, line) && "Number of files:" <= line
  }

  // Line i is about a file: it says something, it is not progress, and the closing
  // statistics have not begun.
  predicate IsFile(r: Reader, lines: seq<string>, i: nat)
    requires i < |lines|
  {
    Counts(r, lines[i]) && forall j :: 0 <= j <= i ==> !OpensStats(r, lines[j])
  }

  function FilesSeen(r: Reader, lines: seq<string>): nat {
    |set i | 0 <= i < |lines| && IsFile(r, lines, i)|
  }

  predicate InStats(r: Reader, lines: seq<string>) {
    exists i :: 0 <= i < |lines| && OpensStats(r, lines[i])
  }

  function Kept(r: Reader, lines: seq<string>): seq<string> {
    if lines == [] then []
    else
      var before, line := Kept(r, lines[..|lines| - 1]), lines[|lines| - 1];
      if Counts(r, line) then before + [line] else before
  }

  // The figures of the last progress line.
  function LastProgress(r: Reader, lines: seq<string>): Progress {
    if lines == [] then NO_PROGRESS
    else
      var before, line := lines[..|lines| - 1], lines[|lines| - 1];
      match r.parse(line)
      case Some(figures) => WithCount(r, figures, FilesSeen(r, before))
      case None => LastProgress(r, before)
  }

  function PercentDone(done: int, total: int): (p: int)
    ensures 0 <= p <= 100
  {
    if total <= 0 || done <= 0 then 0
    else if done >= total then 100
    else
      assert 0 <= 100 * done < 100 * total;
      100 * done / total
  }

  function Denominator(r: Reader, found: int): int {
    if r.expected > found then r.expected else found
  }

  function WithCount(r: Reader, figures: Progress, seen: nat): Progress {
    figures.(seen := seen, percent := PercentDone(seen, Denominator(r, figures.filesTotal)))
  }

  // What has been reported: after each progress line its figures, after each file the
  // last figures with the new count.
  function Reports(r: Reader, lines: seq<string>): seq<Progress> {
    if lines == [] then []
    else
      var before, line := lines[..|lines| - 1], lines[|lines| - 1];
      Reports(r, before) +
      if r.parse(line).Some? then [LastProgress(r, lines)]
      else if IsFile(r, lines, |lines| - 1) then [WithCount(r, LastProgress(r, before), FilesSeen(r, lines))]
      else []
  }

  lemma StatsOfOneMore(r: Reader, lines: seq<string>, line: string)
    ensures InStats(r, lines + [line]) <==> InStats(r, lines) || OpensStats(r, line)
  {
    var more := lines + [line];
    if InStats(r, lines) {
      var i :| 0 <= i < |lines| && OpensStats(r, lines[i]);
      assert OpensStats(r, more[i]);
    }
    assert more[|lines|] == line;
  }

  lemma FilesOfOneMore(r: Reader, lines: seq<string>, line: string)
    ensures IsFile(r, lines + [line], |lines|) <==> Counts(r, line) && !InStats(r, lines + [line])
    ensures FilesSeen(r, lines + [line]) == FilesSeen(r, lines) + One(IsFile(r, lines + [line], |lines|))
  {
    var more := lines + [line];
    var before := set i | 0 <= i < |lines| && IsFile(r, lines, i);
    var after := set i | 0 <= i < |more| && IsFile(r, more, i);
    forall i | 0 <= i < |lines| ensures IsFile(r, more, i) <==> IsFile(r, lines, i) {
      assert forall j :: 0 <= j <= i ==> more[j] == lines[j];
    }
    assert after == before + if IsFile(r, more, |lines|) then {|lines|} else {};
  }

  lemma OneMoreLine(r: Reader, lines: seq<string>, line: string)
    ensures InStats(r, lines + [line]) <==> InStats(r, lines) || OpensStats(r, line)
    ensures IsFile(r, lines + [line], |lines|) <==> Counts(r, line) && !InStats(r, lines + [line])
    ensures FilesSeen(r, lines + [line]) == FilesSeen(r, lines) + One(IsFile(r, lines + [line], |lines|))
    ensures Kept(r, lines + [line]) == Kept(r, lines) + if Counts(r, line) then [line] else []
    ensures (lines + [line])[..|lines|] == lines
  {
    assert (lines + [line])[..|lines|] == lines;
    StatsOfOneMore(r, lines, line);
    FilesOfOneMore(r, lines, line);
  }

  // All that the lines say, and how one more line changes it.
  datatype Tally = Tally(seen: nat, inStats: bool, last: Progress, reports: seq<Progress>, kept: seq<string>)

  function TallyOf(r: Reader, lines: seq<string>): Tally {
    Tally(FilesSeen(r, lines), InStats(r, lines), LastProgress(r, lines), Reports(r, lines), Kept(r, lines))
  }

  function Advance(r: Reader, t: Tally, line: string): Tally {
    match r.parse(line)
    case Some(figures) =>
      var last := WithCount(r, figures, t.seen);
      t.(last := last, reports := t.reports + [last])
    case None =>
      if line == "" then t
      else
        var inStats := t.inStats || "Number of files:" <= line;
        if inStats then t.(inStats := true, kept := t.kept + [line])
        else t.(seen := t.seen + 1, reports := t.reports + [WithCount(r, t.last, t.seen + 1)], kept := t.kept + [line])
  }

  lemma AdvanceIsOneMore(r: Reader, lines: seq<string>, line: string)
    ensures TallyOf(r, lines + [line]) == Advance(r, TallyOf(r, lines), line)
  {
    OneMoreLine(r, lines, line);
    assert (lines + [line])[|lines|] == line;
  }

  // The count a page sees never goes back.
  lemma {:induction false} CountsNeverGoBack(r: Reader, lines: seq<string>)
    ensures forall k :: 0 <= k < |Reports(r, lines)| ==> Reports(r, lines)[k].seen <= FilesSeen(r, lines)
    ensures forall j, k :: 0 <= j < k < |Reports(r, lines)| ==> Reports(r, lines)[j].seen <= Reports(r, lines)[k].seen
    decreases |lines|
  {
    if lines != [] {
      var before, line := lines[..|lines| - 1], lines[|lines| - 1];
      assert lines == before + [line];
      CountsNeverGoBack(r, before);
      OneMoreLine(r, before, line);
      if r.parse(line).Some? {
        assert LastProgress(r, lines).seen == FilesSeen(r, before);
      }
    }
  }

  function Last(lines: seq<string>, most: nat): seq<string> {
    if |lines| <= most then lines else lines[|lines| - most..]
  }

  function Joined(lines: seq<string>): string {
    if lines == [] then "" else Joined(lines[..|lines| - 1]) + lines[|lines| - 1] + "\n"
  }

  // A ring in the order it was filled.
  function Unrolled(ring: seq<string>, next: nat, full: bool): seq<string>
    requires next <= |ring|
  {
    if full then ring[next..] + ring[..next] else ring[..next]
  }

  // The oldest goes, the line comes last.
  lemma FullRingTurns(ring: seq<string>, next: nat, line: string)
    requires next < |ring|
    ensures var after := ring[next := line];
      after[next + 1..] + after[..next + 1] == (ring[next..] + ring[..next] + [line])[1..]
  {
    var after := ring[next := line];
    assert after[..next + 1] == ring[..next] + [line];
    assert after[next + 1..] == ring[next..][1..];
    Regroup(ring[next..][1..], ring[..next], [line]);
    assert (ring[next..] + ring[..next] + [line])[1..] == ring[next..][1..] + ring[..next] + [line];
  }

  lemma TurnedToTheStart(ring: seq<string>)
    ensures ring[|ring|..] + ring[..|ring|] == ring && ring[0..] + ring[..0] == ring && ring[..|ring|] == ring
  {}

  lemma OneMoreOfTheRing(ring: seq<string>, next: nat, line: string)
    requires next < |ring|
    ensures ring[next := line][..next + 1] == ring[..next] + [line]
  {}

  // Writing over the oldest and turning keeps the last of what was there and the line.
  lemma RingTurns(ring: seq<string>, next: nat, full: bool, line: string)
    requires |ring| == KEPT_LINES && next < KEPT_LINES
    ensures var turned := if next + 1 == KEPT_LINES then 0 else next + 1;
      Unrolled(ring[next := line], turned, full || turned == 0) == Last(Unrolled(ring, next, full) + [line], KEPT_LINES)
  {
    var before := Unrolled(ring, next, full);
    if full {
      assert |before| == KEPT_LINES;
      assert Last(before + [line], KEPT_LINES) == (before + [line])[1..];
      FullRingTurns(ring, next, line);
    } else {
      assert Last(before + [line], KEPT_LINES) == before + [line];
      OneMoreOfTheRing(ring, next, line);
    }
    if next + 1 == KEPT_LINES {
      TurnedToTheStart(ring[next := line]);
    }
  }

  class ProgressWriter {
    const r: Reader
    const kept: array<string>
    var next: nat
    var full: bool
    var partial: string
    var seen: nat
    var statsStarted: bool
    var last: Progress
    var reports: seq<Progress>    // the calls of the callback
    ghost var lines: seq<string>  // every line consumed

    // The fields are what the lines consumed so far say.
    ghost predicate Tallied()
      reads this`next, this`full, this`seen, this`statsStarted, this`last, this`reports, this`lines, kept
    {
      kept.Length == KEPT_LINES && next < KEPT_LINES && Shows(TallyOf(r, lines))
    }

    ghost predicate Valid()
      reads this, kept
    {
      Tallied() && FirstCut(partial) == NoCut
    }

    ghost predicate Shows(t: Tally)
      reads this`next, this`full, this`seen, this`statsStarted, this`last, this`reports, kept
      requires kept.Length == KEPT_LINES && next < KEPT_LINES
    {
      && seen == t.seen && statsStarted == t.inStats && last == t.last && reports == t.reports
      && Ring() == Last(t.kept, KEPT_LINES) && (full <==> |t.kept| >= KEPT_LINES)
    }

    // The ring, in the order it was filled.
    ghost function Ring(): seq<string>
      reads this`next, this`full, kept
      requires kept.Length == KEPT_LINES && next < KEPT_LINES
    {
      Unrolled(kept[..], next, full)
    }

    constructor (r: Reader)
      ensures Valid() && fresh(kept) && lines == [] && partial == "" && this.r == r
    {
      this.r := r;
      kept := new string[KEPT_LINES](_ => "");
      next, full, partial, seen, statsStarted, last, reports, lines := 0, false, "", 0, false, NO_PROGRESS, [], [];
    }

    method Keep(line: string)
      requires kept.Length == KEPT_LINES && next < KEPT_LINES
      modifies this`next, this`full, kept
      ensures next < KEPT_LINES && Ring() == Last(old(Ring()) + [line], KEPT_LINES)
      ensures full <==> old(full) || |old(Ring())| + 1 >= KEPT_LINES
    {
      RingTurns(kept[..], next, full, line);
      kept[next] := line;
      assert kept[..] == old(kept[..])[next := line];
      next := (next + 1) % KEPT_LINES;
      if next == 0 {
        full := true;
      }
    }

    method KeepOf(line: string, ghost all: seq<string>)
      requires kept.Length == KEPT_LINES && next < KEPT_LINES
      requires Ring() == Last(all, KEPT_LINES) && (full <==> |all| >= KEPT_LINES)
      modifies this`next, this`full, kept
      ensures next < KEPT_LINES && Ring() == Last(all + [line], KEPT_LINES) && (full <==> |all + [line]| >= KEPT_LINES)
    {
      Keep(line);
    }

    method Tell(line: string, ghost t: Tally)
      requires kept.Length == KEPT_LINES && next < KEPT_LINES && Shows(t)
      modifies this`next, this`full, this`seen, this`statsStarted, this`last, this`reports, kept
      ensures next < KEPT_LINES && Shows(Advance(r, t, line))
    {
      match r.parse(line) {
        case Some(figures) =>
          last := WithCount(r, figures, seen);
          reports := reports + [last];
          return;
        case None =>
      }
      if line == "" {
        return;
      }
      if "Number of files:" <= line {
        statsStarted := true;
      }
      if statsStarted {
        KeepOf(line, t.kept);
        return;
      }
      seen := seen + 1;
      reports := reports + [WithCount(r, last, seen)];
      KeepOf(line, t.kept);
    }

    method Consume(line: string)
      requires Tallied()
      modifies this`next, this`full, this`seen, this`statsStarted, this`last, this`reports, this`lines, kept
      ensures Tallied() && lines == old(lines) + [line]
    {
      AdvanceIsOneMore(r, lines, line);
      Tell(line, TallyOf(r, lines));
      lines := lines + [line];
    }

    ghost function Taken(): Stream
      reads this
    {
      Stream(lines, partial)
    }

    method ConsumeLines()
      requires Tallied()
      modifies this, kept
      ensures Valid()
      ensures lines == old(lines) + Terminated(old(partial)) && partial == Unterminated(old(partial))
    {
      ghost var s := partial;
      while FirstCut(partial).Cut?
        invariant Tallied()
        invariant lines + Terminated(partial) == old(lines) + Terminated(s) && Unterminated(partial) == Unterminated(s)
        decreases |partial|
      {
        var cut := FirstCut(partial);
        Regroup(lines, [cut.line], Terminated(cut.rest));
        Consume(cut.line);
        partial := cut.rest;
      }
    }

    method Write(p: string)
      requires Valid()
      modifies this, kept
      ensures Valid() && Taken() == Take(old(Taken()), p)
    {
      partial := partial + p;
      ConsumeLines();
      if |partial| > MAX_PARTIAL {
        Consume(partial);
        partial := "";
      }
    }

    method PrintRing(from: nat, to: nat, before: string, ghost printed: seq<string>) returns (out: string)
      requires from <= to <= kept.Length && before == Joined(printed)
      ensures out == Joined(printed + kept[from..to])
    {
      out := before;
      assert printed + kept[from..from] == printed;
      for i := from to to
        invariant out == Joined(printed + kept[from..i])
      {
        assert (printed + kept[from..i + 1])[..|printed| + i - from] == printed + kept[from..i];
        out := out + kept[i] + "\n";
      }
    }

    method PrintKept() returns (out: string)
      requires kept.Length == KEPT_LINES && next < KEPT_LINES
      ensures out == Joined(Ring())
    {
      if full {
        out := PrintRing(next, KEPT_LINES, "", []);
        assert [] + kept[next..KEPT_LINES] == kept[next..] && kept[0..next] == kept[..next];
        out := PrintRing(0, next, out, kept[next..]);
      } else {
        out := PrintRing(0, next, "", []);
        assert [] + kept[0..next] == kept[..next];
      }
    }

    // What was left unterminated is the last line.
    method ConsumePartial()
      requires Tallied() && partial != ""
      modifies this, kept
      ensures Valid() && partial == "" && lines == old(lines) + [old(partial)]
    {
      Consume(partial);
      partial := "";
    }

    lemma RingIsTheLastKept()
      requires Valid()
      ensures Ring() == Last(Kept(r, lines), KEPT_LINES)
    {
      assert Shows(TallyOf(r, lines));
    }

    // The last lines that were kept, with whatever was left unterminated.
    method Output() returns (out: string)
      requires Valid()
      modifies this, kept
      ensures Valid() && partial == ""
      ensures lines == old(lines) + if old(partial) == "" then [] else [old(partial)]
      ensures out == Joined(Last(Kept(r, lines), KEPT_LINES))
    {
      if |partial| > 0 {
        ConsumePartial();
      }
      RingIsTheLastKept();
      out := PrintKept();
    }
  }

  // The lines at the end of a run, where what is left unterminated is the last of them.
  function AllLines(st: Stream): seq<string> {
    st.lines + if st.partial == "" then [] else [st.partial]
  }

  predicate Tells(r: Reader, lines: seq<string>, out: string, seen: nat, reports: seq<Progress>) {
    out == Joined(Last(Kept(r, lines), KEPT_LINES)) && seen == FilesSeen(r, lines) && reports == Reports(r, lines)
  }

  // A whole run of the copier. What comes of it depends on what was written, and not
  // on how it was delivered, as long as no write leaves more than the limit waiting.
  method ReadAll(r: Reader, writes: seq<string>) returns (out: string, seen: nat, reports: seq<Progress>)
    ensures Tells(r, AllLines(TakeAll(EMPTY, writes)), out, seen, reports)
    ensures RestsAreShort(writes) ==>
      Tells(r, AllLines(Stream(Terminated(Whole(writes)), Unterminated(Whole(writes)))), out, seen, reports)
  {
    var writer := new ProgressWriter(r);
    for i := 0 to |writes|
      invariant writer.Valid() && fresh(writer) && fresh(writer.kept) && writer.r == r
      invariant writer.Taken() == TakeAll(EMPTY, writes[..i])
    {
      assert writes[..i + 1][..i] == writes[..i];
      writer.Write(writes[i]);
    }
    assert writes[..|writes|] == writes;
    DeliveredAsAWhole(writes);
    out := writer.Output();
    seen, reports := writer.seen, writer.reports;
  }

  // ── What it is for ─────────────────────────────────────────────────────────

  // Either terminator ends a line: no line has one in it.
  lemma {:induction false} NoTerminatorInALine(s: string)
    ensures forall i :: 0 <= i < |Terminated(s)| ==> '\r' !in Terminated(s)[i] && '\n' !in Terminated(s)[i]
    ensures '\r' !in Unterminated(s) && '\n' !in Unterminated(s)
    decreases |s|
  {
    FirstStretchIs(s);
    match FirstCut(s)
    case NoCut =>
    case Cut(line, rest) =>
      NoTerminatorInALine(rest);
  }

  // Of files under way, the whole hundredths done, and all of them only at the end.
  lemma PercentMeans(done: int, total: int)
    ensures var p := PercentDone(done, total);
      && (0 < done < total ==> p * total <= 100 * done < (p + 1) * total && p < 100)
      && (0 < total <= done ==> p == 100)
      && (done <= 0 || total <= 0 ==> p == 0)
  {
    if 0 < done < total {
      var p := 100 * done / total;
      assert 100 * done == total * p + 100 * done % total;
      assert p * total == total * p && (p + 1) * total == total * p + total;
    }
  }

  // A page is shown the count against the larger of the last run's and the live total.
  lemma CountIsShown(r: Reader, figures: Progress, seen: nat)
    ensures var shown := WithCount(r, figures, seen);
      && shown.seen == seen && shown.filesDone == figures.filesDone && shown.bytes == figures.bytes
      && (shown.percent == 100 <==> 0 < seen && r.expected <= seen && figures.filesTotal <= seen && (0 < r.expected || 0 < figures.filesTotal))
  {
    PercentMeans(seen, Denominator(r, figures.filesTotal));
  }

  // The statistics a run ends with, if they fit, are kept whole and counted as no files.
  lemma {:induction false} TheStatisticsAreKept(r: Reader, lines: seq<string>, block: seq<string>)
    requires block != [] && |block| <= KEPT_LINES && "Number of files:" <= block[0]
    requires forall i :: 0 <= i < |block| ==> block[i] != "" && r.parse(block[i]) == None
    ensures Kept(r, lines + block) == Kept(r, lines) + block
    ensures var last := Last(Kept(r, lines + block), KEPT_LINES); last[|last| - |block|..] == block
    ensures FilesSeen(r, lines + block) == FilesSeen(r, lines) && InStats(r, lines + block)
    decreases |block|
  {
    var n := |block| - 1;
    var before := lines + block[..n];
    assert lines + block == before + [block[n]];
    OneMoreLine(r, before, block[n]);
    if n > 0 {
      TheStatisticsAreKept(r, lines, block[..n]);
      assert block == block[..n] + [block[n]];
      Regroup(Kept(r, lines), block[..n], [block[n]]);
    } else {
      assert before == lines && block == [block[0]];
    }
    LastIsTheEnd(Kept(r, lines), block);
  }

  lemma LastIsTheEnd(a: seq<string>, b: seq<string>)
    requires |b| <= KEPT_LINES
    ensures var last := Last(a + b, KEPT_LINES); |last| >= |b| && last[|last| - |b|..] == b
  {}
}
