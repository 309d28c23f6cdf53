/**
 The list of ignore rules: later ones win, and what is inside an ignored directory is
 ignored with it.
 */
module Ignore {
  import opened Basics
  import opened Glob
  import opened GlobText

  datatype Rule = Rule(glob: string, negated: bool, dirsOnly: bool, fullPath: bool)

  // A rule with a slash matches the whole path; one without, any component of it.
  predicate Matches(m: Matcher, rule: Rule, path: seq<string>) {
    if rule.fullPath then FoundText(m, rule.glob, Join(path))
    else exists i :: 0 <= i < |path| && FoundText(m, rule.glob, path[i])
  }

  predicate Speaks(m: Matcher, rule: Rule, path: seq<string>, isDir: bool) {
    (rule.dirsOnly ==> isDir) && Matches(m, rule, path)
  }

  // Rule i says that the path stays out, and no later rule says anything.
  predicate Decides(m: Matcher, rules: seq<Rule>, i: nat, path: seq<string>, isDir: bool)
    requires i < |rules|
  {
    && Speaks(m, rules[i], path, isDir) && !rules[i].negated
    && forall j :: i < j < |rules| ==> !Speaks(m, rules[j], path, isDir)
  }

  predicate LastSaysOut(m: Matcher, rules: seq<Rule>, path: seq<string>, isDir: bool) {
    exists i :: 0 <= i < |rules| && Decides(m, rules, i, path, isDir)
  }

  predicate Out(m: Matcher, rules: seq<Rule>, path: seq<string>, isDir: bool) {
    || LastSaysOut(m, rules, path, isDir)
    || (!isDir && exists n :: 0 < n < |path| && LastSaysOut(m, rules, path[..n], true))
  }

  method RuleMatches(m: Matcher, rule: Rule, path: seq<string>) returns (matches: bool)
    ensures matches == Matches(m, rule, path)
  {
    if rule.fullPath {
      matches := GlobMatch(m, rule.glob, Join(path));
      return;
    }
    for i := 0 to |path|
      invariant forall j :: 0 <= j < i ==> !FoundText(m, rule.glob, path[j])
    {
      matches := GlobMatch(m, rule.glob, path[i]);
      if matches {
        return;
      }
    }
    return false;
  }

  method Excludes(m: Matcher, rules: seq<Rule>, path: seq<string>, isDir: bool) returns (excluded: bool)
    ensures excluded == Out(m, rules, path, isDir)
    decreases if isDir then 0 else 1
  {
    if !isDir {
      var n := 1;
      while n < |path|
        invariant 1 <= n
        invariant forall k :: 0 < k < n && k < |path| ==> !LastSaysOut(m, rules, path[..k], true)
      {
        var parentOut := Excludes(m, rules, path[..n], true);
        if parentOut {
          return true;
        }
        n := n + 1;
      }
    }
    excluded := false;
    for i := 0 to |rules|
      invariant excluded == LastSaysOut(m, rules[..i], path, isDir)
    {
      OneMoreRule(m, rules, i, path, isDir);
      if !rules[i].dirsOnly || isDir {
        var matches := RuleMatches(m, rules[i], path);
        if matches {
          excluded := !rules[i].negated;
        }
      }
    }
    assert rules[..|rules|] == rules;
  }

  lemma OneMoreRule(m: Matcher, rules: seq<Rule>, i: nat, path: seq<string>, isDir: bool)
    requires i < |rules|
    ensures LastSaysOut(m, rules[..i + 1], path, isDir) ==
      if Speaks(m, rules[i], path, isDir) then !rules[i].negated else LastSaysOut(m, rules[..i], path, isDir)
  {
    var more, before := rules[..i + 1], rules[..i];
    forall k | 0 <= k < i
      ensures Decides(m, more, k, path, isDir) <==> Decides(m, before, k, path, isDir) && !Speaks(m, rules[i], path, isDir)
    {
      DecidesStill(m, before, rules[i], k, path, isDir);
      assert more == before + [rules[i]];
    }
    assert Decides(m, more, i, path, isDir) <==> Speaks(m, rules[i], path, isDir) && !rules[i].negated;
  }

  lemma DecidesStill(m: Matcher, rules: seq<Rule>, rule: Rule, k: nat, path: seq<string>, isDir: bool)
    requires k < |rules|
    ensures Decides(m, rules + [rule], k, path, isDir) <==> Decides(m, rules, k, path, isDir) && !Speaks(m, rule, path, isDir)
  {
    var more := rules + [rule];
    assert more[|rules|] == rule;
    assert forall j :: 0 <= j < |rules| ==> more[j] == rules[j];
  }

  // Every file below a directory that is out, at any depth, is out.
  lemma FilesInsideStayOut(m: Matcher, rules: seq<Rule>, dir: seq<string>, below: seq<string>)
    requires dir != [] && below != [] && Out(m, rules, dir, true)
    ensures Out(m, rules, dir + below, false)
  {
    assert (dir + below)[..|dir|] == dir;
  }

  // The last rule that says anything of the path lets it in.
  predicate Readmits(m: Matcher, rules: seq<Rule>, j: nat, path: seq<string>, isDir: bool)
    requires j < |rules|
  {
    && Speaks(m, rules[j], path, isDir) && rules[j].negated
    && forall k :: j < k < |rules| ==> !Speaks(m, rules[k], path, isDir)
  }

  // Of the rules from one that speaks on, one speaks last.
  lemma {:induction false} LastSpeaker(m: Matcher, rules: seq<Rule>, i: nat, path: seq<string>, isDir: bool) returns (last: nat)
    requires i < |rules| && Speaks(m, rules[i], path, isDir)
    ensures i <= last < |rules| && Speaks(m, rules[last], path, isDir)
    ensures forall k :: last < k < |rules| ==> !Speaks(m, rules[k], path, isDir)
    decreases |rules| - i
  {
    if k: nat :| i < k < |rules| && Speaks(m, rules[k], path, isDir) {
      last := LastSpeaker(m, rules, k, path, isDir);
    } else {
      last := i;
    }
  }

  // A rule without a slash that says something of a directory says it of all below.
  lemma SpeaksBelow(m: Matcher, rule: Rule, dir: seq<string>, below: seq<string>)
    requires !rule.fullPath && Speaks(m, rule, dir, true)
    ensures Speaks(m, rule, dir + below, true)
  {
    var i :| 0 <= i < |dir| && FoundText(m, rule.glob, dir[i]);
    assert (dir + below)[i] == dir[i];
  }

  // A directory below one that a rule without a slash keeps out is out as well, if and
  // only if no later rule lets it in again.
  lemma DirectoriesInsideInherit(m: Matcher, rules: seq<Rule>, i: nat, dir: seq<string>, below: seq<string>)
    requires i < |rules| && Decides(m, rules, i, dir, true) && !rules[i].fullPath
    ensures Out(m, rules, dir + below, true) <==> !exists j :: i < j < |rules| && Readmits(m, rules, j, dir + below, true)
  {
    var path := dir + below;
    SpeaksBelow(m, rules[i], dir, below);
    var last := LastSpeaker(m, rules, i, path, true);
    assert !rules[last].negated ==> Decides(m, rules, last, path, true);
    assert rules[last].negated ==> i < last && Readmits(m, rules, last, path, true);
    if Out(m, rules, path, true) {
      var k :| 0 <= k < |rules| && Decides(m, rules, k, path, true);
      assert k == last;
    }
  }

  // A rule with a slash and without `**`, character classes or escapes.
  predicate Plain(rule: Rule) {
    rule.fullPath && Cut(rule.glob) == |rule.glob| && Simple(rule.glob)
  }

  // Such a rule matches paths as long as itself, and nothing below
  // what it matches.
  lemma AnchoredRuleStops(m: Matcher, rule: Rule, dir: seq<string>, below: seq<string>)
    requires BySegments(m) && Plain(rule) && Speaks(m, rule, dir, true)
    requires IsPath(dir) && IsPath(below)
    ensures !Speaks(m, rule, dir + below, true)
  {
    PlainText(m, rule.glob, dir);
    PlainText(m, rule.glob, dir + below);
  }

  function Without(rules: seq<Rule>, i: nat): seq<Rule>
    requires i < |rules|
  {
    rules[..i] + rules[i + 1..]
  }

  // A rule that says nothing of a path might as well not be there.
  lemma SilentRuleDrops(m: Matcher, rules: seq<Rule>, i: nat, path: seq<string>, isDir: bool)
    requires i < |rules| && !Speaks(m, rules[i], path, isDir)
    ensures LastSaysOut(m, rules, path, isDir) <==> LastSaysOut(m, Without(rules, i), path, isDir)
  {
    var others := Without(rules, i);
    assert forall k :: 0 <= k < i ==> others[k] == rules[k];
    assert forall k :: i < k < |rules| ==> others[k - 1] == rules[k];
    if k :| 0 <= k < |rules| && Decides(m, rules, k, path, isDir) {
      assert Decides(m, others, if k < i then k else k - 1, path, isDir);
    }
    if k :| 0 <= k < |others| && Decides(m, others, k, path, isDir) {
      DecidesAmongAll(m, rules, i, k, path, isDir);
    }
  }

  lemma DecidesAmongAll(m: Matcher, rules: seq<Rule>, i: nat, k: nat, path: seq<string>, isDir: bool)
    requires i < |rules| && !Speaks(m, rules[i], path, isDir)
    requires k < |rules| - 1 && Decides(m, Without(rules, i), k, path, isDir)
    ensures Decides(m, rules, if k < i then k else k + 1, path, isDir)
  {
    var at := if k < i then k else k + 1;
    forall j | at < j < |rules| ensures !Speaks(m, rules[j], path, isDir) {
      assert j != i ==> rules[j] == Without(rules, i)[if j < i then j else j - 1];
    }
  }

  // What such a rule keeps out, it keeps out alone: a directory below
  // is out if and only if the other rules say so. The files below are out regardless.
  lemma AnchoredRuleIsNotInherited(m: Matcher, rules: seq<Rule>, i: nat, dir: seq<string>, below: seq<string>)
    requires i < |rules| && Decides(m, rules, i, dir, true) && Plain(rules[i])
    requires BySegments(m) && IsPath(dir) && IsPath(below)
    ensures Out(m, rules, dir + below, true) <==> Out(m, Without(rules, i), dir + below, true)
    ensures Out(m, rules, dir + below, false)
  {
    AnchoredRuleStops(m, rules[i], dir, below);
    SilentRuleDrops(m, rules, i, dir + below, true);
    FilesInsideStayOut(m, rules, dir, below);
  }

  // A directory below one is not, unless a rule says so of itself: `/build/` keeps
  // build out, and build/sub/x, but not the directory build/sub.
  lemma ADirectoryInsideIsNot(m: Matcher)
    requires m("build", "build") && !m("build", "build/sub")
    ensures var rules := [Rule("build", false, true, true)];
      && Out(m, rules, ["build"], true)
      && Out(m, rules, ["build", "sub", "x"], false)
      && !Out(m, rules, ["build", "sub"], true)
  {
    var rules := [Rule("build", false, true, true)];
    assert Cut("build") == |"build"| by { assert forall i: nat :: i < 5 ==> !StarsAt("build", i); }
    assert Speaks(m, rules[0], ["build"], true);
    assert Decides(m, rules, 0, ["build"], true);
    assert ["build"] + ["sub", "x"] == ["build", "sub", "x"];
    FilesInsideStayOut(m, rules, ["build"], ["sub", "x"]);
    assert Join(["build", "sub"]) == "build/sub";
  }

  // A rule that comes last and matches decides; one for directories says nothing of a
  // file by itself.
  lemma TheLastRuleDecides(m: Matcher, rules: seq<Rule>, rule: Rule, path: seq<string>, isDir: bool)
    ensures LastSaysOut(m, rules + [rule], path, isDir) <==>
      if Matches(m, rule, path) && (isDir || !rule.dirsOnly) then !rule.negated else LastSaysOut(m, rules, path, isDir)
  {
    var more := rules + [rule];
    OneMoreRule(m, more, |rules|, path, isDir);
    assert more[..|rules| + 1] == more && more[..|rules|] == rules;
  }

  // A directory is out by the rules themselves; a file also by any directory it is in.
  lemma OutMeans(m: Matcher, rules: seq<Rule>, path: seq<string>)
    ensures Out(m, rules, path, true) <==> LastSaysOut(m, rules, path, true)
    ensures Out(m, rules, path, false) <==>
      LastSaysOut(m, rules, path, false) || exists n :: 0 < n < |path| && Out(m, rules, path[..n], true)
  {
    if n :| 0 < n < |path| && LastSaysOut(m, rules, path[..n], true) {
      assert Out(m, rules, path[..n], true);
    }
    if n :| 0 < n < |path| && Out(m, rules, path[..n], true) {
      assert LastSaysOut(m, rules, path[..n], true);
    }
  }

  // A rule without a slash reaches its name at every depth; one with a slash only the
  // path it spells.
  lemma NamesAtEveryDepth(m: Matcher, rule: Rule, dirs: seq<string>, name: string, below: seq<string>)
    requires !rule.fullPath && FoundText(m, rule.glob, name)
    ensures Matches(m, rule, dirs + [name] + below)
  {
    assert (dirs + [name] + below)[|dirs|] == name;
  }
}
