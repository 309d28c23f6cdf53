/**
 The periodic pass that makes the index agree with the disk: one loop over what the
 walk found, one over what the index believed, and the revisions it costs.
 */
module Scan {
  import opened Basics
  import opened Index
  import Server
  import opened ServerObject

  // What the walk keeps of one path: a directory, or a file and its plaintext.
  datatype Found = Found(kind: Kind, body: Body, mtime: int)

  type Tree = map<Path, Found>

  datatype Stats = Stats(added: nat, updated: nat, deleted: nat)

  function SizeOf(f: Found): nat {
    if f.kind == Directory then 0 else |f.body|
  }

  function HashOf(f: Found): Digest {
    if f.kind == Directory then NoDigest else Sha256(f.body)
  }

  function EntryOf(tree: Tree, p: Path): Entry
    requires p in tree
  {
    Entry(p, tree[p].kind, SizeOf(tree[p]), tree[p].mtime, HashOf(tree[p]), 0, false)
  }

  predicate SameContent(row: Entry, f: Found) {
    row.kind == f.kind && (f.kind == RegularFile ==> row.size == |f.body| && row.sha == Sha256(f.body))
  }

  // The index says about a path what is true of it.
  ghost predicate Agrees(t: Table, tree: Tree, p: Path) {
    (Live(t, p) <==> p in tree) && (p in tree ==> SameContent(t.rows[p], tree[p]))
  }

  // The path is on disk and its lower-cased twin, which is not, is still live.
  ghost predicate Blocked(t: Table, tree: Tree, p: Path) {
    p in tree && Clash(t, p)
  }

  // A twin of the path is on disk as well, and it is the one that is live.
  ghost predicate BeatenBy(t: Table, tree: Tree, p: Path, q: Path) {
    p in tree && q in tree && q != p && Fold(q) == Fold(p) && Live(t, q)
  }

  ghost predicate Beaten(t: Table, tree: Tree, p: Path) {
    exists q :: BeatenBy(t, tree, p, q)
  }

  ghost predicate TwinsApart(tree: Tree, p: Path, q: Path) {
    p in tree && q in tree && Fold(p) == Fold(q) ==> p == q
  }

  ghost predicate Apart(tree: Tree) {
    forall p, q {:trigger TwinsApart(tree, p, q)} :: TwinsApart(tree, p, q)
  }

  // A recorded size and time still on the file mean the recorded content still in
  // it; and a directory is recorded without a hash.
  ghost predicate HonestAt(t: Table, tree: Tree, p: Path) {
    Live(t, p) ==>
      && (t.rows[p].kind == Directory ==> t.rows[p].sha == NoDigest)
      && (p in tree && tree[p].kind == RegularFile == t.rows[p].kind && t.rows[p].size == |tree[p].body| && t.rows[p].mtime == tree[p].mtime
          ==> t.rows[p].sha == Sha256(tree[p].body))
  }

  ghost predicate Honest(t: Table, tree: Tree) {
    forall p {:trigger HonestAt(t, tree, p)} :: HonestAt(t, tree, p)
  }

  ghost predicate SameRow(t: Table, t': Table, p: Path) {
    (p in t.rows <==> p in t'.rows) && (p in t.rows ==> t.rows[p] == t'.rows[p])
  }

  // What becomes of the row of each path.
  ghost predicate Fate(t: Table, t': Table, tree: Tree, p: Path) {
    if Agrees(t, tree, p) || Blocked(t, tree, p) then
      SameRow(t, t', p)
    else if p in tree then
      || (Agrees(t', tree, p) && t'.rows[p].mtime == tree[p].mtime && t'.rows[p].sha == HashOf(tree[p]) && |t.log| < t'.rows[p].rev
          && t'.rows[p].size == if tree[p].kind == Directory then 0 else |tree[p].body|)
      || (!Live(t, p) && SameRow(t, t', p) && Beaten(t', tree, p))
    else
      p in t'.rows && t'.rows[p].deleted && |t.log| < t'.rows[p].rev
  }

  // New on disk, with no live twin.
  ghost function Added(t: Table, tree: Tree): set<Path> {
    set p | p in tree && !Live(t, p) && !Blocked(t, tree, p)
  }

  function Folds(paths: set<Path>): set<Path> {
    set p | p in paths :: Fold(p)
  }

  ghost function Updated(t: Table, tree: Tree): set<Path> {
    set p | p in tree && Live(t, p) && !Agrees(t, tree, p)
  }

  ghost function Vanished(t: Table, tree: Tree): set<Path> {
    set p | p in t.rows && Live(t, p) && p !in tree
  }

  // The whole effect of a scan: the fate of each path, the counts it reports, and one
  // revision for each path counted. Of new paths that differ by letter case alone the
  // one that the loop comes to first is added.
  ghost predicate Scanned(t: Table, t': Table, tree: Tree, stats: Stats) {
    && Valid(t') && Extends(t, t')
    && (forall p {:trigger Fate(t, t', tree, p)} :: Fate(t, t', tree, p))
    && stats == Stats(|Folds(Added(t, tree))|, |Updated(t, tree)|, |Vanished(t, tree)|)
    && |t'.log| == |t.log| + stats.added + stats.updated + stats.deleted
  }

  // ── The loops ──────────────────────────────────────────────────────────────

  // After part of the first loop: the visited paths have met their fate, the others
  // are as they were.
  ghost predicate Visited(t: Table, t': Table, tree: Tree, todo: set<Path>, p: Path) {
    if p in tree && p !in todo then Fate(t, t', tree, p) else SameRow(t, t', p)
  }

  ghost predicate AllVisited(t: Table, t': Table, tree: Tree, todo: set<Path>) {
    forall p {:trigger Visited(t, t', tree, todo, p)} :: Visited(t, t', tree, todo, p)
  }

  // Whether an upsert collides: a live twin stays live all through the first loop, and
  // beside it only a twin that the loop has added can be in the way.
  lemma ClashIsBlocked(t: Table, t': Table, tree: Tree, todo: set<Path>, p: Path)
    requires Valid(t) && Valid(t') && AllVisited(t, t', tree, todo)
    requires p in tree && p in todo
    ensures Clash(t', p) <==> Blocked(t, tree, p) || Beaten(t', tree, p)
    ensures Blocked(t, tree, p) || Beaten(t', tree, p) ==> !Live(t, p)
    ensures Apart(tree) ==> !Beaten(t', tree, p)
  {
    assert Visited(t, t', tree, todo, p);
    if Clash(t, p) {
      Server.ClashIsNotLive(t, p);
      var q :| q in t.rows && q != p && !t.rows[q].deleted && Fold(q) == Fold(p);
      assert Visited(t, t', tree, todo, q);
    }
    if Clash(t', p) {
      Server.ClashIsNotLive(t', p);
      var q :| q in t'.rows && q != p && !t'.rows[q].deleted && Fold(q) == Fold(p);
      assert Visited(t, t', tree, todo, q);
      assert q in tree ==> BeatenBy(t', tree, p, q);
    }
    if Beaten(t', tree, p) {
      BeatenIsClash(t', tree, p);
      Server.ClashIsNotLive(t', p);
    }
  }

  lemma BeatenIsClash(t: Table, tree: Tree, p: Path)
    requires Beaten(t, tree, p)
    ensures Blocked(t, tree, p)
    ensures !Apart(tree)
  {
    var q :| BeatenBy(t, tree, p, q);
    assert q in t.rows && q != p && !t.rows[q].deleted && Fold(q) == Fold(p);
    assert !TwinsApart(tree, p, q);
  }

  predicate LooksCurrent(row: Entry, f: Found) {
    if f.kind == Directory then row.kind == Directory
    else (row.kind == f.kind && row.size == SizeOf(f) && row.mtime == f.mtime) || (row.sha == HashOf(f) && row.size == SizeOf(f))
  }

  // The quick checks skip a path exactly when the index already agrees.
  lemma ChecksAreExact(t: Table, tree: Tree, p: Path)
    requires HonestAt(t, tree, p) && p in tree && Live(t, p)
    ensures LooksCurrent(t.rows[p], tree[p]) <==> Agrees(t, tree, p)
  {}

  // How many of s a loop over `all` has met, with `todo` still to go.
  ghost function Met(s: set<Path>, all: set<Path>, todo: set<Path>): nat {
    |s * (all - todo)|
  }

  lemma MetOne(s: set<Path>, all: set<Path>, todo: set<Path>, p: Path)
    requires p in todo && todo <= all
    ensures Met(s, all, todo - {p}) == Met(s, all, todo) + One(p in s)
  {
    assert s * (all - (todo - {p})) == s * (all - todo) + if p in s then {p} else {};
  }

  lemma MetAll(s: set<Path>, all: set<Path>)
    requires s <= all
    ensures Met(s, all, {}) == |s| && Met(s, all, all) == 0
  {
    assert s * (all - {}) == s && s * (all - all) == {};
  }

  function Counted(stats: Stats, recorded: bool): Stats {
    if recorded then stats.(updated := stats.updated + 1) else stats.(added := stats.added + 1)
  }

  // On disk, and live since.
  ghost function NewlyLive(t: Table, t': Table, tree: Tree): set<Path> {
    set p | p in tree && !Live(t, p) && Live(t', p)
  }

  ghost function Tally(t: Table, t': Table, tree: Tree, todo: set<Path>): Stats {
    Stats(|NewlyLive(t, t', tree)|, Met(Updated(t, tree), tree.Keys, todo), 0)
  }

  ghost predicate VisitedSoFar(t: Table, t': Table, tree: Tree, todo: set<Path>) {
    && todo <= tree.Keys
    && Valid(t') && Extends(t, t') && AllVisited(t, t', tree, todo)
    && |t'.log| == |t.log| + Tally(t, t', tree, todo).added + Tally(t, t', tree, todo).updated
  }

  lemma VisitStarts(t: Table, tree: Tree)
    requires Valid(t)
    ensures VisitedSoFar(t, t, tree, tree.Keys)
    ensures Tally(t, t, tree, tree.Keys) == Stats(0, 0, 0)
  {
    MetAll(Updated(t, tree), tree.Keys);
    assert NewlyLive(t, t, tree) == {};
  }

  // A map onto a set that keeps its elements apart keeps their number.
  lemma {:induction false} AsManyFolds(paths: set<Path>)
    requires forall p, q :: p in paths && q in paths && Fold(p) == Fold(q) ==> p == q
    ensures |Folds(paths)| == |paths|
  {
    if paths != {} {
      var p :| p in paths;
      AsManyFolds(paths - {p});
      assert Folds(paths) == Folds(paths - {p}) + {Fold(p)};
      assert Fold(p) !in Folds(paths - {p});
    }
  }

  // Of the new paths that are one under case folding exactly one is added.
  lemma OneOfEachFold(t: Table, t': Table, tree: Tree)
    requires Valid(t) && VisitedSoFar(t, t', tree, {})
    ensures Tally(t, t', tree, {}) == Stats(|Folds(Added(t, tree))|, |Updated(t, tree)|, 0)
  {
    var live, added := NewlyLive(t, t', tree), Added(t, tree);
    MetAll(Updated(t, tree), tree.Keys);
    forall p, q | p in live && q in live && Fold(p) == Fold(q) ensures p == q { assert FoldsApart(t', p, q); }
    AsManyFolds(live);
    forall p | p in live ensures p in added {
      assert Visited(t, t', tree, {}, p);
    }
    forall p | p in added ensures Fold(p) in Folds(live) {
      assert Visited(t, t', tree, {}, p);
      if !Live(t', p) {
        var q :| BeatenBy(t', tree, p, q);
        assert Live(t, q) ==> Clash(t, p);
        assert q in live;
      }
    }
    assert Folds(live) == Folds(added);
  }

  function LiveRows(rows: map<Path, Entry>): map<Path, Entry> {
    map p | p in rows && !rows[p].deleted :: rows[p]
  }

  lemma Skipped(t: Table, t': Table, tree: Tree, todo: set<Path>, p: Path)
    requires Valid(t) && VisitedSoFar(t, t', tree, todo) && p in todo
    requires Agrees(t, tree, p) || Blocked(t, tree, p) || (!Live(t, p) && Beaten(t', tree, p))
    ensures VisitedSoFar(t, t', tree, todo - {p})
    ensures Tally(t, t', tree, todo - {p}) == Tally(t, t', tree, todo)
  {
    if Blocked(t, tree, p) {
      Server.ClashIsNotLive(t, p);
    }
    MetOne(Updated(t, tree), tree.Keys, todo, p);
    forall q ensures Visited(t, t', tree, todo - {p}, q) {
      assert Visited(t, t', tree, todo, q);
    }
  }

  lemma BeatenStays(t: Table, t': Table, tree: Tree, p: Path)
    requires Beaten(t, tree, p) && forall q :: q in tree && Live(t, q) ==> Live(t', q)
    ensures Beaten(t', tree, p)
  {
    var q :| BeatenBy(t, tree, p, q);
    assert BeatenBy(t', tree, p, q);
  }

  lemma LiveAfter(t: Table, e: Entry, q: Path)
    ensures Live(Upserted(t, e), q) <==> q == e.path || Live(t, q)
  {}

  // A path that was live adds nothing to the newly live.
  lemma NoneNewlyLive(t: Table, t': Table, t2: Table, tree: Tree, p: Path)
    requires forall q :: Live(t2, q) <==> q == p || Live(t', q)
    requires Live(t, p)
    ensures NewlyLive(t, t2, tree) == NewlyLive(t, t', tree)
  {}

  // One that was not adds itself.
  lemma OneNewlyLive(t: Table, t': Table, t2: Table, tree: Tree, p: Path)
    requires forall q :: Live(t2, q) <==> q == p || Live(t', q)
    requires p in tree && !Live(t, p) && !Live(t', p)
    ensures NewlyLive(t, t2, tree) == NewlyLive(t, t', tree) + {p} && p !in NewlyLive(t, t', tree)
  {}

  lemma NewlyLiveOne(t: Table, t': Table, tree: Tree, p: Path)
    requires p in tree && (Live(t', p) <==> Live(t, p))
    ensures |NewlyLive(t, Upserted(t', EntryOf(tree, p)), tree)| == |NewlyLive(t, t', tree)| + One(!Live(t, p))
  {
    var t2 := Upserted(t', EntryOf(tree, p));
    forall q ensures Live(t2, q) <==> q == p || Live(t', q) { LiveAfter(t', EntryOf(tree, p), q); }
    if Live(t, p) {
      NoneNewlyLive(t, t', t2, tree, p);
    } else {
      OneNewlyLive(t, t', t2, tree, p);
    }
  }

  lemma VisitedOthers(t: Table, t': Table, tree: Tree, todo: set<Path>, p: Path, q: Path)
    requires p in tree && p in todo && |t.log| <= |t'.log|
    requires Visited(t, t', tree, todo, q) && !Agrees(t, tree, p) && !Blocked(t, tree, p)
    ensures Visited(t, Upserted(t', EntryOf(tree, p)), tree, todo - {p}, q)
  {
    if Beaten(t', tree, q) {
      BeatenStays(t', Upserted(t', EntryOf(tree, p)), tree, q);
    }
  }

  lemma VisitedOne(t: Table, t': Table, tree: Tree, todo: set<Path>, p: Path)
    requires Valid(t) && VisitedSoFar(t, t', tree, todo) && p in todo
    requires !Agrees(t, tree, p) && !Blocked(t, tree, p) && !Clash(t', p)
    ensures VisitedSoFar(t, Upserted(t', EntryOf(tree, p)), tree, todo - {p})
    ensures Tally(t, Upserted(t', EntryOf(tree, p)), tree, todo - {p}) == Counted(Tally(t, t', tree, todo), Live(t, p))
  {
    var t2 := Upserted(t', EntryOf(tree, p));
    UpsertKeepsValid(t', EntryOf(tree, p));
    ExtendsTransitive(t, t', t2);
    assert Visited(t, t', tree, todo, p);
    MetOne(Updated(t, tree), tree.Keys, todo, p);
    NewlyLiveOne(t, t', tree, p);
    forall q ensures Visited(t, t2, tree, todo - {p}, q) {
      assert Visited(t, t', tree, todo, q);
      VisitedOthers(t, t', tree, todo, p, q);
    }
  }

  // Whether the first loop has nothing to do about a path, going by its quick checks.
  method IsCurrent(known: map<Path, Entry>, p: Path, f: Found) returns (current: bool)
    ensures current <==> p in known && LooksCurrent(known[p], f)
  {
    if p !in known {
      return false;
    }
    var row := known[p];
    if f.kind == Directory {
      return row.kind == Directory;
    }
    if row.kind == f.kind && row.size == SizeOf(f) && row.mtime == f.mtime {
      return true;
    }
    return row.sha == HashOf(f) && row.size == SizeOf(f);
  }

  // One turn of the first loop.
  method VisitOne(index: IndexStore, known: map<Path, Entry>, tree: Tree, ghost todo: set<Path>, p: Path, ghost t: Table, before: Stats)
    returns (stats: Stats)
    requires index.Counts() && VisitedSoFar(t, index.Contents(), tree, todo)
    requires Valid(t) && Honest(t, tree)
    requires known == LiveRows(t.rows) && p in todo && before == Tally(t, index.Contents(), tree, todo)
    modifies index
    ensures index.Counts() && VisitedSoFar(t, index.Contents(), tree, todo - {p})
    ensures stats == Tally(t, index.Contents(), tree, todo - {p})
  {
    ghost var middle := index.Contents();
    stats := before;
    assert HonestAt(t, tree, p) && Visited(t, middle, tree, todo, p);
    ClashIsBlocked(t, middle, tree, todo, p);
    if Live(t, p) {
      ChecksAreExact(t, tree, p);
    }
    var current := IsCurrent(known, p, tree[p]);
    if current {
      Skipped(t, middle, tree, todo, p);
      return;
    }
    var rev := index.Upsert(EntryOf(tree, p));
    if rev == None {
      Skipped(t, middle, tree, todo, p);
      return;
    }
    VisitedOne(t, middle, tree, todo, p);
    stats := Counted(stats, p in known);
  }

  ghost predicate Swept(t: Table, t': Table, known: map<Path, Entry>, tree: Tree, todo: set<Path>, p: Path) {
    if p in known && p !in tree && p !in todo then
      p in t'.rows && t'.rows[p].deleted && |t.log| < t'.rows[p].rev
    else
      SameRow(t, t', p)
  }

  ghost predicate AllSwept(t: Table, t': Table, known: map<Path, Entry>, tree: Tree, todo: set<Path>) {
    forall p {:trigger Swept(t, t', known, tree, todo, p)} :: Swept(t, t', known, tree, todo, p)
  }

  ghost function Gone(known: map<Path, Entry>, tree: Tree): set<Path> {
    set p | p in known && p !in tree
  }

  ghost predicate SweptSoFar(t: Table, t': Table, known: map<Path, Entry>, tree: Tree, todo: set<Path>) {
    && todo <= known.Keys
    && Valid(t') && Extends(t, t') && AllSwept(t, t', known, tree, todo)
    && |t'.log| == |t.log| + Met(Gone(known, tree), known.Keys, todo)
  }

  lemma SweptOne(t: Table, t': Table, known: map<Path, Entry>, tree: Tree, todo: set<Path>, p: Path)
    requires Valid(t) && SweptSoFar(t, t', known, tree, todo) && p in todo
    requires p !in tree ==> p in t.rows
    ensures SweptSoFar(t, if p in tree then t' else Tombstoned(t', p), known, tree, todo - {p})
  {
    var t2 := if p in tree then t' else Tombstoned(t', p);
    assert Swept(t, t', known, tree, todo, p);
    MetOne(Gone(known, tree), known.Keys, todo, p);
    TombstoneKeepsValid(t', p);
    ExtendsTransitive(t, t', t2);
    forall q ensures Swept(t, t2, known, tree, todo - {p}, q) {
      assert Swept(t, t', known, tree, todo, q);
    }
  }

  lemma SweepStarts(t: Table, known: map<Path, Entry>, tree: Tree)
    requires Valid(t)
    ensures SweptSoFar(t, t, known, tree, known.Keys)
    ensures Met(Gone(known, tree), known.Keys, {}) == |Gone(known, tree)|
    ensures Met(Gone(known, tree), known.Keys, known.Keys) == 0
  {
    MetAll(Gone(known, tree), known.Keys);
  }

  method SweepOne(index: IndexStore, known: map<Path, Entry>, tree: Tree, ghost todo: set<Path>, p: Path, ghost t: Table, before: nat)
    returns (deleted: nat)
    requires Valid(t) && index.Counts() && SweptSoFar(t, index.Contents(), known, tree, todo)
    requires p in todo && (p !in tree ==> p in t.rows) && before == Met(Gone(known, tree), known.Keys, todo)
    modifies index
    ensures index.Counts() && SweptSoFar(t, index.Contents(), known, tree, todo - {p})
    ensures deleted == Met(Gone(known, tree), known.Keys, todo - {p})
  {
    SweptOne(t, index.Contents(), known, tree, todo, p);
    MetOne(Gone(known, tree), known.Keys, todo, p);
    deleted := before;
    if p !in tree {
      var _ := index.MarkDeleted(p);
      deleted := deleted + 1;
    }
  }

  // The second loop: what the index knew and the walk did not find.
  method Sweep(index: IndexStore, known: map<Path, Entry>, tree: Tree) returns (deleted: nat)
    requires index.Counts() && Valid(index.Contents())
    requires forall p :: p in Gone(known, tree) ==> p in index.rows
    modifies index
    ensures index.Counts()
    ensures SweptSoFar(old(index.Contents()), index.Contents(), known, tree, {})
    ensures deleted == |Gone(known, tree)|
  {
    ghost var t := index.Contents();
    var todo := known.Keys;
    deleted := 0;
    SweepStarts(t, known, tree);
    while todo != {}
      invariant index.Counts()
      invariant SweptSoFar(t, index.Contents(), known, tree, todo)
      invariant deleted == Met(Gone(known, tree), known.Keys, todo)
    {
      var p :| p in todo;
      deleted := SweepOne(index, known, tree, todo, p, t, deleted);
      todo := todo - {p};
    }
  }

  // The first loop: what the walk found.
  method Visit(index: IndexStore, known: map<Path, Entry>, tree: Tree) returns (stats: Stats)
    requires index.Counts() && Valid(index.Contents())
    requires Honest(index.Contents(), tree)
    requires known == LiveRows(index.rows)
    modifies index
    ensures index.Counts()
    ensures VisitedSoFar(old(index.Contents()), index.Contents(), tree, {})
    ensures stats == Stats(|Folds(Added(old(index.Contents()), tree))|, |Updated(old(index.Contents()), tree)|, 0)
  {
    ghost var t := index.Contents();
    stats := Stats(0, 0, 0);
    var todo := tree.Keys;
    VisitStarts(t, tree);
    while todo != {}
      invariant index.Counts()
      invariant VisitedSoFar(t, index.Contents(), tree, todo)
      invariant stats == Tally(t, index.Contents(), tree, todo)
    {
      var p :| p in todo;
      stats := VisitOne(index, known, tree, todo, p, t, stats);
      todo := todo - {p};
    }
    OneOfEachFold(t, index.Contents(), tree);
  }

  lemma GoneRowsAreThere(t: Table, middle: Table, known: map<Path, Entry>, tree: Tree)
    requires VisitedSoFar(t, middle, tree, {}) && known == LiveRows(t.rows)
    ensures forall p :: p in Gone(known, tree) ==> p in middle.rows
    ensures Gone(known, tree) == Vanished(t, tree)
  {
    forall p | p in Gone(known, tree) ensures p in middle.rows {
      assert Visited(t, middle, tree, {}, p);
    }
  }

  lemma FateAfterBoth(t: Table, middle: Table, t': Table, known: map<Path, Entry>, tree: Tree, p: Path)
    requires |t.log| <= |middle.log| && known == LiveRows(t.rows)
    requires Visited(t, middle, tree, {}, p) && AllSwept(middle, t', known, tree, {})
    ensures Fate(t, t', tree, p)
  {
    assert Swept(middle, t', known, tree, {}, p);
    if Beaten(middle, tree, p) {
      forall q | q in tree && Live(middle, q) ensures Live(t', q) { assert Swept(middle, t', known, tree, {}, q); }
      BeatenStays(middle, t', tree, p);
    }
  }

  lemma BothLoops(t: Table, middle: Table, t': Table, known: map<Path, Entry>, tree: Tree)
    requires Valid(t) && VisitedSoFar(t, middle, tree, {}) && known == LiveRows(t.rows)
    requires SweptSoFar(middle, t', known, tree, {})
    ensures Extends(t, t')
    ensures forall p {:trigger Fate(t, t', tree, p)} :: Fate(t, t', tree, p)
  {
    ExtendsTransitive(t, middle, t');
    forall p ensures Fate(t, t', tree, p) {
      assert Visited(t, middle, tree, {}, p);
      FateAfterBoth(t, middle, t', known, tree, p);
    }
  }

  method Reconcile(index: IndexStore, tree: Tree) returns (stats: Stats)
    requires index.Counts() && Valid(index.Contents())
    requires Honest(index.Contents(), tree)
    modifies index
    ensures index.Counts()
    ensures Scanned(old(index.Contents()), index.Contents(), tree, stats)
  {
    ghost var t := index.Contents();
    var known := LiveRows(index.rows);
    stats := Visit(index, known, tree);
    ghost var middle := index.Contents();
    GoneRowsAreThere(t, middle, known, tree);
    OneOfEachFold(t, middle, tree);
    SweepStarts(middle, known, tree);
    var deleted := Sweep(index, known, tree);
    BothLoops(t, middle, index.Contents(), known, tree);
    stats := stats.(deleted := deleted);
  }

  // ── What scans are for ─────────────────────────────────────────────────────

  ghost predicate AllAgree(t: Table, tree: Tree) {
    forall p {:trigger Agrees(t, tree, p)} :: Agrees(t, tree, p)
  }

  // A path is right after a scan if and only if no twin was in the way, and none on disk
  // came first.
  lemma RightUnlessBlocked(t: Table, t': Table, tree: Tree, stats: Stats, p: Path)
    requires Valid(t) && Scanned(t, t', tree, stats)
    ensures Agrees(t', tree, p) <==> !Blocked(t, tree, p) && !Beaten(t', tree, p)
    ensures Apart(tree) ==> !Beaten(t', tree, p)
  {
    assert Fate(t, t', tree, p);
    if Blocked(t, tree, p) {
      Server.ClashIsNotLive(t, p);
    }
    if Beaten(t', tree, p) {
      BeatenIsClash(t', tree, p);
      Server.ClashIsNotLive(t', p);
    }
  }

  // A scan clears every twin out of the way of the next, but those on disk.
  lemma NothingBlockedAfter(t: Table, t': Table, tree: Tree, stats: Stats, p: Path)
    requires Valid(t) && Scanned(t, t', tree, stats)
    ensures Blocked(t', tree, p) <==> Beaten(t', tree, p)
  {
    if Blocked(t', tree, p) {
      var q :| q in t'.rows && q != p && !t'.rows[q].deleted && Fold(q) == Fold(p);
      assert Fate(t, t', tree, q);
      assert BeatenBy(t', tree, p, q);
    }
    if Beaten(t', tree, p) {
      BeatenIsClash(t', tree, p);
    }
  }

  // What beats a path is right itself.
  lemma TheOtherIsRight(t: Table, t': Table, tree: Tree, stats: Stats, p: Path) returns (q: Path)
    requires Valid(t) && Scanned(t, t', tree, stats) && Beaten(t', tree, p)
    ensures q in tree && q != p && Fold(q) == Fold(p) && Agrees(t', tree, q)
  {
    q :| BeatenBy(t', tree, p, q);
    assert Fate(t, t', tree, q);
    if Blocked(t, tree, q) {
      Server.ClashIsNotLive(t, q);
    }
  }

  lemma StaysHonest(t: Table, t': Table, tree: Tree, stats: Stats)
    requires Honest(t, tree) && Scanned(t, t', tree, stats)
    ensures Honest(t', tree)
  {
    forall p ensures HonestAt(t', tree, p) {
      assert HonestAt(t, tree, p) && Fate(t, t', tree, p);
    }
  }

  // After two scans of a still disk a path is wrong only if a twin of it that is on disk
  // too is right: so the index is right about every path if and only if no two on disk
  // differ by letter case alone. One scan is enough exactly when, besides, no twin was in
  // the way of anything, that is, when nothing was renamed by letter case alone.
  lemma TwoScansAgree(t0: Table, t1: Table, t2: Table, tree: Tree, first: Stats, second: Stats)
    requires Valid(t0)
    requires Scanned(t0, t1, tree, first) && Scanned(t1, t2, tree, second)
    ensures forall p :: Agrees(t2, tree, p) || exists q :: q in tree && Fold(q) == Fold(p) && Agrees(t2, tree, q)
    ensures AllAgree(t2, tree) <==> Apart(tree)
    ensures AllAgree(t1, tree) <==> Apart(tree) && forall p :: !Blocked(t0, tree, p)
  {
    forall p ensures Agrees(t2, tree, p) <==> !Beaten(t2, tree, p)
      ensures Agrees(t2, tree, p) || exists q :: q in tree && Fold(q) == Fold(p) && Agrees(t2, tree, q)
    {
      NothingBlockedAfter(t0, t1, tree, first, p);
      RightUnlessBlocked(t1, t2, tree, second, p);
      if Beaten(t1, tree, p) {
        StaysBeaten(t1, t2, tree, second, p);
      }
      if Beaten(t2, tree, p) {
        var q := TheOtherIsRight(t1, t2, tree, second, p);
      }
    }
    if AllAgree(t1, tree) {
      AgreeingIsApart(t1, tree);
    }
    if AllAgree(t2, tree) {
      AgreeingIsApart(t2, tree);
    }
    forall p ensures Apart(tree) ==> (Agrees(t1, tree, p) <==> !Blocked(t0, tree, p)) && Agrees(t2, tree, p)
      ensures Agrees(t1, tree, p) ==> !Blocked(t0, tree, p)
    {
      RightUnlessBlocked(t0, t1, tree, first, p);
      RightUnlessBlocked(t1, t2, tree, second, p);
    }
  }

  lemma StaysBeaten(t: Table, t': Table, tree: Tree, stats: Stats, p: Path)
    requires Valid(t) && Scanned(t, t', tree, stats) && Beaten(t, tree, p)
    ensures Beaten(t', tree, p)
  {
    forall q | q in tree && Live(t, q) ensures Live(t', q) {
      assert Fate(t, t', tree, q);
    }
    BeatenStays(t, t', tree, p);
  }

  lemma AgreeingIsApart(t: Table, tree: Tree)
    requires Valid(t) && AllAgree(t, tree)
    ensures Apart(tree)
  {
    forall p, q ensures TwinsApart(tree, p, q) {
      assert Agrees(t, tree, p) && Agrees(t, tree, q) && FoldsApart(t, p, q);
    }
  }

  // a renamed to A: at the first scan the old name is in the way of the new.
  lemma ACaseRenameIsBlocked(t: Table, file: Found)
    requires Valid(t) && Live(t, "a") && t.rows.Keys == {"a"}
    ensures var tree: Tree := map["A" := file];
      Apart(tree) && Blocked(t, tree, "A") && !Agrees(t, tree, "A")
  {
    assert Fold("a")[0] == Fold("A")[0] && "a"[0] != "A"[0];
    assert Fold("a") == Fold("A");
    assert "a" in t.rows && !t.rows["a"].deleted;
  }

  // A scan spends no revision, and changes nothing, if and only if the index is right
  // about every path that no live twin blocks.
  lemma QuietScan(t: Table, t': Table, tree: Tree, stats: Stats)
    requires Valid(t) && Scanned(t, t', tree, stats)
    ensures (forall p :: Agrees(t, tree, p) || Blocked(t, tree, p)) <==> |t'.log| == |t.log|
    ensures |t'.log| == |t.log| ==> t' == t && stats == Stats(0, 0, 0)
  {
    if forall p :: Agrees(t, tree, p) || Blocked(t, tree, p) {
      NothingToCount(t, tree);
    }
    if |t'.log| == |t.log| {
      NothingWasCounted(t, tree);
      forall p ensures SameRow(t, t', p) {
        assert Fate(t, t', tree, p);
      }
      assert t.rows.Keys == t'.rows.Keys by {
        forall p ensures p in t.rows <==> p in t'.rows { assert SameRow(t, t', p); }
      }
      forall p | p in t.rows ensures t.rows[p] == t'.rows[p] { assert SameRow(t, t', p); }
    }
  }

  lemma NothingToCount(t: Table, tree: Tree)
    requires Valid(t) && forall p :: Agrees(t, tree, p) || Blocked(t, tree, p)
    ensures Folds(Added(t, tree)) == {} && Updated(t, tree) == {} && Vanished(t, tree) == {}
  {
    forall p ensures p !in Added(t, tree) && p !in Updated(t, tree) && p !in Vanished(t, tree) {
      assert Agrees(t, tree, p) || Blocked(t, tree, p);
      if Blocked(t, tree, p) {
        Server.ClashIsNotLive(t, p);
      }
    }
    assert Added(t, tree) == {} && Updated(t, tree) == {} && Vanished(t, tree) == {};
  }

  lemma NothingWasCounted(t: Table, tree: Tree)
    requires |Folds(Added(t, tree))| == |Updated(t, tree)| == |Vanished(t, tree)| == 0
    ensures forall p :: Agrees(t, tree, p) || Blocked(t, tree, p)
  {
    forall p ensures Agrees(t, tree, p) || Blocked(t, tree, p) {
      assert p in Added(t, tree) ==> Fold(p) in Folds(Added(t, tree));
      assert p !in Updated(t, tree) && p !in Vanished(t, tree);
    }
  }

  // A third scan of a still disk, and every later one, does nothing.
  lemma ThirdScanIsQuiet(t0: Table, t1: Table, t2: Table, t3: Table, tree: Tree, first: Stats, second: Stats, third: Stats)
    requires Valid(t0) && Scanned(t0, t1, tree, first) && Scanned(t1, t2, tree, second) && Scanned(t2, t3, tree, third)
    ensures t3 == t2 && third == Stats(0, 0, 0)
  {
    forall p ensures Agrees(t2, tree, p) || Blocked(t2, tree, p) {
      NothingBlockedAfter(t0, t1, tree, first, p);
      RightUnlessBlocked(t1, t2, tree, second, p);
      if Beaten(t1, tree, p) {
        StaysBeaten(t1, t2, tree, second, p);
      }
      if Beaten(t2, tree, p) {
        BeatenIsClash(t2, tree, p);
      }
    }
    QuietScan(t2, t3, tree, third);
  }
}
