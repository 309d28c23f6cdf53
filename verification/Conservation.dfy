/**
 No accepted body is ever destroyed: the files in the data directory and the
 trash together hold exactly the bodies the server took in, as long as no write
 lands on a file that nothing names.
 */
module Conservation {
  import opened Basics
  import opened Index
  import opened Server

  function TrashFiles(s: State): map<string, File> {
    map id | id in s.trash :: s.trash[id].file
  }

  // How many copies of a body the server still holds.
  function Held(s: State, b: Body): nat {
    Copies(s.disk, b) + Copies(TrashFiles(s), b)
  }

  // Where a PUT writes, if it gets as far as writing.
  function Target(s: State, r: Request): Path
    requires r.Put?
  {
    if LiveRev(s.table, r.path) != r.base then r.conflict else r.path
  }

  predicate Writes(s: State, r: Request) {
    && r.Put? && !LiveDirectory(s.table, r.path) && !Clash(s.table, r.path)
    && !LiveDirectory(s.table, Target(s, r))
  }

  // How many copies the request adds to the server's care: one of its body, unless
  // it is refused before the write or undone after it.
  function Accepted(s: State, r: Request, b: Body): nat {
    One(Writes(s, r) && Declares(r.declared, r.body) && r.body == b)
  }

  // The write lands on a file that was not moved to the trash first. A caller can
  // tell before the call: the target is on disk, and either it is the conflict
  // name or no live row names it.
  predicate Overwrites(s: State, r: Request) {
    && Writes(s, r)
    && Target(s, r) in s.disk
    && (LiveRev(s.table, r.path) != r.base || !Live(s.table, r.path))
  }

  lemma TrashHolds(s: State, p: Path, stamp: string, b: Body)
    ensures Held(MoveToTrash(s, p, stamp), b) == Held(s, b)
  {
    if p in s.disk {
      var s' := MoveToTrash(s, p, stamp);
      var id := EncodeId(stamp, p) + FreshSuffix(s.trash.Keys, EncodeId(stamp, p), 1);
      CopiesWithout(s.disk, p, b);
      assert TrashFiles(s') == TrashFiles(s)[id := s.disk[p]];
      CopiesWith(TrashFiles(s), id, s.disk[p], b);
    }
  }

  lemma StoreHolds(s: State, p: Path, body: Body, declared: Option<Digest>, now: int, b: Body)
    requires !LiveDirectory(s.table, p)
    ensures var s' := StoreFile(s, p, body, declared, now).0;
      Held(s', b) + One(p in s.disk && s.disk[p].body == b)
        == Held(s, b) + One(Declares(declared, body) && body == b)
  {
    CopiesWithout(s.disk, p, b);
    CopiesWith(s.disk, p, File(body, now), b);
    assert TrashFiles(StoreFile(s, p, body, declared, now).0) == TrashFiles(s);
  }

  lemma RestoreHolds(s: State, id: string, b: Body)
    ensures Held(RestoreTrash(s, id).0, b) == Held(s, b)
  {
    var s' := RestoreTrash(s, id).0;
    if s' != s {
      var item := s.trash[id];
      CopiesWith(s.disk, item.path, item.file, b);
      assert TrashFiles(s') == TrashFiles(s) - {id};
      CopiesWithout(TrashFiles(s), id, b);
    }
  }

  lemma {:induction false} PurgeHolds(s: State, paths: seq<Path>, stamp: string, b: Body)
    ensures Held(PurgeIgnored(s, paths, stamp), b) == Held(s, b)
    decreases |paths|
  {
    if paths != [] {
      TrashHolds(s, paths[0], stamp, b);
      PurgeHolds(PurgeOne(s, paths[0], stamp), paths[1..], stamp, b);
    }
  }

  // What a write over an unnamed file destroys.
  function Destroyed(s: State, r: Request, b: Body): nat {
    One(Overwrites(s, r) && s.disk[Target(s, r)].body == b)
  }

  lemma PutAccounts(s: State, r: Request, b: Body)
    requires r.Put?
    ensures Held(Handle(s, r).0, b) + Destroyed(s, r, b) == Held(s, b) + Accepted(s, r, b)
  {
    if Writes(s, r) {
      TrashHolds(s, r.path, r.stamp, b);
      var s1 := if LiveRev(s.table, r.path) == r.base && Live(s.table, r.path) then MoveToTrash(s, r.path, r.stamp) else s;
      StoreHolds(s1, Target(s, r), r.body, r.declared, r.now, b);
    }
  }

  lemma RequestAccounts(s: State, r: Request, b: Body)
    ensures Held(Handle(s, r).0, b) + Destroyed(s, r, b) == Held(s, b) + Accepted(s, r, b)
  {
    match r
    case Put(p, base, body, declared, conflict, now, stamp) =>
      PutAccounts(s, r, b);
    case Delete(p, base, stamp) =>
      TrashHolds(s, p, stamp, b);
    case Restore(id) =>
      RestoreHolds(s, id, b);
    case Purge(paths, stamp) =>
      PurgeHolds(s, paths, stamp, b);
    case MakeDir(_, _) =>
  }

  // One request: for every body, what is held grows by exactly what is accepted,
  // if and only if the request does not write over a file that nothing names.
  lemma RequestConserves(s: State, r: Request)
    ensures (forall b :: Held(Handle(s, r).0, b) == Held(s, b) + Accepted(s, r, b)) <==> !Overwrites(s, r)
  {
    forall b ensures Held(Handle(s, r).0, b) + Destroyed(s, r, b) == Held(s, b) + Accepted(s, r, b) {
      RequestAccounts(s, r, b);
    }
    if Overwrites(s, r) {
      assert Destroyed(s, r, s.disk[Target(s, r)].body) == 1;
    }
  }

  // ── Whole runs ─────────────────────────────────────────────────────────────

  // Nothing is on disk that no live row names.
  ghost predicate Indexed(s: State) {
    forall p :: p in s.disk ==> Live(s.table, p)
  }

  // A generated name is free, on disk and up to letter case, and a restored path
  // does not collide with another by letter case.
  predicate Apart(s: State, r: Request) {
    match r
    case Put(_, _, _, _, conflict, _, _) =>
      LiveRev(s.table, r.path) != r.base ==> conflict !in s.disk && !Clash(s.table, conflict)
    case Restore(id) => id in s.trash ==> !Clash(s.table, s.trash[id].path)
    case _ => true
  }

  ghost predicate AllApart(s: State, requests: seq<Request>)
    decreases |requests|
  {
    requests == [] || (Apart(s, requests[0]) && AllApart(Handle(s, requests[0]).0, requests[1..]))
  }

  function AllAccepted(s: State, requests: seq<Request>, b: Body): nat
    decreases |requests|
  {
    if requests == [] then 0
    else Accepted(s, requests[0], b) + AllAccepted(Handle(s, requests[0]).0, requests[1..], b)
  }

  lemma {:induction false} PurgeStaysIndexed(s: State, paths: seq<Path>, stamp: string)
    requires Consistent(s) && Indexed(s)
    ensures Indexed(PurgeIgnored(s, paths, stamp))
    decreases |paths|
  {
    if paths != [] {
      PurgeOneKeeps(s, paths[0], stamp);
      PurgeOneStaysIndexed(s, paths[0], stamp);
      PurgeStaysIndexed(PurgeOne(s, paths[0], stamp), paths[1..], stamp);
    }
  }

  lemma PurgeOneStaysIndexed(s: State, p: Path, stamp: string)
    requires Consistent(s) && Indexed(s)
    ensures Indexed(PurgeOne(s, p, stamp))
  {
    assert Described(s, p);
  }

  lemma RequestStaysIndexed(s: State, r: Request)
    requires Consistent(s) && Indexed(s) && Apart(s, r)
    ensures Indexed(Handle(s, r).0) && !Overwrites(s, r)
  {
    match r
    case Put(p, base, body, declared, conflict, now, stamp) =>
    case Delete(p, base, stamp) =>
      assert Described(s, p);
    case Restore(id) =>
    case Purge(paths, stamp) =>
      PurgeStaysIndexed(s, paths, stamp);
    case MakeDir(_, _) =>
  }

  function AllDestroyed(s: State, requests: seq<Request>, b: Body): nat
    decreases |requests|
  {
    if requests == [] then 0
    else Destroyed(s, requests[0], b) + AllDestroyed(Handle(s, requests[0]).0, requests[1..], b)
  }

  // No request of the run writes over a file that nothing names.
  predicate NoneOverwrites(s: State, requests: seq<Request>)
    decreases |requests|
  {
    requests == [] || (!Overwrites(s, requests[0]) && NoneOverwrites(Handle(s, requests[0]).0, requests[1..]))
  }

  // The account of a run.
  lemma {:induction false} RunAccounts(s: State, requests: seq<Request>, b: Body)
    ensures Held(HandleAll(s, requests), b) + AllDestroyed(s, requests, b) == Held(s, b) + AllAccepted(s, requests, b)
    decreases |requests|
  {
    if requests != [] {
      RequestAccounts(s, requests[0], b);
      RunAccounts(Handle(s, requests[0]).0, requests[1..], b);
    }
  }

  lemma {:induction false} NothingIsDestroyed(s: State, requests: seq<Request>, b: Body)
    requires NoneOverwrites(s, requests)
    ensures AllDestroyed(s, requests, b) == 0
    decreases |requests|
  {
    if requests != [] {
      NothingIsDestroyed(Handle(s, requests[0]).0, requests[1..], b);
    }
  }

  lemma {:induction false} SomethingIsDestroyed(s: State, requests: seq<Request>) returns (b: Body)
    requires !NoneOverwrites(s, requests)
    ensures AllDestroyed(s, requests, b) > 0
    decreases |requests|
  {
    if Overwrites(s, requests[0]) {
      b := s.disk[Target(s, requests[0])].body;
    } else {
      b := SomethingIsDestroyed(Handle(s, requests[0]).0, requests[1..]);
    }
  }

  // Any run of serialised requests, from any state: at its end the server holds every
  // body as often as it did at the start, and once more for each time it was accepted,
  // if and only if no request of it writes over a file that nothing names.
  lemma RunConserves(s: State, requests: seq<Request>)
    ensures (forall b :: Held(HandleAll(s, requests), b) == Held(s, b) + AllAccepted(s, requests, b)) <==> NoneOverwrites(s, requests)
  {
    forall b ensures Held(HandleAll(s, requests), b) + AllDestroyed(s, requests, b) == Held(s, b) + AllAccepted(s, requests, b) {
      RunAccounts(s, requests, b);
    }
    if NoneOverwrites(s, requests) {
      forall b ensures AllDestroyed(s, requests, b) == 0 { NothingIsDestroyed(s, requests, b); }
    } else {
      var b := SomethingIsDestroyed(s, requests);
    }
  }

  // With fresh names and no colliding restore none does, and nothing on disk is ever
  // without a live row.
  lemma {:induction false} RunStaysIndexed(s: State, requests: seq<Request>)
    requires Consistent(s) && Indexed(s) && AllApart(s, requests)
    ensures Indexed(HandleAll(s, requests)) && NoneOverwrites(s, requests)
    decreases |requests|
  {
    if requests != [] {
      RequestKeeps(s, requests[0]);
      RequestStaysIndexed(s, requests[0]);
      RunStaysIndexed(Handle(s, requests[0]).0, requests[1..]);
    }
  }

  // ── The refused upload ─────────────────────────────────────────────────────

  // The path takes an upload, but the body is not what the caller declares.
  predicate Mismatched(s: State, r: Request) {
    Writes(s, r) && !Declares(r.declared, r.body)
  }

  // Exactly such an upload is refused for its hash, and it spends no revision. It
  // leaves every download as it was if and only if its target was not being served:
  // the old file has gone to the trash by then, and its row stays without content.
  lemma RefusedUpload(s: State, r: Request)
    requires Consistent(s) && r.Put?
    ensures Handle(s, r).1 == HashMismatch <==> Mismatched(s, r)
    ensures Mismatched(s, r) ==> Handle(s, r).0.table == s.table
    ensures Mismatched(s, r) ==>
      ((forall p :: GetFile(Handle(s, r).0, p) == GetFile(s, p)) <==> !Serves(s, Target(s, r)))
  {
    var s' := Handle(s, r).0;
    if Mismatched(s, r) {
      assert s'.disk == s.disk - {Target(s, r)};
      assert Serves(s, Target(s, r)) ==> GetFile(s', Target(s, r)) == Missing;
    }
  }

  // ── A run that loses a body ────────────────────────────────────────────────

  const FIRST: Body := [1]
  const SECOND: Body := [2]
  const THIRD: Body := [3]

  const PUT_LOWER := Put("a", 0, FIRST, None, "x", 10, "T")
  const DROP_LOWER := Delete("a", 1, "T")
  const PUT_UPPER := Put("A", 0, SECOND, None, "x", 11, "T")
  const RESTORE_LOWER := Restore("T_a")
  const DROP_UPPER := Delete("A", 3, "U")
  const PUT_LOWER_AGAIN := Put("a", 0, THIRD, None, "x", 12, "T")

  const DOOMED_RUN := [PUT_LOWER, DROP_LOWER, PUT_UPPER, RESTORE_LOWER, DROP_UPPER, PUT_LOWER_AGAIN]

  lemma FoldsMeet()
    ensures Fold("a") == Fold("A") && "a" != "A"
  {
    assert Fold("a")[0] == Fold("A")[0];
    assert "a"[0] != "A"[0];
  }

  lemma TrashedUnderItsName(s: State, p: Path, stamp: string)
    requires p in s.disk && EncodeId(stamp, p) !in s.trash
    ensures MoveToTrash(s, p, stamp)
      == s.(disk := s.disk - {p}, trash := s.trash[EncodeId(stamp, p) := Item(p, s.disk[p])])
  {
    assert EncodeId(stamp, p) + "" == EncodeId(stamp, p);
    assert p + "" == p;
  }

  lemma LowerThenUpper() returns (s: State)
    ensures s == HandleAll(EMPTY_STATE, [PUT_LOWER, DROP_LOWER, PUT_UPPER])
    ensures s.disk == map["A" := File(SECOND, 11)]
    ensures s.trash == map["T_a" := Item("a", File(FIRST, 10))]
    ensures s.table.rows.Keys == {"a", "A"} && s.table.rows["a"].deleted
    ensures Live(s.table, "A") && s.table.rows["A"].rev == 3 && s.table.rows["A"].kind == RegularFile
    ensures AllAccepted(EMPTY_STATE, [PUT_LOWER, DROP_LOWER, PUT_UPPER], FIRST) == 1
  {
    var s0 := EMPTY_STATE;
    var s1 := Handle(s0, PUT_LOWER).0;
    assert s1.disk == map["a" := File(FIRST, 10)] && s1.table.rows.Keys == {"a"} && s1.table.rows["a"].rev == 1;
    var s2 := Handle(s1, DROP_LOWER).0;
    assert EncodeId("T", "a") == "T_a" by { assert Escape("a") == "a" + Escape(""); }
    TrashedUnderItsName(s1, "a", "T");
    assert s2.disk == map[] && s2.table.rows.Keys == {"a"} && s2.table.rows["a"].deleted;
    s := Handle(s2, PUT_UPPER).0;
    assert [DROP_LOWER, PUT_UPPER][1..] == [PUT_UPPER];
    assert [PUT_LOWER, DROP_LOWER, PUT_UPPER][1..] == [DROP_LOWER, PUT_UPPER];
    assert HandleAll(s2, [PUT_UPPER]) == HandleAll(s, []) == s;
    assert HandleAll(s1, [DROP_LOWER, PUT_UPPER]) == s;
    assert AllAccepted(s2, [PUT_UPPER], FIRST) == 0;
    assert AllAccepted(s1, [DROP_LOWER, PUT_UPPER], FIRST) == 0;
  }

  lemma RestoreThenDrop(s3: State) returns (s5: State)
    requires s3.disk == map["A" := File(SECOND, 11)]
    requires s3.trash == map["T_a" := Item("a", File(FIRST, 10))]
    requires s3.table.rows.Keys == {"a", "A"} && s3.table.rows["a"].deleted
    requires Live(s3.table, "A") && s3.table.rows["A"].rev == 3 && s3.table.rows["A"].kind == RegularFile
    ensures s5 == HandleAll(s3, [RESTORE_LOWER, DROP_UPPER])
    ensures s5.disk == map["a" := File(FIRST, 10)]
    ensures s5.table.rows.Keys == {"a", "A"} && s5.table.rows["A"].deleted && s5.table.rows["a"].deleted
    ensures s5.trash.Keys == {"U_A"} && s5.trash["U_A"].file.body == SECOND
    ensures AllAccepted(s3, [RESTORE_LOWER, DROP_UPPER], FIRST) == 0
  {
    FoldsMeet();
    assert Clash(s3.table, "a");
    var s4 := Handle(s3, RESTORE_LOWER).0;
    assert s4.disk == map["A" := File(SECOND, 11), "a" := File(FIRST, 10)] && s4.trash == map[];
    assert EncodeId("U", "A") == "U_A" by { assert Escape("A") == "A" + Escape(""); }
    TrashedUnderItsName(s4, "A", "U");
    s5 := Handle(s4, DROP_UPPER).0;
    assert [RESTORE_LOWER, DROP_UPPER][1..] == [DROP_UPPER];
    assert HandleAll(s4, [DROP_UPPER]) == HandleAll(s5, []) == s5;
    assert AllAccepted(s4, [DROP_UPPER], FIRST) == 0;
  }

  lemma PutOnTop(s5: State) returns (s6: State)
    requires s5.disk == map["a" := File(FIRST, 10)]
    requires s5.table.rows.Keys == {"a", "A"} && s5.table.rows["A"].deleted && s5.table.rows["a"].deleted
    requires s5.trash.Keys == {"U_A"} && s5.trash["U_A"].file.body == SECOND
    ensures s6 == HandleAll(s5, [PUT_LOWER_AGAIN])
    ensures Held(s6, FIRST) == 0
    ensures AllAccepted(s5, [PUT_LOWER_AGAIN], FIRST) == 0
  {
    s6 := Handle(s5, PUT_LOWER_AGAIN).0;
    assert !Clash(s5.table, "a");
    assert s6.disk == map["a" := File(THIRD, 12)];
    assert HandleAll(s6, []) == s6;
    assert Holders(s6.disk, FIRST) == {};
    assert Holders(TrashFiles(s6), FIRST) == {};
  }

  // Restoring a path while another that differs only by case is live leaves the file
  // on disk without a row; the next upload there replaces it, and the body is gone.
  lemma ACollidingRestoreLosesABody()
    ensures AllAccepted(EMPTY_STATE, DOOMED_RUN, FIRST) == 1
    ensures Held(HandleAll(EMPTY_STATE, DOOMED_RUN), FIRST) == 0
  {
    var start := [PUT_LOWER, DROP_LOWER, PUT_UPPER];
    var s3 := LowerThenUpper();
    var s5 := RestoreThenDrop(s3);
    var s6 := PutOnTop(s5);
    InTwoParts(s3, [RESTORE_LOWER, DROP_UPPER], [PUT_LOWER_AGAIN], FIRST);
    InTwoParts(EMPTY_STATE, start, [RESTORE_LOWER, DROP_UPPER] + [PUT_LOWER_AGAIN], FIRST);
    assert DOOMED_RUN == start + ([RESTORE_LOWER, DROP_UPPER] + [PUT_LOWER_AGAIN]);
  }

  lemma {:induction false} InTwoParts(s: State, first: seq<Request>, second: seq<Request>, b: Body)
    ensures HandleAll(s, first + second) == HandleAll(HandleAll(s, first), second)
    ensures AllAccepted(s, first + second, b) == AllAccepted(s, first, b) + AllAccepted(HandleAll(s, first), second, b)
    decreases |first|
  {
    if first == [] {
      assert first + second == second;
    } else {
      assert (first + second)[1..] == first[1..] + second;
      InTwoParts(Handle(s, first[0]).0, first[1..], second, b);
    }
  }
}
