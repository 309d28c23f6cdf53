/**
 The cache of snapshot sizes: which snapshots a change can have moved, and how runs,
 deletions and one background walker keep every stored size true between them.
 */
module SizeCache {
  import opened Basics

  // A snapshot is named by its day; names sort as their days do.
  type Name = nat

  type Inode = nat

  type Disk = map<Name, set<Inode>>

  // ── The rule of neighbours ─────────────────────────────────────────────────

  predicate NextOlder(names: set<Name>, t: Name, x: Name) {
    x in names && x < t && forall y :: y in names && y < t ==> y <= x
  }

  predicate NextNewer(names: set<Name>, t: Name, x: Name) {
    x in names && t < x && forall y :: y in names && t < y ==> x <= y
  }

  predicate NearOne(names: set<Name>, t: Name, x: Name) {
    (x == t && x in names) || NextOlder(names, t, x) || NextNewer(names, t, x)
  }

  predicate Near(names: set<Name>, touched: set<Name>, x: Name) {
    exists t :: t in touched && NearOne(names, t, x)
  }

  // What a walk down the list, newest first, has found around a snapshot that changed.
  ghost predicate Around(names: set<Name>, t: Name, older: Option<Name>, newer: Option<Name>) {
    && (if newer == None then forall y :: y in names ==> y <= t else NextNewer(names, t, newer.value))
    && (if older == None then forall y :: y in names ==> t <= y else NextOlder(names, t, older.value))
  }

  lemma DownTheList(names: set<Name>, name: Name, t: Name, older: Option<Name>, newer: Option<Name>)
    requires Around(names, t, older, newer) && forall y :: y in names ==> name < y
    ensures Around(names + {name}, t, if name < t && older == None then Some(name) else older, if name > t then Some(name) else newer)
  {}

  lemma AroundIsNear(names: set<Name>, t: Name, older: Option<Name>, newer: Option<Name>, x: Name)
    requires Around(names, t, older, newer)
    ensures NearOne(names, t, x) <==> (x == t && x in names) || older == Some(x) || newer == Some(x)
  {}

  lemma OneMoreName(current: seq<Name>, i: nat)
    requires i < |current| && forall j, k :: 0 <= j < k < |current| ==> current[j] > current[k]
    ensures AsSet(current[..i + 1]) == AsSet(current[..i]) + {current[i]}
    ensures forall y :: y in AsSet(current[..i]) ==> current[i] < y
  {
    assert current[..i + 1] == current[..i] + [current[i]];
  }

  // One changed snapshot against the list, newest first.
  method LookAround(current: seq<Name>, changed: Name) returns (present: bool, older: Option<Name>, newer: Option<Name>)
    requires forall i, j :: 0 <= i < j < |current| ==> current[i] > current[j]
    ensures present == (changed in AsSet(current)) && Around(AsSet(current), changed, older, newer)
  {
    present, older, newer := false, None, None;
    for i := 0 to |current|
      invariant present == (changed in AsSet(current[..i])) && Around(AsSet(current[..i]), changed, older, newer)
    {
      OneMoreName(current, i);
      DownTheList(AsSet(current[..i]), current[i], changed, older, newer);
      var name := current[i];
      if name == changed {
        present := true;
      } else if name > changed {
        newer := Some(name);
      } else if older == None {
        older := Some(name);
      }
    }
    assert current[..|current|] == current;
  }

  method MarkNeighbours(current: seq<Name>, changed: Name, before: set<Name>) returns (want: set<Name>)
    requires forall i, j :: 0 <= i < j < |current| ==> current[i] > current[j]
    ensures forall x :: x in want <==> x in before || NearOne(AsSet(current), changed, x)
  {
    var present, older, newer := LookAround(current, changed);
    want := before;
    if present {
      want := want + {changed};
    }
    if older.Some? {
      want := want + {older.value};
    }
    if newer.Some? {
      want := want + {newer.value};
    }
    forall x: Name ensures x in want <==> x in before || NearOne(AsSet(current), changed, x) {
      AroundIsNear(AsSet(current), changed, older, newer, x);
    }
  }

  // What was never measured and what a change can have moved, in the order of the list.
  method SizesToMeasure(current: seq<Name>, stored: set<Name>, touched: seq<Name>) returns (names: seq<Name>)
    requires forall i, j :: 0 <= i < j < |current| ==> current[i] > current[j]
    ensures forall x :: x in names <==> x in current && (x !in stored || Near(AsSet(current), AsSet(touched), x))
    ensures forall i, j :: 0 <= i < j < |names| ==> names[i] > names[j]
  {
    var want: set<Name> := {};
    for i := 0 to |current|
      invariant forall x :: x in want <==> x in current[..i] && x !in stored
    {
      if current[i] !in stored {
        want := want + {current[i]};
      }
    }
    for i := 0 to |touched|
      invariant forall x :: x in want <==> (x in current && x !in stored) || Near(AsSet(current), AsSet(touched[..i]), x)
    {
      assert AsSet(touched[..i + 1]) == AsSet(touched[..i]) + {touched[i]};
      want := MarkNeighbours(current, touched[i], want);
    }
    assert touched[..|touched|] == touched;
    names := [];
    for i := 0 to |current|
      invariant forall x :: x in names <==> x in current[..i] && x in want
      invariant forall j, k :: 0 <= j < k < |names| ==> names[j] > names[k]
    {
      if current[i] in want {
        assert forall j :: 0 <= j < |names| ==> names[j] in current[..i];
        names := names + [current[i]];
      }
    }
  }

  // ── What a change moves ────────────────────────────────────────────────────

  // A measurement: everything the snapshot reaches, and what only it holds.
  datatype Size = Size(total: set<Inode>, unique: set<Inode>)

  function Measure(disk: Disk, x: Name): Size
    requires x in disk
  {
    Size(disk[x], set i | i in disk[x] && HeldOnlyBy(disk, x, i))
  }

  predicate HeldOnlyBy(disk: Disk, x: Name, i: Inode) {
    forall y :: y in disk && i in disk[y] ==> y == x
  }

  // The snapshots that share an inode are a run of the list, with no gap.
  ghost predicate NoGap(disk: Disk, a: Name, b: Name, c: Name) {
    a in disk && b in disk && c in disk && a < b < c ==> disk[a] * disk[c] <= disk[b]
  }

  ghost predicate Contiguous(disk: Disk) {
    forall a, b, c {:trigger NoGap(disk, a, b, c)} :: NoGap(disk, a, b, c)
  }

  // The snapshot a new one links to: the newest older one.
  function LinkedTo(disk: Disk, day: Name): set<Inode> {
    set p, i | p in disk && NextOlder(disk.Keys, day, p) && i in disk[p] :: i
  }

  // What writing may leave in today's snapshot: what it had, what the one before it
  // has, and files that are in no snapshot.
  ghost predicate Writes(disk: Disk, day: Name, inodes: set<Inode>) {
    && (forall x :: x in disk ==> x <= day)
    && forall i :: i in inodes ==>
      (day in disk && i in disk[day]) || i in LinkedTo(disk, day) || forall x :: x in disk ==> i !in disk[x]
  }

  lemma RemovalMovesNeighbours(disk: Disk, x: Name)
    requires Contiguous(disk)
    ensures Contiguous(disk - {x})
    ensures forall y :: y in disk && y != x && !NearOne(disk.Keys, x, y) ==> Measure(disk - {x}, y) == Measure(disk, y)
  {
    var left := disk - {x};
    forall a, b, c ensures NoGap(left, a, b, c) { assert NoGap(disk, a, b, c); }
    forall y | y in disk && y != x && !NearOne(disk.Keys, x, y)
      ensures Measure(left, y) == Measure(disk, y)
    {
      FarFromRemoval(disk, x, y);
    }
  }

  lemma FarFromRemoval(disk: Disk, x: Name, y: Name)
    requires Contiguous(disk) && y in disk && y != x && !NearOne(disk.Keys, x, y)
    ensures Measure(disk - {x}, y) == Measure(disk, y)
  {
    var left := disk - {x};
    forall i | i in disk[y] ensures HeldOnlyBy(left, y, i) <==> HeldOnlyBy(disk, y, i) {
      if x in disk && i in disk[x] {
        // Someone between them holds it too.
        var z: Name;
        if y < x {
          z :| z in disk && y < z < x;
          assert NoGap(disk, y, z, x);
        } else {
          z :| z in disk && x < z < y;
          assert NoGap(disk, x, z, y);
        }
        assert z in left && i in left[z] && z != y;
      } else if HeldOnlyBy(left, y, i) {
        forall z | z in disk && i in disk[z] ensures z == y {
          assert z in left && left[z] == disk[z];
        }
      }
    }
  }

  lemma WritingMovesNeighbours(disk: Disk, day: Name, inodes: set<Inode>)
    requires Contiguous(disk) && Writes(disk, day, inodes)
    ensures Contiguous(disk[day := inodes])
    ensures forall y :: y in disk && y != day && !NextOlder(disk.Keys, day, y) ==> Measure(disk[day := inodes], y) == Measure(disk, y)
  {
    var after := disk[day := inodes];
    forall a, b, c ensures NoGap(after, a, b, c) {
      assert NoGap(disk, a, b, c);
      if c == day && a in disk && b in disk && a < b < c {
        SharedThroughTheLast(disk, day, inodes, a, b);
      }
    }
    forall y | y in disk && y != day && !NextOlder(disk.Keys, day, y)
      ensures Measure(after, y) == Measure(disk, y)
    {
      FarFromWriting(disk, day, inodes, y);
    }
  }

  // What today's snapshot shares with one, it shares with all between.
  lemma SharedThroughTheLast(disk: Disk, day: Name, inodes: set<Inode>, a: Name, b: Name)
    requires Contiguous(disk) && Writes(disk, day, inodes) && a in disk && b in disk && a < b < day
    ensures disk[a] * inodes <= disk[b]
  {
    forall i | i in disk[a] && i in inodes ensures i in disk[b] {
      if day in disk && i in disk[day] {
        assert NoGap(disk, a, b, day);
      } else {
        var p :| p in disk && NextOlder(disk.Keys, day, p) && i in disk[p];
        assert NoGap(disk, a, b, p);
      }
    }
  }

  lemma FarFromWriting(disk: Disk, day: Name, inodes: set<Inode>, y: Name)
    requires Contiguous(disk) && Writes(disk, day, inodes) && y in disk && y != day && !NextOlder(disk.Keys, day, y)
    ensures Measure(disk[day := inodes], y) == Measure(disk, y)
  {
    var after := disk[day := inodes];
    var z :| z in disk && y < z < day;
    SharedThroughTheLast(disk, day, inodes, y, z);
    forall i | i in disk[y] ensures HeldOnlyBy(after, y, i) <==> HeldOnlyBy(disk, y, i) {
      if i in inodes || (day in disk && i in disk[day]) {
        if day in disk && i in disk[day] {
          assert NoGap(disk, y, z, day);
        }
        assert i in disk[z] && i in after[z] && z in after && z != y;
      } else if HeldOnlyBy(after, y, i) {
        forall w | w in disk && i in disk[w] ensures w == y {
          assert w in after && after[w] == disk[w];
        }
      }
    }
  }
}
