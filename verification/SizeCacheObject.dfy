/**
 The part of the backup manager that keeps the list of snapshots to measure.
 */
module SizeCacheObject {
  import opened Basics
  import opened SizeCache
  import opened SizeCacheRuns

  class Manager {
    var sizes: map<Name, Size>
    var pending: set<Name>
    var measuring: bool
    var running: bool

    // The manager's fields are these of a state of the machine.
    ghost predicate Shows(s: State)
      reads this
    {
      s.sizes == sizes && s.pending == pending && s.measuring == measuring && s.run.NoRun? == !running
    }

    constructor ()
      ensures Shows(INITIAL)
    {
      sizes, pending, measuring, running := map[], {}, false, false;
    }

    method ForgetMissing(onDisk: set<Name>)
      modifies this`sizes
      ensures sizes == map y | y in old(sizes) && y in onDisk :: old(sizes)[y]
    {
      var left := sizes.Keys;
      while left != {}
        invariant left <= old(sizes).Keys && sizes.Keys <= old(sizes).Keys
        invariant forall y :: y in old(sizes) ==> (y in sizes <==> y in left || y in onDisk)
        invariant forall y :: y in sizes ==> sizes[y] == old(sizes)[y]
        decreases left
      {
        var name :| name in left;
        if name !in onDisk {
          sizes := sizes - {name};
        }
        left := left - {name};
      }
    }

    // Starts the walker when there is work and nothing in the way.
    method StartMeasuring()
      modifies this`measuring
      ensures measuring == (old(measuring) || (!running && pending != {}))
    {
      if measuring || running || pending == {} {
        return;
      }
      measuring := true;
    }

    // Under the lock, with the directory as it was listed, newest first.
    method QueueSizes(current: seq<Name>, touched: seq<Name>, ghost s: State)
      requires forall i, j :: 0 <= i < j < |current| ==> current[i] > current[j]
      requires Shows(s)
      modifies this
      ensures Shows(Mark(s, Debt(AsSet(touched), Some(AsSet(current)))))
    {
      var onDisk: set<Name> := {};
      for i := 0 to |current|
        invariant onDisk == AsSet(current[..i])
      {
        assert AsSet(current[..i + 1]) == AsSet(current[..i]) + {current[i]};
        onDisk := onDisk + {current[i]};
      }
      assert current[..|current|] == current;
      ForgetMissing(onDisk);
      ghost var kept := sizes;
      var names := SizesToMeasure(current, sizes.Keys, touched);
      for i := 0 to |names|
        invariant pending == s.pending + AsSet(names[..i])
        invariant sizes == kept && measuring == old(measuring) && running == old(running)
      {
        assert AsSet(names[..i + 1]) == AsSet(names[..i]) + {names[i]};
        pending := pending + {names[i]};
      }
      assert names[..|names|] == names;
      ghost var debt := Debt(AsSet(touched), Some(AsSet(current)));
      assert kept == Mark(s, debt).sizes;
      assert pending == Mark(s, debt).pending by {
        forall y ensures y in names <==> y in Listing(s, debt) && Marked(s, debt, y) {}
      }
      StartMeasuring();
    }

    // The next snapshot to walk, or none: the walker goes to rest when a run is going
    // or the list is empty, and else takes the newest.
    method NextToMeasure() returns (name: Option<Name>)
      requires measuring
      modifies this
      ensures sizes == old(sizes) && running == old(running)
      ensures running || old(pending) == {} ==> name == None && !measuring && pending == old(pending)
      ensures !running && old(pending) != {} ==>
        measuring && name.Some? && IsNewest(old(pending), name.value) && pending == old(pending) - {name.value}
    {
      if running || pending == {} {
        measuring := false;
        return None;
      }
      var newest: Name :| newest in pending;
      var left := pending;
      while left != {}
        invariant left <= pending && newest in pending
        invariant forall y :: y in pending && y !in left ==> y <= newest
        decreases left
      {
        var candidate :| candidate in left;
        if candidate > newest {
          newest := candidate;
        }
        left := left - {candidate};
      }
      pending := pending - {newest};
      name := Some(newest);
    }
  }
}
