/** The counters as the program holds them, and the cleanup of old cache files.

    The contracts here are for a caller that nobody interferes with; UncountAlone and CountAlone of
    DiskAccounting say that this is what the atomic steps come to for one goroutine alone. */
module DiskCache {
  import opened DiskAccounting

  datatype Counters = Counters(files: int, usage: int, buffers: int, bufferBytes: int)

  class DiskCacheStats {
    var activeDiskFiles: int
    var currentDiskUsageBytes: int
    var activeMemoryBuffers: int
    var currentMemoryUsageBytes: int

    ghost function Shows(): Counters
      reads this
    {
      Counters(activeDiskFiles, currentDiskUsageBytes, activeMemoryBuffers, currentMemoryUsageBytes)
    }

    constructor ()
      ensures activeDiskFiles == currentDiskUsageBytes == activeMemoryBuffers == currentMemoryUsageBytes == 0
    {
      activeDiskFiles, currentDiskUsageBytes, activeMemoryBuffers, currentMemoryUsageBytes := 0, 0, 0, 0;
    }

    method IncrementDiskFiles(size: nat)
      modifies this`activeDiskFiles, this`currentDiskUsageBytes
      ensures activeDiskFiles == old(activeDiskFiles) + 1
      ensures currentDiskUsageBytes == old(currentDiskUsageBytes) + size
    {
      activeDiskFiles := activeDiskFiles + 1;
      currentDiskUsageBytes := currentDiskUsageBytes + size;
    }

    method DecrementDiskFiles(size: nat)
      modifies this`activeDiskFiles, this`currentDiskUsageBytes
      ensures activeDiskFiles == AtLeastZero(old(activeDiskFiles) - 1)
      ensures currentDiskUsageBytes == AtLeastZero(old(currentDiskUsageBytes) - size)
    {
      activeDiskFiles := activeDiskFiles - 1;
      if activeDiskFiles < 0 {
        activeDiskFiles := 0;
      }
      currentDiskUsageBytes := currentDiskUsageBytes - size;
      if currentDiskUsageBytes < 0 {
        currentDiskUsageBytes := 0;
      }
    }

    method IncrementMemoryBuffers(size: nat)
      modifies this`activeMemoryBuffers, this`currentMemoryUsageBytes
      ensures activeMemoryBuffers == old(activeMemoryBuffers) + 1
      ensures currentMemoryUsageBytes == old(currentMemoryUsageBytes) + size
    {
      activeMemoryBuffers := activeMemoryBuffers + 1;
      currentMemoryUsageBytes := currentMemoryUsageBytes + size;
    }

    method DecrementMemoryBuffers(size: nat)
      modifies this`activeMemoryBuffers, this`currentMemoryUsageBytes
      ensures activeMemoryBuffers == old(activeMemoryBuffers) - 1
      ensures currentMemoryUsageBytes == old(currentMemoryUsageBytes) - size
    {
      activeMemoryBuffers := activeMemoryBuffers - 1;
      currentMemoryUsageBytes := currentMemoryUsageBytes - size;
    }
  }

  // ---------- Cleanup ----------

  datatype Info = NoInfo | Info(size: nat, modTime: int)

  /** A directory entry; `removable` says whether the operating system lets it be removed. */
  datatype Entry = Entry(isDir: bool, info: Info, removable: bool)

  datatype Listing = Missing | Unreadable | Entries(entries: seq<Entry>)

  predicate IsOld(e: Entry, now: int, maxAge: int) {
    !e.isDir && e.info.Info? && now - e.info.modTime > maxAge && e.removable
  }

  function Survivors(es: seq<Entry>, now: int, maxAge: int): (left: seq<Entry>)
    ensures |left| <= |es|
  {
    if es == [] then []
    else
      var e := es[|es| - 1];
      Survivors(es[..|es| - 1], now, maxAge) + if IsOld(e, now, maxAge) then [] else [e]
  }

  /** The total size of the old files. */
  function OldBytes(es: seq<Entry>, now: int, maxAge: int): nat {
    if es == [] then 0
    else
      var e := es[|es| - 1];
      OldBytes(es[..|es| - 1], now, maxAge) + if IsOld(e, now, maxAge) then e.info.size else 0
  }

  /** Takes `amount` off in one or more clamped decrements; none leaves the counter alone. */
  function Reduced(counter: int, removed: nat, amount: int): int {
    if removed == 0 then counter else AtLeastZero(counter - amount)
  }

  /** Removes the old files and takes exactly their number and size off the counters, down to 0. */
  method CleanupOldDiskCacheFiles(listing: Listing, now: int, maxAge: int, stats: DiskCacheStats)
    returns (left: Listing, failed: bool)
    modifies stats`activeDiskFiles, stats`currentDiskUsageBytes
    ensures failed == listing.Unreadable?
    ensures !listing.Entries? ==> left == listing && unchanged(stats)
    ensures listing.Entries? ==> left == Entries(Survivors(listing.entries, now, maxAge))
    ensures listing.Entries? ==>
      var removed := |listing.entries| - |left.entries|;
      var bytes := OldBytes(listing.entries, now, maxAge);
      && (removed == 0 ==> unchanged(stats))
      && (removed > 0 ==>
            && stats.activeDiskFiles == AtLeastZero(old(stats.activeDiskFiles) - removed)
            && stats.currentDiskUsageBytes == AtLeastZero(old(stats.currentDiskUsageBytes) - bytes))
  {
    if !listing.Entries? {
      return listing, listing.Unreadable?;
    }
    var entries, kept := listing.entries, [];
    ghost var removed := 0;
    for i := 0 to |entries|
      invariant kept == Survivors(entries[..i], now, maxAge) && removed == i - |kept| >= 0
      invariant stats.activeDiskFiles == Reduced(old(stats.activeDiskFiles), removed, removed)
      invariant stats.currentDiskUsageBytes
             == Reduced(old(stats.currentDiskUsageBytes), removed, OldBytes(entries[..i], now, maxAge))
      invariant removed == 0 ==> OldBytes(entries[..i], now, maxAge) == 0
    {
      assert entries[..i + 1][..i] == entries[..i];
      var e := entries[i];
      if !e.isDir && e.info.Info? && now - e.info.modTime > maxAge && e.removable {
        stats.DecrementDiskFiles(e.info.size);
        removed := removed + 1;
      } else {
        kept := kept + [e];
      }
    }
    assert entries[..|entries|] == entries;
    left, failed := Entries(kept), false;
  }

  lemma CountLast(es: seq<Entry>, e: Entry)
    requires es != []
    ensures multiset(es)[e] == multiset(es[..|es| - 1])[e] + if es[|es| - 1] == e then 1 else 0
  {
    assert es == es[..|es| - 1] + [es[|es| - 1]];
  }

  /** Gone are the files whose age exceeds the maximum and that the system lets go; every other entry is
      left as often as it was there. */
  lemma {:induction false} SurvivorsAreTheYoung(es: seq<Entry>, now: int, maxAge: int, e: Entry)
    ensures multiset(Survivors(es, now, maxAge))[e]
         == if e.isDir || e.info.NoInfo? || !e.removable || now <= e.info.modTime + maxAge then multiset(es)[e] else 0
  {
    if es != [] {
      var left, last := Survivors(es[..|es| - 1], now, maxAge), es[|es| - 1];
      SurvivorsAreTheYoung(es[..|es| - 1], now, maxAge, e);
      CountLast(es, e);
      if IsOld(last, now, maxAge) {
        assert left + [] == left;
      } else {
        CountLast(left + [last], e);
        assert (left + [last])[..|left|] == left;
      }
    }
  }

  /** The size of everything in the directory. */
  function Bytes(es: seq<Entry>): nat {
    if es == [] then 0
    else
      var e := es[|es| - 1];
      Bytes(es[..|es| - 1]) + if e.info.Info? then e.info.size else 0
  }

  /** What is taken off the usage is what the directory got smaller by. */
  lemma {:induction false} OldBytesAreGone(es: seq<Entry>, now: int, maxAge: int)
    ensures Bytes(es) == Bytes(Survivors(es, now, maxAge)) + OldBytes(es, now, maxAge)
  {
    if es != [] {
      var left, last := Survivors(es[..|es| - 1], now, maxAge), es[|es| - 1];
      OldBytesAreGone(es[..|es| - 1], now, maxAge);
      assert (left + [last])[..|left|] == left && left + [] == left;
    }
  }

  /** A second cleanup at the same time finds nothing. */
  lemma {:induction false} CleanupTwice(es: seq<Entry>, now: int, maxAge: int)
    ensures var left := Survivors(es, now, maxAge);
      Survivors(left, now, maxAge) == left && OldBytes(left, now, maxAge) == 0
  {
    if es != [] {
      var init, last := Survivors(es[..|es| - 1], now, maxAge), es[|es| - 1];
      CleanupTwice(es[..|es| - 1], now, maxAge);
      assert (init + [last])[..|init|] == init;
      assert init + [] == init;
    }
  }
}
