/** The reader-writer lock case study of the kernel. Active and waiting readers and writers
    are counted; the pids of sleeping writers and readers are kept in two 64-entry rings; and
    the number of readers a releasing writer has woken holds further writers back until a
    reader releases. Sleeping is a state change: a lock operation that would block reports
    so and leaves the rest to the method that models the return from sleep, and a release
    reports the pids it wakes. */
module RwLock {
  import Ring

  const RingSize: nat := 64

  /** The pids of s other than 0, in order (a zero entry is a ring slot never written). */
  function NonZero(s: seq<int>): (r: seq<int>)
    ensures |r| <= |s|
    ensures forall k :: 0 <= k < |r| ==> r[k] != 0
  {
    if s == [] then []
    else NonZero(s[..|s| - 1]) + (if s[|s| - 1] != 0 then [s[|s| - 1]] else [])
  }

  class Lock {
    var counter: int
    var activeReaders: int
    var activeWriters: int
    var waitingWriters: int
    var waitingReaders: int
    var wokenReaders: int
    const writerPids: array<int>
    var writerHead: nat
    var writerTail: nat
    const readerPids: array<int>
    var readerHead: nat
    var readerTail: nat

    ghost predicate Valid()
      reads this
    {
      writerPids.Length == RingSize && readerPids.Length == RingSize && writerPids != readerPids &&
      writerHead < RingSize && writerTail < RingSize && readerHead < RingSize && readerTail < RingSize
    }

    /** The pids of the writers queued and not yet woken, oldest first. */
    ghost function QueuedWriters(): seq<int>
      reads this, writerPids
      requires Valid()
    {
      Ring.Window(writerPids[..], writerHead, Ring.Occupancy(writerHead, writerTail, RingSize))
    }

    /** The pids of the readers queued and not yet woken, oldest first. */
    ghost function QueuedReaders(): seq<int>
      reads this, readerPids
      requires Valid()
    {
      Ring.Window(readerPids[..], readerHead, Ring.Occupancy(readerHead, readerTail, RingSize))
    }

    /** init_rw_lock: every count and index zero, and both rings cleared. */
    constructor ()
      ensures Valid() && fresh(writerPids) && fresh(readerPids)
      ensures counter == 0 && activeReaders == 0 && activeWriters == 0
      ensures waitingWriters == 0 && waitingReaders == 0 && wokenReaders == 0
      ensures writerHead == 0 && writerTail == 0 && readerHead == 0 && readerTail == 0
      ensures forall k :: 0 <= k < RingSize ==> writerPids[k] == 0 && readerPids[k] == 0
      ensures QueuedWriters() == [] && QueuedReaders() == []
    {
      counter, activeReaders, activeWriters := 0, 0, 0;
      waitingWriters, waitingReaders, wokenReaders := 0, 0, 0;
      writerHead, writerTail, readerHead, readerTail := 0, 0, 0, 0;
      writerPids := new int[RingSize](_ => 0);
      readerPids := new int[RingSize](_ => 0);
    }

    /** Whether writer_write_lock has to sleep: readers or a writer hold the lock, writers
        are queued, or readers just woken have not all released. */
    function WriterMustWait(): (r: bool)
      reads this
      ensures !r ==> activeReaders <= 0 && activeWriters <= 0 && waitingWriters <= 0 && wokenReaders <= 0
      ensures activeReaders > 0 || activeWriters > 0 || waitingWriters > 0 || wokenReaders > 0 ==> r
      ensures ReaderMustWait() ==> r
    {
      activeReaders > 0 || activeWriters > 0 || waitingWriters > 0 || wokenReaders > 0
    }

    /** Whether reader_read_lock has to sleep: a writer holds the lock or is queued. Active
        and freshly woken readers never hold a reader back. */
    function ReaderMustWait(): (r: bool)
      reads this
      ensures !r ==> activeWriters <= 0 && waitingWriters <= 0
      ensures waitingWriters > 0 || activeWriters > 0 ==> r
    {
      waitingWriters > 0 || activeWriters > 0
    }

    /** writer_write_lock up to its sleep: a writer that must wait is queued at the tail of the
        writer ring and counted as waiting; otherwise it becomes the active writer. */
    method WriterLock(pid: int) returns (sleeps: bool)
      requires Valid()
      modifies this, writerPids
      ensures Valid() && unchanged(readerPids)
      ensures sleeps == old(WriterMustWait())
      ensures counter == old(counter) && activeReaders == old(activeReaders) && wokenReaders == old(wokenReaders)
      ensures waitingReaders == old(waitingReaders) && writerHead == old(writerHead)
      ensures readerHead == old(readerHead) && readerTail == old(readerTail)
      ensures sleeps ==>
        writerPids[..] == old(writerPids[..])[old(writerTail) := pid] &&
        writerTail == (old(writerTail) + 1) % RingSize &&
        waitingWriters == old(waitingWriters) + 1 && activeWriters == old(activeWriters)
      ensures sleeps && Ring.Occupancy(old(writerHead), old(writerTail), RingSize) < RingSize - 1 ==>
        QueuedWriters() == old(QueuedWriters()) + [pid]
      ensures !sleeps ==>
        unchanged(writerPids) && writerTail == old(writerTail) &&
        waitingWriters == old(waitingWriters) && activeWriters == 1
    {
      sleeps := WriterMustWait();
      if sleeps {
        ghost var before := writerPids[..];
        ghost var len := Ring.Occupancy(writerHead, writerTail, RingSize);
        Ring.OccupancyTail(writerHead, writerTail, RingSize);
        if len < RingSize - 1 {
          Ring.WindowPush(before, writerHead, len, pid);
          Ring.OccupancyPush(writerHead, writerTail, RingSize);
        }
        writerPids[writerTail] := pid;
        assert writerPids[..] == before[writerTail := pid];
        writerTail := (writerTail + 1) % RingSize;
        waitingWriters := waitingWriters + 1;
      } else {
        activeWriters := 1;
      }
    }

    /** The rest of writer_write_lock once the writer is woken: it stops waiting and becomes
        the active writer. */
    method WriterWakes()
      requires Valid()
      modifies this`waitingWriters, this`activeWriters
      ensures waitingWriters == old(waitingWriters) - 1 && activeWriters == 1
    {
      waitingWriters := waitingWriters - 1;
      activeWriters := 1;
    }

    /** reader_read_lock up to its sleep: a reader that must wait is queued at the tail of the
        reader ring and counted as waiting; otherwise it becomes one more active reader. */
    method ReaderLock(pid: int) returns (sleeps: bool)
      requires Valid()
      modifies this, readerPids
      ensures Valid() && unchanged(writerPids)
      ensures sleeps == old(ReaderMustWait())
      ensures counter == old(counter) && activeWriters == old(activeWriters) && wokenReaders == old(wokenReaders)
      ensures waitingWriters == old(waitingWriters) && readerHead == old(readerHead)
      ensures writerHead == old(writerHead) && writerTail == old(writerTail)
      ensures sleeps ==>
        readerPids[..] == old(readerPids[..])[old(readerTail) := pid] &&
        readerTail == (old(readerTail) + 1) % RingSize &&
        waitingReaders == old(waitingReaders) + 1 && activeReaders == old(activeReaders)
      ensures sleeps && Ring.Occupancy(old(readerHead), old(readerTail), RingSize) < RingSize - 1 ==>
        QueuedReaders() == old(QueuedReaders()) + [pid]
      ensures !sleeps ==>
        unchanged(readerPids) && readerTail == old(readerTail) &&
        waitingReaders == old(waitingReaders) && activeReaders == old(activeReaders) + 1
    {
      sleeps := ReaderMustWait();
      if sleeps {
        ghost var before := readerPids[..];
        ghost var len := Ring.Occupancy(readerHead, readerTail, RingSize);
        Ring.OccupancyTail(readerHead, readerTail, RingSize);
        if len < RingSize - 1 {
          Ring.WindowPush(before, readerHead, len, pid);
          Ring.OccupancyPush(readerHead, readerTail, RingSize);
        }
        readerPids[readerTail] := pid;
        assert readerPids[..] == before[readerTail := pid];
        readerTail := (readerTail + 1) % RingSize;
        waitingReaders := waitingReaders + 1;
      } else {
        activeReaders := activeReaders + 1;
      }
    }

    /** The rest of reader_read_lock once the reader is woken: it stops waiting and becomes
        one more active reader. */
    method ReaderWakes()
      requires Valid()
      modifies this`waitingReaders, this`activeReaders
      ensures waitingReaders == old(waitingReaders) - 1 && activeReaders == old(activeReaders) + 1
    {
      waitingReaders := waitingReaders - 1;
      activeReaders := activeReaders + 1;
    }

    /** writer_critical_section: the writer increments the shared counter. */
    method WriterCriticalSection()
      modifies this`counter
      ensures counter == old(counter) + 1
    {
      counter := counter + 1;
    }

    /** reader_release_lock: one reader fewer, the woken-reader count cleared, and when the
        last reader leaves while writers wait, the writer at the head of the ring is woken. */
    method ReaderRelease() returns (woken: seq<int>)
      requires Valid()
      modifies this`activeReaders, this`wokenReaders, this`writerHead
      ensures Valid()
      ensures activeReaders == old(activeReaders) - 1 && wokenReaders == 0
      ensures activeReaders == 0 && waitingWriters > 0 ==>
        woken == [old(writerPids[writerHead])] && writerHead == (old(writerHead) + 1) % RingSize
      ensures !(activeReaders == 0 && waitingWriters > 0) ==> woken == [] && writerHead == old(writerHead)
      ensures 0 < Ring.Occupancy(old(writerHead), writerTail, RingSize) && woken != [] ==>
        woken == [old(QueuedWriters())[0]] && QueuedWriters() == old(QueuedWriters())[1..]
    {
      activeReaders := activeReaders - 1;
      wokenReaders := 0;
      woken := [];
      if activeReaders == 0 && waitingWriters > 0 {
        woken := WakeHeadWriter();
      }
    }

    /** Wakes the writer at the head of the writer ring and advances the head. */
    method WakeHeadWriter() returns (woken: seq<int>)
      requires Valid()
      modifies this`writerHead
      ensures Valid()
      ensures woken == [writerPids[old(writerHead)]] && writerHead == (old(writerHead) + 1) % RingSize
      ensures 0 < Ring.Occupancy(old(writerHead), writerTail, RingSize) ==>
        woken == [old(QueuedWriters())[0]] && QueuedWriters() == old(QueuedWriters())[1..]
    {
      ghost var len := Ring.Occupancy(writerHead, writerTail, RingSize);
      if 0 < len {
        Ring.WindowPop(writerPids[..], writerHead, len);
        Ring.OccupancyPop(writerHead, writerTail, RingSize);
      }
      woken := [writerPids[writerHead]];
      writerHead := (writerHead + 1) % RingSize;
    }

    /** writer_release_lock: the writer stops being active. If writers wait, the one at the
        head of the writer ring is woken; otherwise, if readers wait, every reader counted as
        waiting is woken in ring order and the waiting-reader count is cleared. */
    method WriterRelease() returns (woken: seq<int>)
      requires Valid()
      modifies this`activeWriters, this`writerHead, this`readerHead, this`waitingReaders, this`wokenReaders
      ensures Valid()
      ensures activeWriters == old(activeWriters) - 1
      ensures old(waitingWriters) > 0 ==>
        woken == [old(writerPids[writerHead])] && writerHead == (old(writerHead) + 1) % RingSize &&
        readerHead == old(readerHead) && waitingReaders == old(waitingReaders) && wokenReaders == old(wokenReaders)
      ensures old(waitingWriters) <= 0 && old(waitingReaders) > 0 ==>
        writerHead == old(writerHead) && waitingReaders == 0 &&
        woken == NonZero(Ring.Window(readerPids[..], old(readerHead), old(waitingReaders))) &&
        readerHead == (old(readerHead) + old(waitingReaders)) % RingSize &&
        wokenReaders == old(wokenReaders) + |woken|
      ensures old(waitingWriters) <= 0 && old(waitingReaders) <= 0 ==>
        woken == [] && writerHead == old(writerHead) && readerHead == old(readerHead) &&
        waitingReaders == old(waitingReaders) && wokenReaders == old(wokenReaders)
    {
      activeWriters := activeWriters - 1;
      if waitingWriters > 0 {
        woken := WakeHeadWriter();
      } else if waitingReaders > 0 {
        woken := WakeReaders();
        waitingReaders := 0;
      } else {
        woken := [];
      }
    }

    /** The loop of writer_release_lock that wakes the waiting readers one ring entry at a
        time, skipping entries that hold no pid, unless a writer has started waiting. */
    method WakeReaders() returns (woken: seq<int>)
      requires Valid() && waitingWriters <= 0 && waitingReaders > 0
      modifies this`readerHead, this`wokenReaders
      ensures Valid()
      ensures woken == NonZero(Ring.Window(readerPids[..], old(readerHead), waitingReaders))
      ensures readerHead == (old(readerHead) + waitingReaders) % RingSize
      ensures wokenReaders == old(wokenReaders) + |woken|
    {
      var toWake := waitingReaders;
      ghost var start := readerHead;
      ghost var ring := readerPids[..];
      woken := [];
      var i := 0;
      while i < toWake
        invariant Valid() && ring == readerPids[..]
        invariant 0 <= i <= toWake
        invariant readerHead == (start + i) % RingSize
        invariant woken == NonZero(Ring.Window(ring, start, i))
        invariant wokenReaders == old(wokenReaders) + |woken|
      {
        if waitingWriters > 0 {
          break;
        }
        var pid := readerPids[readerHead];
        NonZeroExtend(ring, start, i);
        if pid != 0 {
          wokenReaders := wokenReaders + 1;
          woken := woken + [pid];
        }
        RingStep(start + i);
        readerHead := (readerHead + 1) % RingSize;
        i := i + 1;
      }
    }
  }

  /** Advancing a ring index taken modulo the ring size. */
  lemma RingStep(x: nat)
    ensures (x % RingSize + 1) % RingSize == (x + 1) % RingSize
  {
  }

  /** The pids a scan of one more ring entry wakes. */
  lemma NonZeroExtend(ring: seq<int>, start: nat, i: nat)
    requires start < |ring|
    ensures NonZero(Ring.Window(ring, start, i + 1)) ==
      NonZero(Ring.Window(ring, start, i)) + (if ring[(start + i) % |ring|] != 0 then [ring[(start + i) % |ring|]] else [])
  {
    Ring.WindowExtend(ring, start, i);
    var w := Ring.Window(ring, start, i + 1);
    assert w[..i] == Ring.Window(ring, start, i);
  }

  /** The woken-reader debt as written: a reader woken by writer_release_lock decrements a
      waiting-reader count that the writer has already set to zero, so it ends at -1. */
  method WokenReaderLeavesNegativeCount() returns (waiting: int)
    ensures waiting == -1
  {
    var rw := new Lock();
    var writerSleeps := rw.WriterLock(1);
    var readerSleeps := rw.ReaderLock(2);
    assert !writerSleeps && readerSleeps;
    var woken := rw.WriterRelease();
    rw.ReaderWakes();
    waiting := rw.waitingReaders;
  }
}
