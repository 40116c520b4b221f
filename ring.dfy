/** Circular queues kept in a fixed buffer: the waiting-customer queue of the barber shop
    and the waiting-pid rings of the reader-writer lock both store their entries from a head
    index onwards, wrapping around the end of the buffer. */
module Ring {

  /** The len entries read circularly from buf starting at index head, oldest first (a scan
      longer than the buffer passes over entries again). */
  function Window(buf: seq<int>, head: nat, len: nat): seq<int>
    requires head < |buf|
  {
    seq(len, k requires 0 <= k < len => buf[(head + k) % |buf|])
  }

  /** The number of entries a ring holds when only its head and tail indices are kept. */
  function Occupancy(head: nat, tail: nat, n: nat): (r: nat)
    requires head < n && tail < n
    ensures r < n
  {
    if head <= tail then tail - head else tail + n - head
  }

  lemma ModBelowTwice(x: int, n: int)
    requires n > 0 && 0 <= x < 2 * n
    ensures x % n == if x < n then x else x - n
  {
    if x < n {
      assert x == 0 * n + x;
    } else {
      assert x == 1 * n + (x - n);
    }
  }

  /** Storing x at the tail index appends x to the window. */
  lemma {:induction false} WindowPush(buf: seq<int>, head: nat, len: nat, x: int)
    requires head < |buf| && len < |buf|
    ensures Window(buf[(head + len) % |buf| := x], head, len + 1) == Window(buf, head, len) + [x]
  {
    var n := |buf|;
    var tail := (head + len) % n;
    var after := buf[tail := x];
    ModBelowTwice(head + len, n);
    forall k | 0 <= k < len
      ensures Window(after, head, len + 1)[k] == Window(buf, head, len)[k]
    {
      ModBelowTwice(head + k, n);
    }
  }

  /** The head entry is the oldest one, and advancing the head drops exactly that entry. */
  lemma {:induction false} WindowPop(buf: seq<int>, head: nat, len: nat)
    requires head < |buf| && 0 < len <= |buf|
    ensures Window(buf, head, len)[0] == buf[head]
    ensures Window(buf, (head + 1) % |buf|, len - 1) == Window(buf, head, len)[1..]
  {
    var n := |buf|;
    var next := (head + 1) % n;
    ModBelowTwice(head, n);
    assert Window(buf, head, len)[0] == buf[(head + 0) % n];
    ModBelowTwice(head + 1, n);
    forall k | 0 <= k < len - 1
      ensures Window(buf, next, len - 1)[k] == Window(buf, head, len)[1..][k]
    {
      assert Window(buf, head, len)[1..][k] == buf[(head + (k + 1)) % n];
      if head + 1 < n {
        assert next + k == head + (k + 1);
      } else {
        ModBelowTwice(head + (k + 1), n);
        ModBelowTwice(next + k, n);
      }
    }
  }

  /** Reading one more entry of the scan. */
  lemma WindowExtend(buf: seq<int>, head: nat, len: nat)
    requires head < |buf|
    ensures Window(buf, head, len + 1) == Window(buf, head, len) + [buf[(head + len) % |buf|]]
  {
  }

  /** The tail index of a head/tail ring sits Occupancy entries past its head. */
  lemma OccupancyTail(head: nat, tail: nat, n: nat)
    requires head < n && tail < n
    ensures (head + Occupancy(head, tail, n)) % n == tail
  {
    ModBelowTwice(head + Occupancy(head, tail, n), n);
  }

  /** Advancing the tail of a ring that is not about to look empty adds one entry. */
  lemma OccupancyPush(head: nat, tail: nat, n: nat)
    requires head < n && tail < n && Occupancy(head, tail, n) < n - 1
    ensures Occupancy(head, (tail + 1) % n, n) == Occupancy(head, tail, n) + 1
  {
    ModBelowTwice(tail + 1, n);
  }

  /** Advancing the head of a non-empty ring removes one entry. */
  lemma OccupancyPop(head: nat, tail: nat, n: nat)
    requires head < n && tail < n && Occupancy(head, tail, n) > 0
    ensures Occupancy((head + 1) % n, tail, n) == Occupancy(head, tail, n) - 1
  {
    ModBelowTwice(head + 1, n);
  }
}
