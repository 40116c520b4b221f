/** The duty sequence of the reader-writer experiment. get_rw_pattern writes the binary digits
    of a pattern, least significant first, into a 100-entry array and keeps one less than their
    number; each process that critical_section starts takes the entry below that count and
    decrements it, so the processes take the bits below the leading 1 from the most to the
    least significant, a 0 making a reader and a 1 a writer. */
module RwPattern {
  import opened CLang

  const SequenceSize: nat := 100

  /** The number of binary digits of a positive number; 0 for the rest. */
  function BitLength(p: int): (r: nat)
    ensures p <= 0 ==> r == 0
    ensures p > 0 ==> r >= 1
  {
    if p <= 0 then 0 else 1 + BitLength(p / 2)
  }

  /** p halved k times. */
  function Shift(p: int, k: nat): int
    decreases k
  {
    if k == 0 then p else Shift(p / 2, k - 1)
  }

  /** Binary digit k of a non-negative number. */
  function Bit(p: int, k: nat): int {
    Shift(p, k) % 2
  }

  lemma {:induction false} ShiftOnce(p: int, k: nat)
    ensures Shift(p, k + 1) == Shift(p, k) / 2
    decreases k
  {
    if k > 0 {
      ShiftOnce(p / 2, k - 1);
    }
  }

  lemma {:induction false} BitLengthOfShift(p: int, k: nat)
    requires p >= 0 && Shift(p, k) > 0
    ensures BitLength(p) == k + BitLength(Shift(p, k))
  {
    if k > 0 {
      assert Shift(p, k) == Shift(p / 2, k - 1);
      BitLengthOfShift(p / 2, k - 1);
    }
  }

  lemma {:induction false} BitLengthBelow(p: int, k: nat)
    requires 0 <= p < Pow2(k)
    ensures BitLength(p) <= k
  {
    if p > 0 {
      BitLengthBelow(p / 2, k - 1);
    }
  }

  /** A pattern that fits in a C int has at most 31 binary digits. */
  lemma IntPatternBits(p: int)
    requires 0 <= p <= INT_MAX
    ensures BitLength(p) <= 31
  {
    Pow2Value31();
    BitLengthBelow(p, 31);
  }

  function Pow2(k: nat): (r: nat)
    ensures r >= 1
  {
    if k == 0 then 1 else 2 * Pow2(k - 1)
  }

  lemma Pow2Value31()
    ensures Pow2(31) == INT_MAX + 1
  {
    assert Pow2(10) == 1024;
    assert Pow2(20) == 1024 * 1024;
    assert Pow2(30) == 1024 * 1024 * 1024;
  }

  /** The duties in the order the processes take them: the bits below the leading 1, most
      significant first. */
  function Duties(p: int): seq<int> {
    if p <= 1 then [] else Duties(p / 2) + [p % 2]
  }

  /** The number a sequence of binary digits spells, most significant first. */
  function FromBits(bits: seq<int>): int {
    if bits == [] then 0 else 2 * FromBits(bits[..|bits| - 1]) + bits[|bits| - 1]
  }

  /** A positive pattern is a leading 1 followed by the duties, so every reader/writer
      arrangement is encoded by exactly one pattern. */
  lemma {:induction false} PatternSpellsDuties(p: int)
    requires p >= 1
    ensures FromBits([1] + Duties(p)) == p
    ensures forall j :: 0 <= j < |Duties(p)| ==> Duties(p)[j] == 0 || Duties(p)[j] == 1
  {
    if p > 1 {
      PatternSpellsDuties(p / 2);
      var bits := [1] + Duties(p);
      assert bits[..|bits| - 1] == [1] + Duties(p / 2);
    }
  }

  /** The duties are the entries of the sequence get_rw_pattern writes, read from the count
      it keeps downwards. */
  lemma {:induction false} DutiesAreStoredBits(p: int)
    requires p >= 1
    ensures |Duties(p)| == BitLength(p) - 1
    ensures forall j :: 0 <= j < |Duties(p)| ==> Duties(p)[j] == Bit(p, |Duties(p)| - 1 - j)
  {
    if p > 1 {
      DutiesAreStoredBits(p / 2);
      var m := |Duties(p / 2)|;
      forall j | 0 <= j < m + 1
        ensures Duties(p)[j] == Bit(p, m - j)
      {
        if j < m {
          assert Bit(p, m - j) == Bit(p / 2, m - j - 1);
        }
      }
    }
  }

  /** The role a duty gives to the process that takes it. */
  datatype Role = Reader | Writer | NoRole

  function RoleOf(duty: int): (r: Role)
    ensures r == Reader <==> duty == 0
    ensures r == Writer <==> duty == 1
  {
    if duty == 0 then Reader else if duty == 1 then Writer else NoRole
  }

  /** Every duty a positive pattern stores makes its process a reader or a writer. */
  lemma StoredDutiesHaveRoles(p: int)
    requires p >= 1
    ensures forall j :: 0 <= j < |Duties(p)| ==> RoleOf(Duties(p)[j]) != NoRole
  {
    PatternSpellsDuties(p);
  }

  class DutySequence {
    const sequence: array<int>
    var count: int

    constructor ()
      ensures sequence.Length == SequenceSize && fresh(sequence) && count == 0
    {
      sequence := new int[SequenceSize](_ => 0);
      count := 0;
    }

    /** get_rw_pattern: the binary digits of the pattern, least significant first, and one
        less than their number (-1 for a pattern that is not positive). */
    method GetRwPattern(pattern: int)
      requires sequence.Length == SequenceSize && pattern <= INT_MAX
      modifies this`count, sequence
      ensures BitLength(pattern) <= 31 && count == BitLength(pattern) - 1
      ensures forall k :: 0 <= k < BitLength(pattern) ==> sequence[k] == Bit(pattern, k)
      ensures forall k :: BitLength(pattern) <= k < SequenceSize ==> sequence[k] == old(sequence[k])
    {
      var t := pattern;
      var n := 0;
      if pattern > 0 {
        IntPatternBits(pattern);
      }
      while t > 0
        invariant 0 <= n
        invariant t == Shift(pattern, n)
        invariant pattern > 0 ==> n <= BitLength(pattern)
        invariant t > 0 ==> BitLength(pattern) == n + BitLength(t)
        invariant t <= 0 ==> n == BitLength(pattern)
        invariant forall k :: 0 <= k < n ==> sequence[k] == Bit(pattern, k)
        invariant forall k :: n <= k < SequenceSize ==> sequence[k] == old(sequence[k])
        decreases t
      {
        assert t % 2 == Bit(pattern, n);
        sequence[n] := t % 2;
        ShiftOnce(pattern, n);
        if t / 2 > 0 {
          BitLengthOfShift(pattern, n + 1);
        }
        t := t / 2;
        n := n + 1;
      }
      count := n - 1;
    }

    /** The duty taking of critical_section: the entry just below the count, and the count
        decremented. A count outside 1..100 makes the source read outside the array; the
        model reports that read as None, since the value found there is not the model's. */
    method TakeDuty() returns (duty: Option<int>)
      requires sequence.Length == SequenceSize
      modifies this`count
      ensures count == old(count) - 1
      ensures 1 <= old(count) <= SequenceSize ==> duty == Some(sequence[old(count) - 1])
      ensures !(1 <= old(count) <= SequenceSize) ==> duty == None
    {
      if 1 <= count <= SequenceSize {
        duty := Some(sequence[count - 1]);
      } else {
        duty := None;
      }
      count := count - 1;
    }
  }
}
