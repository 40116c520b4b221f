/** The user program that runs the reader-writer experiment: it halves the pattern until
    it reaches zero to learn how many child processes to fork, one per duty. */
module ReaderWriter {
  import opened CLang
  import RwPattern

  /** The halving loop of main, on a C int with C's truncating division: the number of
      times the pattern can be halved before it reaches 0. */
  method ProcessCount(pattern: int) returns (n: nat)
    requires -0x8000_0000 <= pattern <= INT_MAX
    ensures n == if pattern == 0 then 0 else RwPattern.BitLength(Abs(pattern)) - 1
    ensures -1 <= pattern <= 1 ==> n == 0
  {
    var c := pattern;
    n := 0;
    while true
      invariant Abs(c) == RwPattern.Shift(Abs(pattern), n)
      invariant pattern != 0 ==> c != 0 && RwPattern.BitLength(Abs(pattern)) == n + RwPattern.BitLength(Abs(c))
      invariant pattern == 0 ==> c == 0 && n == 0
      decreases Abs(c)
    {
      RwPattern.ShiftOnce(Abs(pattern), n);
      ghost var c0 := c;
      c := CDiv(c, 2);
      assert Abs(c) == Abs(c0) / 2;
      if c == 0 {
        break;
      }
      RwPattern.BitLengthOfShift(Abs(pattern), n + 1);
      n := n + 1;
    }
  }

  /** For a positive pattern the program forks exactly one child per duty that
      get_rw_pattern stores, so every child finds a duty to take. */
  lemma ProcessCountMatchesDuties(pattern: int)
    requires 1 <= pattern <= INT_MAX
    ensures RwPattern.BitLength(Abs(pattern)) - 1 == |RwPattern.Duties(pattern)|
  {
    RwPattern.DutiesAreStoredBits(pattern);
  }

  /** A pattern of -2 or less (atoi's value for a large unsigned argument) still makes the
      program fork children, one for each halving, while get_rw_pattern stores no bit and
      leaves its count at -1: the first child's duty read falls outside the sequence. */
  lemma NegativePatternForksWithoutDuties(pattern: int)
    requires -0x8000_0000 <= pattern <= -2
    ensures RwPattern.BitLength(Abs(pattern)) - 1 >= 1
    ensures RwPattern.BitLength(pattern) - 1 == -1
  {
    assert RwPattern.BitLength(Abs(pattern)) == 1 + RwPattern.BitLength(Abs(pattern) / 2);
  }
}
