/** The number helpers of the process module: the next-palindrome system call and the digit
    count used to align the process listing. Both work on C ints by repeated division by 10. */
module ProcNumeric {
  import opened CLang

  const INT_MIN: int := -0x8000_0000

  /** The largest palindrome a C int holds: the palindrome search stops there at the latest. */
  const LargestIntPalindrome: int := 2147447412

  /** The decimal digits of a positive number, least significant first; none for the rest. */
  function Digits(n: int): seq<int>
    decreases if n > 0 then n else 0
  {
    if n <= 0 then [] else [n % 10] + Digits(n / 10)
  }

  /** The number a digit sequence denotes, least significant digit first. */
  function Value(d: seq<int>): int {
    if d == [] then 0 else d[0] + 10 * Value(d[1..])
  }

  predicate IsDigitSeq(d: seq<int>) {
    forall k :: 0 <= k < |d| ==> 0 <= d[k] <= 9
  }

  /** The reversal loop of next_palindrome: the digits of number appended to acc. */
  function RevAcc(number: int, acc: int): int
    decreases if number > 0 then number else 0
  {
    if number > 0 then RevAcc(number / 10, acc * 10 + number % 10) else acc
  }

  /** Whether next_palindrome stops at i: the reversal, computed in a C int, equals i. */
  predicate StopsAt(i: int) {
    ToInt32(RevAcc(i, 0)) == i
  }

  lemma {:induction false} DigitsAreDigits(n: int)
    ensures IsDigitSeq(Digits(n))
    decreases if n > 0 then n else 0
  {
    if n > 0 {
      DigitsAreDigits(n / 10);
    }
  }

  lemma {:induction false} DigitsValue(n: int)
    requires n >= 0
    ensures Value(Digits(n)) == n
    decreases n
  {
    if n > 0 {
      DigitsValue(n / 10);
    }
  }

  lemma {:induction false} ValueAppend(d: seq<int>, x: int)
    ensures Value(d + [x]) == Value(d) + x * Pow10(|d|)
  {
    if d != [] {
      assert (d + [x])[1..] == d[1..] + [x];
      ValueAppend(d[1..], x);
    }
  }

  lemma {:induction false} ValueBelow(d: seq<int>)
    requires IsDigitSeq(d)
    ensures 0 <= Value(d) < Pow10(|d|)
  {
    if d != [] {
      ValueBelow(d[1..]);
    }
  }

  /** Two digit sequences of the same length denote the same number only if they are equal. */
  lemma {:induction false} ValueInjective(a: seq<int>, b: seq<int>)
    requires IsDigitSeq(a) && IsDigitSeq(b) && |a| == |b| && Value(a) == Value(b)
    ensures a == b
  {
    if a != [] {
      ValueBelow(a[1..]);
      ValueBelow(b[1..]);
      assert a[0] == Value(a) % 10 && b[0] == Value(b) % 10;
      ValueInjective(a[1..], b[1..]);
    }
  }

  lemma {:induction false} RevAccValue(n: int, acc: int)
    requires n >= 0
    ensures RevAcc(n, acc) == acc * Pow10(|Digits(n)|) + Value(Reverse(Digits(n)))
    decreases n
  {
    if n > 0 {
      var d := n % 10;
      var rest := Digits(n / 10);
      var p := Pow10(|rest|);
      RevAccValue(n / 10, acc * 10 + d);
      assert Digits(n) == [d] + rest && Digits(n)[1..] == rest && Digits(n)[0..] == Digits(n);
      ReverseFrom(Digits(n), 1);
      ValueAppend(Reverse(rest), d);
      assert Pow10(|Digits(n)|) == 10 * p;
      calc {
        RevAcc(n, acc);
        RevAcc(n / 10, acc * 10 + d);
        (acc * 10 + d) * p + Value(Reverse(rest));
        { ShiftDigit(acc, d, p); }
        acc * (10 * p) + (Value(Reverse(rest)) + d * p);
        acc * Pow10(|Digits(n)|) + Value(Reverse(Digits(n)));
      }
    }
  }

  lemma ShiftDigit(acc: int, d: int, p: int)
    ensures (acc * 10 + d) * p == acc * (10 * p) + d * p
  {
  }

  lemma {:induction false} DigitsLength(n: int, k: nat)
    requires 0 <= n < Pow10(k)
    ensures |Digits(n)| <= k
  {
    if n > 0 {
      DigitsLength(n / 10, k - 1);
    }
  }

  lemma ToInt32OfInt(x: int)
    requires INT_MIN <= x <= INT_MAX
    ensures ToInt32(x) == x
  {
  }

  /** The reversal of a number below 10^9 is the number its reversed digits denote, and so
      stays in the range of a C int. */
  lemma ReversalInRange(i: int)
    requires 0 <= i < 1_000_000_000
    ensures RevAcc(i, 0) == Value(Reverse(Digits(i)))
    ensures 0 <= RevAcc(i, 0) < 1_000_000_000
  {
    var d := Digits(i);
    DigitsAreDigits(i);
    assert IsDigitSeq(Reverse(d));
    RevAccValue(i, 0);
    ValueBelow(Reverse(d));
    assert Pow10(9) == 1_000_000_000;
    DigitsLength(i, 9);
    Pow10Monotone(|d|, 9);
  }

  /** Below 10^9 the reversal never leaves the range of a C int, so next_palindrome stops
      exactly at the numbers whose decimal digits read the same both ways. */
  lemma StopsAtPalindromes(i: int)
    requires 0 <= i < 1_000_000_000
    ensures StopsAt(i) <==> Reverse(Digits(i)) == Digits(i)
  {
    var d := Digits(i);
    ReversalInRange(i);
    ToInt32OfInt(RevAcc(i, 0));
    DigitsValue(i);
    if Reverse(d) != d && Value(Reverse(d)) == Value(d) {
      DigitsAreDigits(i);
      assert IsDigitSeq(Reverse(d));
      ValueInjective(Reverse(d), d);
    }
  }

  lemma {:induction false} Pow10Monotone(a: nat, b: nat)
    requires a <= b
    ensures Pow10(a) <= Pow10(b)
    decreases b
  {
    if a < b {
      Pow10Monotone(a, b - 1);
    }
  }

  /** The search stops at every non-positive start only on reaching 0. */
  lemma StopsAtNonPositive(i: int)
    requires i <= 0
    ensures StopsAt(i) <==> i == 0
  {
  }

  lemma LargestIntPalindromeStops()
    ensures StopsAt(LargestIntPalindrome)
  {
    assert RevAcc(2, 214744741) == 2147447412;
    assert RevAcc(21, 21474474) == RevAcc(2, 214744741);
    assert RevAcc(214, 2147447) == RevAcc(21, 21474474);
    assert RevAcc(2147, 214744) == RevAcc(214, 2147447);
    assert RevAcc(21474, 21474) == RevAcc(2147, 214744);
    assert RevAcc(214744, 2147) == RevAcc(21474, 21474);
    assert RevAcc(2147447, 214) == RevAcc(214744, 2147);
    assert RevAcc(21474474, 21) == RevAcc(2147447, 214);
    assert RevAcc(214744741, 2) == RevAcc(21474474, 21);
    assert RevAcc(2147447412, 0) == RevAcc(214744741, 2);
  }

  /** A number the search passes over is below the largest C-int palindrome. */
  lemma BelowLargest(i: int)
    requires i <= LargestIntPalindrome && !StopsAt(i)
    ensures i < LargestIntPalindrome
  {
    LargestIntPalindromeStops();
  }

  /** next_palindrome: counting up from num, the first number the search stops at. Past the
      largest C-int palindrome the count would overflow, so num may not exceed it. */
  method NextPalindrome(num: int) returns (r: int)
    requires INT_MIN <= num <= LargestIntPalindrome
    ensures num <= r <= LargestIntPalindrome && StopsAt(r)
    ensures forall j :: num <= j < r ==> !StopsAt(j)
    ensures num <= 0 ==> r == 0
  {
    var i := num;
    while true
      invariant num <= i <= LargestIntPalindrome
      invariant forall j :: num <= j < i ==> !StopsAt(j)
      decreases LargestIntPalindrome - i
    {
      var reverse := ReverseDigits(i);
      if ToInt32(reverse) == i {
        break;
      }
      BelowLargest(i);
      i := i + 1;
    }
    r := i;
    if num <= 0 {
      if r > 0 {
        StopsAtNonPositive(0);
      }
      StopsAtNonPositive(r);
    }
  }

  /** The inner loop of next_palindrome: the digits of i, last one first, collected into
      reverse; none for a number that is not positive. */
  method ReverseDigits(i: int) returns (reverse: int)
    ensures reverse == RevAcc(i, 0)
  {
    var number := i;
    reverse := 0;
    while number > 0
      invariant RevAcc(number, reverse) == RevAcc(i, 0)
      decreases number
    {
      var digit := number % 10;
      reverse := reverse * 10 + digit;
      number := number / 10;
    }
  }

  /** The length of a positive number's digit sequence is its number of decimal digits. */
  lemma {:induction false} DigitsLengthBounds(n: int)
    requires n > 0
    ensures Pow10(|Digits(n)| - 1) <= n < Pow10(|Digits(n)|)
    decreases n
  {
    if n >= 10 {
      DigitsLengthBounds(n / 10);
    }
  }

  /** num_digits: the characters the number takes when printed in decimal, a minus sign
      included. -n of the smallest int overflows back to itself, which leaves only the sign. */
  method NumDigits(n: int) returns (count: nat)
    requires INT_MIN <= n <= INT_MAX
    ensures n == 0 ==> count == 1
    ensures n > 0 ==> count >= 1 && Pow10(count - 1) <= n < Pow10(count)
    ensures INT_MIN < n < 0 ==> count >= 2 && Pow10(count - 2) <= -n < Pow10(count - 1)
    ensures n == INT_MIN ==> count == 1
  {
    if n == 0 {
      return 1;
    }
    count := 0;
    var m := n;
    if m < 0 {
      count := count + 1;
      NegatedInt32(m);
      m := ToInt32(-m);
    }
    ghost var sign := count;
    ghost var start := m;
    while m > 0
      invariant start > 0 ==> m >= 0 && count - sign + |Digits(m)| == |Digits(start)|
      invariant start <= 0 ==> m == start && count == sign
      decreases if m > 0 then m else 0
    {
      count := count + 1;
      m := m / 10;
    }
    if start > 0 {
      DigitsLengthBounds(start);
      assert count == sign + |Digits(start)|;
    }
  }

  /** -n in a C int: the smallest int is its own negation. */
  lemma NegatedInt32(n: int)
    requires INT_MIN <= n < 0
    ensures ToInt32(-n) == if n == INT_MIN then INT_MIN else -n
  {
  }
}
