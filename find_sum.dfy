/** The find_sum user program: every maximal run of decimal digits in its arguments counts
    with its decimal value, and the total is written to a file. The argument loop runs one
    entry past the last argument, where argv holds a null pointer; the string found there is
    a parameter of the model. */
module FindSum {
  import opened CLang

  /** The longest suffix of s made of digits. */
  function Trailing(s: string): (t: string)
    ensures |t| <= |s|
    ensures s != [] && IsDigit(s[|s| - 1]) ==> |t| >= 1
  {
    if s != [] && IsDigit(s[|s| - 1]) then Trailing(s[..|s| - 1]) + [s[|s| - 1]] else []
  }

  /** The trailing run is a suffix of digits, and the character before it, if any, is not a
      digit: it is the longest such suffix. */
  lemma {:induction false} TrailingIsLongestDigitSuffix(s: string)
    ensures var t := Trailing(s);
      t == s[|s| - |t|..] && AllDigits(t) && (|t| < |s| ==> !IsDigit(s[|s| - |t| - 1]))
  {
    if s != [] && IsDigit(s[|s| - 1]) {
      var p := s[..|s| - 1];
      TrailingIsLongestDigitSuffix(p);
      var t := Trailing(p);
      assert s[|s| - |t| - 1..] == p[|p| - |t|..] + [s[|s| - 1]];
      if |t| < |p| {
        assert s[|s| - |t| - 2] == p[|p| - |t| - 1];
      }
    }
  }

  /** The sum of the values of the maximal digit runs of s. */
  function SumOfRuns(s: string): int
    decreases |s|
  {
    if s == [] then 0
    else if IsDigit(s[|s| - 1]) then
      var t := Trailing(s);
      Decimal(t) + SumOfRuns(s[..|s| - |t|])
    else SumOfRuns(s[..|s| - 1])
  }

  /** The runs of s that have ended: everything before its trailing run. */
  function Completed(s: string): int {
    SumOfRuns(s[..|s| - |Trailing(s)|])
  }

  lemma SumOfRunsSplit(s: string)
    ensures SumOfRuns(s) == Completed(s) + Decimal(Trailing(s))
  {
    if s != [] && !IsDigit(s[|s| - 1]) {
      assert s[..|s| - 0] == s;
    }
    if s == [] {
      assert s[..0] == s;
    }
  }

  lemma TrailingDigit(p: string, c: char)
    requires IsDigit(c)
    ensures Trailing(p + [c]) == Trailing(p) + [c]
    ensures Completed(p + [c]) == Completed(p)
  {
    assert (p + [c])[..|p|] == p;
    var t := Trailing(p + [c]);
    assert (p + [c])[..|p| + 1 - |t|] == p[..|p| - |Trailing(p)|];
  }

  lemma TrailingOther(p: string, c: char)
    requires !IsDigit(c)
    ensures Trailing(p + [c]) == []
    ensures Completed(p + [c]) == Completed(p) + Decimal(Trailing(p))
  {
    assert (p + [c])[..|p|] == p;
    assert (p + [c])[..|p| + 1] == p + [c];
    SumOfRunsSplit(p);
  }

  /** The summed values of the strings. */
  function SumAll(strings: seq<string>): int {
    if strings == [] then 0 else SumAll(strings[..|strings| - 1]) + SumOfRuns(strings[|strings| - 1])
  }

  /** main: a usage error with fewer than two arguments; otherwise the 32-bit total of the
      strings argv[1] to argv[argc], the last being the one at the null pointer. */
  method FindSum(argv: seq<CString>, atNull: CString) returns (result: Option<int>)
    ensures |argv| < 2 ==> result == None
    ensures |argv| >= 2 ==> result == Some(ToInt32(SumAll(argv[1..] + [atNull])))
  {
    var argc := |argv|;
    if argc < 2 {
      return None;
    }
    ghost var strings := argv + [atNull];
    var sum := 0;
    var i := 1;
    while i <= argc
      invariant 1 <= i <= argc + 1
      invariant sum == SumAll(strings[1..i])
    {
      var str := if i < argc then argv[i] else atNull;
      assert str == strings[i];
      sum := AddRuns(str, sum);
      assert strings[1..i + 1][..i - 1] == strings[1..i];
      i := i + 1;
    }
    assert strings[1..argc + 1] == argv[1..] + [atNull];
    return Some(ToInt32(sum));
  }

  /** The inner loop of main over one string: the value of each digit run is built up in
      current and added to the sum when a non-digit or the end of the string ends the run. */
  method AddRuns(str: string, sum0: int) returns (sum: int)
    ensures sum == sum0 + SumOfRuns(str)
  {
    sum := sum0;
    var current := 0;
    var inNumber := false;
    var j := 0;
    while j < |str|
      invariant 0 <= j <= |str|
      invariant current == Decimal(Trailing(str[..j]))
      invariant inNumber <==> |Trailing(str[..j])| > 0
      invariant sum == sum0 + Completed(str[..j])
    {
      assert str[..j + 1] == str[..j] + [str[j]];
      if IsDigit(str[j]) {
        TrailingDigit(str[..j], str[j]);
        current := current * 10 + DigitValue(str[j]);
        inNumber := true;
      } else {
        TrailingOther(str[..j], str[j]);
        if inNumber {
          sum := sum + current;
          current := 0;
          inNumber := false;
        }
      }
      j := j + 1;
    }
    assert str[..j] == str;
    SumOfRunsSplit(str);
    if inNumber {
      sum := sum + current;
    }
  }

  /** A string without digits adds nothing. */
  lemma {:induction false} NoDigitsAddNothing(s: string)
    requires forall k :: 0 <= k < |s| ==> !IsDigit(s[k])
    ensures SumOfRuns(s) == 0
  {
    if s != [] {
      NoDigitsAddNothing(s[..|s| - 1]);
    }
  }

  /** A string of digits is one run, counted even though it reaches the end of the string. */
  lemma {:induction false} DigitsAreOneRun(s: string)
    requires s != [] && AllDigits(s)
    ensures SumOfRuns(s) == Decimal(s)
  {
    TrailingOfDigits(s);
    assert s[..0] == [];
  }

  lemma {:induction false} TrailingOfDigits(s: string)
    requires AllDigits(s)
    ensures Trailing(s) == s
  {
    if s != [] {
      TrailingOfDigits(s[..|s| - 1]);
    }
  }

  lemma {:induction false} TrailingAfterSeparator(a: string, c: char, b: string)
    requires !IsDigit(c)
    ensures Trailing(a + [c] + b) == Trailing(b)
  {
    if b == [] {
      assert (a + [c] + b)[|a + [c] + b| - 1] == c;
    } else {
      var front := b[..|b| - 1];
      assert (a + [c] + b)[..|a + [c] + b| - 1] == a + [c] + front;
      TrailingAfterSeparator(a, c, front);
    }
  }

  /** A non-digit separates runs: the sum of a string is the sums of the pieces on either
      side of it. */
  lemma {:induction false} SeparatorSplitsRuns(a: string, c: char, b: string)
    requires !IsDigit(c)
    ensures SumOfRuns(a + [c] + b) == SumOfRuns(a) + SumOfRuns(b)
    decreases |b|
  {
    if b == [] {
      assert (a + [c] + b)[..|a| + 1 - 1] == a;
    } else if !IsDigit(b[|b| - 1]) {
      SeparatorOtherEnd(a, c, b);
      SeparatorSplitsRuns(a, c, b[..|b| - 1]);
    } else {
      SeparatorDigitEnd(a, c, b);
      SeparatorSplitsRuns(a, c, b[..|b| - |Trailing(b)|]);
    }
  }

  lemma SumOfRunsOtherEnd(s: string)
    requires s != [] && !IsDigit(s[|s| - 1])
    ensures SumOfRuns(s) == SumOfRuns(s[..|s| - 1])
  {
  }

  lemma SumOfRunsDigitEnd(s: string)
    requires s != [] && IsDigit(s[|s| - 1])
    ensures SumOfRuns(s) == Decimal(Trailing(s)) + SumOfRuns(s[..|s| - |Trailing(s)|])
  {
  }

  lemma SeparatorOtherEnd(a: string, c: char, b: string)
    requires b != [] && !IsDigit(b[|b| - 1])
    ensures SumOfRuns(a + [c] + b) == SumOfRuns(a + [c] + b[..|b| - 1])
    ensures SumOfRuns(b) == SumOfRuns(b[..|b| - 1])
  {
    var s := a + [c] + b;
    assert s[|s| - 1] == b[|b| - 1];
    SumOfRunsOtherEnd(s);
    SumOfRunsOtherEnd(b);
    assert s[..|s| - 1] == a + [c] + b[..|b| - 1];
  }

  lemma SeparatorDigitEnd(a: string, c: char, b: string)
    requires !IsDigit(c) && b != [] && IsDigit(b[|b| - 1])
    ensures var t := Trailing(b);
      SumOfRuns(a + [c] + b) == Decimal(t) + SumOfRuns(a + [c] + b[..|b| - |t|]) &&
      SumOfRuns(b) == Decimal(t) + SumOfRuns(b[..|b| - |t|])
  {
    var s := a + [c] + b;
    TrailingAfterSeparator(a, c, b);
    var t := Trailing(b);
    assert Trailing(s) == t;
    assert s[|s| - 1] == b[|b| - 1];
    SumOfRunsDigitEnd(s);
    SumOfRunsDigitEnd(b);
    var front := s[..|s| - |t|];
    assert front == a + [c] + b[..|b| - |t|];
    assert SumOfRuns(s) == Decimal(t) + SumOfRuns(front);
  }
}
