/** Pieces of C semantics shared by the whole model: optional values standing in for
    possibly-null pointers, NUL-terminated strings, 32-bit wrap-around and the
    truncating integer division of C. */
module CLang {

  datatype Option<+T> = None | Some(value: T)

  /** The characters of a C string, without its terminator. */
  predicate NulFree(s: string) {
    forall i :: 0 <= i < |s| ==> s[i] != '\0'
  }

  type CString = s: string | NulFree(s)

  /** The character at position i of a C string whose terminator follows s. */
  function CharAt(s: string, i: nat): char {
    if i < |s| then s[i] else '\0'
  }

  /** The C string that starts at the beginning of a byte buffer: everything before the first NUL. */
  function CStr(buf: string): (r: CString)
    ensures |r| <= |buf| && r == buf[..|r|]
    ensures |r| < |buf| ==> buf[|r|] == '\0'
  {
    if buf == [] || buf[0] == '\0' then "" else [buf[0]] + CStr(buf[1..])
  }

  /** A sequence in reverse order. */
  function Reverse<T>(s: seq<T>): (r: seq<T>)
    ensures |r| == |s|
    ensures forall k :: 0 <= k < |s| ==> r[k] == s[|s| - 1 - k]
  {
    if s == [] then [] else Reverse(s[1..]) + [s[0]]
  }

  lemma ReverseSnoc<T>(s: seq<T>, x: T)
    ensures Reverse(s + [x]) == [x] + Reverse(s)
  {
    var r := Reverse(s + [x]);
    assert forall k :: 0 <= k < |r| ==> r[k] == ([x] + Reverse(s))[k];
  }

  /** Reading a sequence backwards from its end down to position i - 1. */
  lemma ReverseFrom<T>(s: seq<T>, i: nat)
    requires 0 < i <= |s|
    ensures Reverse(s[i - 1..]) == Reverse(s[i..]) + [s[i - 1]]
  {
    assert s[i - 1..][1..] == s[i..];
  }

  const TWO_32: int := 0x1_0000_0000
  const INT_MAX: int := 0x7fff_ffff

  /** Conversion to a 32-bit two's-complement int: what gcc does for int and unsigned arithmetic. */
  function ToInt32(x: int): (r: int)
    ensures -0x8000_0000 <= r <= INT_MAX
    ensures (r - x) % TWO_32 == 0
  {
    (x + 0x8000_0000) % TWO_32 - 0x8000_0000
  }

  /** C's `a / b`: the quotient truncated toward zero (Dafny's `/` is Euclidean). */
  function CDiv(a: int, b: int): (q: int)
    requires b > 0
    ensures Abs(q) == Abs(a) / b
    ensures a >= 0 ==> 0 <= q && q * b <= a < q * b + b
    ensures a < 0 ==> q <= 0 && q * b - b < a <= q * b
  {
    if a >= 0 then a / b else -((-a) / b)
  }

  function Abs(x: int): nat { if x < 0 then -x else x }

  /** 10 to the power k. */
  function Pow10(k: nat): (r: nat)
    ensures r >= 1
  {
    if k == 0 then 1 else 10 * Pow10(k - 1)
  }

  function IsDigit(c: char): bool { '0' <= c <= '9' }

  function DigitValue(c: char): int { c as int - '0' as int }

  predicate AllDigits(s: string) {
    forall k :: 0 <= k < |s| ==> IsDigit(s[k])
  }

  /** The value of a string of decimal digits, as accumulated by `n = n * 10 + (c - '0')`. */
  function Decimal(s: string): int {
    if s == [] then 0 else 10 * Decimal(s[..|s| - 1]) + DigitValue(s[|s| - 1])
  }

  /** strncmp(a, b, n) == 0: the strings agree up to the first terminator or the first n
      characters, whichever comes first. */
  function StrNEqual(a: CString, b: CString, n: nat): bool
    decreases n
  {
    if n == 0 then true
    else if a == [] || b == [] || a[0] != b[0] then CharAt(a, 0) == CharAt(b, 0)
    else StrNEqual(a[1..], b[1..], n - 1)
  }

  /** A string shorter than n agrees with another under strncmp exactly when they are equal. */
  lemma {:induction false} StrNEqualShort(a: CString, b: CString, n: nat)
    requires |a| < n
    ensures StrNEqual(a, b, n) <==> a == b
    decreases n
  {
    if a != [] && b != [] && a[0] == b[0] {
      StrNEqualShort(a[1..], b[1..], n - 1);
      if a[1..] == b[1..] {
        assert a == [a[0]] + a[1..] && b == [b[0]] + b[1..];
      }
    }
  }

  /** strncmp over as many characters as the first string holds: a prefix test. */
  lemma {:induction false} StrNEqualPrefix(a: CString, b: CString)
    ensures StrNEqual(a, b, |a|) <==> |a| <= |b| && b[..|a|] == a
  {
    if a != [] && b != [] && a[0] == b[0] {
      StrNEqualPrefix(a[1..], b[1..]);
      if |a| <= |b| && b[1..][..|a| - 1] == a[1..] {
        assert b[..|a|] == [b[0]] + b[1..][..|a| - 1];
      }
      if |a| <= |b| && b[..|a|] == a {
        assert b[1..][..|a| - 1] == b[..|a|][1..];
      }
    }
  }
}
