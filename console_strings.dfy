/** The string routines the console defines for itself to colour the keywords of a '!'
    command, and the digit conversion of its printf. */
module ConsoleStrings {
  import opened CLang

  /** The keywords shown in colour. */
  const Keywords: seq<CString> := ["void", "int", "char", "if", "for", "while", "return"]

  /** The digits printint converts with, for bases up to 16. */
  const DigitChars: seq<char> := "0123456789abcdef"

  /** strchr: the index of the first c in the string. The scan stops at the terminator, so
      the terminator itself is never found. */
  method StrChr(s: CString, c: char) returns (r: Option<nat>)
    ensures r.Some? ==> r.value < |s| && s[r.value] == c && c !in s[..r.value]
    ensures r.None? <==> c !in s
    ensures c == '\0' ==> r == None
  {
    var i := 0;
    while CharAt(s, i) != '\0'
      invariant 0 <= i <= |s|
      invariant c !in s[..i]
      decreases |s| - i
    {
      if CharAt(s, i) == c {
        return Some(i);
      }
      assert s[..i + 1] == s[..i] + [s[i]];
      i := i + 1;
    }
    assert s[..i] == s;
    return None;
  }

  /** The length of the longest common prefix of two strings. */
  function CommonPrefix(a: string, b: string): (k: nat)
    ensures k <= |a| && k <= |b| && a[..k] == b[..k]
    ensures k < |a| && k < |b| ==> a[k] != b[k]
  {
    if a == [] || b == [] || a[0] != b[0] then 0
    else
      var k := 1 + CommonPrefix(a[1..], b[1..]);
      assert a[..k] == [a[0]] + a[1..][..k - 1];
      assert b[..k] == [b[0]] + b[1..][..k - 1];
      k
  }

  /** A character read as the unsigned char C compares. */
  function Byte(c: char): int {
    (c as int) % 256
  }

  /** strcmp: the difference of the unsigned characters at the first position where the
      strings differ, the terminator counting as a character. */
  method StrCmp(a: CString, b: CString) returns (d: int)
    ensures var k := CommonPrefix(a, b); d == Byte(CharAt(a, k)) - Byte(CharAt(b, k))
  {
    var i := 0;
    while CharAt(a, i) != '\0' && CharAt(a, i) == CharAt(b, i)
      invariant 0 <= i <= |a| && i <= |b|
      invariant a[..i] == b[..i]
      decreases |a| - i
    {
      assert a[..i + 1] == a[..i] + [a[i]] && b[..i + 1] == b[..i] + [b[i]];
      i := i + 1;
    }
    CommonPrefixAt(a, b, i);
    d := Byte(CharAt(a, i)) - Byte(CharAt(b, i));
  }

  lemma {:induction false} CommonPrefixAt(a: CString, b: CString, i: nat)
    requires i <= |a| && i <= |b| && a[..i] == b[..i]
    requires CharAt(a, i) == '\0' || CharAt(a, i) != CharAt(b, i)
    ensures CommonPrefix(a, b) == i
  {
    if i > 0 {
      assert a[0] == a[..i][0] && b[0] == b[..i][0];
      assert a[1..][..i - 1] == a[..i][1..] && b[1..][..i - 1] == b[..i][1..];
      CommonPrefixAt(a[1..], b[1..], i - 1);
    } else if a != [] && b != [] {
      assert CharAt(a, 0) == a[0] && CharAt(b, 0) == b[0];
    }
  }

  /** For bytes, strcmp gives 0 exactly for equal strings. */
  lemma StrCmpZeroIffEqual(a: CString, b: CString)
    requires forall k :: 0 <= k < |a| ==> a[k] as int < 256
    requires forall k :: 0 <= k < |b| ==> b[k] as int < 256
    ensures var k := CommonPrefix(a, b); Byte(CharAt(a, k)) - Byte(CharAt(b, k)) == 0 <==> a == b
  {
    var k := CommonPrefix(a, b);
    var x, y := CharAt(a, k), CharAt(b, k);
    assert x as int < 256 && y as int < 256;
    ByteOfSmall(x);
    ByteOfSmall(y);
    if k == |a| && k == |b| {
      assert a == a[..k] && b == b[..k];
    } else if k < |a| && k < |b| {
      assert x == a[k] && y == b[k] && x != y;
    } else if k < |a| {
      assert x == a[k] && x != '\0' && y == '\0' && |a| != |b|;
    } else {
      assert y == b[k] && y != '\0' && x == '\0' && |a| != |b|;
    }
  }

  lemma ByteOfSmall(c: char)
    requires c as int < 256
    ensures Byte(c) == c as int
  {
  }

  /** is_keyword: 1 exactly when the word is one of the seven keywords. */
  method IsKeyword(word: CString) returns (r: int)
    requires forall k :: 0 <= k < |word| ==> word[k] as int < 256
    ensures r == 1 <==> word in Keywords
    ensures r == 0 || r == 1
  {
    var i := 0;
    while i < |Keywords|
      invariant 0 <= i <= |Keywords|
      invariant word !in Keywords[..i]
    {
      var d := StrCmp(word, Keywords[i]);
      StrCmpZeroIffEqual(word, Keywords[i]);
      if d == 0 {
        return 1;
      }
      assert Keywords[..i + 1] == Keywords[..i] + [Keywords[i]];
      i := i + 1;
    }
    return 0;
  }

  /** strtok with its static pointer to where the next call resumes. A delimiter that ends
      a token is overwritten with a terminator in the buffer the token came from, and last
      then points into that buffer. A call that finds no token leaves last where it was,
      even when it was handed a new string. */
  class Tokenizer {
    /** The buffer last points into: the string of the last call that found a token. */
    var text: string
    /** last: the index in text where the next call resumes; None for the null pointer. */
    var last: Option<nat>

    constructor ()
      ensures last == None && text == []
    {
      text := [];
      last := None;
    }

    /** strtok: skip delimiters, then take characters up to the next delimiter or the end.
        The token is returned as the C string that starts at its first character. */
    method StrTok(str: Option<string>, delimiters: CString) returns (token: Option<nat>)
      modifies this
      ensures token.Some? && str.Some? ==> |text| == |str.value|
      ensures str.None? ==> |text| == |old(text)|
      ensures var s := if str.Some? then str.value else old(text);
        var p := if str.Some? then Some(0) else old(last);
        token == TokenStart(s, p, delimiters) &&
        (token.None? ==> text == old(text) && last == old(last)) &&
        (token.Some? ==> var e := TokenEnd(s, token.value, delimiters);
          (e < |s| && s[e] != '\0' ==> text == s[e := '\0'] && last == Some(e + 1)) &&
          (!(e < |s| && s[e] != '\0') ==> text == s && last == None))
    {
      var s := if str.Some? then str.value else text;
      var p := if str.Some? then Some(0) else last;
      if p.None? {
        return None;
      }
      var i := p.value;
      // strchr(delimiters, c) is not null exactly when c is in delimiters (StrChr).
      while CharAt(s, i) != '\0' && CharAt(s, i) in delimiters
        invariant p.value <= i && (i <= |s| || i == p.value)
        invariant SkipDelimiters(s, p.value, delimiters) == SkipDelimiters(s, i, delimiters)
        decreases |s| - i
      {
        i := i + 1;
      }
      if CharAt(s, i) == '\0' {
        return None;
      }
      var start := i;
      while CharAt(s, i) != '\0' && CharAt(s, i) !in delimiters
        invariant start <= i <= |s|
        invariant TokenEnd(s, start, delimiters) == TokenEnd(s, i, delimiters)
        decreases |s| - i
      {
        i := i + 1;
      }
      if CharAt(s, i) != '\0' {
        text := s[i := '\0'];
        last := Some(i + 1);
      } else {
        text := s;
        last := None;
      }
      return Some(start);
    }
  }

  /** The first index from i on that is not a delimiter, or that holds the end of the string. */
  function SkipDelimiters(s: string, i: nat, delimiters: CString): (j: nat)
    ensures j >= i && (j > i ==> j <= |s|)
    ensures CharAt(s, j) == '\0' || CharAt(s, j) !in delimiters
    decreases |s| - i
  {
    if CharAt(s, i) != '\0' && CharAt(s, i) in delimiters then SkipDelimiters(s, i + 1, delimiters) else i
  }

  /** The index of the delimiter or end of string that ends a token starting at i. */
  function TokenEnd(s: string, i: nat, delimiters: CString): (j: nat)
    ensures j >= i && (j > i ==> j <= |s|)
    ensures forall k :: i <= k < j ==> s[k] != '\0' && s[k] !in delimiters
    ensures CharAt(s, j) == '\0' || CharAt(s, j) in delimiters
    decreases |s| - i
  {
    if CharAt(s, i) != '\0' && CharAt(s, i) !in delimiters then TokenEnd(s, i + 1, delimiters) else i
  }

  /** Where strtok's next token starts, resuming at p in s: None when only delimiters are
      left, or when there is nothing to resume. */
  function TokenStart(s: string, p: Option<nat>, delimiters: CString): (t: Option<nat>)
    ensures t.Some? ==> t.value < |s| && s[t.value] != '\0' && s[t.value] !in delimiters
  {
    if p.None? then None
    else
      var j := SkipDelimiters(s, p.value, delimiters);
      if CharAt(s, j) == '\0' then None else Some(j)
  }

  /** A token holds no delimiter and is not empty; every character strtok skipped before it
      is a delimiter. */
  lemma TokenIsDelimiterFree(s: string, p: nat, delimiters: CString)
    requires TokenStart(s, Some(p), delimiters).Some?
    ensures var t := TokenStart(s, Some(p), delimiters).value;
      var e := TokenEnd(s, t, delimiters);
      p <= t < e && (forall k :: p <= k < t ==> s[k] in delimiters) &&
      (forall k :: t <= k < e ==> s[k] !in delimiters)
  {
    SkippedAreDelimiters(s, p, delimiters);
  }

  lemma {:induction false} SkippedAreDelimiters(s: string, i: nat, delimiters: CString)
    ensures forall k :: i <= k < SkipDelimiters(s, i, delimiters) ==> s[k] in delimiters
    decreases |s| - i
  {
    if CharAt(s, i) != '\0' && CharAt(s, i) in delimiters {
      SkippedAreDelimiters(s, i + 1, delimiters);
    }
  }

  /** The bases printf converts in: %d and %x, %p. */
  predicate ValidBase(base: nat) {
    base == 10 || base == 16
  }

  /** x / base: the digits after the least significant one. */
  function Shifted(x: nat, base: nat): (q: nat)
    requires ValidBase(base)
    ensures q <= x && (x > 0 ==> q < x) && (q == 0 <==> x < base)
  {
    if base == 10 then x / 10 else x / 16
  }

  /** digits[x % base]: the character of the least significant digit. */
  function LowDigit(x: nat, base: nat): (c: char)
    requires ValidBase(base)
    ensures DigitIndex(c) < base
  {
    var d := if base == 10 then x % 10 else x % 16;
    DigitIndexOfDigit(d);
    DigitChars[d]
  }

  /** x is base times x / base plus the value of its low digit. */
  lemma ShiftedRemainder(x: nat, base: nat)
    requires ValidBase(base)
    ensures x == Shifted(x, base) * base + DigitIndex(LowDigit(x, base))
  {
    var d := if base == 10 then x % 10 else x % 16;
    DigitIndexOfDigit(d);
  }

  /** The digits of x in base, most significant first; 0 has the single digit "0". */
  function DigitString(x: nat, base: nat): (r: string)
    requires ValidBase(base)
    ensures |r| >= 1
    decreases x
  {
    if x < base then [LowDigit(x, base)] else DigitString(Shifted(x, base), base) + [LowDigit(x, base)]
  }

  /** The value of a string of digits of the base, most significant first. */
  function DigitsValue(s: string, base: nat): int
    requires ValidBase(base)
  {
    if s == [] then 0 else DigitsValue(s[..|s| - 1], base) * base + DigitIndex(s[|s| - 1])
  }

  /** The digit a character of the table stands for; 16 for other characters. */
  function DigitIndex(c: char): nat {
    if '0' <= c <= '9' then c as nat - '0' as nat
    else if 'a' <= c <= 'f' then c as nat - 'a' as nat + 10
    else 16
  }

  lemma DigitIndexOfDigit(d: nat)
    requires d < 16
    ensures DigitIndex(DigitChars[d]) == d
  {
  }

  /** The printed digits read back as the number printed. */
  lemma {:induction false} DigitStringValue(x: nat, base: nat)
    requires ValidBase(base)
    ensures DigitsValue(DigitString(x, base), base) == x
    decreases x
  {
    var s := DigitString(x, base);
    var q := Shifted(x, base);
    ShiftedRemainder(x, base);
    if x < base {
      assert s[..0] == [];
      assert DigitsValue(s, base) == DigitIndex(LowDigit(x, base));
    } else {
      DigitStringValue(q, base);
      assert s[..|s| - 1] == DigitString(q, base);
      var v := DigitsValue(DigitString(q, base), base);
      assert DigitsValue(s, base) == v * base + DigitIndex(LowDigit(x, base));
      assert v * base == q * base;
    }
  }

  /** The unsigned value printint converts: -xx for a signed negative argument, and the
      argument read as a 32-bit unsigned int otherwise. */
  function PrintedMagnitude(xx: int, sign: bool): nat {
    if sign && xx < 0 then (-xx) % TWO_32 else xx % TWO_32
  }

  /** One step of the conversion loop: the last digit of x, after the digits of x / base. */
  lemma DigitStringStep(x: nat, base: nat)
    requires ValidBase(base)
    ensures DigitString(x, base) == Leading(Shifted(x, base), base) + [LowDigit(x, base)]
    ensures x > 0 ==> |Leading(x, base)| == |Leading(Shifted(x, base), base)| + 1
  {
  }

  /** The digits of x, none for 0: what the conversion loop has still to produce. */
  function Leading(x: nat, base: nat): string
    requires ValidBase(base)
  {
    if x == 0 then "" else DigitString(x, base)
  }

  function Power(base: nat, k: nat): nat {
    if k == 0 then 1 else base * Power(base, k - 1)
  }

  lemma {:induction false} DigitStringLength(x: nat, base: nat, k: nat)
    requires ValidBase(base) && 1 <= k && x < Power(base, k)
    ensures |DigitString(x, base)| <= k
    decreases k
  {
    if x >= base {
      var q := Shifted(x, base);
      ShiftedRemainder(x, base);
      assert q * base <= x < base * Power(base, k - 1);
      assert q < Power(base, k - 1);
      DigitStringLength(q, base, k - 1);
    }
  }

  /** A 32-bit unsigned value has at most ten digits in base 10 or 16. */
  lemma AtMostTenDigits(x: nat, base: nat)
    requires x < TWO_32 && ValidBase(base)
    ensures |DigitString(x, base)| <= 10
  {
    assert Power(10, 10) == 10_000_000_000;
    if base == 16 {
      assert Power(16, 10) >= Power(10, 10) by { PowerMonotone(10, 16, 10); }
    }
    DigitStringLength(x, base, 10);
  }

  lemma {:induction false} PowerMonotone(a: nat, b: nat, k: nat)
    requires a <= b
    ensures Power(a, k) <= Power(b, k)
  {
    if k > 0 {
      PowerMonotone(a, b, k - 1);
      MulMonotone(a, b, Power(a, k - 1), Power(b, k - 1));
    }
  }

  lemma MulMonotone(a: nat, b: nat, x: nat, y: nat)
    requires a <= b && x <= y
    ensures a * x <= b * y
  {
    assert a * x <= b * x;
    assert b * x <= b * y;
  }

  /** printint: the characters it hands to consputc, a minus sign first for a negative
      signed argument. The digits go into a 16-character buffer least significant first
      and are printed from the end of the buffer back. */
  method PrintInt(xx: int, base: nat, sign: int) returns (out: string)
    requires -0x8000_0000 <= xx <= INT_MAX
    requires ValidBase(base)
    ensures var negative := sign != 0 && xx < 0;
      out == (if negative then "-" else "") + DigitString(PrintedMagnitude(xx, negative), base)
  {
    var buf := new char[16];
    var negative := sign != 0 && xx < 0;
    var x: nat := PrintedMagnitude(xx, negative);
    ghost var digits := DigitString(x, base);
    var i := ConvertDigits(buf, x, base);
    if negative {
      buf[i] := '-';
      i := i + 1;
    }
    BackwardsSpells(buf[..i], digits, negative);
    out := PutBackwards(buf, i);
  }

  /** The do-while loop of printint: the digits of x go into buf least significant first;
      their number is returned. */
  method ConvertDigits(buf: array<char>, x0: nat, base: nat) returns (i: nat)
    requires buf.Length == 16 && x0 < TWO_32 && ValidBase(base)
    modifies buf
    ensures i == |DigitString(x0, base)| <= 10
    ensures forall k :: 0 <= k < i ==> buf[k] == DigitString(x0, base)[i - 1 - k]
  {
    ghost var digits := DigitString(x0, base);
    AtMostTenDigits(x0, base);
    DigitStringStep(x0, base);
    buf[0] := LowDigit(x0, base);
    i := ConvertRemaining(buf, Shifted(x0, base), base, 1, digits);
  }

  /** The `while((x /= base) != 0)` part of the conversion: the digits of x, least
      significant first, from buf[i] on, after the i digits already written. */
  method ConvertRemaining(buf: array<char>, x0: nat, base: nat, i0: nat, ghost digits: string)
      returns (i: nat)
    requires buf.Length == 16 && ValidBase(base)
    requires 1 <= i0 <= 10 && |digits| <= 10 && i0 + |Leading(x0, base)| == |digits|
    requires Leading(x0, base) == digits[..|digits| - i0]
    requires forall k :: 0 <= k < i0 ==> buf[k] == digits[|digits| - 1 - k]
    modifies buf
    ensures i == |digits|
    ensures forall k :: 0 <= k < i ==> buf[k] == digits[i - 1 - k]
  {
    var x := x0;
    i := i0;
    while x != 0
      invariant 1 <= i <= 10 && i + |Leading(x, base)| == |digits|
      invariant Leading(x, base) == digits[..|digits| - i]
      invariant forall k :: 0 <= k < i ==> buf[k] == digits[|digits| - 1 - k]
      decreases x
    {
      ConversionStep(digits, x, base, i);
      buf[i] := LowDigit(x, base);
      i := i + 1;
      x := Shifted(x, base);
    }
  }

  /** The conversion loop peels the digits off the end of the number's digit string. */
  lemma ConversionStep(digits: string, x: nat, base: nat, i: nat)
    requires ValidBase(base) && x != 0
    requires i + |Leading(x, base)| == |digits| && Leading(x, base) == digits[..|digits| - i]
    ensures i + 1 + |Leading(Shifted(x, base), base)| == |digits|
    ensures Leading(Shifted(x, base), base) == digits[..|digits| - (i + 1)]
    ensures digits[|digits| - 1 - i] == LowDigit(x, base)
  {
    DigitStringStep(x, base);
    var lead := Leading(x, base);
    var m := |digits| - i;
    assert lead[..m - 1] == digits[..m - 1];
  }

  /** The buffer holds the digits least significant first, then the sign. */
  lemma BackwardsSpells(b: string, digits: string, negative: bool)
    requires |b| == |digits| + (if negative then 1 else 0)
    requires forall k :: 0 <= k < |digits| ==> b[k] == digits[|digits| - 1 - k]
    requires negative ==> b[|digits|] == '-'
    ensures Reverse(b) == (if negative then "-" else "") + digits
  {
    var r := Reverse(b);
    if negative {
      assert forall k :: 1 <= k < |b| ==> r[k] == digits[k - 1];
      assert r == "-" + digits;
    } else {
      assert r == digits;
    }
  }

  /** The closing loop of printint, `while(--i >= 0) consputc(buf[i])`: the first n
      characters of the buffer, last one first. */
  method PutBackwards(buf: array<char>, n: nat) returns (out: string)
    requires n <= buf.Length
    ensures out == Reverse(buf[..n])
  {
    ghost var b := buf[..n];
    var i := n;
    out := [];
    while i > 0
      invariant 0 <= i <= n && b == buf[..n]
      invariant out == Reverse(b[i..])
    {
      ReverseFrom(b, i);
      i := i - 1;
      out := out + [buf[i]];
    }
    assert b[0..] == b;
  }
}
