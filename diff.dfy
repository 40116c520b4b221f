/** The diff system call: two files compared line by line, each line read one byte at a time
    into a 128-byte buffer, every differing line number reported, and 0 returned when no line
    differs. File contents are byte sequences; a file that does not exist is None. */
module Diff {
  import opened CLang

  const LineBufSize: nat := 128

  predicate IsLineBreak(c: char) {
    c == '\n' || c == '\r'
  }

  /** The line read from offset off after taken bytes have been kept. */
  function LineFrom(data: seq<char>, off: nat, taken: nat): (seq<char>, nat)
    requires off + taken <= |data| && taken <= LineBufSize - 1
    decreases LineBufSize - 1 - taken
  {
    if taken == LineBufSize - 1 || off + taken == |data| then (data[off..off + taken], off + taken)
    else if IsLineBreak(data[off + taken]) then (data[off..off + taken], off + taken + 1)
    else LineFrom(data, off, taken + 1)
  }

  /** One line as diff reads it from offset off, with the offset after it. */
  function LineAt(data: seq<char>, off: nat): (r: (seq<char>, nat))
    requires off <= |data|
    ensures |r.0| <= LineBufSize - 1 && off + |r.0| <= r.1 <= |data|
    ensures r.0 == data[off..off + |r.0|]
    ensures forall k :: 0 <= k < |r.0| ==> !IsLineBreak(r.0[k])
    ensures r.1 == off + |r.0| + 1 || r.1 == off + |r.0|
    ensures r.1 == off + |r.0| + 1 ==> IsLineBreak(data[off + |r.0|])
    ensures r.1 == off + |r.0| ==> |r.0| == LineBufSize - 1 || r.1 == |data|
  {
    LineFromSpec(data, off, 0);
    LineFrom(data, off, 0)
  }

  lemma {:induction false} LineFromSpec(data: seq<char>, off: nat, taken: nat)
    requires off + taken <= |data| && taken <= LineBufSize - 1
    requires forall k :: off <= k < off + taken ==> !IsLineBreak(data[k])
    ensures var r := LineFrom(data, off, taken);
      taken <= |r.0| <= LineBufSize - 1 && off + |r.0| <= r.1 <= |data| &&
      r.0 == data[off..off + |r.0|] &&
      (forall k :: 0 <= k < |r.0| ==> !IsLineBreak(r.0[k])) &&
      (r.1 == off + |r.0| + 1 || r.1 == off + |r.0|) &&
      (r.1 == off + |r.0| + 1 ==> IsLineBreak(data[off + |r.0|])) &&
      (r.1 == off + |r.0| ==> |r.0| == LineBufSize - 1 || r.1 == |data|)
    decreases LineBufSize - 1 - taken
  {
    if !(taken == LineBufSize - 1 || off + taken == |data|) && !IsLineBreak(data[off + taken]) {
      LineFromSpec(data, off, taken + 1);
    }
  }

  /** The line-reading loop of diff: bytes are kept until the buffer holds 127 of them or the
      file ends; a newline or carriage return ends the line and is consumed but not kept. */
  method ReadLine(data: seq<char>, off: nat) returns (line: seq<char>, next: nat)
    requires off <= |data|
    ensures (line, next) == LineAt(data, off)
  {
    line := [];
    next := off;
    while |line| < LineBufSize - 1 && next < |data|
      invariant next == off + |line| <= |data| && |line| <= LineBufSize - 1
      invariant LineFrom(data, off, |line|) == LineFrom(data, off, 0)
      invariant line == data[off..next]
      decreases |data| - next
    {
      var ch := data[next];
      next := next + 1;
      if IsLineBreak(ch) {
        return;
      }
      line := line + [ch];
    }
  }

  /** Whether two read lines differ as the C strings their zero-filled buffers hold. */
  predicate LinesDiffer(line1: seq<char>, line2: seq<char>) {
    CStr(line1) != CStr(line2)
  }

  /** The numbers of the differing lines from the given offsets on, numbering from lineNum;
      the comparison ends when both files yield an empty line. */
  function Compare(f1: seq<char>, f2: seq<char>, off1: nat, off2: nat, lineNum: nat): seq<nat>
    requires off1 <= |f1| && off2 <= |f2|
    decreases |f1| - off1 + |f2| - off2
  {
    var (l1, n1) := LineAt(f1, off1);
    var (l2, n2) := LineAt(f2, off2);
    if |l1| == 0 && |l2| == 0 then []
    else (if LinesDiffer(l1, l2) then [lineNum] else []) + Compare(f1, f2, n1, n2, lineNum + 1)
  }

  lemma CompareUnfold(f1: seq<char>, f2: seq<char>, off1: nat, off2: nat, lineNum: nat)
    requires off1 <= |f1| && off2 <= |f2|
    ensures var l1 := LineAt(f1, off1); var l2 := LineAt(f2, off2);
      Compare(f1, f2, off1, off2, lineNum) ==
        if |l1.0| == 0 && |l2.0| == 0 then []
        else (if LinesDiffer(l1.0, l2.0) then [lineNum] else []) + Compare(f1, f2, l1.1, l2.1, lineNum + 1)
  {
  }

  /** A file never differs from itself. */
  lemma {:induction false} CompareSelf(f: seq<char>, off: nat, lineNum: nat)
    requires off <= |f|
    ensures Compare(f, f, off, off, lineNum) == []
    decreases |f| - off
  {
    var (l, n) := LineAt(f, off);
    if |l| != 0 {
      CompareSelf(f, n, lineNum + 1);
    }
  }

  /** The reported line numbers count up from lineNum, each line reported at most once. */
  lemma {:induction false} CompareIncreasing(f1: seq<char>, f2: seq<char>, off1: nat, off2: nat, lineNum: nat)
    requires off1 <= |f1| && off2 <= |f2|
    ensures forall k :: 0 <= k < |Compare(f1, f2, off1, off2, lineNum)| ==> Compare(f1, f2, off1, off2, lineNum)[k] >= lineNum
    ensures forall j, k :: 0 <= j < k < |Compare(f1, f2, off1, off2, lineNum)| ==>
      Compare(f1, f2, off1, off2, lineNum)[j] < Compare(f1, f2, off1, off2, lineNum)[k]
    decreases |f1| - off1 + |f2| - off2
  {
    var (l1, n1) := LineAt(f1, off1);
    var (l2, n2) := LineAt(f2, off2);
    if !(|l1| == 0 && |l2| == 0) {
      CompareIncreasing(f1, f2, n1, n2, lineNum + 1);
    }
  }

  /** A blank line in both files ends the comparison as written: files that agree up to a
      common blank line compare equal whatever follows it. */
  lemma BlankLineEndsComparison()
    ensures Compare("\nA", "\nB", 0, 0, 1) == []
  {
    assert LineFrom("\nA", 0, 0) == ("", 1);
    assert LineFrom("\nB", 0, 0) == ("", 1);
  }

  /** diff: -1 when a file does not exist; otherwise the numbers of the differing lines, and 0
      exactly when there are none. */
  method DiffFiles(file1: Option<seq<char>>, file2: Option<seq<char>>) returns (r: int, differing: seq<nat>)
    ensures file1.None? || file2.None? ==> r == -1 && differing == []
    ensures file1.Some? && file2.Some? ==> differing == Compare(file1.value, file2.value, 0, 0, 1)
    ensures r == 0 <==> file1.Some? && file2.Some? && differing == []
    ensures r == 0 || r == -1
  {
    if file1.None? || file2.None? {
      return -1, [];
    }
    var f1, f2 := file1.value, file2.value;
    var off1: nat, off2: nat := 0, 0;
    var lineNum := 1;
    var equal := true;
    differing := [];
    while true
      invariant off1 <= |f1| && off2 <= |f2|
      invariant differing + Compare(f1, f2, off1, off2, lineNum) == Compare(f1, f2, 0, 0, 1)
      invariant equal <==> differing == []
      decreases |f1| - off1 + |f2| - off2
    {
      var line1, next1 := ReadLine(f1, off1);
      var line2, next2 := ReadLine(f2, off2);
      CompareUnfold(f1, f2, off1, off2, lineNum);
      if |line1| == 0 && |line2| == 0 {
        break;
      }
      ghost var here: seq<nat> := if LinesDiffer(line1, line2) then [lineNum] else [];
      ghost var rest := Compare(f1, f2, next1, next2, lineNum + 1);
      assert Compare(f1, f2, off1, off2, lineNum) == here + rest;
      if LinesDiffer(line1, line2) {
        assert (differing + [lineNum]) + rest == differing + ([lineNum] + rest);
        differing := differing + [lineNum];
        equal := false;
      } else {
        assert here + rest == rest;
      }
      off1, off2 := next1, next2;
      lineNum := lineNum + 1;
    }
    r := if equal then 0 else -1;
  }

  /** Comparing a file with itself succeeds. */
  lemma DiffOfSameFile(f: seq<char>)
    ensures Compare(f, f, 0, 0, 1) == []
  {
    CompareSelf(f, 0, 1);
  }
}
