/** The parts of the console's line editor that work on plain buffer contents: the
    128-byte input buffer read by position, strSplit, the two 10-line history rings, the
    prefix search over the command history, remove_between_sharps and consoleread's copy
    loop, each as a function of the buffer. */
module ConsoleLines {
  import opened CLang

  const InputBuf: nat := 128
  const HistorySize: nat := 10
  const HistoryLimit: nat := 5

  /** ^D, the end-of-file key. */
  const EndOfFile: char := 4 as char

  /** The byte at linear position k of a buffer. Several helpers index the input buffer
      without reducing the position modulo its size; memory outside the buffer reads NUL. */
  function At(b: seq<char>, k: int): char {
    if 0 <= k < |b| then b[k] else '\0'
  }

  /** strlen of the string that starts at position k of a buffer. */
  function StrLenFrom(b: seq<char>, k: nat): (n: nat)
    ensures forall j :: k <= j < k + n ==> At(b, j) != '\0'
    ensures At(b, k + n) == '\0'
    ensures k + n <= |b| || n == 0
    decreases |b| - k
  {
    if At(b, k) == '\0' then 0 else 1 + StrLenFrom(b, k + 1)
  }

  /** The bytes at positions start .. end - 1 of a buffer; none when end <= start. */
  function Segment(src: seq<char>, start: int, end: int): seq<char> {
    seq(if end <= start then 0 else end - start, i => At(src, start + i))
  }

  /** The buffer dst after strSplit(dst, src, start, end): the segment copied to its front
      and a terminator after it. Writes past the end of dst are dropped. */
  function SplitInto(dst: seq<char>, src: seq<char>, start: int, end: int): seq<char> {
    var n := if end <= start then 0 else end - start;
    seq(|dst|, k requires 0 <= k < |dst| =>
      if k < n then At(src, start + k) else if k == n then '\0' else dst[k])
  }

  /** A buffer holding s followed by a terminator spells s up to its first NUL. */
  lemma {:induction false} CStrOfTerminated(buf: string, s: string)
    requires |s| < |buf| && buf[..|s|] == s && buf[|s|] == '\0'
    ensures CStr(buf) == CStr(s)
    decreases |s|
  {
    if s != [] && s[0] != '\0' {
      assert buf[1..][..|s| - 1] == s[1..];
      CStrOfTerminated(buf[1..], s[1..]);
    }
  }

  lemma {:induction false} CStrOfNulFree(s: string)
    requires NulFree(s)
    ensures CStr(s) == s
  {
    if s != [] {
      CStrOfNulFree(s[1..]);
    }
  }

  /** strSplit leaves in dst the C string of the copied segment, when the segment and its
      terminator fit, and the bytes after the terminator as they were. */
  lemma SplitIntoHolds(dst: seq<char>, src: seq<char>, start: int, end: int)
    requires |Segment(src, start, end)| < |dst|
    ensures var d := SplitInto(dst, src, start, end); var s := Segment(src, start, end);
      |d| == |dst| && d[..|s|] == s && d[|s|] == '\0' && d[|s| + 1..] == dst[|s| + 1..] &&
      CStr(d) == CStr(s)
  {
    var d := SplitInto(dst, src, start, end);
    var s := Segment(src, start, end);
    assert d[..|s|] == s;
    CStrOfTerminated(d, s);
  }

  /** An empty range copies nothing: dst then holds the empty string. */
  lemma SplitEmptyRange(dst: seq<char>, src: seq<char>, start: int, end: int)
    requires end <= start && |dst| > 0
    ensures SplitInto(dst, src, start, end)[0] == '\0'
    ensures CStr(SplitInto(dst, src, start, end)) == ""
  {
  }

  /** Copying from a buffer is copying its segment from the front. */
  lemma SplitIntoSegment(dst: seq<char>, src: seq<char>, start: int, end: int)
    ensures var s := Segment(src, start, end);
      SplitInto(dst, src, start, end) == SplitInto(dst, s, 0, |s|)
  {
  }

  /** A history ring: ten rows of 128 bytes, the row the next line goes to and how many
      rows hold a line. */
  datatype HBuffer = HBuffer(rows: seq<seq<char>>, index: int, size: int)

  const EmptyHistory: HBuffer := HBuffer(seq(HistorySize, _ => seq(InputBuf, _ => '\0')), 0, 0)

  predicate HistoryOk(h: HBuffer) {
    |h.rows| == HistorySize && (forall i :: 0 <= i < |h.rows| ==> |h.rows[i]| == InputBuf) &&
    0 <= h.index < HistorySize && 0 <= h.size <= HistorySize
  }

  /** The ring after saveLastInHistory copies src[start..end) into it: the line goes to the
      current row, the index moves on modulo 10 and the size grows up to 10. */
  function Recorded(h: HBuffer, src: seq<char>, start: int, end: int): (g: HBuffer)
    requires HistoryOk(h)
    ensures HistoryOk(g)
  {
    HBuffer(h.rows[h.index := SplitInto(h.rows[h.index], src, start, end)],
            (h.index + 1) % HistorySize,
            if h.size < HistorySize then h.size + 1 else h.size)
  }

  /** The ring after each of the lines is saved in turn. */
  function RecordLines(h: HBuffer, lines: seq<seq<char>>): (g: HBuffer)
    requires HistoryOk(h)
    ensures HistoryOk(g)
  {
    if lines == [] then h
    else
      var last := lines[|lines| - 1];
      Recorded(RecordLines(h, lines[..|lines| - 1]), last, 0, |last|)
  }

  /** Saving a line puts it in the row the index pointed to and leaves the other rows. */
  lemma RecordedStoresLine(h: HBuffer, line: seq<char>)
    requires HistoryOk(h) && |line| < InputBuf && NulFree(line)
    ensures var g := Recorded(h, line, 0, |line|);
      CStr(g.rows[h.index]) == line &&
      (forall i :: 0 <= i < HistorySize && i != h.index ==> g.rows[i] == h.rows[i]) &&
      g.index == (h.index + 1) % HistorySize &&
      g.size == (if h.size < HistorySize then h.size + 1 else HistorySize)
  {
    var s := Segment(line, 0, |line|);
    assert s == line;
    SplitIntoHolds(h.rows[h.index], line, 0, |line|);
    CStrOfNulFree(line);
  }

  /** Starting from the empty rings, the size counts the lines saved up to ten and the
      index is their number modulo ten. */
  lemma {:induction false} HistoryCounts(lines: seq<seq<char>>)
    ensures var h := RecordLines(EmptyHistory, lines);
      h.size == (if |lines| < HistorySize then |lines| else HistorySize) &&
      h.index == |lines| % HistorySize
  {
    if lines != [] {
      HistoryCounts(lines[..|lines| - 1]);
      NextIndex(|lines|);
    }
  }

  /** Starting from the empty rings, the history holds the last ten lines saved: line j
      sits in row j mod 10. */
  lemma {:induction false} HistoryKeepsLastTen(lines: seq<seq<char>>)
    requires forall j :: 0 <= j < |lines| ==> |lines[j]| < InputBuf && NulFree(lines[j])
    ensures var h := RecordLines(EmptyHistory, lines);
      forall j :: 0 <= j < |lines| && |lines| - HistorySize <= j ==> CStr(h.rows[j % HistorySize]) == lines[j]
  {
    if lines != [] {
      var m := |lines|;
      var p := lines[..m - 1];
      HistoryKeepsLastTen(p);
      HistoryCounts(p);
      var hp := RecordLines(EmptyHistory, p);
      var h := RecordLines(EmptyHistory, lines);
      assert h == Recorded(hp, lines[m - 1], 0, |lines[m - 1]|);
      RecordedStoresLine(hp, lines[m - 1]);
      forall j | 0 <= j < m && m - HistorySize <= j
        ensures CStr(h.rows[j % HistorySize]) == lines[j]
      {
        if j < m - 1 {
          OlderRowKept(hp, lines[m - 1], j, m - 1);
          assert CStr(hp.rows[j % HistorySize]) == p[j];
        }
      }
    }
  }

  lemma NextIndex(m: int)
    requires m >= 1
    ensures ((m - 1) % HistorySize + 1) % HistorySize == m % HistorySize
  {
    var q := (m - 1) / HistorySize;
    assert m - 1 == q * HistorySize + (m - 1) % HistorySize;
  }

  /** Saving the line numbered j leaves the rows of the nine lines before it. */
  lemma OlderRowKept(h: HBuffer, line: seq<char>, i: int, j: int)
    requires HistoryOk(h) && h.index == j % HistorySize && 0 <= i < j < i + HistorySize
    ensures Recorded(h, line, 0, |line|).rows[i % HistorySize] == h.rows[i % HistorySize]
  {
    assert i % HistorySize != j % HistorySize;
  }

  /** find_prefix_match's test of a history row: strncmp of the typed prefix and the row's
      string over the prefix's length is 0. */
  predicate Extends(row: seq<char>, prefix: CString) {
    StrNEqual(prefix, CStr(row), |prefix|)
  }

  /** The test holds exactly when the row's string starts with the prefix. */
  lemma ExtendsIsPrefix(row: seq<char>, prefix: CString)
    ensures Extends(row, prefix) <==> |prefix| <= |CStr(row)| && CStr(row)[..|prefix|] == prefix
  {
    StrNEqualPrefix(prefix, CStr(row));
  }

  /** The highest row below hi whose string starts with the prefix. */
  function LatestMatch(h: HBuffer, prefix: CString, hi: int): (m: Option<nat>)
    requires HistoryOk(h) && hi <= HistorySize
    ensures m.Some? ==> m.value < hi
    decreases hi
  {
    if hi <= 0 then None
    else if Extends(h.rows[hi - 1], prefix) then Some(hi - 1)
    else LatestMatch(h, prefix, hi - 1)
  }

  /** The match found is a row that starts with the prefix and no later row below hi
      does; without a match, no row below hi does. */
  lemma {:induction false} LatestMatchIsLatest(h: HBuffer, prefix: CString, hi: int)
    requires HistoryOk(h) && hi <= HistorySize
    ensures var m := LatestMatch(h, prefix, hi);
      (m.Some? ==> (Extends(h.rows[m.value], prefix) &&
        forall k :: m.value < k < hi ==> !Extends(h.rows[k], prefix))) &&
      (m.None? ==> forall k :: 0 <= k < hi ==> !Extends(h.rows[k], prefix))
    decreases hi
  {
    if hi > 0 && !Extends(h.rows[hi - 1], prefix) {
      LatestMatchIsLatest(h, prefix, hi - 1);
    }
  }

  /** What find_prefix_match compares with: the bytes typed between w and e, copied into a
      128-byte buffer, up to its first NUL. */
  function TypedPrefix(b: seq<char>, w: int, e: int): CString {
    CStr(SplitInto(seq(InputBuf, _ => '\0'), b, w, e))
  }

  /** With fewer than 128 bytes typed, the prefix is what was typed, up to a NUL in it. */
  lemma TypedPrefixIsSegment(b: seq<char>, w: int, e: int)
    requires e - w < InputBuf
    ensures TypedPrefix(b, w, e) == CStr(Segment(b, w, e))
  {
    SplitIntoHolds(seq(InputBuf, _ => '\0'), b, w, e);
  }

  /** The input buffer after strncpy(buf + w, s, 128 - w): the string from position w and
      NUL padding to the end. Nothing is written when w is past the buffer. */
  function Overwritten(b: seq<char>, w: nat, s: CString): (d: seq<char>)
    ensures |d| == |b|
  {
    seq(|b|, k => PaddedAt(b, w, s, k))
  }

  /** strncpy leaves the bytes before w, puts the string at w when it fits, and pads the
      rest with NUL. */
  lemma OverwrittenHolds(b: seq<char>, w: nat, s: CString)
    ensures var d := Overwritten(b, w, s);
      (w + |s| <= |b| ==> d[w..w + |s|] == s) &&
      forall k :: 0 <= k < |b| && (k < w || k >= w + |s|) ==> d[k] == (if k < w then b[k] else '\0')
  {
    var d := Overwritten(b, w, s);
    assert forall i :: 0 <= i < |s| && w + |s| <= |b| ==> d[w + i] == s[i];
  }

  function PaddedAt(b: seq<char>, w: nat, s: CString, k: int): char {
    if k < w then At(b, k) else CharAt(s, k - w)
  }

  /** The input buffer after pasting s from position e onwards, modulo 128. */
  function Pasted(b: seq<char>, e: nat, s: seq<char>): (d: seq<char>)
    requires |b| == InputBuf
    ensures |d| == InputBuf
  {
    if s == [] then b
    else Pasted(b, e, s[..|s| - 1])[(e + |s| - 1) % InputBuf := s[|s| - 1]]
  }

  /** A string of at most 128 bytes is pasted whole: byte i sits at position e + i, modulo
      128. */
  lemma {:induction false} PastedHolds(b: seq<char>, e: nat, s: seq<char>)
    requires |b| == InputBuf && |s| <= InputBuf
    ensures forall i :: 0 <= i < |s| ==> Pasted(b, e, s)[(e + i) % InputBuf] == s[i]
  {
    if s != [] {
      var m := |s|;
      PastedHolds(b, e, s[..m - 1]);
      forall i | 0 <= i < m
        ensures Pasted(b, e, s)[(e + i) % InputBuf] == s[i]
      {
        if i < m - 1 {
          PositionsDiffer(e + i, e + m - 1);
        }
      }
    }
  }

  lemma PositionsDiffer(i: int, j: int)
    requires 0 <= i < j < i + InputBuf
    ensures i % InputBuf != j % InputBuf
  {
  }

  /** The first position from k on, up to w, that holds a '#'; w when none does. */
  function NextSharp(b: seq<char>, k: int, w: int): (ns: int)
    ensures ns >= k && (k <= w ==> ns <= w)
    ensures forall j :: k <= j < ns ==> At(b, j) != '#'
    ensures ns < w ==> At(b, ns) == '#'
    decreases w - k
  {
    if k < w && At(b, k) != '#' then NextSharp(b, k + 1, w) else k
  }

  /** What remove_between_sharps keeps of positions i .. w - 1. A '#' with a later '#' at
      or before position w is dropped together with everything up to that '#', which is
      then looked at afresh. An unpaired '#' is kept only when it is the last byte and no
      pair was dropped before it; any other '#' is dropped. Every other byte is kept. */
  function Stripped(b: seq<char>, i: int, w: int, first: bool): (t: seq<char>)
    ensures |t| <= if i < w then w - i else 0
    decreases w - i
  {
    if i >= w then []
    else if At(b, i) == '#' then
      var ns := NextSharp(b, i + 1, w);
      if At(b, ns) == '#' then Stripped(b, ns, w, false)
      else if i == w - 1 && first then ['#'] + Stripped(b, i + 1, w, first)
      else Stripped(b, i + 1, w, first)
    else [At(b, i)] + Stripped(b, i + 1, w, first)
  }

  /** A line with no '#' is kept whole. */
  lemma {:induction false} NoSharpKeptWhole(b: seq<char>, i: int, w: int, first: bool)
    requires forall j :: i <= j < w ==> At(b, j) != '#'
    ensures Stripped(b, i, w, first) == Segment(b, i, w)
    decreases w - i
  {
    if i < w {
      NoSharpKeptWhole(b, i + 1, w, first);
      assert Segment(b, i, w) == [At(b, i)] + Segment(b, i + 1, w);
    }
  }

  /** When the last byte of the line is not a '#' and no '#' lies just past the line, that
      last byte is kept, so something is kept. */
  lemma {:induction false} LastByteKept(b: seq<char>, i: int, w: int, first: bool)
    requires i < w && At(b, w - 1) != '#' && At(b, w) != '#'
    ensures var t := Stripped(b, i, w, first); |t| > 0 && t[|t| - 1] == At(b, w - 1)
    decreases w - i
  {
    if At(b, i) == '#' {
      var ns := NextSharp(b, i + 1, w);
      if At(b, ns) == '#' {
        LastByteKept(b, ns, w, false);
      } else {
        LastByteKept(b, i + 1, w, first);
      }
    } else if i + 1 < w {
      LastByteKept(b, i + 1, w, first);
    }
  }

  /** The output buffer after remove_between_sharps: the kept bytes with the last of them
      overwritten by the terminator. With nothing kept, the terminator goes to the byte
      before the buffer, outside it, and the buffer is left as it was. */
  function SharpsRemoved(out: seq<char>, b: seq<char>, r: int, w: int): (d: seq<char>)
    requires |out| == InputBuf && w <= r + InputBuf
    ensures |d| == InputBuf
    ensures var t := Stripped(b, r + 1, w, true);
      (t == [] ==> d == out) &&
      (t != [] ==> d[..|t| - 1] == t[..|t| - 1] && d[|t| - 1] == '\0' && d[|t|..] == out[|t|..])
  {
    var t := Stripped(b, r + 1, w, true);
    if t == [] then out else t[..|t| - 1] + ['\0'] + out[|t|..]
  }

  /** A '#' left in the buffer just past a '!' line can make remove_between_sharps keep
      nothing: "!#\n" followed by a stale '#'. */
  lemma StaleSharpKeepsNothing()
    ensures Stripped("!#\n#", 1, 3, true) == []
  {
    assert NextSharp("!#\n#", 2, 3) == 3;
  }

  /** Where consoleread's loop stops: it copied what it could, or found the buffer empty. */
  datatype ReadStop = Copied | Waits

  /** What consoleread's loop does from read position r with n bytes still wanted and
      target bytes asked for: the bytes it copies, where r ends and why the loop stops. */
  datatype Reading = Reading(copied: seq<char>, r: nat, stop: ReadStop)

  function ReadLoop(b: seq<char>, r: nat, w: nat, n: int, target: int): (x: Reading)
    requires |b| == InputBuf && r <= w && n <= target
    ensures r <= x.r <= w
    ensures |x.copied| <= (if n > 0 then n else 0)
    ensures x.r == r + |x.copied| || x.r == r + |x.copied| + 1
    ensures x.stop == Waits ==> x.r == w && x.r == r + |x.copied| && |x.copied| < n
    decreases if n > 0 then n else 0
  {
    if n <= 0 then Reading([], r, Copied)
    else if r == w then Reading([], r, Waits)
    else
      var c := b[r % InputBuf];
      if c == EndOfFile then Reading([], if n < target then r else r + 1, Copied)
      else if c == '\n' then Reading([c], r + 1, Copied)
      else
        var x := ReadLoop(b, r + 1, w, n - 1, target);
        Reading([c] + x.copied, x.r, x.stop)
  }

  /** The bytes copied are those from position r on, modulo 128; none of them is ^D and
      only the last can be a newline. */
  lemma {:induction false} ReadLoopCopies(b: seq<char>, r: nat, w: nat, n: int, target: int)
    requires |b| == InputBuf && r <= w && n <= target
    ensures forall k :: 0 <= k < |ReadLoop(b, r, w, n, target).copied| ==>
      ReadLoop(b, r, w, n, target).copied[k] == b[(r + k) % InputBuf]
    ensures forall k :: 0 <= k < |ReadLoop(b, r, w, n, target).copied| ==>
      ReadLoop(b, r, w, n, target).copied[k] != EndOfFile
    ensures forall k :: 0 <= k < |ReadLoop(b, r, w, n, target).copied| - 1 ==>
      ReadLoop(b, r, w, n, target).copied[k] != '\n'
    decreases if n > 0 then n else 0
  {
    if n > 0 && r != w {
      var c := b[r % InputBuf];
      if c != EndOfFile && c != '\n' {
        ReadLoopCopies(b, r + 1, w, n - 1, target);
        var y := ReadLoop(b, r + 1, w, n - 1, target);
        var x := ReadLoop(b, r, w, n, target);
        assert x.copied == [c] + y.copied;
        forall k | 0 < k < |x.copied|
          ensures x.copied[k] == b[(r + k) % InputBuf]
        {
          assert x.copied[k] == y.copied[k - 1];
          assert r + 1 + (k - 1) == r + k;
        }
      }
    }
  }

  /** A read that ends without waiting stops for one of three reasons: it has n bytes, the
      last byte copied is a newline, or the next byte is ^D. The ^D is consumed only when
      nothing was copied before it. */
  lemma {:induction false} ReadLoopStops(b: seq<char>, r: nat, w: nat, n: int, target: int)
    requires |b| == InputBuf && r <= w && 0 < n <= target
    ensures var x := ReadLoop(b, r, w, n, target); var m := |x.copied|;
      x.stop == Copied ==>
        m == n || (m > 0 && x.copied[m - 1] == '\n') ||
        (b[(r + m) % InputBuf] == EndOfFile && x.r == (if m > 0 || n < target then r + m else r + m + 1))
    decreases n
  {
    var c := b[r % InputBuf];
    if r != w && c != EndOfFile && c != '\n' && n > 1 {
      ReadLoopStops(b, r + 1, w, n - 1, target);
      var y := ReadLoop(b, r + 1, w, n - 1, target);
      assert r + 1 + |y.copied| == r + (1 + |y.copied|);
    }
  }
}
