/** The console's line editor: the 128-byte circular input buffer with its read, write and
    edit positions r <= w <= e, the keys that edit the line being typed, the clipboard, the
    two history rings and consoleread's copy loop. */
module Console {
  import opened CLang
  import opened ConsoleLines

  /** The code of Control-x. */
  function Ctrl(x: char): int {
    x as int - '@' as int
  }

  const Backspace: int := 0x08
  const Delete: int := 0x7f
  /** The key that shows the history (named Ctrl-H in the source, code 0x19). */
  const HistoryKey: int := 0x19
  const LeftKey: int := 0xE4
  const RightKey: int := 0xE5

  /** An ordinary key after '\r' is turned into '\n'. */
  function Key(c: int): int {
    if c == '\r' as int then '\n' as int else c
  }

  /** The byte a key code leaves in the buffer: its low eight bits. */
  function Byte(c: int): char {
    (c % 256) as char
  }

  /** Where Ctrl-U stops deleting backwards from e. */
  function LineStart(b: seq<char>, w: nat, e: nat): (k: nat)
    requires |b| == InputBuf && w <= e
    ensures w <= k <= e
    decreases e
  {
    if e == w || b[(e - 1) % InputBuf] == '\n' then e else LineStart(b, w, e - 1)
  }

  /** Ctrl-U deletes no newline and stops at w or just after a newline. */
  lemma {:induction false} LineStartAfterNewline(b: seq<char>, w: nat, e: nat)
    requires |b| == InputBuf && w <= e
    ensures var k := LineStart(b, w, e);
      (k == w || b[(k - 1) % InputBuf] == '\n') &&
      forall j :: k <= j < e ==> b[j % InputBuf] != '\n'
    decreases e
  {
    if e != w && b[(e - 1) % InputBuf] != '\n' {
      LineStartAfterNewline(b, w, e - 1);
    }
  }

  /** Moving back from e over bytes that are spaces (or, with space false, that are not),
      never below w. */
  function BackWhile(b: seq<char>, w: nat, e: nat, space: bool): (k: nat)
    requires |b| == InputBuf
    ensures k <= e && (w <= e ==> w <= k)
    decreases e
  {
    if e > w && (b[(e - 1 + InputBuf) % InputBuf] == ' ') == space then BackWhile(b, w, e - 1, space)
    else e
  }

  /** The bytes moved over are all of the kind asked for, and the byte before the stop,
      unless the stop is w, is not. */
  lemma {:induction false} BackWhileStops(b: seq<char>, w: nat, e: nat, space: bool)
    requires |b| == InputBuf
    ensures var k := BackWhile(b, w, e, space);
      (forall j :: k <= j < e ==> (b[j % InputBuf] == ' ') == space) &&
      (k <= w || (b[(k - 1 + InputBuf) % InputBuf] == ' ') != space)
    decreases e
  {
    if e > w && (b[(e - 1 + InputBuf) % InputBuf] == ' ') == space {
      BackWhileStops(b, w, e - 1, space);
      assert (e - 1 + InputBuf) % InputBuf == (e - 1) % InputBuf;
    }
  }

  /** Where Ctrl-A moves: back over spaces, then back to the start of the word. */
  function WordStart(b: seq<char>, w: nat, e: nat): nat
    requires |b| == InputBuf
  {
    BackWhile(b, w, BackWhile(b, w, e, true), false)
  }

  /** Ctrl-A never moves forward or below w, and stops at w or just after a space. */
  lemma WordStartAfterSpace(b: seq<char>, w: nat, e: nat)
    requires |b| == InputBuf && w <= e
    ensures var k := WordStart(b, w, e);
      w <= k <= e && (k == w || b[(k - 1 + InputBuf) % InputBuf] == ' ')
  {
    BackWhileStops(b, w, BackWhile(b, w, e, true), false);
  }

  /** A byte Ctrl-D moves over: inside a word (not a space, not NUL), or a space. */
  predicate Skipped(c: char, word: bool) {
    if word then c != ' ' && c != '\0' else c == ' '
  }

  /** Moving forward from e over word bytes (or over spaces), never past lineEnd. */
  function SkipForward(b: seq<char>, lineEnd: int, e: nat, word: bool): (k: nat)
    requires |b| == InputBuf
    ensures e <= k && (e <= lineEnd ==> k <= lineEnd)
    decreases lineEnd - e
  {
    if e < lineEnd && Skipped(b[e % InputBuf], word) then SkipForward(b, lineEnd, e + 1, word) else e
  }

  /** The bytes moved over are all of the kind asked for, and the move stops at the line
      end or on a byte that is not. */
  lemma {:induction false} SkipForwardStops(b: seq<char>, lineEnd: int, e: nat, word: bool)
    requires |b| == InputBuf
    ensures var k := SkipForward(b, lineEnd, e, word);
      (forall j :: e <= j < k ==> Skipped(b[j % InputBuf], word)) &&
      (k >= lineEnd || !Skipped(b[k % InputBuf], word))
    decreases lineEnd - e
  {
    if e < lineEnd && Skipped(b[e % InputBuf], word) {
      SkipForwardStops(b, lineEnd, e + 1, word);
    }
  }

  /** Where Ctrl-D moves: past the rest of the word and the spaces after it. */
  function NextWordStart(b: seq<char>, lineEnd: int, e: nat): nat
    requires |b| == InputBuf
  {
    SkipForward(b, lineEnd, SkipForward(b, lineEnd, e, true), false)
  }

  /** Ctrl-D never moves back or past the line end, and stops at the line end or on a byte
      that is not a space. */
  lemma NextWordWithinLine(b: seq<char>, lineEnd: int, e: nat)
    requires |b| == InputBuf && e <= lineEnd
    ensures var k := NextWordStart(b, lineEnd, e);
      e <= k <= lineEnd && (k == lineEnd || b[k % InputBuf] != ' ')
  {
    SkipForwardStops(b, lineEnd, SkipForward(b, lineEnd, e, true), false);
  }

  /** The end of the line being typed: w plus strlen of the bytes from position w, which
      are read without reducing the position modulo 128. */
  function LineEnd(b: seq<char>, w: nat): int {
    w + StrLenFrom(b, w)
  }

  /** strSplit(dst, src, start, end). Bytes read past src are NUL; bytes written past dst
      are dropped. */
  method StrSplit(dst: array<char>, src: array<char>, start: int, end: int)
    requires dst != src
    modifies dst
    ensures dst[..] == SplitInto(old(dst[..]), src[..], start, end)
  {
    var i := 0;
    var j := start;
    while j < end
      invariant start <= j && (j <= end || j == start)
      invariant i == j - start
      invariant forall k :: 0 <= k < dst.Length ==> dst[k] == (if k < i then At(src[..], start + k) else old(dst[k]))
      decreases end - j
    {
      if i < dst.Length {
        dst[i] := At(src[..], j);
      }
      i := i + 1;
      j := j + 1;
    }
    if i < dst.Length {
      dst[i] := '\0';
    }
  }

  /** What consoleread returns: a count of bytes (or -1 for a killed process), or that it
      goes to sleep until more input arrives. */
  datatype ReadOutcome = Returns(value: int) | Sleeps

  /** The bytes p copied ahead of a later part of the loop. */
  function After(p: seq<char>, x: Reading): Reading {
    Reading(p + x.copied, x.r, x.stop)
  }

  /** One pass of consoleread's loop, case by case. */
  lemma ReadLoopStep(b: seq<char>, r: nat, w: nat, n: int, target: int)
    requires |b| == InputBuf && r < w && 0 < n <= target
    ensures var c := b[r % InputBuf];
      c == EndOfFile ==> ReadLoop(b, r, w, n, target) == Reading([], if n < target then r else r + 1, Copied)
    ensures var c := b[r % InputBuf];
      c != EndOfFile && c == '\n' ==> ReadLoop(b, r, w, n, target) == Reading([c], r + 1, Copied)
    ensures var c := b[r % InputBuf];
      c != EndOfFile && c != '\n' ==> ReadLoop(b, r, w, n, target) == After([c], ReadLoop(b, r + 1, w, n - 1, target))
  {
  }

  /** One step of Stripped, case by case. */
  lemma StrippedUnfolds(b: seq<char>, i: int, w: int, first: bool)
    requires i < w
    ensures var ns := NextSharp(b, i + 1, w);
      At(b, i) == '#' && At(b, ns) == '#' ==> Stripped(b, i, w, first) == Stripped(b, ns, w, false)
    ensures var ns := NextSharp(b, i + 1, w);
      At(b, i) == '#' && At(b, ns) != '#' && i == w - 1 && first ==>
        Stripped(b, i, w, first) == ['#'] + Stripped(b, i + 1, w, first)
    ensures var ns := NextSharp(b, i + 1, w);
      At(b, i) == '#' && At(b, ns) != '#' && !(i == w - 1 && first) ==>
        Stripped(b, i, w, first) == Stripped(b, i + 1, w, first)
    ensures At(b, i) != '#' ==> Stripped(b, i, w, first) == [At(b, i)] + Stripped(b, i + 1, w, first)
  {
  }

  /** Appending one kept byte to the output prefix keeps what is still to be kept. */
  class Console {
    const buf: array<char>
    var r: nat
    var w: nat
    var e: nat
    const clipBuf: array<char>
    var clipStart: int
    var clipEnd: int
    var clipFlag: int
    var clipValid: int
    var beingCopied: int
    var history: HBuffer
    var cmdHistory: HBuffer
    /** The static buffer remove_between_sharps returns. */
    const output: array<char>

    predicate Valid()
      reads this
    {
      buf.Length == InputBuf && clipBuf.Length == InputBuf && output.Length == InputBuf &&
      buf != clipBuf && buf != output && clipBuf != output &&
      r <= w <= e && w <= r + InputBuf && clipStart == clipEnd &&
      HistoryOk(history) && HistoryOk(cmdHistory)
    }

    /** The zero-initialised globals. */
    constructor ()
      ensures Valid() && r == 0 && w == 0 && e == 0
      ensures buf[..] == seq(InputBuf, _ => '\0') && clipBuf[0] == '\0'
      ensures history == EmptyHistory && cmdHistory == EmptyHistory
      ensures clipFlag == 0 && clipValid == 0 && beingCopied == 0
    {
      buf := new char[InputBuf](_ => '\0');
      clipBuf := new char[InputBuf](_ => '\0');
      output := new char[InputBuf](_ => '\0');
      r, w, e := 0, 0, 0;
      clipStart, clipEnd, clipFlag, clipValid, beingCopied := 0, 0, 0, 0, 0;
      history, cmdHistory := EmptyHistory, EmptyHistory;
    }

    /** resetClipboard: the flag and both positions back to 0. */
    method ResetClipboard()
      requires Valid()
      modifies this`clipFlag, this`clipStart, this`clipEnd
      ensures Valid() && clipFlag == 0 && clipStart == 0 && clipEnd == 0
    {
      clipFlag := 0;
      clipStart := 0;
      clipEnd := 0;
    }

    /** Ctrl-U: deletes back to w or to the byte after a newline. */
    method KillLine()
      requires Valid()
      modifies this`e, this`beingCopied
      ensures Valid() && beingCopied == 0
      ensures e == LineStart(buf[..], w, old(e))
    {
      beingCopied := 0;
      ghost var b := buf[..];
      while e != w && buf[(e - 1) % InputBuf] != '\n'
        modifies this`e
        invariant w <= e <= old(e)
        invariant LineStart(b, w, e) == LineStart(b, w, old(e))
        decreases e
      {
        e := e - 1;
      }
    }

    /** Backspace and Delete: one byte back, unless e is at w. */
    method EraseChar()
      requires Valid()
      modifies this`e, this`beingCopied
      ensures Valid() && beingCopied == 0
      ensures old(e) != w ==> e == old(e) - 1
      ensures old(e) == w ==> e == w
    {
      beingCopied := 0;
      if e != w {
        e := e - 1;
      }
    }

    /** Left arrow: one byte back, unless e is at w. */
    method MoveLeft()
      requires Valid()
      modifies this`e
      ensures Valid()
      ensures e == if old(e) != w then old(e) - 1 else w
    {
      if e != w {
        e := e - 1;
      }
    }

    /** Right arrow: one byte forward while e is within 128 bytes of w and before the end
      of the line. */
    method MoveRight()
      requires Valid()
      modifies this`e
      ensures Valid()
      ensures var lineEnd := LineEnd(buf[..], w);
        e == if old(e) < w + InputBuf && old(e) < lineEnd then old(e) + 1 else old(e)
    {
      var lineEnd := w + StrLenFrom(buf[..], w);
      if e < w + InputBuf && e < lineEnd {
        e := e + 1;
      }
    }

    /** Ctrl-D: to the start of the next word, within the line. */
    method NextWord()
      requires Valid()
      modifies this`e
      ensures Valid()
      ensures e == NextWordStart(buf[..], LineEnd(buf[..], w), old(e))
    {
      var lineEnd := w + StrLenFrom(buf[..], w);
      ghost var b := buf[..];
      while e < lineEnd && buf[e % InputBuf] != ' ' && buf[e % InputBuf] != '\0'
        invariant old(e) <= e
        invariant SkipForward(b, lineEnd, e, true) == SkipForward(b, lineEnd, old(e), true)
        decreases lineEnd - e
      {
        e := e + 1;
      }
      assert SkipForward(b, lineEnd, e, true) == e;
      ghost var middle := e;
      while e < lineEnd && buf[e % InputBuf] == ' '
        invariant middle <= e
        invariant SkipForward(b, lineEnd, e, false) == SkipForward(b, lineEnd, middle, false)
        decreases lineEnd - e
      {
        e := e + 1;
      }
      assert SkipForward(b, lineEnd, e, false) == e;
      assert lineEnd == LineEnd(b, w);
    }

    /** Ctrl-A: back to the start of the word, not below w. */
    method WordStartKey()
      requires Valid()
      modifies this`e
      ensures Valid()
      ensures e == WordStart(buf[..], w, old(e))
    {
      if e <= w {
        return;
      }
      if buf[(e - 1 + InputBuf) % InputBuf] == ' ' {
        MoveBackWhile(true);
      }
      MoveBackWhile(false);
    }

    /** One backward scan of Ctrl-A: e moves back over spaces (space) or over other bytes
        (!space), stopping at w. */
    method MoveBackWhile(space: bool)
      requires Valid()
      modifies this`e
      ensures Valid() && e == BackWhile(buf[..], w, old(e), space)
    {
      ghost var b := buf[..];
      while e > w && (buf[(e - 1 + InputBuf) % InputBuf] == ' ') == space
        invariant w <= e <= old(e)
        invariant BackWhile(b, w, e, space) == BackWhile(b, w, old(e), space)
        decreases e
      {
        e := e - 1;
      }
    }

    /** find_prefix_match: the highest row of the command history, among the first size
        rows, whose string starts with the bytes typed between w and e. */
    method FindPrefixMatch() returns (m: Option<nat>)
      requires Valid()
      ensures m == LatestMatch(cmdHistory, TypedPrefix(buf[..], w, e), cmdHistory.size)
    {
      var temp := new char[InputBuf](_ => '\0');
      assert temp[..] == seq(InputBuf, _ => '\0');
      StrSplit(temp, buf, w, e);
      var prefix := CStr(temp[..]);
      var tempLen := |prefix|;
      var i := cmdHistory.size - 1;
      while i >= 0
        invariant -1 <= i < cmdHistory.size
        invariant LatestMatch(cmdHistory, prefix, i + 1) == LatestMatch(cmdHistory, prefix, cmdHistory.size)
      {
        var candidate := CStr(cmdHistory.rows[i]);
        if StrNEqual(prefix, candidate, tempLen) {
          return Some(i);
        }
        i := i - 1;
      }
      return None;
    }

    /** Tab: with a match, the line from w is replaced by the matching command (strncpy,
        NUL padded to the end of the buffer) and e moves to its end. */
    method Complete()
      requires Valid()
      modifies this`beingCopied, this`e, buf
      ensures Valid() && beingCopied == 0
      ensures var m := LatestMatch(cmdHistory, TypedPrefix(old(buf[..]), w, old(e)), cmdHistory.size);
        (m.None? ==> e == old(e) && buf[..] == old(buf[..])) &&
        (m.Some? ==> var s := CStr(cmdHistory.rows[m.value]);
          e == w + |s| && buf[..] == Overwritten(old(buf[..]), w, s))
    {
      beingCopied := 0;
      var result := FindPrefixMatch();
      if result.Some? {
        var s := CStr(cmdHistory.rows[result.value]);
        CopyCommand(s);
        e := w + |s|;
      }
    }

    /** strncpy(input.buf + input.w, command, INPUT_BUF - input.w): the command from w on,
        NUL padded to the end of the buffer. */
    method CopyCommand(s: CString)
      requires Valid()
      modifies buf
      ensures buf[..] == Overwritten(old(buf[..]), w, s)
    {
      forall k | w <= k < buf.Length {
        buf[k] := CharAt(s, k - w);
      }
    }

    /** Ctrl-C: the first press marks e as both ends of the selection; the second copies
        the selection, which is then always empty, and makes the clipboard valid. */
    method Copy()
      requires Valid()
      modifies this`clipFlag, this`clipStart, this`clipEnd, this`clipValid, this`beingCopied, clipBuf
      ensures Valid()
      ensures old(clipFlag) == 1 ==>
        clipBuf[..] == SplitInto(old(clipBuf[..]), buf[..], old(clipEnd), old(clipStart)) &&
        CStr(clipBuf[..]) == "" &&
        clipFlag == 0 && clipStart == 0 && clipEnd == 0 && clipValid == 1 && beingCopied == 0
      ensures old(clipFlag) != 1 ==>
        clipFlag == 1 && clipStart == e && clipEnd == e && beingCopied == 1 &&
        clipValid == old(clipValid) && clipBuf[..] == old(clipBuf[..])
    {
      if clipFlag == 1 {
        StrSplit(clipBuf, buf, clipEnd, clipStart);
        SplitEmptyRange(old(clipBuf[..]), buf[..], clipEnd, clipStart);
        ResetClipboard();
        clipValid := 1;
        beingCopied := 0;
        return;
      }
      clipFlag := 1;
      clipStart := e;
      clipEnd := e;
      beingCopied := 1;
    }

    /** Ctrl-V: with a valid clipboard its string is stored from e on, modulo 128, and the
        clipboard is reset. An empty clipboard pastes nothing. */
    method Paste()
      requires Valid()
      modifies this`beingCopied, this`e, this`clipFlag, this`clipStart, this`clipEnd, buf
      ensures Valid() && beingCopied == 0
      ensures clipValid != 1 ==> (e == old(e) && buf[..] == old(buf[..]) &&
        clipFlag == old(clipFlag) && clipStart == old(clipStart) && clipEnd == old(clipEnd))
      ensures clipValid == 1 ==> (var s := CStr(clipBuf[..]);
        e == old(e) + |s| && buf[..] == Pasted(old(buf[..]), old(e), s) &&
        clipFlag == 0 && clipStart == 0 && clipEnd == 0)
      ensures clipBuf[0] == '\0' ==> e == old(e) && buf[..] == old(buf[..])
    {
      beingCopied := 0;
      if clipValid == 1 {
        PasteClipboard();
        ResetClipboard();
      }
    }

    /** The loop of the paste key: each byte of the clipboard's string is stored at e
        modulo 128, and e moves on. */
    method PasteClipboard()
      requires Valid()
      modifies this`e, buf
      ensures Valid()
      ensures e == old(e) + |CStr(clipBuf[..])| && buf[..] == Pasted(old(buf[..]), old(e), CStr(clipBuf[..]))
    {
      ghost var s := CStr(clipBuf[..]);
      var i := 0;
      while i < |CStr(clipBuf[..])|
        modifies this`e, buf
        invariant 0 <= i <= |s|
        invariant e == old(e) + i
        invariant buf[..] == Pasted(old(buf[..]), old(e), s[..i])
      {
        assert s[..i + 1][..i] == s[..i];
        buf[e % InputBuf] := clipBuf[i];
        e := e + 1;
        i := i + 1;
      }
      assert s[..i] == s;
    }

    /** saveLastInHistory: the line r .. w - 2, without its newline, goes into the history. */
    method SaveLastInHistory()
      requires Valid()
      modifies this`history
      ensures Valid()
      ensures history == Recorded(old(history), buf[..], r, w - 1)
    {
      var row := SplitInto(history.rows[history.index], buf[..], r, w - 1);
      var index := (history.index + 1) % HistorySize;
      var size := if history.size < HistorySize then history.size + 1 else history.size;
      history := HBuffer(history.rows[history.index := row], index, size);
    }

    /** saveLastInCmdHistory: the same for the command history, except for a line that
        starts with '!'. */
    method SaveLastInCmdHistory()
      requires Valid()
      modifies this`cmdHistory
      ensures Valid()
      ensures cmdHistory == if At(buf[..], r) != '!' then Recorded(old(cmdHistory), buf[..], r, w - 1) else old(cmdHistory)
    {
      if At(buf[..], r) != '!' {
        var row := SplitInto(cmdHistory.rows[cmdHistory.index], buf[..], r, w - 1);
        var index := (cmdHistory.index + 1) % HistorySize;
        var size := if cmdHistory.size < HistorySize then cmdHistory.size + 1 else cmdHistory.size;
        cmdHistory := HBuffer(cmdHistory.rows[cmdHistory.index := row], index, size);
      }
    }

    /** The next_sharp scan of remove_between_sharps. */
    method FindNextSharp(k: int) returns (ns: int)
      requires Valid()
      ensures ns == NextSharp(buf[..], k, w)
    {
      ns := k;
      while ns < w && At(buf[..], ns) != '#'
        invariant NextSharp(buf[..], ns, w) == NextSharp(buf[..], k, w)
        decreases w - ns
      {
        ns := ns + 1;
      }
    }

    /** remove_between_sharps over the line after its '!': the kept bytes go to output, the
        last of them replaced by the terminator. The number kept is returned; when it is 0
        the terminator is written before the buffer, which the model drops. */
    method RemoveBetweenSharps() returns (j: int)
      requires Valid()
      modifies output
      ensures j == |Stripped(buf[..], r + 1, w, true)|
      ensures output[..] == SharpsRemoved(old(output[..]), buf[..], r, w)
    {
      ghost var out := output[..];
      j := CopyStripped();
      ghost var t := Stripped(buf[..], r + 1, w, true);
      assert output[..j] == t && output[j..] == out[j..];
      if j > 0 {
        output[j - 1] := '\0';
        assert output[..] == t[..j - 1] + ['\0'] + out[j..];
      } else {
        assert output[..] == output[j..];
      }
    }

    /** The loop of remove_between_sharps: the bytes of the line after its '!' that are
        kept, written to output from its start; their number is returned. */
    method CopyStripped() returns (j: int)
      requires Valid()
      modifies output
      ensures j == |Stripped(buf[..], r + 1, w, true)|
      ensures output[..j] == Stripped(buf[..], r + 1, w, true)
      ensures output[j..] == old(output[..])[j..]
    {
      ghost var b := buf[..];
      ghost var out := output[..];
      ghost var t := Stripped(b, r + 1, w, true);
      j := 0;
      var first := true;
      var i := r + 1;
      while i < w
        modifies output
        invariant r + 1 <= i && (i <= w || i == r + 1)
        invariant 0 <= j <= |t| <= InputBuf
        invariant output[..j] + Stripped(b, i, w, first) == t
        invariant output[j..] == out[j..]
        invariant buf[..] == b
        decreases w - i
      {
        i, j, first := StripStep(i, j, first, b, t, out);
      }
    }

    /** One pass of the loop of remove_between_sharps at position i, j bytes kept so far:
        a '#' with a later '#' moves i to that '#' and clears first; a lone '#' in the last
        position of a line not yet cut is kept; another lone '#' is dropped; any other byte
        is kept. */
    method StripStep(i: int, j: int, first: bool, ghost b: seq<char>, ghost t: seq<char>, ghost out: seq<char>)
        returns (i': int, j': int, first': bool)
      requires Valid() && b == buf[..] && r + 1 <= i < w && 0 <= j <= |t| <= InputBuf && |out| == InputBuf
      requires output[..j] + Stripped(b, i, w, first) == t && output[j..] == out[j..]
      modifies output
      ensures i < i' <= w && 0 <= j' <= |t|
      ensures output[..j'] + Stripped(b, i', w, first') == t && output[j'..] == out[j'..]
    {
      StrippedUnfolds(b, i, w, first);
      if At(buf[..], i) == '#' {
        i', j', first' := SharpStep(i, j, first, b, t, out);
      } else {
        i', first' := i + 1, first;
        j' := KeepByte(j, At(buf[..], i), t, Stripped(b, i + 1, w, first), out);
      }
    }

    /** The pass of StripStep at a '#': a matching '#' later in the line moves i there and
        clears first; a lone '#' is kept only in the last position of an uncut line. */
    method SharpStep(i: int, j: int, first: bool, ghost b: seq<char>, ghost t: seq<char>, ghost out: seq<char>)
        returns (i': int, j': int, first': bool)
      requires Valid() && b == buf[..] && r + 1 <= i < w && 0 <= j <= |t| <= InputBuf && |out| == InputBuf
      requires At(b, i) == '#'
      requires output[..j] + Stripped(b, i, w, first) == t && output[j..] == out[j..]
      modifies output
      ensures i < i' <= w && 0 <= j' <= |t|
      ensures output[..j'] + Stripped(b, i', w, first') == t && output[j'..] == out[j'..]
    {
      StrippedUnfolds(b, i, w, first);
      i', j', first' := i + 1, j, first;
      var next := FindNextSharp(i + 1);
      if At(buf[..], next) == '#' {
        // i = next_sharp - 1, and the loop's i++ makes it next_sharp
        i' := next;
        first' := false;
      } else if i == w - 1 && first {
        j' := KeepByte(j, '#', t, Stripped(b, i + 1, w, first), out);
      }
    }

    /** output[j++] = c: a kept byte appended to the j bytes of t written so far, the rest
        of the output buffer untouched. */
    method KeepByte(j: int, c: char, ghost t: seq<char>, ghost rest: seq<char>, ghost out: seq<char>)
        returns (j': int)
      requires Valid() && 0 <= j < InputBuf && |out| == InputBuf
      requires output[..j] + ([c] + rest) == t && output[j..] == out[j..]
      modifies output
      ensures j' == j + 1 && output[..j'] + rest == t && output[j'..] == out[j'..]
    {
      output[j] := c;
      j' := j + 1;
      assert output[..j'] == old(output[..j]) + [c];
      assert forall k :: j' <= k < InputBuf ==> output[k] == old(output[..])[j..][k - j] == out[j..][k - j];
    }

    /** An ordinary key, while the buffer has room: stored at e modulo 128; a newline, ^D
        or a full buffer makes the line available to read (w := e); a newline after a '!'
        line strips its '#' pairs, and a non-empty line goes into the history. */
    method TypeKey(c: int)
      requires Valid() && c >= 0
      modifies this`e, this`w, buf, this`history, this`cmdHistory, output
      ensures Valid()
      ensures c == 0 || old(e) - r >= InputBuf ==> unchanged(this, buf, output)
      ensures c != 0 && old(e) - r < InputBuf ==>
        var k := Key(c);
        var b := old(buf[..])[old(e) % InputBuf := Byte(k)];
        var saves := k == '\n' as int && r != old(e);
        e == old(e) + 1 && buf[..] == b &&
        w == (if k == '\n' as int || k == Ctrl('D') || e == r + InputBuf then e else old(w)) &&
        output[..] == (if k == '\n' as int && At(b, r) == '!' then SharpsRemoved(old(output[..]), b, r, w) else old(output[..])) &&
        history == (if saves then Recorded(old(history), b, r, w - 1) else old(history)) &&
        cmdHistory == (if saves && At(b, r) != '!' then Recorded(old(cmdHistory), b, r, w - 1) else old(cmdHistory))
    {
      if c != 0 && e - r < InputBuf {
        var k := Key(c);
        StoreKey(k);
        EndLine(k);
      }
    }

    /** What a newline does once stored: the '#' pairs of a '!' line are stripped, and a
        non-empty line goes into the history, and into the command history unless it is a
        '!' line. */
    method EndLine(k: int)
      requires Valid()
      modifies output, this`history, this`cmdHistory
      ensures Valid()
      ensures output[..] == if k == '\n' as int && At(buf[..], r) == '!' then SharpsRemoved(old(output[..]), buf[..], r, w) else old(output[..])
      ensures history == if k == '\n' as int && r != w - 1 then Recorded(old(history), buf[..], r, w - 1) else old(history)
      ensures cmdHistory == if k == '\n' as int && r != w - 1 && At(buf[..], r) != '!' then Recorded(old(cmdHistory), buf[..], r, w - 1) else old(cmdHistory)
    {
      if k == '\n' as int && At(buf[..], r) == '!' {
        var kept := RemoveBetweenSharps();
      }
      if k == '\n' as int && r != w - 1 {
        SaveLastInHistory();
        SaveLastInCmdHistory();
      }
    }

    /** input.buf[input.e++ % INPUT_BUF] = c, and the line made available to read on a
        newline, a ^D or a full buffer. */
    method StoreKey(k: int)
      requires Valid() && e - r < InputBuf
      modifies buf, this`e, this`w
      ensures Valid() && e == old(e) + 1
      ensures buf[..] == old(buf[..])[old(e) % InputBuf := Byte(k)]
      ensures w == if k == '\n' as int || k == Ctrl('D') || e == r + InputBuf then e else old(w)
    {
      buf[e % InputBuf] := Byte(k);
      e := e + 1;
      if k == '\n' as int || k == Ctrl('D') || e == r + InputBuf {
        w := e;
      }
    }

    /** One key of consoleintr's loop. Ctrl-P asks for a process listing; the history key
        only prints. */
    method HandleKey(c: int) returns (procdump: bool)
      requires Valid() && c >= 0
      modifies this, buf, clipBuf, output
      ensures Valid() && r == old(r) && w >= old(w)
      ensures procdump <==> c == Ctrl('P')
      ensures old(clipBuf[0]) == '\0' ==> clipBuf[0] == '\0'
      ensures c == Ctrl('P') || c == HistoryKey ==>
        e == old(e) && w == old(w) && buf[..] == old(buf[..]) && beingCopied == 0
      ensures c == Ctrl('U') ==>
        e == LineStart(old(buf[..]), old(w), old(e)) && w == old(w) && buf[..] == old(buf[..]) && beingCopied == 0
      ensures c == Backspace || c == Delete ==>
        e == (if old(e) != old(w) then old(e) - 1 else old(e)) && w == old(w) && buf[..] == old(buf[..]) && beingCopied == 0
      ensures c == LeftKey ==>
        e == (if old(e) != old(w) then old(e) - 1 else old(e)) && w == old(w) && buf[..] == old(buf[..])
      ensures c == RightKey ==>
        e == (if old(e) < old(w) + InputBuf && old(e) < LineEnd(old(buf[..]), old(w)) then old(e) + 1 else old(e)) &&
        w == old(w) && buf[..] == old(buf[..])
      ensures c == Ctrl('D') ==>
        e == NextWordStart(old(buf[..]), LineEnd(old(buf[..]), old(w)), old(e)) && w == old(w) && buf[..] == old(buf[..])
      ensures c == Ctrl('A') ==>
        e == WordStart(old(buf[..]), old(w), old(e)) && w == old(w) && buf[..] == old(buf[..])
      ensures c == '\t' as int ==>
        var m := LatestMatch(cmdHistory, TypedPrefix(old(buf[..]), old(w), old(e)), cmdHistory.size);
        w == old(w) && beingCopied == 0 &&
        (m.None? ==> e == old(e) && buf[..] == old(buf[..])) &&
        (m.Some? ==> var s := CStr(cmdHistory.rows[m.value]);
          e == old(w) + |s| && buf[..] == Overwritten(old(buf[..]), old(w), s))
      ensures c == Ctrl('C') ==>
        e == old(e) && w == old(w) && buf[..] == old(buf[..]) &&
        (old(clipFlag) == 1 ==>
          clipBuf[..] == SplitInto(old(clipBuf[..]), old(buf[..]), old(clipEnd), old(clipStart)) &&
          clipFlag == 0 && clipStart == 0 && clipEnd == 0 && clipValid == 1 && beingCopied == 0) &&
        (old(clipFlag) != 1 ==>
          clipFlag == 1 && clipStart == old(e) && clipEnd == old(e) && beingCopied == 1 &&
          clipValid == old(clipValid) && clipBuf[..] == old(clipBuf[..]))
      ensures c == Ctrl('V') ==>
        w == old(w) && beingCopied == 0 &&
        (old(clipValid) != 1 ==> e == old(e) && buf[..] == old(buf[..])) &&
        (old(clipValid) == 1 ==> var s := CStr(old(clipBuf[..]));
          e == old(e) + |s| && buf[..] == Pasted(old(buf[..]), old(e), s) &&
          clipFlag == 0 && clipStart == 0 && clipEnd == 0)
      ensures c !in {Ctrl('P'), Ctrl('U'), Backspace, Delete, HistoryKey, '\t' as int, Ctrl('C'), Ctrl('V'),
                     LeftKey, RightKey, Ctrl('D'), Ctrl('A')} ==>
        (c == 0 || old(e) - r >= InputBuf ==> e == old(e) && w == old(w) && buf[..] == old(buf[..])) &&
        (c != 0 && old(e) - r < InputBuf ==>
          var k := Key(c);
          var b := old(buf[..])[old(e) % InputBuf := Byte(k)];
          var saves := k == '\n' as int && r != old(e);
          e == old(e) + 1 && buf[..] == b &&
          w == (if k == '\n' as int || e == r + InputBuf then e else old(w)) &&
          output[..] == (if k == '\n' as int && At(b, r) == '!' then SharpsRemoved(old(output[..]), b, r, w) else old(output[..])) &&
          history == (if saves then Recorded(old(history), b, r, w - 1) else old(history)) &&
          cmdHistory == (if saves && At(b, r) != '!' then Recorded(old(cmdHistory), b, r, w - 1) else old(cmdHistory)))
    {
      procdump := false;
      if c == Ctrl('P') {
        procdump := true;
        beingCopied := 0;
      } else if c == Ctrl('U') {
        KillLine();
      } else if c == Backspace || c == Delete {
        EraseChar();
      } else if c == HistoryKey {
        beingCopied := 0;
      } else if c == '\t' as int {
        Complete();
      } else if c == Ctrl('C') {
        Copy();
      } else if c == Ctrl('V') {
        Paste();
      } else if c == LeftKey {
        MoveLeft();
      } else if c == RightKey {
        MoveRight();
      } else if c == Ctrl('D') {
        NextWord();
      } else if c == Ctrl('A') {
        WordStartKey();
      } else {
        TypeKey(c);
      }
    }

    /** One turn of consoleintr's loop: HandleKey, with only the facts the loop keeps. */
    method LoopKey(c: int) returns (procdump: bool)
      requires Valid() && c >= 0
      modifies this, buf, clipBuf, output
      ensures Valid() && r == old(r) && w >= old(w)
      ensures procdump <==> c == Ctrl('P')
      ensures old(clipBuf[0]) == '\0' ==> clipBuf[0] == '\0'
    {
      procdump := HandleKey(c);
    }

    /** consoleintr: the keys up to the first negative code, then a clipboard reset unless
        a copy is under way. Returns whether a process listing was asked for and how many
        keys were read. */
    method ConsoleIntr(keys: seq<int>) returns (procdump: bool, read: nat)
      requires Valid()
      modifies this, buf, clipBuf, output
      ensures Valid() && r == old(r) && w >= old(w)
      ensures read <= |keys| && (forall k :: 0 <= k < read ==> keys[k] >= 0) && (read == |keys| || keys[read] < 0)
      ensures procdump <==> Ctrl('P') in keys[..read]
      ensures old(clipBuf[0]) == '\0' ==> clipBuf[0] == '\0'
      ensures beingCopied == 0 ==> clipFlag == 0 && clipStart == 0 && clipEnd == 0
    {
      procdump := false;
      read := 0;
      while read < |keys| && keys[read] >= 0
        invariant read <= |keys| && forall k :: 0 <= k < read ==> keys[k] >= 0
        invariant Valid() && r == old(r) && w >= old(w)
        invariant old(clipBuf[0]) == '\0' ==> clipBuf[0] == '\0'
        invariant procdump <==> Ctrl('P') in keys[..read]
      {
        var dump := LoopKey(keys[read]);
        assert keys[..read + 1] == keys[..read] + [keys[read]];
        procdump := procdump || dump;
        read := read + 1;
      }
      if beingCopied == 0 {
        ResetClipboard();
      }
    }

    /** consoleread once called: bytes are copied from r until n are copied, a newline is
        copied or a ^D is read; reading the empty buffer kills the read of a killed process
        or puts the reader to sleep. */
    method ConsoleRead(n: int, killed: bool) returns (outcome: ReadOutcome, dst: seq<char>)
      requires Valid()
      modifies this`r
      ensures Valid()
      ensures var x := ReadLoop(buf[..], old(r), w, n, n);
        r == x.r && dst == x.copied &&
        outcome == (if x.stop == Copied then Returns(|dst|) else if killed then Returns(-1) else Sleeps)
    {
      var x := ReadBytes(n, n);
      r, dst := x.r, x.copied;
      outcome := Finish(x.stop, |dst|, killed);
    }

    /** consoleread on waking from its sleep, after the earlier passes of the same call
        copied the bytes copied of the target asked for: the loop goes on with the bytes
        still wanted, so a ^D read now is kept for the next read, and the count returned is
        that of the whole call. */
    method ResumeRead(target: int, copied: seq<char>, killed: bool) returns (outcome: ReadOutcome, dst: seq<char>)
      requires Valid() && |copied| <= target
      modifies this`r
      ensures Valid()
      ensures var x := ReadLoop(buf[..], old(r), w, target - |copied|, target);
        r == x.r && dst == copied + x.copied &&
        outcome == (if x.stop == Copied then Returns(|dst|) else if killed then Returns(-1) else Sleeps)
    {
      var x := ReadBytes(target - |copied|, target);
      r, dst := x.r, copied + x.copied;
      outcome := Finish(x.stop, |dst|, killed);
    }

    /** How consoleread ends once its loop stops: target - n bytes when it copied, -1 for a
        killed process at the empty buffer, otherwise asleep. */
    static function Finish(stop: ReadStop, count: nat, killed: bool): (o: ReadOutcome)
      ensures o.Returns? && o.value >= 0 <==> stop == Copied
      ensures o == Returns(-1) <==> stop == Waits && killed
      ensures stop == Copied ==> o == Returns(count)
    {
      match stop
      case Copied => Returns(count)
      case Waits => if killed then Returns(-1) else Sleeps
    }

    /** The loop of consoleread over local copies of r and n, from n bytes still wanted of
        target: the bytes copied, where r ends, and whether the loop ran into the empty
        buffer. */
    method ReadBytes(n: int, target: int) returns (x: Reading)
      requires Valid() && n <= target
      ensures x == ReadLoop(buf[..], r, w, n, target)
    {
      ghost var whole := ReadLoop(buf[..], r, w, n, target);
      var rr := r;
      var m := n;
      var dst := [];
      while m > 0
        invariant r <= rr <= w && m <= n
        invariant whole == After(dst, ReadLoop(buf[..], rr, w, m, target))
        decreases m
      {
        if rr == w {
          assert dst + [] == dst;
          return Reading(dst, rr, Waits);
        }
        var more;
        rr, m, dst, more := ReadStep(rr, m, target, dst, whole);
        if !more {
          return Reading(dst, rr, Copied);
        }
      }
      assert dst + [] == dst;
      return Reading(dst, rr, Copied);
    }

    /** One pass of consoleread's loop at position rr, m bytes still wanted: a ^D ends the
        loop, left in place after bytes already copied; any other byte is copied, and a
        newline ends the loop. */
    method ReadStep(rr: nat, m: int, target: int, dst: seq<char>, ghost whole: Reading)
        returns (rr': nat, m': int, dst': seq<char>, more: bool)
      requires Valid() && r <= rr < w && 0 < m <= target
      requires whole == After(dst, ReadLoop(buf[..], rr, w, m, target))
      ensures r <= rr' <= w && (more ==> m' == m - 1 && dst' == dst + [buf[rr % InputBuf]])
      ensures more ==> whole == After(dst', ReadLoop(buf[..], rr', w, m', target))
      ensures !more ==> whole == Reading(dst', rr', Copied)
    {
      ghost var b := buf[..];
      ReadLoopStep(b, rr, w, m, target);
      var c := buf[rr % InputBuf];
      assert c == b[rr % InputBuf];
      rr', m', dst', more := rr + 1, m, dst, true;
      if c == EndOfFile {
        if m < target {
          // keep ^D for the next read, which then returns 0
          rr' := rr' - 1;
        }
        assert dst + [] == dst;
        more := false;
        return;
      }
      dst', m' := dst + [c], m - 1;
      if c == '\n' {
        more := false;
        return;
      }
      assert dst + ([c] + ReadLoop(b, rr', w, m', target).copied) == dst' + ReadLoop(b, rr', w, m', target).copied;
    }
  }
}
