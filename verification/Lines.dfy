/** Buffered files over a stream that is cut into pieces: `readline` with universal newlines, and buffered writes. */
module Lines {
  import opened Bytes

  const LF: byte := 10
  const CR: byte := 13

  // ---- what reading lines means on the whole stream ----

  /** The text with CR, LF and CRLF each turned into LF. */
  function Normalized(s: bytes): bytes {
    if s == [] then []
    else if s[0] == CR then [LF] + Normalized(if |s| > 1 && s[1] == LF then s[2..] else s[1..])
    else [s[0]] + Normalized(s[1..])
  }

  lemma {:induction false} PlainStart(a: bytes, b: bytes)
    requires CR !in a
    ensures Normalized(a + b) == a + Normalized(b)
  {
    if a == [] {
      assert [] + b == b;
    } else {
      PlainStart(a[1..], b);
      assert (a + b)[1..] == a[1..] + b;
      assert a == [a[0]] + a[1..];
    }
  }

  /** A text without carriage returns stays as it is; CRLF, and CR before anything else, are one linefeed. */
  lemma NewlinesBecomeLf(a: bytes, b: bytes)
    requires CR !in a
    ensures Normalized(a) == a
    ensures Normalized(a + [CR, LF] + b) == a + [LF] + Normalized(b)
    ensures b == [] || b[0] != LF ==> Normalized(a + [CR] + b) == a + [LF] + Normalized(b)
  {
    PlainStart(a, []);
    PlainStart(a, [CR, LF] + b);
    PlainStart(a, [CR] + b);
    hide Normalized;
    assert a + [CR, LF] + b == a + ([CR, LF] + b) && a + [CR] + b == a + ([CR] + b) && a + [] == a;
    OneNewline(b);
    assert a + ([LF] + Normalized(b)) == a + [LF] + Normalized(b);
  }

  lemma OneNewline(b: bytes)
    ensures Normalized([]) == [] && Normalized([CR, LF] + b) == [LF] + Normalized(b)
    ensures b == [] || b[0] != LF ==> Normalized([CR] + b) == [LF] + Normalized(b)
  {
    assert ([CR, LF] + b)[2..] == b && ([CR] + b)[1..] == b;
  }

  /** The position of the first `b`, or -1. */
  function Find(s: bytes, b: byte): (i: int)
    ensures -1 <= i < |s|
    ensures i >= 0 ==> s[i] == b && b !in s[..i]
    ensures i == -1 ==> b !in s
  {
    if s == [] then -1
    else if s[0] == b then 0
    else
      var i := Find(s[1..], b);
      assert i >= 0 ==> s[..i + 1] == [s[0]] + s[1..][..i];
      if i < 0 then -1 else i + 1
  }

  /** The position of the first linefeed, or the length when there is none. */
  function FirstLf(s: bytes): (i: nat)
    ensures i <= |s|
    ensures i < |s| ==> s[i] == LF
    ensures LF !in s[..i]
  {
    var i := Find(s, LF);
    if i < 0 then |s| else i
  }

  /** The first line of a text, its linefeed included; empty only at the end. */
  function FirstLine(t: bytes): (line: bytes)
    ensures line <= t && (t != [] ==> line != [])
  {
    var i := FirstLf(t);
    if i < |t| then t[..i + 1] else t
  }

  function SplitLines(t: bytes): seq<bytes>
    decreases |t|
  {
    if t == [] then [] else [FirstLine(t)] + SplitLines(t[|FirstLine(t)|..])
  }

  /** A linefeed that completes an already returned CR does not count. */
  function Skipped(atTrailingCr: bool, s: bytes): bytes {
    if atTrailingCr && s != [] && s[0] == LF then s[1..] else s
  }

  /** The text still to be read. */
  function TextAfter(atTrailingCr: bool, universal: bool, s: bytes): bytes {
    var x := Skipped(atTrailingCr, s);
    if universal then Normalized(x) else x
  }

  /** The lines put together again are the text, so no byte is lost or moved by splitting. */
  function Concat(lines: seq<bytes>): bytes {
    if lines == [] then [] else lines[0] + Concat(lines[1..])
  }

  lemma LineStep(lines: seq<bytes>, t: bytes)
    ensures t == [] ==> lines + SplitLines(t) == lines
    ensures t != [] ==> lines + SplitLines(t) == (lines + [FirstLine(t)]) + SplitLines([] + t[|FirstLine(t)|..])
  {
    assert [] + t[|FirstLine(t)|..] == t[|FirstLine(t)|..];
  }

  lemma {:induction false} SplitLinesIsPartition(t: bytes)
    ensures Concat(SplitLines(t)) == t
    decreases |t|
  {
    if t == [] {
    } else {
      var line := FirstLine(t);
      SplitLinesIsPartition(t[|line|..]);
      assert t == line + t[|line|..];
    }
  }

  /** Every line but the last ends with a linefeed, and no line has one before its end. */
  lemma {:induction false} SplitLinesAreLines(t: bytes, i: nat)
    requires i < |SplitLines(t)|
    ensures var line := SplitLines(t)[i];
            && line != [] && LF !in line[..|line| - 1]
            && (i < |SplitLines(t)| - 1 ==> line[|line| - 1] == LF)
    decreases |t|
  {
    var line := FirstLine(t);
    if i > 0 {
      SplitLinesAreLines(t[|line|..], i - 1);
    } else {
      assert line[..|line| - 1] == t[..|line| - 1];
      assert t[..FirstLf(t)][..|line| - 1] == t[..|line| - 1];
    }
  }

  // ---- the stream and the file ----

  /** A stream delivers its data in pieces of its own choosing; a read past the end yields nothing. */
  class PieceStream {
    var rest: bytes
    var cuts: seq<nat>

    constructor (rest: bytes, cuts: seq<nat>)
      ensures this.rest == rest && this.cuts == cuts
    {
      this.rest, this.cuts := rest, cuts;
    }

    /** A non-empty piece of at most `n` bytes while there are any left. */
    method Read(n: nat) returns (data: bytes)
      requires n > 0
      modifies this
      ensures old(rest) == data + rest && |data| <= n
      ensures data == [] ==> old(rest) == []
    {
      var want := 1;
      if cuts != [] {
        want := if cuts[0] == 0 then 1 else cuts[0];
        cuts := cuts[1..];
      }
      var k := if want < n then want else n;
      k := if k < |rest| then k else |rest|;
      data := rest[..k];
      rest := rest[k..];
    }
  }

  class LineFile {
    const stream: PieceStream
    const universal: bool
    const bufsize: nat
    var rbuffer: bytes
    var atTrailingCr: bool
    var pos: nat
    var realpos: nat

    constructor (stream: PieceStream, universal: bool, bufsize: nat)
      requires bufsize > 0
      ensures this.stream == stream && this.universal == universal && Valid()
      ensures rbuffer == [] && !atTrailingCr && pos == 0 && realpos == 0
    {
      this.stream, this.universal, this.bufsize := stream, universal, bufsize;
      rbuffer, atTrailingCr, pos, realpos := [], false, 0, 0;
    }

    ghost predicate Valid()
      reads this
    {
      bufsize > 0 && (atTrailingCr ==> universal && rbuffer == [])
    }

    /** The text still to be read, whatever part of it is buffered. */
    function Text(): bytes
      reads this, stream
    {
      TextAfter(atTrailingCr, universal, rbuffer + stream.rest)
    }

    /**
     * The next line of the text, or as much of it as the limit allows, however the stream is cut; what is left is
     * the rest of the text. The one exception is a limit that falls between a buffered CR and its LF in
     * universal-newline mode: the LF is then left behind and shows up as an empty line of its own.
     */
    method ReadLine(size: int) returns (result: bytes)
      requires Valid()
      modifies this, stream
      ensures Valid()
      ensures result == Limited(FirstLine(old(Text())), size)
      ensures Text() == (if universal && CutsCrLf(old(rbuffer), size) then [LF] else []) + old(Text())[|result|..]
      ensures pos == old(pos) + |result|
    {
      ghost var t := Text();
      var line, eof := FillLine(size);
      if eof {
        AtEnd(universal, line);
        assert line + (rbuffer + stream.rest) == line && rbuffer + stream.rest == [];
        pos := pos + |line|;
        assert t == line && Text() == [];
        return line;
      }
      result := CutLine(line, t, old(rbuffer), size);
    }

    /** Line by line until the end: the same lines for every way of cutting the stream into pieces. */
    method ReadLines() returns (lines: seq<bytes>)
      requires Valid()
      modifies this, stream
      ensures Valid() && lines == SplitLines(old(Text())) && Text() == []
    {
      lines := [];
      while true
        invariant Valid() && lines + SplitLines(Text()) == SplitLines(old(Text()))
        decreases |Text()|
      {
        LineStep(lines, Text());
        var line := ReadLine(-1);
        if |line| == 0 {
          return;
        }
        lines := lines + [line];
      }
    }

    /** Drops the LF of a CRLF whose CR ended the previous line. */
    method AfterCr(line: bytes) returns (r: bytes)
      modifies this`atTrailingCr
      ensures Skipped(atTrailingCr, r + stream.rest) == Skipped(old(atTrailingCr), line + stream.rest)
      ensures if old(atTrailingCr) && universal && line != [] then !atTrailingCr
              && r == (if line[0] == LF then line[1..] else line)
              else r == line && atTrailingCr == old(atTrailingCr)
    {
      r := line;
      if atTrailingCr && universal && |line| > 0 {
        SkipLf(line, stream.rest);
        if line[0] == LF {
          r := line[1..];
        }
        atTrailingCr := false;
      }
    }

    /** Cuts the line off at the limit and keeps the rest. */
    method Truncate(line: bytes, size: nat) returns (r: bytes)
      requires size <= |line|
      modifies this`rbuffer
      ensures |r| == size && line == r + rbuffer && r + (rbuffer + stream.rest) == line + stream.rest
    {
      rbuffer := line[size..];
      r := line[..size];
      assert line + stream.rest == r + (rbuffer + stream.rest);
    }

    /** First half: reads until the line buffer holds a newline or the limit is reached. */
    method FillLine(size: int) returns (line: bytes, eof: bool)
      requires Valid()
      modifies this`rbuffer, this`atTrailingCr, this`realpos, stream
      ensures Skipped(atTrailingCr, line + (rbuffer + stream.rest)) == old(Skipped(atTrailingCr, rbuffer + stream.rest))
      ensures eof ==> !NewlineIn(universal, line) && rbuffer == stream.rest == [] && (atTrailingCr ==> line == [])
      ensures eof ==> size < 0 || (|line| < size && |old(rbuffer)| <= size)
      ensures !eof ==> AtLimit(line, rbuffer, old(rbuffer), size) ||
                       (NewlineIn(universal, line) && BelowLimit(line, rbuffer, old(rbuffer), size))
      ensures atTrailingCr ==> universal && line == [] && rbuffer == []
    {
      line := rbuffer;
      while true
        invariant atTrailingCr ==> universal && old(atTrailingCr)
        invariant rbuffer == old(rbuffer)
        invariant Skipped(atTrailingCr, line + stream.rest) == old(Skipped(atTrailingCr, rbuffer + stream.rest))
        invariant line == old(rbuffer) || size < 0 || (|old(rbuffer)| < size && |line| <= size)
        decreases |stream.rest|
      {
        line := AfterCr(line);
        var n := bufsize;
        if size >= 0 {
          if |line| >= size {
            line := Truncate(line, size);
            return line, false;
          }
          n := size - |line|;
        }
        if LF in line || (universal && CR in line) {
          rbuffer := [];
          assert rbuffer + stream.rest == stream.rest;
          return line, false;
        }
        var newData := stream.Read(n);
        if newData == [] {
          rbuffer := [];
          return line, true;
        }
        assert line + (newData + stream.rest) == (line + newData) + stream.rest;
        line := line + newData;
        realpos := realpos + |newData|;
      }
    }

    /** Second half: finds the newline in `line`, keeps what follows it, and returns the line. */
    method CutLine(line: bytes, ghost t: bytes, ghost before: bytes, ghost size: int) returns (result: bytes)
      requires bufsize > 0
      requires atTrailingCr ==> universal && line == [] && rbuffer == []
      requires TextAfter(atTrailingCr, universal, line + (rbuffer + stream.rest)) == t
      requires AtLimit(line, rbuffer, before, size)
               || (NewlineIn(universal, line) && BelowLimit(line, rbuffer, before, size))
      modifies this`rbuffer, this`atTrailingCr, this`pos
      ensures Valid()
      ensures result == Limited(FirstLine(t), size)
      ensures Text() == (if universal && CutsCrLf(before, size) then [LF] else []) + t[|result|..]
      ensures pos == old(pos) + |result|
    {
      var p := FindNewline(universal, line);
      if p == -1 {
        NoNewline(atTrailingCr, universal, line, rbuffer + stream.rest);
        NotCut(universal, line, rbuffer, before, size);
        pos := pos + |line|;
        return line;
      }
      var xpos := p + 1;
      if line[p] == CR && xpos < |line| && line[xpos] == LF {
        xpos := xpos + 1;
      }
      result := line[..p] + [LF];
      CutIsCorrect(universal, line, rbuffer, stream.rest, p, xpos, before, size);
      assert |result| == p + 1;
      rbuffer := line[xpos..] + rbuffer;
      var lf := line[p..xpos];
      assert lf[0] == line[p];
      if |rbuffer| == 0 && lf == [CR] {
        // its LF, if any, is still unread
        atTrailingCr := true;
      }
      pos := pos + |result|;
    }
  }

  lemma SkipLf(line: bytes, rest: bytes)
    requires line != []
    ensures Skipped(true, line + rest) == (if line[0] == LF then line[1..] else line) + rest
  {
    assert (line + rest)[1..] == line[1..] + rest;
  }

  lemma NotCut(universal: bool, line: bytes, kept: bytes, before: bytes, size: int)
    requires !NewlineIn(universal, line) && AtLimit(line, kept, before, size)
    ensures !(universal && CutsCrLf(before, size))
  {
    if kept != [] {
      assert forall i :: 0 <= i < size ==> before[i] == line[i];
    }
  }

  function FindNewline(universal: bool, line: bytes): (p: int)
    ensures p == -1 ==> !NewlineIn(universal, line)
    ensures p != -1 ==> p >= 0 && IsNewlineAt(universal, line, p)
  {
    var p := Find(line, LF);
    var rpos := Find(line, CR);
    if universal && rpos >= 0 && (rpos < p || p < 0) then
      assert p >= 0 ==> line[..p][..rpos] == line[..rpos];
      rpos
    else
      assert universal && p >= 0 && rpos >= p ==> line[..rpos][..p] == line[..p];
      p
  }

  /** The line buffer was cut off at the limit; what was beyond it is kept. */
  predicate AtLimit(line: bytes, kept: bytes, before: bytes, size: int) {
    size == |line| && (if kept == [] then |before| <= size else before == line + kept)
  }

  predicate BelowLimit(line: bytes, kept: bytes, before: bytes, size: int) {
    kept == [] && (size < 0 || (|line| < size && |before| < size))
  }

  predicate NewlineIn(universal: bool, s: bytes) {
    LF in s || (universal && CR in s)
  }

  /** Without a limit, all of it. */
  function Limited(line: bytes, size: int): (r: bytes)
    ensures r <= line && |r| == if 0 <= size < |line| then size else |line|
  {
    if 0 <= size < |line| then line[..size] else line
  }

  /** The limit falls between a CR and its LF, both buffered, with no newline before them. */
  predicate CutsCrLf(buffer: bytes, size: int) {
    1 <= size < |buffer| && buffer[size - 1] == CR && buffer[size] == LF && !NewlineIn(true, buffer[..size - 1])
  }

  predicate IsNewlineAt(universal: bool, line: bytes, p: nat) {
    p < |line| && !NewlineIn(universal, line[..p]) && (line[p] == LF || (universal && line[p] == CR))
  }

  predicate EndsAt(line: bytes, p: nat, xpos: nat)
    requires p < |line|
  {
    xpos == if line[p] == CR && p + 1 < |line| && line[p + 1] == LF then p + 2 else p + 1
  }

  /** Cutting a line buffer after its first newline, as `readline` does, takes the first line off the text. */
  lemma CutIsCorrect(universal: bool, line: bytes, kept: bytes, rest: bytes, p: nat, xpos: nat, before: bytes,
                     size: int)
    requires IsNewlineAt(universal, line, p) && EndsAt(line, p, xpos)
    requires AtLimit(line, kept, before, size) || BelowLimit(line, kept, before, size)
    ensures var t := TextAfter(false, universal, line + (kept + rest));
            var rbuffer := line[xpos..] + kept;
            && Limited(FirstLine(t), size) == line[..p] + [LF]
            && |line[..p] + [LF]| <= |t|
            && TextAfter(rbuffer == [] && line[p..xpos] == [CR], universal, rbuffer + rest) ==
                 (if universal && CutsCrLf(before, size) then [LF] else []) + t[p + 1..]
  {
    var tail := line[p + 1..] + (kept + rest);
    assert line + (kept + rest) == line[..p + 1] + tail;
    LineIs(universal, line, p, tail);
    RestIsCorrect(universal, line, kept, rest, p, xpos, before, size);
  }

  lemma RestIsCorrect(universal: bool, line: bytes, kept: bytes, rest: bytes, p: nat, xpos: nat, before: bytes,
                      size: int)
    requires IsNewlineAt(universal, line, p) && EndsAt(line, p, xpos)
    requires AtLimit(line, kept, before, size) || BelowLimit(line, kept, before, size)
    ensures var rbuffer := line[xpos..] + kept;
            TextAfter(rbuffer == [] && line[p..xpos] == [CR], universal, rbuffer + rest) ==
            (if universal && CutsCrLf(before, size) then [LF] else [])
            + TextAfter(line[p] == CR, universal, line[p + 1..] + (kept + rest))
  {
    var tail, k, rbuffer := line[p + 1..] + (kept + rest), xpos - (p + 1), line[xpos..] + kept;
    var next := TextAfter(line[p] == CR, universal, tail);
    assert [] + next == next;
    LeftBehind(universal, line, kept, rest, p, xpos, before, size);
    assert line[p..xpos] == [CR] <==> line[p] == CR && k == 0;
    if rbuffer == [] && line[p] == CR && k == 0 {
      assert rbuffer + rest == tail;
    } else {
      assert rbuffer + rest == tail[k..];
      RestOfText(universal, line[p], tail, k);
    }
  }

  /** A linefeed that belongs to the newline stays in the buffer only when the limit cut it off. */
  lemma LeftBehind(universal: bool, line: bytes, kept: bytes, rest: bytes, p: nat, xpos: nat, before: bytes, size: int)
    requires IsNewlineAt(universal, line, p) && EndsAt(line, p, xpos)
    requires AtLimit(line, kept, before, size) || BelowLimit(line, kept, before, size)
    ensures var tail := line[p + 1..] + (kept + rest);
            line[xpos..] + kept != [] ==>
              (line[p] == CR && xpos == p + 1 && tail != [] && tail[0] == LF <==> universal && CutsCrLf(before, size))
    ensures line[xpos..] + kept == [] ==> !(universal && CutsCrLf(before, size))
  {
    if universal && CutsCrLf(before, size) {
      assert before == line + kept && kept != [];
      assert before[size - 1] == line[size - 1] && before[size] == kept[0];
      assert before[..size - 1] == line[..size - 1];
      assert forall j :: 0 <= j < size - 1 ==> line[..size - 1][j] == line[j];
    }
    if line[p] == CR && xpos == p + 1 && line[xpos..] + kept != [] && (line[p + 1..] + (kept + rest))[0] == LF {
      assert p + 1 == |line|;
      assert before == line + kept && before[..size - 1] == line[..p];
    }
  }

  /** What is left once a newline byte has been taken, with or without the linefeed that may complete it. */
  lemma RestOfText(universal: bool, b: byte, tail: bytes, k: nat)
    requires k <= 1 && k <= |tail|
    requires k == 1 ==> b == CR && tail[0] == LF
    requires b == CR ==> universal
    ensures TextAfter(false, universal, tail[k..]) ==
            (if b == CR && k == 0 && tail != [] && tail[0] == LF then [LF] else [])
                + TextAfter(b == CR, universal, tail)
  {
    if b == CR && k == 0 && tail != [] && tail[0] == LF {
      assert tail == [LF] + tail[1..];
      AtNewline(universal, LF, tail[1..]);
    }
    assert [] + TextAfter(b == CR, universal, tail) == TextAfter(b == CR, universal, tail);
  }

  lemma NoNewline(atTrailingCr: bool, universal: bool, line: bytes, x: bytes)
    requires !NewlineIn(universal, line) && (atTrailingCr ==> line == [])
    ensures var t := TextAfter(atTrailingCr, universal, line + x);
            && Limited(FirstLine(t), |line|) == line
            && [] + t[|line|..] == TextAfter(atTrailingCr, universal, x)
  {
    if atTrailingCr {
      assert line + x == x;
    } else {
      BeforeNewline(universal, line, x);
      FirstLineStarts(line, TextAfter(false, universal, x));
    }
  }

  lemma {:induction false} NormalizedBefore(a: bytes, x: bytes)
    requires CR !in a
    ensures Normalized(a + x) == a + Normalized(x)
  {
    if a == [] {
      assert a + x == x && a + Normalized(x) == Normalized(x);
    } else {
      var b, rest := a[0], a[1..];
      NormalizedBefore(rest, x);
      assert b in a;
      assert (a + x)[0] == b && (a + x)[1..] == rest + x;
      assert [b] + (rest + Normalized(x)) == a + Normalized(x);
    }
  }

  lemma BeforeNewline(universal: bool, a: bytes, x: bytes)
    requires !NewlineIn(universal, a)
    ensures TextAfter(false, universal, a + x) == a + TextAfter(false, universal, x)
  {
    if universal {
      NormalizedBefore(a, x);
    }
  }

  /** After a linefeed the text goes on with what follows; after a CR it goes on past a linefeed. */
  lemma AtNewline(universal: bool, b: byte, x: bytes)
    requires b == LF || (universal && b == CR)
    ensures TextAfter(false, universal, [b] + x) == [LF] + TextAfter(b == CR, universal, x)
  {
    var s := [b] + x;
    assert s[1..] == x && (x != [] ==> s[1] == x[0] && s[2..] == x[1..]);
  }

  lemma {:induction false} FirstLineOf(a: bytes, y: bytes)
    requires LF !in a
    ensures FirstLf(a + [LF] + y) == |a|
    ensures FirstLine(a + [LF] + y) == a + [LF]
  {
    if a == [] {
      assert a + [LF] + y == [LF] + y;
    } else {
      assert (a + [LF] + y)[1..] == a[1..] + [LF] + y;
      FirstLineOf(a[1..], y);
    }
  }

  lemma FirstLineStarts(a: bytes, y: bytes)
    requires LF !in a
    ensures |a| <= |FirstLine(a + y)| && FirstLine(a + y)[..|a|] == a
    ensures y == [] ==> FirstLine(a + y) == a
  {
    var i := FirstLf(a + y);
    assert forall k :: 0 <= k < |a| ==> (a + y)[k] == a[k] && a[k] in a;
  }

  /** The text of a line buffer whose first newline is at `p`, followed by `tail`. */
  lemma LineIs(universal: bool, line: bytes, p: nat, tail: bytes)
    requires p < |line| && !NewlineIn(universal, line[..p])
    requires line[p] == LF || (universal && line[p] == CR)
    ensures var t := TextAfter(false, universal, line[..p + 1] + tail);
            && FirstLine(t) == line[..p] + [LF]
            && t[p + 1..] == TextAfter(line[p] == CR, universal, tail)
  {
    assert line[..p + 1] + tail == line[..p] + ([line[p]] + tail);
    BeforeNewline(universal, line[..p], [line[p]] + tail);
    AtNewline(universal, line[p], tail);
    var y := TextAfter(line[p] == CR, universal, tail);
    assert line[..p] + ([LF] + y) == line[..p] + [LF] + y;
    FirstLineOf(line[..p], y);
  }

  lemma AtEnd(universal: bool, line: bytes)
    requires !NewlineIn(universal, line)
    ensures TextAfter(false, universal, line) == line && FirstLine(line) == line
  {
    BeforeNewline(universal, line, []);
    FirstLineStarts(line, []);
    assert line + [] == line;
  }

  // ---- buffered writes ----

  /** A sink that may take less than it is offered, but always something. */
  class Sink {
    var data: bytes
    var takes: seq<nat>

    constructor (takes: seq<nat>)
      ensures data == [] && this.takes == takes
    {
      this.data, this.takes := [], takes;
    }

    method Write(offered: bytes) returns (count: nat)
      requires offered != []
      modifies this
      ensures 1 <= count <= |offered| && data == old(data) + offered[..count]
    {
      count := |offered|;
      if takes != [] {
        if 1 <= takes[0] < count {
          count := takes[0];
        }
        takes := takes[1..];
      }
      data := data + offered[..count];
    }
  }

  function FindLast(s: bytes, b: byte): (i: int)
    ensures -1 <= i < |s|
    ensures i >= 0 ==> s[i] == b
    ensures forall j :: i < j < |s| ==> s[j] != b
  {
    if s == [] then -1
    else if s[|s| - 1] == b then |s| - 1
    else FindLast(s[..|s| - 1], b)
  }

  class WriteFile {
    const sink: Sink
    const writable: bool
    const buffered: bool
    const lineBuffered: bool
    const append: bool
    const bufsize: nat
    var wbuffer: bytes
    var closed: bool
    var pos: nat
    var realpos: nat
    var size: nat

    /** How much may be held back: nothing, an unfinished line, or less than a buffer. */
    ghost predicate Valid()
      reads this
    {
      && (!buffered ==> wbuffer == [])
      && (buffered && lineBuffered ==> LF !in wbuffer)
      && (buffered && !lineBuffered ==> wbuffer == [] || |wbuffer| < bufsize)
      && Positioned()
    }

    predicate Positioned()
      reads this
    {
      append ==> pos == realpos == size
    }

    constructor (sink: Sink, writable: bool, bufsize: int, append: bool, initialSize: nat)
      ensures Valid() && this.sink == sink && wbuffer == [] && !closed
      ensures buffered == (bufsize >= 1) && lineBuffered == (bufsize == 1)
      ensures this.writable == (writable || append) && this.append == append
      ensures this.bufsize == if bufsize > 1 then bufsize else 8192
      ensures pos == realpos == if append then initialSize else 0
    {
      this.sink, this.writable, this.append := sink, writable || append, append;
      this.bufsize := if bufsize > 1 then bufsize else 8192;
      buffered, lineBuffered := bufsize >= 1, bufsize == 1;
      wbuffer, closed := [], false;
      pos := if append then initialSize else 0;
      realpos := if append then initialSize else 0;
      size := if append then initialSize else 0;
    }

    /** Everything written, whether it has reached the sink yet or not. */
    function Written(): bytes
      reads this, sink
    {
      sink.data + wbuffer
    }

    method WriteAll(data: bytes)
      modifies this`pos, this`realpos, this`size, sink
      ensures sink.data == old(sink.data) + data
      ensures append && old(pos == realpos == size) ==> pos == realpos == size == old(size) + |data|
      ensures !append ==> pos == old(pos) + |data| && realpos == old(realpos) + |data| && size == old(size)
    {
      var rest := data;
      while |rest| > 0
        invariant sink.data + rest == old(sink.data) + data
        invariant append && old(pos == realpos == size) ==> pos == realpos == size
        invariant append ==> size + |rest| == old(size) + |data|
        invariant !append ==>
                  pos + |rest| == old(pos) + |data| && realpos + |rest| == old(realpos) + |data| && size == old(size)
        decreases |rest|
      {
        ghost var before := sink.data;
        var count := sink.Write(rest);
        assert before + rest == (before + rest[..count]) + rest[count..];
        rest := rest[count..];
        if append {
          size := size + count;
          pos := size;
          realpos := size;
        } else {
          pos := pos + count;
          realpos := realpos + count;
        }
      }
    }

    method Flush()
      requires Positioned()
      modifies this`wbuffer, this`pos, this`realpos, this`size, sink
      ensures Valid() && wbuffer == [] && sink.data == old(Written())
    {
      WriteAll(wbuffer);
      wbuffer := [];
    }

    /**
     * Nothing is lost, reordered or written twice; false when the file is closed or not open for writing. A
     * line-buffered file is never flushed for its size, only up to its last linefeed.
     */
    method Write(data: bytes) returns (ok: bool)
      requires Valid()
      modifies this`wbuffer, this`pos, this`realpos, this`size, sink
      ensures Valid() && ok == (!closed && writable)
      ensures Written() == if ok then old(Written()) + data else old(Written())
      ensures !ok ==> sink.data == old(sink.data)
      ensures old(sink.data) <= sink.data
      ensures buffered && lineBuffered && LF !in data ==> sink.data == old(sink.data)
      ensures ok && buffered && lineBuffered && LF in data ==> sink.data != [] && sink.data[|sink.data| - 1] == LF
      ensures ok && buffered && !lineBuffered ==>
                sink.data == if |old(wbuffer)| + |data| < bufsize then old(sink.data) else old(Written()) + data
    {
      if closed || !writable {
        return false;
      }
      ok := true;
      if !buffered {
        WriteAll(data);
        return;
      }
      ghost var sent, all := sink.data, wbuffer + data;
      wbuffer := wbuffer + data;
      assert sent + all == old(Written()) + data;
      if lineBuffered {
        var lastNewlinePos := FindLast(data, LF);
        if lastNewlinePos >= 0 {
          var wbuf := wbuffer;
          lastNewlinePos := lastNewlinePos + |wbuf| - |data|;
          assert wbuf[lastNewlinePos + 1..] == data[lastNewlinePos - |wbuf| + |data| + 1..];
          assert sent + wbuf == (sent + wbuf[..lastNewlinePos + 1]) + wbuf[lastNewlinePos + 1..];
          WriteAll(wbuf[..lastNewlinePos + 1]);
          wbuffer := wbuf[lastNewlinePos + 1..];
        }
        return;
      }
      if |wbuffer| >= bufsize {
        Flush();
      }
    }
  }
}
