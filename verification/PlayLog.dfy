/** Rebuilding a directory tree from the messages of a recorded copy session. */
module PlayLog {
  import opened Basics

  const NUL: string := [0 as char]
  const END_OF_FOLDER: string := "E\n"

  // ---- header lines ----

  datatype Class = Space | Digit | Solid

  predicate In(k: Class, c: char) {
    var space := c == ' ' || c == '\t' || c == '\n' || c == '\r' || c == 11 as char || c == 12 as char;
    match k
    case Space => space
    case Digit => '0' <= c <= '9'
    case Solid => !space
  }

  ghost predicate AllIn(k: Class, s: string) {
    forall i :: 0 <= i < |s| ==> In(k, s[i])
  }

  /** The length of the longest beginning made of one class of characters. */
  function Span(k: Class, s: string): (n: nat)
    ensures n <= |s| && AllIn(k, s[..n])
    ensures n < |s| ==> !In(k, s[n])
  {
    if s == "" || !In(k, s[0]) then 0 else 1 + Span(k, s[1..])
  }

  function TrimRight(s: string): string {
    if s != "" && In(Space, s[|s| - 1]) then TrimRight(s[..|s| - 1]) else s
  }

  function Trim(s: string): string {
    TrimRight(s[Span(Space, s)..])
  }

  /** Pieces between single blanks, which may be empty. */
  function Pieces(s: string): (r: seq<string>)
    ensures r != []
  {
    if s == "" then [""]
    else
      var rest := Pieces(s[1..]);
      if s[0] == ' ' then [""] + rest else [[s[0]] + rest[0]] + rest[1..]
  }

  function DigitsValue(s: string): nat
    requires AllIn(Digit, s)
  {
    if s == "" then 0 else DigitsValue(s[..|s| - 1]) * 10 + (s[|s| - 1] as int - '0' as int)
  }

  /** Python's `int` of a string: blanks around, one sign, digits. */
  function IntOf(s: string): Option<int> {
    var t := Trim(s);
    var negative := t != "" && t[0] == '-';
    var digits := if t != "" && (t[0] == '-' || t[0] == '+') then t[1..] else t;
    if digits == "" || Span(Digit, digits) < |digits| then None
    else
      assert digits[..Span(Digit, digits)] == digits;
      Some(if negative then 0 - DigitsValue(digits) else DigitsValue(digits))
  }

  /** The shape of a header: a letter, four digits, blanks, digits, blanks, a name, and a line end or two. */
  predicate Matches(letter: char, s: string) {
    |s| >= 5 && s[0] == letter && (forall i :: 1 <= i < 5 ==> In(Digit, s[i]))
        && MatchesRuns([Space, Digit, Space, Solid], s[5..])
  }

  /** One run of each class, none empty, and then the end, which may stand before a last line end. */
  predicate MatchesRuns(classes: seq<Class>, s: string) {
    if classes == [] then s == "\n" || s == "\n\n"
    else Span(classes[0], s) > 0 && MatchesRuns(classes[1..], s[Span(classes[0], s)..])
  }

  datatype Header = FolderHeader(name: string) | FileHeader(name: string, length: int) | BadHeader | BadField

  /** Name and length are taken from the line before its shape is checked, and a missing or odd field raises. */
  function ParseHeader(hdr: string): Header {
    var pieces := Pieces(Trim(hdr));
    if |pieces| < 3 then BadField
    else
      var length := IntOf(pieces[1]);
      if length == None then BadField
      else if Matches('D', hdr) then FolderHeader(pieces[2])
      else if Matches('C', hdr) then FileHeader(pieces[2], length.value)
      else BadHeader
  }

  // ---- the parser as a function of the messages ----

  datatype Node = File(content: string) | Folder(entries: map<string, Node>)

  /** `Refused` is a result of None, `Raised` an exception: a bad field, or messages that run out. */
  datatype Parse<T> = Got(value: T, rest: seq<string>) | Refused | Raised

  /** The content of a file: up to a message that is a single NUL, or one that ends in a NUL behind the last byte. */
  function Contents(datas: seq<string>, soFar: string, length: int): (r: Parse<string>)
    ensures r.Got? ==> |r.rest| < |datas|
  {
    if datas == [] then Raised
    else
      var tmp := datas[0];
      if tmp == NUL then Got(soFar, datas[1..])
      else if tmp != "" && tmp[|tmp| - 1] == NUL[0] && |soFar| + |tmp| - 1 == length then
        Got(soFar + tmp[..|tmp| - 1], datas[1..])
      else Contents(datas[1..], soFar + tmp, length)
  }

  /** One folder's entries, added to `f`, up to the end of the messages or of the folder. */
  function Entries(datas: seq<string>, f: map<string, Node>): (r: Parse<map<string, Node>>)
    ensures r.Got? ==> |r.rest| <= |datas|
    ensures r.Got? ==> r.rest == [] || r.rest[0] == END_OF_FOLDER
    decreases |datas|
  {
    if datas == [] || datas[0] == END_OF_FOLDER then Got(f, datas)
    else
      match ParseHeader(datas[0])
      case BadField => Raised
      case BadHeader => Refused
      case FolderHeader(name) =>
        (match Entries(datas[1..], map[])
         case Got(sub, rest) =>
           // the messages can run out here, but nothing else than the end of the folder can follow
           if rest == [] then Raised else Entries(rest[1..], f[name := Folder(sub)])
         case Refused => Refused
         case Raised => Raised)
      case FileHeader(name, length) =>
        (match Contents(datas[1..], "", length)
         case Got(content, rest) => Entries(rest, f[name := File(content)])
         case _ => Raised)
  }

  // ---- the loops ----

  /** The queue of messages all levels of the parser take from. */
  class Deque {
    var items: seq<string>

    constructor (items: seq<string>)
      ensures this.items == items
    {
      this.items := items;
    }

    /** None stands for the exception an empty queue raises. */
    method PopLeft() returns (r: Option<string>)
      modifies this
      ensures r == if old(items) == [] then None else Some(old(items)[0])
      ensures items == if old(items) == [] then [] else old(items)[1..]
    {
      if items == [] {
        return None;
      }
      r := Some(items[0]);
      items := items[1..];
    }
  }

  function Joined(chunks: seq<string>): string {
    if chunks == [] then "" else Joined(chunks[..|chunks| - 1]) + chunks[|chunks| - 1]
  }

  method ReadContents(datas: Deque, length: int) returns (r: Parse<string>)
    modifies datas
    ensures r == Contents(old(datas.items), "", length)
    ensures r.Got? ==> datas.items == r.rest
  {
    var contents: seq<string> := [];
    ghost var all := datas.items;
    while true
      invariant Contents(all, "", length) == Contents(datas.items, Joined(contents), length)
      decreases |datas.items|
    {
      var p := datas.PopLeft();
      if p == None {
        return Raised;
      }
      var tmp := p.value;
      if tmp == NUL {
        break;
      }
      if tmp != "" && tmp[|tmp| - 1] == NUL[0] && |Joined(contents)| + |tmp| - 1 == length {
        Extend(contents, tmp[..|tmp| - 1]);
        contents := contents + [tmp[..|tmp| - 1]];
        break;
      }
      Extend(contents, tmp);
      contents := contents + [tmp];
    }
    r := Got(Joined(contents), datas.items);
  }

  lemma Extend(chunks: seq<string>, c: string)
    ensures Joined(chunks + [c]) == Joined(chunks) + c
  {
    assert (chunks + [c])[..|chunks|] == chunks;
  }

  /** The recursive parser over the shared queue. */
  method ExtractFiles(datas: Deque) returns (r: Parse<map<string, Node>>)
    modifies datas
    ensures r == Entries(old(datas.items), map[])
    ensures r.Got? ==> datas.items == r.rest
    decreases |datas.items|
  {
    ghost var all := datas.items;
    var f: map<string, Node> := map[];
    while datas.items != [] && datas.items[0] != END_OF_FOLDER
      invariant |datas.items| <= |all|
      invariant Entries(all, map[]) == Entries(datas.items, f)
      decreases |datas.items|
    {
      var hdr := datas.PopLeft();
      match ParseHeader(hdr.value) {
        case BadField => return Raised;
        case BadHeader => return Refused;
        case FolderHeader(name) =>
          var sub := ExtractFiles(datas);
          if !sub.Got? {
            return sub;
          }
          f := f[name := Folder(sub.value)];
          var tail := datas.PopLeft();
          if tail == None {
            return Raised;
          }
          if tail.value != END_OF_FOLDER {
            return Refused;
          }
        case FileHeader(name, length) =>
          var contents := ReadContents(datas, length);
          if !contents.Got? {
            return Raised;
          }
          f := f[name := File(contents.value)];
      }
    }
    r := Got(f, datas.items);
  }

  // ---- what a sender writes ----

  /**
   * One entry of a folder as it is sent. A file comes in chunks; the last message holds what is left and a NUL, which
   * stands alone when nothing is left.
   */
  datatype Entry =
    | SentFile(mode: string, name: string, chunks: seq<string>, last: string)
    | SentFolder(mode: string, size: nat, name: string, entries: seq<Entry>)

  predicate NameOk(name: string) {
    name != "" && forall i :: 0 <= i < |name| ==> In(Solid, name[i])
  }

  predicate ModeOk(mode: string) {
    |mode| == 4 && forall i :: 0 <= i < 4 ==> In(Digit, mode[i])
  }

  predicate Sendable(e: Entry) {
    && ModeOk(e.mode) && NameOk(e.name)
    && match e
       case SentFile(_, _, chunks, _) => NUL !in chunks
       case SentFolder(_, _, _, entries) => forall x :: x in entries ==> Sendable(x)
  }

  function Decimal(n: nat): (s: string)
    ensures s != "" && AllIn(Digit, s)
  {
    var last := ('0' as int + n % 10) as char;
    if n < 10 then [last] else Decimal(n / 10) + [last]
  }

  function HeaderLine(letter: char, mode: string, n: nat, name: string): string {
    [letter] + mode + " " + Decimal(n) + " " + name + "\n"
  }

  function ContentOf(chunks: seq<string>, last: string): string {
    if chunks == [] then last else chunks[0] + ContentOf(chunks[1..], last)
  }

  function Sent(e: Entry): seq<string> {
    match e
    case SentFile(mode, name, chunks, last) =>
      [HeaderLine('C', mode, |ContentOf(chunks, last)|, name)] + chunks + [last + NUL]
    case SentFolder(mode, size, name, entries) =>
      [HeaderLine('D', mode, size, name)] + SentAll(entries) + [END_OF_FOLDER]
  }

  function SentAll(entries: seq<Entry>): seq<string> {
    if entries == [] then [] else Sent(entries[0]) + SentAll(entries[1..])
  }

  /** The tree an entry stands for. */
  function NodeOf(e: Entry): Node {
    match e
    case SentFile(_, _, chunks, last) => File(ContentOf(chunks, last))
    case SentFolder(_, _, _, entries) => Folder(TreeOf(entries, map[]))
  }

  function TreeOf(entries: seq<Entry>, f: map<string, Node>): map<string, Node> {
    if entries == [] then f else TreeOf(entries[1..], f[entries[0].name := NodeOf(entries[0])])
  }

  // ---- parsing what was sent ----

  lemma {:induction false} SpanOf(k: Class, a: string, b: string)
    requires AllIn(k, a) && (b == "" || !In(k, b[0]))
    ensures Span(k, a + b) == |a|
  {
    if a == "" {
      assert a + b == b;
    } else {
      assert (a + b)[1..] == a[1..] + b;
      SpanOf(k, a[1..], b);
    }
  }

  lemma {:induction false} DigitsValueOfDecimal(n: nat)
    ensures DigitsValue(Decimal(n)) == n
  {
    var s := Decimal(n);
    if n >= 10 {
      DigitsValueOfDecimal(n / 10);
      assert s[..|s| - 1] == Decimal(n / 10);
    } else {
      assert s[..|s| - 1] == "";
    }
  }

  lemma {:induction false} TrimRightSpaces(s: string, blanks: string)
    requires (s != "" ==> !In(Space, s[|s| - 1])) && AllIn(Space, blanks)
    ensures TrimRight(s + blanks) == s
    decreases |blanks|
  {
    if blanks == "" {
      assert s + blanks == s;
    } else {
      var init := blanks[..|blanks| - 1];
      assert (s + blanks)[..|s + blanks| - 1] == s + init;
      TrimRightSpaces(s, init);
    }
  }

  /** A string that neither starts nor ends in a blank is what is left of it with blanks behind it. */
  lemma TrimOf(s: string, blanks: string)
    requires s != "" && !In(Space, s[0]) && !In(Space, s[|s| - 1]) && AllIn(Space, blanks)
    ensures Trim(s + blanks) == s
  {
    assert Span(Space, s + blanks) == 0;
    assert (s + blanks)[0..] == s + blanks;
    TrimRightSpaces(s, blanks);
  }

  lemma {:induction false} PiecesOf(a: string, s: string)
    requires ' ' !in a
    ensures Pieces(a) == [a]
    ensures Pieces(a + " " + s) == [a] + Pieces(s)
  {
    if a == "" {
      assert ("" + " " + s)[1..] == s;
      assert a + " " + s == " " + s;
    } else {
      PiecesOf(a[1..], s);
      assert (a + " " + s)[1..] == a[1..] + " " + s;
      assert a == [a[0]] + a[1..];
    }
  }

  lemma IntOfDecimal(n: nat)
    ensures IntOf(Decimal(n)) == Some(n)
  {
    var s := Decimal(n);
    assert In(Digit, s[0]) && In(Digit, s[|s| - 1]);
    TrimOf(s, "");
    assert s + "" == s;
    SpanOf(Digit, s, "");
    DigitsValueOfDecimal(n);
  }

  /** Blanks are the characters 9 to 13 and 32, digits 48 to 57. */
  lemma ClassesAre(c: char)
    ensures In(Space, c) <==> 9 <= c as int <= 13 || c as int == 32
    ensures In(Digit, c) <==> 48 <= c as int <= 57
    ensures In(Solid, c) <==> !In(Space, c)
  {
  }

  /** A sign in front of the digits and blanks around them are read as Python's `int` reads them. */
  lemma IntOfSigned(before: string, sign: string, n: nat, behind: string)
    requires AllIn(Space, before) && AllIn(Space, behind) && (sign == "" || sign == "+" || sign == "-")
    ensures IntOf(before + (sign + Decimal(n) + behind)) == Some(if sign == "-" then 0 - n else n)
  {
    hide IntOf, DigitsValue, Trim, Decimal;
    var d := Decimal(n);
    assert In(Digit, d[0]) && In(Digit, d[|d| - 1]);
    TrimBoth(before, sign + d, behind);
    SignedDigits(before + (sign + d + behind), sign, n);
  }

  lemma AllDigits(d: string)
    requires AllIn(Digit, d)
    ensures Span(Digit, d) == |d|
  {
    SpanOf(Digit, d, "");
    assert d + "" == d;
  }

  lemma SignedDigits(whole: string, sign: string, n: nat)
    requires (sign == "" || sign == "+" || sign == "-") && Trim(whole) == sign + Decimal(n)
    ensures IntOf(whole) == Some(if sign == "-" then 0 - n else n)
  {
    hide Trim, Decimal, DigitsValue, Span;
    var d := Decimal(n);
    var t := sign + d;
    assert In(Digit, d[0]);
    assert t[|sign|..] == d && t[0] == (if sign == "" then d[0] else sign[0]);
    AllDigits(d);
    DigitsValueOfDecimal(n);
    if sign == "" {
      assert t == d;
    }
  }

  lemma TrimBoth(before: string, s: string, behind: string)
    requires AllIn(Space, before) && AllIn(Space, behind)
    requires s != "" && !In(Space, s[0]) && !In(Space, s[|s| - 1])
    ensures Trim(before + (s + behind)) == s
  {
    SpanOf(Space, before, s + behind);
    assert (before + (s + behind))[|before|..] == s + behind;
    TrimRightSpaces(s, behind);
  }

  /** Anything but digits behind the sign, or nothing, is not a number. */
  lemma NoInt(sign: string, s: string)
    requires sign == "+" || sign == "-"
    requires s == "" || ((exists i :: 0 <= i < |s| && !In(Digit, s[i])) && !In(Space, s[|s| - 1]))
    ensures IntOf(sign + s) == None
  {
    hide IntOf, Trim;
    var t := sign + s;
    assert t[|t| - 1] == if s == "" then sign[0] else s[|s| - 1];
    TrimBoth("", t, "");
    assert "" + (t + "") == t;
    if s != "" {
      SpanStops(s);
    }
    NoDigits(t, sign, s);
  }

  lemma SpanStops(s: string)
    requires exists i :: 0 <= i < |s| && !In(Digit, s[i])
    ensures Span(Digit, s) < |s|
  {
    assert s[..|s|] == s;
  }

  lemma NoDigits(whole: string, sign: string, s: string)
    requires (sign == "+" || sign == "-") && Trim(whole) == sign + s && (s == "" || Span(Digit, s) < |s|)
    ensures IntOf(whole) == None
  {
    hide Trim, DigitsValue, Span;
    assert (sign + s)[1..] == s;
  }

  lemma HeaderPieces(letter: char, mode: string, n: nat, name: string)
    requires (letter == 'C' || letter == 'D') && ModeOk(mode) && NameOk(name)
    ensures Pieces(Trim(HeaderLine(letter, mode, n, name))) == [[letter] + mode, Decimal(n), name]
  {
    var first, d := [letter] + mode, Decimal(n);
    var body := first + " " + (d + " " + name);
    assert HeaderLine(letter, mode, n, name) == body + "\n";
    assert body[0] == letter && body[|body| - 1] == name[|name| - 1];
    TrimOf(body, "\n");
    assert forall i :: 0 <= i < |first| ==> first[i] != ' ';
    PiecesOf(first, d + " " + name);
    PiecesOf(d, name);
    PiecesOf(name, "");
    assert [first] + ([d] + [name]) == [first, d, name];
  }

  lemma RunOf(k: Class, classes: seq<Class>, a: string, b: string)
    requires a != "" && AllIn(k, a) && b != "" && !In(k, b[0])
    requires classes != [] && classes[0] == k && MatchesRuns(classes[1..], b)
    ensures MatchesRuns(classes, a + b)
  {
    SpanOf(k, a, b);
    assert (a + b)[|a|..] == b;
  }

  /** Blank, name, line end. */
  lemma NameRuns(name: string)
    requires NameOk(name)
    ensures MatchesRuns([Space, Solid], " " + (name + "\n"))
  {
    assert [Solid][1..] == [] && [Space, Solid][1..] == [Solid];
    RunOf(Solid, [Solid], name, "\n");
    RunOf(Space, [Space, Solid], " ", name + "\n");
  }

  lemma TailRuns(digits: string, name: string)
    requires digits != "" && AllIn(Digit, digits) && NameOk(name)
    ensures MatchesRuns([Space, Digit, Space, Solid], " " + (digits + (" " + (name + "\n"))))
  {
    var all := [Space, Digit, Space, Solid];
    assert all[1..] == [Digit, Space, Solid] && [Digit, Space, Solid][1..] == [Space, Solid];
    var r := " " + (name + "\n");
    NameRuns(name);
    RunOf(Digit, all[1..], digits, r);
    RunOf(Space, all, " ", digits + r);
  }

  lemma HeaderMatches(letter: char, mode: string, n: nat, name: string)
    requires ModeOk(mode) && NameOk(name)
    ensures Matches(letter, HeaderLine(letter, mode, n, name))
  {
    TailRuns(Decimal(n), name);
    HeaderTail(letter, mode, n, name, " " + (Decimal(n) + (" " + (name + "\n"))));
  }

  lemma HeaderTail(letter: char, mode: string, n: nat, name: string, tail: string)
    requires ModeOk(mode) && tail == " " + (Decimal(n) + (" " + (name + "\n")))
    ensures HeaderLine(letter, mode, n, name) == [letter] + mode + tail
    ensures HeaderLine(letter, mode, n, name)[5..] == tail
    ensures forall i :: 1 <= i < 5 ==> In(Digit, HeaderLine(letter, mode, n, name)[i])
  {
    assert HeaderLine(letter, mode, n, name) == [letter] + mode + tail;
  }

  lemma ParseSentHeader(letter: char, mode: string, n: nat, name: string)
    requires (letter == 'C' || letter == 'D') && ModeOk(mode) && NameOk(name)
    ensures ParseHeader(HeaderLine(letter, mode, n, name)) == if letter == 'D' then FolderHeader(name)
            else FileHeader(name, n)
    ensures HeaderLine(letter, mode, n, name) != END_OF_FOLDER
  {
    var hdr := HeaderLine(letter, mode, n, name);
    HeaderPieces(letter, mode, n, name);
    HeaderMatches(letter, mode, n, name);
    IntOfDecimal(n);
    assert hdr[0] == letter;
  }

  /** The messages of a file, read with the right length, give its content exactly when no chunk is a single NUL. */
  lemma {:induction false} ContentsOfSent(chunks: seq<string>, last: string, soFar: string, length: int,
                                          rest: seq<string>)
    requires length == |soFar| + |ContentOf(chunks, last)|
    ensures Contents(chunks + [last + NUL] + rest, soFar, length) == Got(soFar + ContentOf(chunks, last), rest) <==>
              NUL !in chunks
    decreases |chunks|
  {
    var datas := chunks + [last + NUL] + rest;
    if chunks == [] {
      assert datas == [last + NUL] + rest;
      assert last == "" ==> last + NUL == NUL && soFar + last == soFar;
      assert (last + NUL)[..|last|] == last;
      assert datas[1..] == rest;
    } else {
      var tmp := chunks[0];
      assert datas[0] == tmp && datas[1..] == chunks[1..] + [last + NUL] + rest;
      if tmp == NUL {
        assert |datas[1..]| > |rest|;
      } else {
        ContentsOfSent(chunks[1..], last, soFar + tmp, length, rest);
        assert soFar + tmp + ContentOf(chunks[1..], last) == soFar + ContentOf(chunks, last);
      }
    }
  }

  lemma FileStep(datas: seq<string>, f: map<string, Node>, name: string, length: int, content: string,
                 rest: seq<string>)
    requires datas != [] && datas[0] != END_OF_FOLDER && ParseHeader(datas[0]) == FileHeader(name, length)
    requires Contents(datas[1..], "", length) == Got(content, rest)
    ensures Entries(datas, f) == Entries(rest, f[name := File(content)])
  {
  }

  lemma FolderStep(datas: seq<string>, f: map<string, Node>, name: string, sub: map<string, Node>, rest: seq<string>)
    requires datas != [] && datas[0] != END_OF_FOLDER && ParseHeader(datas[0]) == FolderHeader(name)
    requires Entries(datas[1..], map[]) == Got(sub, [END_OF_FOLDER] + rest)
    ensures Entries(datas, f) == Entries(rest, f[name := Folder(sub)])
  {
    assert ([END_OF_FOLDER] + rest)[1..] == rest;
  }

  lemma FileOfSent(mode: string, name: string, chunks: seq<string>, last: string, more: seq<string>,
                   f: map<string, Node>)
    requires ModeOk(mode) && NameOk(name) && NUL !in chunks
    ensures Entries(Sent(SentFile(mode, name, chunks, last)) + more, f)
            == Entries(more, f[name := File(ContentOf(chunks, last))])
  {
    var content := ContentOf(chunks, last);
    var hdr, body := HeaderLine('C', mode, |content|, name), chunks + [last + NUL] + more;
    ParseSentHeader('C', mode, |content|, name);
    ContentsOfSent(chunks, last, "", |content|, more);
    assert "" + content == content;
    assert Sent(SentFile(mode, name, chunks, last)) + more == [hdr] + body;
    assert ([hdr] + body)[1..] == body;
    FileStep([hdr] + body, f, name, |content|, content, more);
  }

  lemma FolderOfSent(mode: string, size: nat, name: string, inner: seq<Entry>, more: seq<string>, f: map<string, Node>)
    requires ModeOk(mode) && NameOk(name)
    requires Entries(SentAll(inner) + ([END_OF_FOLDER] + more), map[])
             == Got(TreeOf(inner, map[]), [END_OF_FOLDER] + more)
    ensures Entries(Sent(SentFolder(mode, size, name, inner)) + more, f)
            == Entries(more, f[name := Folder(TreeOf(inner, map[]))])
  {
    var hdr, body := HeaderLine('D', mode, size, name), SentAll(inner) + ([END_OF_FOLDER] + more);
    ParseSentHeader('D', mode, size, name);
    assert Sent(SentFolder(mode, size, name, inner)) + more == [hdr] + body;
    assert ([hdr] + body)[1..] == body;
    FolderStep([hdr] + body, f, name, TreeOf(inner, map[]), more);
  }

  /** Entries sent one after another are put into the tree one after another, and nothing more is consumed. */
  lemma {:induction false} EntriesOfSent(entries: seq<Entry>, rest: seq<string>, f: map<string, Node>)
    requires forall e :: e in entries ==> Sendable(e)
    requires rest == [] || rest[0] == END_OF_FOLDER
    ensures Entries(SentAll(entries) + rest, f) == Got(TreeOf(entries, f), rest)
    decreases entries
  {
    if entries == [] {
      assert SentAll(entries) + rest == rest;
    } else {
      var e, more := entries[0], SentAll(entries[1..]) + rest;
      assert SentAll(entries) + rest == Sent(e) + more;
      EntryOfSent(e, more, f);
      EntriesOfSent(entries[1..], rest, f[e.name := NodeOf(e)]);
    }
  }

  lemma {:induction false} EntryOfSent(e: Entry, more: seq<string>, f: map<string, Node>)
    requires Sendable(e)
    ensures Entries(Sent(e) + more, f) == Entries(more, f[e.name := NodeOf(e)])
    decreases e
  {
    match e
    case SentFile(mode, name, chunks, last) =>
      FileOfSent(mode, name, chunks, last, more, f);
    case SentFolder(mode, size, name, inner) =>
      EntriesOfSent(inner, [END_OF_FOLDER] + more, map[]);
      FolderOfSent(mode, size, name, inner, more, f);
  }

  // ---- what else can come ----

  /** The parts of a header: letter, four digits, blanks, digits, blanks, a name, and a line end or two. */
  ghost predicate HasParts(letter: char, s: string, mode: string, b1: string, digits: string, b2: string, name: string,
                           end: string) {
    && s == [letter] + mode + (b1 + (digits + (b2 + (name + end)))) && ModeOk(mode)
    && b1 != "" && AllIn(Space, b1) && digits != "" && AllIn(Digit, digits)
    && b2 != "" && AllIn(Space, b2) && NameOk(name) && (end == "\n" || end == "\n\n")
  }

  lemma PartsMatch(letter: char, s: string, mode: string, b1: string, digits: string, b2: string, name: string,
                   end: string)
    requires HasParts(letter, s, mode, b1, digits, b2, name, end)
    ensures Matches(letter, s)
  {
    var all := [Space, Digit, Space, Solid];
    assert all[1..] == [Digit, Space, Solid] && [Digit, Space, Solid][1..] == [Space, Solid];
    assert [Space, Solid][1..] == [Solid] && [Solid][1..] == [];
    RunOf(Solid, [Solid], name, end);
    RunOf(Space, [Space, Solid], b2, name + end);
    RunOf(Digit, [Digit, Space, Solid], digits, b2 + (name + end));
    RunOf(Space, all, b1, digits + (b2 + (name + end)));
    assert s[5..] == b1 + (digits + (b2 + (name + end)));
  }

  /** One run off the front. */
  lemma FirstRun(k: Class, classes: seq<Class>, s: string) returns (a: string, b: string)
    requires classes != [] && classes[0] == k && MatchesRuns(classes, s)
    ensures s == a + b && a != "" && AllIn(k, a) && MatchesRuns(classes[1..], b)
  {
    a, b := s[..Span(k, s)], s[Span(k, s)..];
  }

  /** A header is accepted for a letter exactly if it is made of those parts. */
  lemma MatchesIffParts(letter: char, s: string)
    ensures Matches(letter, s) <==>
              exists mode, b1, digits, b2, name, end :: HasParts(letter, s, mode, b1, digits, b2, name, end)
  {
    if Matches(letter, s) {
      var all := [Space, Digit, Space, Solid];
      assert all[1..] == [Digit, Space, Solid] && [Digit, Space, Solid][1..] == [Space, Solid];
      assert [Space, Solid][1..] == [Solid] && [Solid][1..] == [];
      var b1, r1 := FirstRun(Space, all, s[5..]);
      var digits, r2 := FirstRun(Digit, [Digit, Space, Solid], r1);
      var b2, r3 := FirstRun(Space, [Space, Solid], r2);
      var name, end := FirstRun(Solid, [Solid], r3);
      assert s == [letter] + s[1..5] + s[5..];
      assert HasParts(letter, s, s[1..5], b1, digits, b2, name, end);
    }
    forall mode, b1, digits, b2, name, end | HasParts(letter, s, mode, b1, digits, b2, name, end)
      ensures Matches(letter, s)
    {
      PartsMatch(letter, s, mode, b1, digits, b2, name, end);
    }
  }

  /** No other header opens a folder or a file. */
  lemma OnlyHeadersOpen(s: string)
    ensures ParseHeader(s).FolderHeader? ==> Matches('D', s)
    ensures ParseHeader(s).FileHeader? ==> Matches('C', s)
    ensures ParseHeader(s) == BadHeader ==> !Matches('D', s) && !Matches('C', s)
  {
  }

  /** A single NUL, or the rest of the content with a NUL behind it. */
  predicate EndsFile(tmp: string, had: nat, length: int) {
    tmp == "\0" || (tmp != "" && tmp[|tmp| - 1] == '\0' && had + |tmp| - 1 == length)
  }

  /** How much there is before message `j`. */
  function Had(datas: seq<string>, had: nat, j: nat): nat
    requires j <= |datas|
  {
    had + |Joined(datas[..j])|
  }

  /** Message `k` is the first that ends the file. */
  ghost predicate FirstEnd(datas: seq<string>, had: nat, length: int, k: nat) {
    && k < |datas| && EndsFile(datas[k], Had(datas, had, k), length)
    && forall j :: 0 <= j < k ==> !EndsFile(datas[j], Had(datas, had, j), length)
  }

  lemma HadFirst(datas: seq<string>, had: nat, j: nat)
    requires j < |datas|
    ensures Had(datas, had, j + 1) == Had(datas[1..], had + |datas[0]|, j)
    ensures Had(datas, had, 0) == had
  {
    JoinedFirst(datas, j);
    assert datas[..0] == [];
  }

  lemma {:induction false} JoinedInFront(a: string, chunks: seq<string>)
    ensures Joined([a] + chunks) == a + Joined(chunks)
  {
    if chunks == [] {
      assert [a] + chunks == [a] && [a][..0] == [];
      assert Joined([a]) == "" + a;
    } else {
      var n, all := |chunks| - 1, [a] + chunks;
      assert all[..n + 1] == [a] + chunks[..n] && all[n + 1] == chunks[n];
      JoinedInFront(a, chunks[..n]);
      assert Joined(all) == (a + Joined(chunks[..n])) + chunks[n];
    }
  }

  lemma JoinedFirst(datas: seq<string>, j: nat)
    requires j < |datas|
    ensures Joined(datas[..j + 1]) == datas[0] + Joined(datas[1..][..j])
  {
    JoinedInFront(datas[0], datas[1..][..j]);
    assert datas[..j + 1] == [datas[0]] + datas[1..][..j];
  }

  lemma EndOneEarlier(datas: seq<string>, had: nat, length: int, k: nat)
    requires k > 0 && FirstEnd(datas, had, length, k)
    ensures !EndsFile(datas[0], had, length) && FirstEnd(datas[1..], had + |datas[0]|, length, k - 1)
  {
    hide EndsFile, Had;
    HadFirst(datas, had, k - 1);
    assert !EndsFile(datas[0], Had(datas, had, 0), length);
    forall j | 0 <= j < k - 1
      ensures !EndsFile(datas[1..][j], Had(datas[1..], had + |datas[0]|, j), length)
    {
      HadFirst(datas, had, j);
      assert !EndsFile(datas[j + 1], Had(datas, had, j + 1), length);
    }
  }

  /** A file's content is all that comes before the first message that ends it, and that message without its NUL. */
  lemma {:induction false} ContentsUpToFirstEnd(datas: seq<string>, soFar: string, length: int, k: nat)
    requires FirstEnd(datas, |soFar|, length, k)
    ensures datas[k] != ""
    ensures Contents(datas, soFar, length)
            == Got(soFar + Joined(datas[..k]) + datas[k][..|datas[k]| - 1], datas[k + 1..])
    decreases |datas|
  {
    hide Joined;
    if k == 0 {
      EndsNow(datas, soFar, length);
    } else {
      EndOneEarlier(datas, |soFar|, length, k);
      ContentsUpToFirstEnd(datas[1..], soFar + datas[0], length, k - 1);
      JoinedFirst(datas, k - 1);
      assert soFar + datas[0] + Joined(datas[1..][..k - 1]) == soFar + Joined(datas[..k]);
      assert datas[1..][k..] == datas[k + 1..];
    }
  }

  lemma EndsNow(datas: seq<string>, soFar: string, length: int)
    requires FirstEnd(datas, |soFar|, length, 0)
    ensures datas[0] != ""
    ensures Contents(datas, soFar, length)
            == Got(soFar + Joined(datas[..0]) + datas[0][..|datas[0]| - 1], datas[1..])
  {
    assert datas[..0] == [] && soFar + "" == soFar;
    assert datas[0] == "\0" ==> datas[0][..0] == "" && soFar + "" + "" == soFar;
  }

  lemma EndOneLater(datas: seq<string>, had: nat, length: int, k: nat)
    requires datas != [] && !EndsFile(datas[0], had, length) && FirstEnd(datas[1..], had + |datas[0]|, length, k)
    ensures FirstEnd(datas, had, length, k + 1)
  {
    hide EndsFile, Had;
    HadFirst(datas, had, k);
    forall j | 0 <= j < k + 1
      ensures !EndsFile(datas[j], Had(datas, had, j), length)
    {
      if j > 0 {
        HadFirst(datas, had, j - 1);
        assert !EndsFile(datas[1..][j - 1], Had(datas[1..], had + |datas[0]|, j - 1), length);
      }
    }
  }

  /** Without such a message the content has no end, which raises. */
  lemma {:induction false} ContentsWithoutEnd(datas: seq<string>, soFar: string, length: int)
    requires forall k: nat :: !FirstEnd(datas, |soFar|, length, k)
    ensures Contents(datas, soFar, length) == Raised
    decreases |datas|
  {
    if datas != [] {
      assert datas[..0] == [] && !FirstEnd(datas, |soFar|, length, 0);
      forall k: nat
        ensures !FirstEnd(datas[1..], |soFar + datas[0]|, length, k)
      {
        if FirstEnd(datas[1..], |soFar + datas[0]|, length, k) {
          EndOneLater(datas, |soFar|, length, k);
        }
      }
      ContentsWithoutEnd(datas[1..], soFar + datas[0], length);
    }
  }

  /** The first message that is no header stops the parser, whatever came before it and whatever follows. */
  lemma {:induction false} StopsAtBadHeader(entries: seq<Entry>, bad: string, rest: seq<string>, f: map<string, Node>)
    requires (forall e :: e in entries ==> Sendable(e)) && bad != END_OF_FOLDER
    ensures ParseHeader(bad) == BadHeader ==> Entries(SentAll(entries) + [bad] + rest, f) == Refused
    ensures ParseHeader(bad) == BadField ==> Entries(SentAll(entries) + [bad] + rest, f) == Raised
    decreases |entries|
  {
    hide ParseHeader;
    if entries == [] {
      assert SentAll(entries) + [bad] + rest == [bad] + rest;
    } else {
      var more := SentAll(entries[1..]) + [bad] + rest;
      assert SentAll(entries) + [bad] + rest == Sent(entries[0]) + more;
      EntryOfSent(entries[0], more, f);
      StopsAtBadHeader(entries[1..], bad, rest, f[entries[0].name := NodeOf(entries[0])]);
    }
  }

  /** A folder that is not closed before the messages run out raises. */
  lemma {:induction false} OpenFolderRaises(entries: seq<Entry>, mode: string, size: nat, name: string,
                                            inner: seq<Entry>, f: map<string, Node>)
    requires (forall e :: e in entries ==> Sendable(e)) && (forall e :: e in inner ==> Sendable(e))
    requires ModeOk(mode) && NameOk(name)
    ensures Entries(SentAll(entries) + ([HeaderLine('D', mode, size, name)] + SentAll(inner)), f) == Raised
    decreases |entries|
  {
    hide HeaderLine, ParseHeader;
    var tail := [HeaderLine('D', mode, size, name)] + SentAll(inner);
    if entries == [] {
      assert SentAll(entries) + tail == tail && tail[1..] == SentAll(inner) + [];
      ParseSentHeader('D', mode, size, name);
      EntriesOfSent(inner, [], map[]);
    } else {
      assert SentAll(entries) + tail == Sent(entries[0]) + (SentAll(entries[1..]) + tail);
      EntryOfSent(entries[0], SentAll(entries[1..]) + tail, f);
      OpenFolderRaises(entries[1..], mode, size, name, inner, f[entries[0].name := NodeOf(entries[0])]);
    }
  }

  // ---- the same tree ----

  /** Names differ within each folder. */
  predicate Distinct(entries: seq<Entry>) {
    && (forall i, j :: 0 <= i < j < |entries| ==> entries[i].name != entries[j].name)
    && (forall e :: e in entries && e.SentFolder? ==> Distinct(e.entries))
  }

  /** `f` holds the entries and nothing else, each under its name with its content, and so do the folders in it. */
  ghost predicate Holds(f: map<string, Node>, entries: seq<Entry>)
    decreases entries
  {
    && (forall name :: name in f <==> exists i :: 0 <= i < |entries| && entries[i].name == name)
    && (forall i :: 0 <= i < |entries| ==> HoldsEntry(f[entries[i].name], entries[i]))
  }

  ghost predicate HoldsEntry(n: Node, e: Entry)
    decreases e
  {
    match e
    case SentFile(_, _, chunks, last) => n == File(ContentOf(chunks, last))
    case SentFolder(_, _, _, entries) => n.Folder? && Holds(n.entries, entries)
  }

  lemma {:induction false} TreeHolds(entries: seq<Entry>)
    requires Distinct(entries)
    ensures Holds(TreeOf(entries, map[]), entries)
    decreases entries
  {
    TreeKeys(entries, map[]);
    forall i | 0 <= i < |entries|
      ensures HoldsEntry(TreeOf(entries, map[])[entries[i].name], entries[i])
    {
      var e := entries[i];
      if e.SentFolder? {
        TreeHolds(e.entries);
      }
    }
  }

  lemma {:induction false} TreeKeys(entries: seq<Entry>, f: map<string, Node>)
    requires forall i, j :: 0 <= i < j < |entries| ==> entries[i].name != entries[j].name
    ensures forall name :: name in TreeOf(entries, f) <==>
              name in f || exists i :: 0 <= i < |entries| && entries[i].name == name
    ensures forall name :: name in f && (forall i :: 0 <= i < |entries| ==> entries[i].name != name) ==>
              TreeOf(entries, f)[name] == f[name]
    ensures forall i :: 0 <= i < |entries| ==> TreeOf(entries, f)[entries[i].name] == NodeOf(entries[i])
    decreases |entries|
  {
    if entries == [] {
    } else {
      var f' := f[entries[0].name := NodeOf(entries[0])];
      TreeKeys(entries[1..], f');
    }
  }

  /**
   * Any tree, flattened into messages in any order and either form of terminator, comes back as the same tree, and
   * all of its messages are consumed.
   */
  method RoundTrip(entries: seq<Entry>) returns (r: Parse<map<string, Node>>)
    requires Distinct(entries) && forall e :: e in entries ==> Sendable(e)
    ensures r.Got? && r.rest == [] && Holds(r.value, entries)
  {
    var datas := new Deque(SentAll(entries));
    r := ExtractFiles(datas);
    EntriesOfSent(entries, [], map[]);
    assert SentAll(entries) + [] == SentAll(entries);
    TreeHolds(entries);
  }
}
