/** The TAF text format on values: what the writer prints for a tree, and what the
    reader makes of a stream it can look one byte ahead in. */
module TafSyntax {
  import opened Bytes
  import opened Wrappers

  datatype Node =
    | Group(name: seq<byte>, children: seq<Node>)
    | Property(name: seq<byte>, value: seq<byte>)
    | Comment(text: seq<byte>, endOfLine: bool)

  datatype TafError = PrematureEnd | ExpectedOpen | ExpectedColon | ExpectedClose | StrayColon | InvalidEscape

  const OPEN: byte := 0x7b
  const CLOSE: byte := 0x7d
  const COLON: byte := 0x3a
  const EQUALS: byte := 0x3d
  const QUOTE: byte := 0x22
  const BACKSLASH: byte := 0x5c
  const SLASH: byte := 0x2f
  const STAR: byte := 0x2a
  const SPACE: byte := 0x20
  const TAB: byte := 0x09
  const LF: byte := 0x0a
  const CR: byte := 0x0d
  const LOWER_X: byte := 0x78
  const LOWER_N: byte := 0x6e
  const LOWER_T: byte := 0x74

  // ---- Printing ----

  function HexDigit(x: int): byte
    requires 0 <= x < 16
  {
    if x < 10 then (0x30 + x) as byte else (0x41 + x - 10) as byte
  }

  /** How one byte of a name or value is written. */
  function Escaped(b: byte): seq<byte>
  {
    if b == QUOTE then [BACKSLASH, QUOTE]
    else if b == BACKSLASH then [BACKSLASH, BACKSLASH]
    else if b < 32 || b > 126 then [BACKSLASH, LOWER_X, HexDigit(b as int / 16), HexDigit(b as int % 16)]
    else [b]
  }

  function EscapedAll(s: seq<byte>): seq<byte>
  {
    if s == [] then [] else Escaped(s[0]) + EscapedAll(s[1..])
  }

  function PrintString(s: seq<byte>): seq<byte>
  {
    [QUOTE] + EscapedAll(s) + [QUOTE]
  }

  function Indent(depth: nat): seq<byte>
  {
    if depth == 0 then [] else [SPACE, SPACE, SPACE, SPACE] + Indent(depth - 1)
  }

  function PrintNode(n: Node, depth: nat): seq<byte>
    decreases n
  {
    match n
    case Group(name, children) =>
      Indent(depth) + ([OPEN] + ((if name != [] then PrintString(name) else []) + ([COLON, LF] +
      (PrintNodes(children, depth + 1) + (Indent(depth) + [CLOSE, LF])))))
    case Property(name, value) =>
      Indent(depth) + ((if name != [] then PrintString(name) + [EQUALS] else []) + (PrintString(value) + [LF]))
    case Comment(text, endOfLine) =>
      Indent(depth) + (if endOfLine then [SLASH, SLASH] + (text + [LF])
        else [SLASH, STAR] + (text + [STAR, SLASH, SPACE]))
  }

  function PrintNodes(ns: seq<Node>, depth: nat): seq<byte>
    decreases ns
  {
    if ns == [] then [] else PrintNode(ns[0], depth) + PrintNodes(ns[1..], depth)
  }

  // ---- Reading ----

  /** What a reader has at hand: the current byte, the one after it, and the rest of the stream.
      The byte after a closing brace is not looked at. */
  datatype State = State(c: byte, la: byte, rest: seq<byte>)

  function Measure(st: State): nat
  {
    2 * |st.rest| + (if st.c == CLOSE then 0 else 1)
  }

  function Next(st: State): (r: Result<State, TafError>)
    ensures r.Ok? ==> Measure(r.value) < Measure(st)
    ensures r.Err? ==> r.error == PrematureEnd
  {
    if st.c == CLOSE then
      if st.rest == [] then Err(PrematureEnd)
      else if st.rest[0] == CLOSE then Ok(State(CLOSE, st.la, st.rest[1..]))
      else if |st.rest| == 1 then Err(PrematureEnd)
      else Ok(State(st.rest[0], st.rest[1], st.rest[2..]))
    else if st.la == CLOSE then Ok(State(CLOSE, st.la, st.rest))
    else if st.rest == [] then Err(PrematureEnd)
    else Ok(State(st.la, st.rest[0], st.rest[1..]))
  }

  /** A reader at the start of a stream. */
  function Start(input: seq<byte>): Result<State, TafError>
  {
    var st :- Next(State(0, 0, input));
    Next(st)
  }

  function SkipWs(st: State): (r: Result<State, TafError>)
    ensures r.Ok? ==> Measure(r.value) <= Measure(st) && !IsSpace(r.value.c)
    ensures !IsSpace(st.c) ==> r == Ok(st)
    decreases Measure(st)
  {
    if IsSpace(st.c) then
      var n :- Next(st);
      SkipWs(n)
    else Ok(st)
  }

  function DigitValue(c: byte): Option<int>
  {
    if 0x30 <= c <= 0x39 then Some(c as int - 0x30)
    else if 0x41 <= c <= 0x46 then Some(c as int - 0x41 + 10)
    else if 0x61 <= c <= 0x66 then Some(c as int - 0x61 + 10)
    else None
  }

  /** The value `strtol` reads in base 16 from two characters, cut down to a byte. */
  function HexByte(a: byte, b: byte): byte
  {
    match DigitValue(a)
    case Some(x) => (match DigitValue(b) case Some(y) => (16 * x + y) as byte case None => x as byte)
    case None =>
      if DigitValue(b).Some? && (a == SPACE || 9 <= a <= 13 || a == 0x2b) then DigitValue(b).value as byte
      else if DigitValue(b).Some? && a == 0x2d then ((256 - DigitValue(b).value) % 256) as byte
      else 0
  }

  /** The state at the end of an escape sequence, with the byte it stands for as current byte. */
  function Unescape(st: State): (r: Result<State, TafError>)
    ensures r.Ok? ==> Measure(r.value) <= Measure(st)
  {
    if st.c == LOWER_X then
      var a :- Next(st);
      var b :- Next(a);
      Ok(b.(c := HexByte(a.c, b.c)))
    else if st.c == QUOTE || st.c == BACKSLASH then Ok(st)
    else if st.c == LOWER_N then Ok(st.(c := LF))
    else if st.c == LOWER_T then Ok(st.(c := TAB))
    else Err(InvalidEscape)
  }

  /** The rest of a quoted string, behind `s`. */
  function ReadQuoted(st: State, s: seq<byte>): (r: Result<(seq<byte>, State), TafError>)
    ensures r.Ok? ==> Measure(r.value.1) < Measure(st)
    decreases Measure(st)
  {
    if st.c == BACKSLASH then
      var e :- Next(st);
      var u :- Unescape(e);
      var n :- Next(u);
      ReadQuoted(n, s + [u.c])
    else if st.c == QUOTE then
      var n :- Next(st);
      Ok((s, n))
    else
      var n :- Next(st);
      ReadQuoted(n, s + [st.c])
  }

  predicate EndsBare(c: byte) { IsSpace(c) || c == CLOSE || c == OPEN || c == COLON || c == EQUALS }

  function ReadBare(st: State, s: seq<byte>): (r: Result<(seq<byte>, State), TafError>)
    ensures r.Ok? ==> Measure(r.value.1) <= Measure(st)
    ensures r.Ok? && !EndsBare(st.c) ==> Measure(r.value.1) < Measure(st)
    decreases Measure(st)
  {
    if EndsBare(st.c) then Ok((s, st))
    else
      var n :- Next(st);
      ReadBare(n, s + [st.c])
  }

  function ReadStr(st: State): (r: Result<(seq<byte>, State), TafError>)
    ensures r.Ok? ==> Measure(r.value.1) <= Measure(st)
    ensures r.Ok? && !EndsBare(st.c) ==> Measure(r.value.1) < Measure(st)
    ensures st.c == EQUALS ==> r == Ok(([], st))
  {
    var s :- SkipWs(st);
    if s.c == QUOTE then
      var n :- Next(s);
      ReadQuoted(n, [])
    else ReadBare(s, [])
  }

  function ReadLine(st: State, s: seq<byte>): (r: Result<(seq<byte>, State), TafError>)
    ensures r.Ok? ==> Measure(r.value.1) < Measure(st)
    decreases Measure(st)
  {
    var n :- Next(st);
    if n.c == LF && n.la == CR then
      var m :- Next(n);
      var o :- Next(m);
      Ok((s, o))
    else if n.c == LF || n.c == CR then
      var m :- Next(n);
      Ok((s, m))
    else ReadLine(n, s + [n.c])
  }

  function ReadBlock(st: State, s: seq<byte>): (r: Result<(seq<byte>, State), TafError>)
    ensures r.Ok? ==> Measure(r.value.1) < Measure(st)
    decreases Measure(st)
  {
    var n :- Next(st);
    if n.c == STAR && n.la == SLASH then
      var m :- Next(n);
      var o :- Next(m);
      Ok((s, o))
    else ReadBlock(n, s + [n.c])
  }

  function ReadComment(st: State, endOfLine: bool): (r: Result<(Node, State), TafError>)
    ensures r.Ok? ==> Measure(r.value.1) < Measure(st)
  {
    var n :- Next(st);
    var t :- if endOfLine then ReadLine(n, []) else ReadBlock(n, []);
    Ok((Comment(t.0, endOfLine), t.1))
  }

  /** A property; one without `=` has an empty name. */
  function ReadProperty(st: State): (r: Result<(Node, State), TafError>)
    ensures r.Ok? && (!EndsBare(st.c) || st.c == EQUALS) ==> Measure(r.value.1) < Measure(st)
  {
    var name :- ReadStr(st);
    var s :- SkipWs(name.1);
    if s.c != EQUALS then Ok((Property([], name.0), s))
    else
      var n :- Next(s);
      var value :- ReadStr(n);
      Ok((Property(name.0, value.0), value.1))
  }

  /** The children of a group, behind `ns`, up to the closing brace. */
  function ReadContent(st: State, ns: seq<Node>): (r: Result<(seq<Node>, State), TafError>)
    ensures r.Ok? ==> r.value.1.c == CLOSE && Measure(r.value.1) <= Measure(st)
    decreases Measure(st), 1
  {
    var s :- SkipWs(st);
    if s.c == OPEN then
      var g :- ReadGroup(s);
      var n :- Next(g.1);
      ReadContent(n, ns + [g.0])
    else if s.c == CLOSE then Ok((ns, s))
    else if s.c == SLASH && s.la == STAR then
      var t :- ReadComment(s, false);
      ReadContent(t.1, ns + [t.0])
    else if s.c == SLASH && s.la == SLASH then
      var t :- ReadComment(s, true);
      ReadContent(t.1, ns + [t.0])
    else if s.c == COLON then Err(StrayColon)
    else
      var p :- ReadProperty(s);
      ReadContent(p.1, ns + [p.0])
  }

  /** A group; its closing brace stays the current byte. */
  function ReadGroup(st: State): (r: Result<(Node, State), TafError>)
    ensures r.Ok? ==> r.value.0.Group? && r.value.1.c == CLOSE && Measure(r.value.1) < Measure(st)
    decreases Measure(st), 0
  {
    var s :- SkipWs(st);
    if s.c != OPEN then Err(ExpectedOpen)
    else
      var n :- Next(s);
      var t :- SkipWs(n);
      var name :- ReadStr(t);
      var u :- SkipWs(name.1);
      if u.c != COLON then Err(ExpectedColon)
      else
        var v :- Next(u);
        var content :- ReadContent(v, []);
        if content.1.c != CLOSE then Err(ExpectedClose)
        else Ok((Group(name.0, content.0), content.1))
  }

  /** The group a reader finds at the start of a stream, and the bytes of the stream it leaves unread. */
  function Parse(input: seq<byte>): Result<(Node, seq<byte>), TafError>
  {
    var st :- Start(input);
    var g :- ReadGroup(st);
    Ok((g.0, g.1.rest))
  }
}
