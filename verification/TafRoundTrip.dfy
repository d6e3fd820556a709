/** Reading what was printed gives back the tree. */
module TafRoundTrip {
  import opened Bytes
  import opened TafSyntax
  import opened Wrappers

  /** The reader's state when the bytes from the current one on are `text`. */
  ghost predicate At(st: State, text: seq<byte>)
  {
    && text != [] && st.c == text[0]
    && if text[0] == CLOSE then st.rest == text[1..]
       else |text| >= 2 && st.la == text[1] && st.rest == text[2..]
  }

  /** As long as a closing brace is still to come, the reader can go on. */
  lemma NextAt(st: State, x: byte, t: seq<byte>)
    requires At(st, [x] + t) && CLOSE in t
    ensures Next(st).Ok? && At(Next(st).value, t)
  {
    var text := [x] + t;
    assert text[1..] == t;
    if |text| >= 2 { assert text[2..] == t[1..]; }
  }

  lemma HeadAt(st: State, t: seq<byte>)
    requires At(st, t)
    ensures t != [] && st.c == t[0]
    ensures t[0] != CLOSE ==> |t| >= 2 && st.la == t[1]
  {
  }

  lemma NextTwice(st: State, x: byte, y: byte, t: seq<byte>)
    requires At(st, [x, y] + t) && CLOSE in t
    ensures Next(st).Ok? && At(Next(st).value, [y] + t)
    ensures Next(Next(st).value).Ok? && At(Next(Next(st).value).value, t)
  {
    assert [x, y] + t == [x] + ([y] + t);
    NextAt(st, x, [y] + t);
    NextAt(Next(st).value, y, t);
  }

  /** A reader at the start of a stream is at its first byte. */
  lemma StartAt(input: seq<byte>)
    requires input != [] && input[0] != CLOSE && CLOSE in input
    ensures Start(input).Ok? && At(Start(input).value, input)
  {
    var st := Next(State(0, 0, input)).value;
    assert Next(st).value == State(input[0], input[1], input[2..]);
  }

  /** `text` without the white space it starts with. */
  function Strip(text: seq<byte>): seq<byte>
  {
    if text != [] && IsSpace(text[0]) then Strip(text[1..]) else text
  }

  lemma {:induction false} SkipWsAt(st: State, text: seq<byte>)
    requires At(st, text) && CLOSE in text
    ensures SkipWs(st).Ok? && At(SkipWs(st).value, Strip(text)) && CLOSE in Strip(text)
    decreases |text|
  {
    if IsSpace(text[0]) {
      assert text == [text[0]] + text[1..];
      NextAt(st, text[0], text[1..]);
      SkipWsAt(Next(st).value, text[1..]);
    }
  }

  lemma {:induction false} StripIndent(depth: nat, t: seq<byte>)
    ensures Strip(Indent(depth) + t) == Strip(t)
  {
    if depth > 0 {
      var u := Indent(depth - 1) + t;
      assert Indent(depth) + t == [SPACE] + ([SPACE] + ([SPACE] + ([SPACE] + u)));
      StripOne([SPACE] + ([SPACE] + ([SPACE] + u)));
      StripOne([SPACE] + ([SPACE] + u));
      StripOne([SPACE] + u);
      StripOne(u);
      StripIndent(depth - 1, t);
    } else {
      assert Indent(depth) + t == t;
    }
  }

  lemma StripOne(t: seq<byte>)
    ensures Strip([SPACE] + t) == Strip(t) && Strip([LF] + t) == Strip(t)
  {
    assert ([SPACE] + t)[1..] == t && ([LF] + t)[1..] == t;
  }

  // ---- Strings ----

  lemma HexRoundTrip(b: byte)
    ensures HexByte(HexDigit(b as int / 16), HexDigit(b as int % 16)) == b
  {
  }

  /** An escape sequence stands for its byte. */
  lemma EscapeRead(st: State, s: seq<byte>, u: State)
    requires st.c == BACKSLASH && Next(st).Ok? && Unescape(Next(st).value) == Ok(u) && Next(u).Ok?
    ensures ReadQuoted(st, s) == ReadQuoted(Next(u).value, s + [u.c])
  {
  }

  lemma HexAt(e: State, b: byte, t: seq<byte>)
    requires At(e, [LOWER_X] + ([HexDigit(b as int / 16), HexDigit(b as int % 16)] + t)) && CLOSE in t && b != CLOSE
    ensures exists u :: Unescape(e) == Ok(u) && u.c == b && Next(u).Ok? && At(Next(u).value, t)
  {
    hide At, HexByte, HexDigit;
    var h, l := HexDigit(b as int / 16), HexDigit(b as int % 16);
    HeadAt(e, [LOWER_X] + ([h, l] + t));
    NextAt(e, LOWER_X, [h, l] + t);
    var a := Next(e).value;
    HeadAt(a, [h, l] + t);
    NextTwice(a, h, l, t);
    var d := Next(a).value;
    HeadAt(d, [l] + t);
    HexRoundTrip(b);
    var u := d.(c := b);
    assert Unescape(e) == Ok(u);
    HexIsPlain(b as int % 16);
    assert Next(u) == Next(d);
  }

  lemma HexIsPlain(x: int)
    requires 0 <= x < 16
    ensures HexDigit(x) != CLOSE
  {
  }

  /** One escaped byte is read back as that byte. */
  lemma EscapedAt(st: State, s: seq<byte>, b: byte, t: seq<byte>)
    requires At(st, Escaped(b) + t) && CLOSE in t
    ensures exists st' :: At(st', t) && ReadQuoted(st, s) == ReadQuoted(st', s + [b])
  {
    hide At, HexDigit;
    HeadAt(st, Escaped(b) + t);
    if b == QUOTE || b == BACKSLASH {
      assert Escaped(b) + t == [BACKSLASH, b] + t;
      NextTwice(st, BACKSLASH, b, t);
      HeadAt(Next(st).value, [b] + t);
      EscapeRead(st, s, Next(st).value);
    } else if b < 32 || b > 126 {
      var hex := [HexDigit(b as int / 16), HexDigit(b as int % 16)] + t;
      assert Escaped(b) + t == [BACKSLASH] + ([LOWER_X] + hex);
      NextAt(st, BACKSLASH, [LOWER_X] + hex);
      HexAt(Next(st).value, b, t);
      var u :| Unescape(Next(st).value) == Ok(u) && u.c == b && Next(u).Ok? && At(Next(u).value, t);
      EscapeRead(st, s, u);
    } else {
      NextAt(st, b, t);
    }
  }

  lemma QuoteAt(st: State, s: seq<byte>, t: seq<byte>)
    requires At(st, [QUOTE] + t) && CLOSE in t
    ensures ReadQuoted(st, s).Ok? && ReadQuoted(st, s).value.0 == s && At(ReadQuoted(st, s).value.1, t)
  {
    NextAt(st, QUOTE, t);
  }

  lemma {:induction false} QuotedAt(st: State, s: seq<byte>, v: seq<byte>, t: seq<byte>)
    requires At(st, EscapedAll(v) + ([QUOTE] + t)) && CLOSE in t
    ensures ReadQuoted(st, s).Ok? && ReadQuoted(st, s).value.0 == s + v && At(ReadQuoted(st, s).value.1, t)
    decreases |v|
  {
    hide At, Escaped, ReadQuoted;
    if v == [] {
      assert EscapedAll(v) + ([QUOTE] + t) == [QUOTE] + t;
      QuoteAt(st, s, t);
      assert s + v == s;
    } else {
      var u := EscapedAll(v[1..]) + ([QUOTE] + t);
      assert EscapedAll(v) + ([QUOTE] + t) == Escaped(v[0]) + u;
      EscapedAt(st, s, v[0], u);
      var st' :| At(st', u) && ReadQuoted(st, s) == ReadQuoted(st', s + [v[0]]);
      QuotedAt(st', s + [v[0]], v[1..], t);
      assert s + [v[0]] + v[1..] == s + v;
    }
  }

  /** A printed string is read back, whatever bytes it has. */
  lemma StringAt(st: State, v: seq<byte>, t: seq<byte>)
    requires At(st, PrintString(v) + t) && CLOSE in t
    ensures ReadStr(st).Ok? && ReadStr(st).value.0 == v && At(ReadStr(st).value.1, t)
  {
    var u := EscapedAll(v) + ([QUOTE] + t);
    assert PrintString(v) + t == [QUOTE] + u;
    NextAt(st, QUOTE, u);
    QuotedAt(Next(st).value, [], v, t);
    assert [] + v == v;
  }

  // ---- Comments ----

  /** What a comment may hold so that it can be read back. */
  predicate Printable(text: seq<byte>, endOfLine: bool)
  {
    if endOfLine then LF !in text && CR !in text
    else forall i :: 0 <= i < |text| - 1 ==> !(text[i] == STAR && text[i + 1] == SLASH)
  }

  /** A comment goes on with a character that does not end it. */
  lemma LineGoesOn(st: State, s: seq<byte>)
    requires Next(st).Ok? && Next(st).value.c != LF && Next(st).value.c != CR
    ensures ReadLine(st, s) == ReadLine(Next(st).value, s + [Next(st).value.c])
  {
    hide Next;
  }

  lemma BlockGoesOn(st: State, s: seq<byte>)
    requires Next(st).Ok? && !(Next(st).value.c == STAR && Next(st).value.la == SLASH)
    ensures ReadBlock(st, s) == ReadBlock(Next(st).value, s + [Next(st).value.c])
  {
    hide Next;
  }

  lemma {:induction false} LineAt(st: State, x: byte, s: seq<byte>, text: seq<byte>, t: seq<byte>)
    requires At(st, [x] + (text + ([LF] + t))) && CLOSE in t && t[0] != CR && Printable(text, true)
    ensures ReadLine(st, s).Ok? && ReadLine(st, s).value.0 == s + text && At(ReadLine(st, s).value.1, t)
    decreases |text|
  {
    hide At, Next, ReadLine;
    var rest := text + ([LF] + t);
    NextAt(st, x, rest);
    HeadAt(Next(st).value, rest);
    if text == [] {
      assert rest == [LF] + t;
      LineEnds(st, s, LF, t);
      assert s + text == s;
    } else {
      assert rest == [text[0]] + (text[1..] + ([LF] + t));
      LineGoesOn(st, s);
      LineAt(Next(st).value, text[0], s + [text[0]], text[1..], t);
      assert s + [text[0]] + text[1..] == s + text;
    }
  }

  /** A comment ends at a line feed or carriage return. */
  lemma LineEnds(st: State, s: seq<byte>, e: byte, t: seq<byte>)
    requires Next(st).Ok? && At(Next(st).value, [e] + t) && (e == LF || e == CR) && CLOSE in t
    ensures ReadLine(st, s).Ok? && ReadLine(st, s).value.0 == s
    ensures t[0] != CR ==> At(ReadLine(st, s).value.1, t)
  {
    hide At, Next;
    var n := Next(st).value;
    HeadAt(n, [e] + t);
    NextAt(n, e, t);
    if t[0] == CR {
      assert t == [CR] + t[1..];
      NextAt(Next(n).value, CR, t[1..]);
    }
  }

  lemma {:induction false} BlockAt(st: State, x: byte, s: seq<byte>, text: seq<byte>, t: seq<byte>)
    requires At(st, [x] + (text + ([STAR, SLASH] + t))) && CLOSE in t && Printable(text, false)
    ensures ReadBlock(st, s).Ok? && ReadBlock(st, s).value.0 == s + text && At(ReadBlock(st, s).value.1, t)
    decreases |text|
  {
    hide At, Next, ReadBlock;
    var rest := text + ([STAR, SLASH] + t);
    NextAt(st, x, rest);
    HeadAt(Next(st).value, rest);
    if text == [] {
      assert rest == [STAR, SLASH] + t;
      BlockEnds(st, s, t);
      assert s + text == s;
    } else {
      assert rest == [text[0]] + (text[1..] + ([STAR, SLASH] + t));
      BlockNotYet(text, t);
      BlockGoesOn(st, s);
      BlockAt(Next(st).value, text[0], s + [text[0]], text[1..], t);
      assert s + [text[0]] + text[1..] == s + text;
    }
  }

  lemma BlockNotYet(text: seq<byte>, t: seq<byte>)
    requires Printable(text, false) && text != []
    ensures Printable(text[1..], false)
    ensures var rest := text + ([STAR, SLASH] + t); rest[0] == STAR ==> rest[1] != SLASH
  {
  }

  lemma BlockEnds(st: State, s: seq<byte>, t: seq<byte>)
    requires Next(st).Ok? && At(Next(st).value, [STAR, SLASH] + t) && CLOSE in t
    ensures ReadBlock(st, s).Ok? && ReadBlock(st, s).value.0 == s && At(ReadBlock(st, s).value.1, t)
  {
    hide At, Next;
    HeadAt(Next(st).value, [STAR, SLASH] + t);
    NextTwice(Next(st).value, STAR, SLASH, t);
  }

  // ---- Trees ----

  /** What can be printed and read back: comments that do not hold their own end. */
  ghost predicate Writable(n: Node)
  {
    match n
    case Group(_, children) => AllWritable(children)
    case Property(_, _) => true
    case Comment(text, endOfLine) => Printable(text, endOfLine)
  }

  ghost predicate AllWritable(ns: seq<Node>)
  {
    forall i :: 0 <= i < |ns| ==> Writable(ns[i])
  }

  /** From `st` on the reader comes to `text`, apart from white space. */
  ghost predicate Before(st: State, text: seq<byte>)
  {
    SkipWs(st).Ok? && At(SkipWs(st).value, Strip(text)) && CLOSE in Strip(text)
  }

  lemma BeforeAt(st: State, text: seq<byte>)
    requires At(st, text) && CLOSE in text
    ensures Before(st, text)
  {
    SkipWsAt(st, text);
  }

  lemma StripNothing(text: seq<byte>)
    requires text != [] && !IsSpace(text[0])
    ensures Strip(text) == text
  {
  }

  /** A property is read up to the white space behind it. */
  lemma PropertyAt(st: State, name: seq<byte>, value: seq<byte>, t: seq<byte>)
    requires At(st, (if name != [] then PrintString(name) + [EQUALS] else []) + (PrintString(value) + ([LF] + t)))
    requires CLOSE in t && Strip(t) != [] && Strip(t)[0] != EQUALS
    ensures ReadProperty(st).Ok? && ReadProperty(st).value.0 == Property(name, value)
    ensures Before(ReadProperty(st).value.1, t)
  {
    hide At, ReadQuoted, PrintString;
    var u := PrintString(value) + ([LF] + t);
    StripOne(t);
    if name != [] {
      assert PrintString(name) + [EQUALS] + u == PrintString(name) + ([EQUALS] + u);
      StringAt(st, name, [EQUALS] + u);
      var n := ReadStr(st).value.1;
      EqualsAt(n, u);
      StringAt(Next(n).value, value, [LF] + t);
      BeforeAt(ReadStr(Next(n).value).value.1, [LF] + t);
    } else {
      assert [] + u == u;
      StringAt(st, value, [LF] + t);
      var n := ReadStr(st).value.1;
      BeforeAt(n, [LF] + t);
      HeadAt(SkipWs(n).value, Strip(t));
    }
  }

  lemma EqualsAt(st: State, t: seq<byte>)
    requires At(st, [EQUALS] + t) && CLOSE in t
    ensures st.c == EQUALS && SkipWs(st) == Ok(st) && Next(st).Ok? && At(Next(st).value, t)
  {
    NextAt(st, EQUALS, t);
  }

  /** What may follow a printed node. */
  ghost predicate Follows(t: seq<byte>)
  {
    CLOSE in t && t[0] != CR && Strip(t) != [] && Strip(t)[0] != EQUALS
  }

  /** What is left of the group after some of its children: more children, then the closing brace. */
  function Remainder(ns: seq<Node>, depth: nat, outer: nat, t: seq<byte>): seq<byte>
  {
    PrintNodes(ns, depth) + (Indent(outer) + ([CLOSE] + t))
  }

  lemma IndentStart(depth: nat, t: seq<byte>)
    requires t != []
    ensures (Indent(depth) + t)[0] == if depth == 0 then t[0] else SPACE
  {
  }

  /** How a node's printed form begins behind its indentation. */
  function Core(n: Node, depth: nat): seq<byte>
  {
    match n
    case Group(name, children) =>
      [OPEN] + ((if name != [] then PrintString(name) else []) + ([COLON, LF] +
      (PrintNodes(children, depth + 1) + (Indent(depth) + [CLOSE, LF]))))
    case Property(name, value) =>
      (if name != [] then PrintString(name) + [EQUALS] else []) + (PrintString(value) + [LF])
    case Comment(text, endOfLine) =>
      if endOfLine then [SLASH, SLASH] + (text + [LF]) else [SLASH, STAR] + (text + [STAR, SLASH, SPACE])
  }

  lemma CoreStart(n: Node, depth: nat)
    ensures PrintNode(n, depth) == Indent(depth) + Core(n, depth)
    ensures Core(n, depth) != [] && Core(n, depth)[0] in {OPEN, QUOTE, SLASH}
  {
  }

  lemma IndentFollows(depth: nat, v: seq<byte>)
    requires v != [] && v[0] in {OPEN, CLOSE, QUOTE, SLASH} && CLOSE in v
    ensures Follows(Indent(depth) + v) && Strip(Indent(depth) + v) == v && CLOSE in Indent(depth) + v
  {
    StripIndent(depth, v);
    IndentStart(depth, v);
    StripNothing(v);
  }

  lemma RemainderFollows(ns: seq<Node>, depth: nat, outer: nat, t: seq<byte>)
    ensures Follows(Remainder(ns, depth, outer, t))
    ensures ns != [] ==>
              Strip(Remainder(ns, depth, outer, t)) == Core(ns[0], depth) + Remainder(ns[1..], depth, outer, t)
    ensures ns == [] ==> Strip(Remainder(ns, depth, outer, t)) == [CLOSE] + t
  {
    hide PrintNode, Core, Indent, Strip, Follows;
    IndentFollows(outer, [CLOSE] + t);
    if ns == [] {
      assert Remainder(ns, depth, outer, t) == Indent(outer) + ([CLOSE] + t);
    } else {
      CoreStart(ns[0], depth);
      var rest := Remainder(ns[1..], depth, outer, t);
      assert Remainder(ns, depth, outer, t) == Indent(depth) + (Core(ns[0], depth) + rest);
      assert CLOSE in rest;
      IndentFollows(depth, Core(ns[0], depth) + rest);
    }
  }

  /** The reader takes the node `n` and goes on before `t`. */
  ghost predicate Takes(st: State, acc: seq<Node>, n: Node, t: seq<byte>)
  {
    exists st' :: Before(st', t) && ReadContent(st, acc) == ReadContent(st', acc + [n])
  }

  lemma CommentTaken(st: State, acc: seq<Node>, text: seq<byte>, endOfLine: bool, depth: nat, t: seq<byte>)
    requires Before(st, Core(Comment(text, endOfLine), depth) + t) && Follows(t) && Printable(text, endOfLine)
    ensures Takes(st, acc, Comment(text, endOfLine), t)
  {
    hide Strip, Printable, ReadComment, At, SkipWs;
    var core := Core(Comment(text, endOfLine), depth);
    StripNothing(core + t);
    var s := SkipWs(st).value;
    HeadAt(s, core + t);
    if endOfLine {
      assert core + t == [SLASH] + ([SLASH] + (text + ([LF] + t)));
      LineCommentAt(s, text, t);
      BeforeAt(ReadComment(s, true).value.1, t);
    } else {
      assert core + t == [SLASH] + ([STAR] + (text + ([STAR, SLASH] + ([SPACE] + t))));
      BlockCommentAt(s, text, [SPACE] + t);
      BeforeAt(ReadComment(s, false).value.1, [SPACE] + t);
      StripOne(t);
    }
    var st' := ReadComment(s, endOfLine).value.1;
    assert ReadContent(st, acc) == ReadContent(st', acc + [Comment(text, endOfLine)]);
  }

  lemma LineCommentAt(s: State, text: seq<byte>, t: seq<byte>)
    requires At(s, [SLASH] + ([SLASH] + (text + ([LF] + t)))) && CLOSE in t && t[0] != CR && Printable(text, true)
    ensures ReadComment(s, true).Ok? && ReadComment(s, true).value.0 == Comment(text, true)
    ensures At(ReadComment(s, true).value.1, t)
  {
    hide At, Next, ReadLine, Printable;
    NextAt(s, SLASH, [SLASH] + (text + ([LF] + t)));
    LineAt(Next(s).value, SLASH, [], text, t);
    assert [] + text == text;
  }

  lemma BlockCommentAt(s: State, text: seq<byte>, t: seq<byte>)
    requires At(s, [SLASH] + ([STAR] + (text + ([STAR, SLASH] + t)))) && CLOSE in t && Printable(text, false)
    ensures ReadComment(s, false).Ok? && ReadComment(s, false).value.0 == Comment(text, false)
    ensures At(ReadComment(s, false).value.1, t)
  {
    hide At, Next, ReadBlock, Printable;
    NextAt(s, SLASH, [STAR] + (text + ([STAR, SLASH] + t)));
    BlockAt(Next(s).value, STAR, [], text, t);
    assert [] + text == text;
  }

  lemma PropertyTaken(st: State, acc: seq<Node>, name: seq<byte>, value: seq<byte>, depth: nat, t: seq<byte>)
    requires Before(st, Core(Property(name, value), depth) + t) && Follows(t)
    ensures Takes(st, acc, Property(name, value), t)
  {
    hide Strip, ReadProperty, PrintString;
    var core := Core(Property(name, value), depth);
    CoreStart(Property(name, value), depth);
    PropertyStart(name, value, depth);
    StripNothing(core + t);
    var s := SkipWs(st).value;
    assert core + t == (if name != [] then PrintString(name) + [EQUALS] else []) + (PrintString(value) + ([LF] + t));
    PropertyAt(s, name, value, t);
    var st' := ReadProperty(s).value.1;
    assert ReadContent(st, acc) == ReadContent(st', acc + [Property(name, value)]);
  }

  lemma PropertyStart(name: seq<byte>, value: seq<byte>, depth: nat)
    ensures Core(Property(name, value), depth)[0] == QUOTE
  {
  }

  lemma GroupTaken(st: State, acc: seq<Node>, name: seq<byte>, children: seq<Node>, depth: nat, t: seq<byte>)
    requires Before(st, Core(Group(name, children), depth) + t) && Follows(t) && AllWritable(children)
    ensures Takes(st, acc, Group(name, children), t)
    decreases children, 2
  {
    hide Strip, ReadGroup, PrintString, Core, At, SkipWs, Next;
    var core := Core(Group(name, children), depth);
    GroupCore(name, children, depth, t);
    StripNothing(core + t);
    var s := SkipWs(st).value;
    HeadAt(s, core + t);
    GroupAt(s, name, children, depth, [LF] + t);
    var g := ReadGroup(s).value.1;
    NextAt(g, CLOSE, [LF] + t);
    var st' := Next(g).value;
    BeforeAt(st', [LF] + t);
    BodyBefore(st', t);
    assert ReadContent(st, acc) == ReadContent(st', acc + [Group(name, children)]);
  }

  lemma GroupCore(name: seq<byte>, children: seq<Node>, depth: nat, t: seq<byte>)
    ensures Core(Group(name, children), depth) + t
         == [OPEN] + ((if name != [] then PrintString(name) else []) + ([COLON, LF] +
            Remainder(children, depth + 1, depth, [LF] + t)))
  {
    hide PrintString, PrintNodes, Indent;
    var p, i := PrintNodes(children, depth + 1), Indent(depth);
    assert p + (i + [CLOSE, LF]) + t == p + (i + ([CLOSE] + ([LF] + t)));
    var body := p + (i + [CLOSE, LF]);
    var head := if name != [] then PrintString(name) else [];
    assert [OPEN] + (head + ([COLON, LF] + body)) + t == [OPEN] + (head + ([COLON, LF] + (body + t)));
  }

  lemma GroupAt(s: State, name: seq<byte>, children: seq<Node>, depth: nat, t: seq<byte>)
    requires At(s, [OPEN] + ((if name != [] then PrintString(name) else []) + ([COLON, LF] +
                   Remainder(children, depth + 1, depth, t)))) && AllWritable(children)
    ensures ReadGroup(s).Ok? && ReadGroup(s).value.0 == Group(name, children)
    ensures At(ReadGroup(s).value.1, [CLOSE] + t)
    decreases children, 1
  {
    hide Strip, PrintString, Remainder, ReadContent, At, ReadStr, SkipWs, Next;
    var body := Remainder(children, depth + 1, depth, t);
    RemainderFollows(children, depth + 1, depth, t);
    var head := if name != [] then PrintString(name) else [];
    var u := [COLON, LF] + body;
    OpenAt(s, head + u);
    assert [COLON] + ([LF] + body) == u;
    NameAt(Next(s).value, name, [LF] + body);
    var v := ReadStr(Next(s).value).value.1;
    BeforeAt(Next(v).value, [LF] + body);
    BodyBefore(Next(v).value, body);
    ContentAt(Next(v).value, [], children, depth + 1, depth, t);
    assert [] + children == children;
  }

  lemma OpenAt(s: State, u: seq<byte>)
    requires At(s, [OPEN] + u) && CLOSE in u
    ensures s.c == OPEN && SkipWs(s) == Ok(s) && Next(s).Ok? && At(Next(s).value, u)
  {
    NextAt(s, OPEN, u);
  }

  lemma BodyBefore(st: State, body: seq<byte>)
    requires Before(st, [LF] + body)
    ensures Before(st, body)
  {
    StripOne(body);
  }

  /** The name of a group, if it has one, and the colon behind it. */
  lemma NameAt(s: State, name: seq<byte>, u: seq<byte>)
    requires At(s, (if name != [] then PrintString(name) else []) + ([COLON] + u)) && CLOSE in u
    ensures SkipWs(s) == Ok(s) && ReadStr(s).Ok? && ReadStr(s).value.0 == name
    ensures var v := ReadStr(s).value.1;
            SkipWs(v) == Ok(v) && v.c == COLON && Next(v).Ok? && At(Next(v).value, u)
  {
    hide ReadQuoted;
    if name != [] {
      StringAt(s, name, [COLON] + u);
    } else {
      assert [] + ([COLON] + u) == [COLON] + u;
    }
    NextAt(ReadStr(s).value.1, COLON, u);
  }

  lemma ContentAt(st: State, acc: seq<Node>, ns: seq<Node>, depth: nat, outer: nat, t: seq<byte>)
    requires Before(st, Remainder(ns, depth, outer, t)) && AllWritable(ns)
    ensures ReadContent(st, acc).Ok? && ReadContent(st, acc).value.0 == acc + ns
    ensures At(ReadContent(st, acc).value.1, [CLOSE] + t)
    decreases ns, 0
  {
    hide Strip, Core, Remainder, Writable, At, ReadContent;
    RemainderFollows(ns, depth, outer, t);
    if ns == [] {
      assert acc + ns == acc;
      ContentEnds(st, acc, Remainder(ns, depth, outer, t), t);
    } else {
      var rest := Remainder(ns[1..], depth, outer, t);
      RemainderFollows(ns[1..], depth, outer, t);
      CoreBefore(st, ns[0], depth, rest, Remainder(ns, depth, outer, t));
      NodeTaken(st, acc, ns[0], depth, rest);
      var st' :| Before(st', rest) && ReadContent(st, acc) == ReadContent(st', acc + [ns[0]]);
      ContentAt(st', acc + [ns[0]], ns[1..], depth, outer, t);
      assert acc + [ns[0]] + ns[1..] == acc + ns;
    }
  }

  lemma ContentEnds(st: State, acc: seq<Node>, text: seq<byte>, t: seq<byte>)
    requires Before(st, text) && Strip(text) == [CLOSE] + t
    ensures ReadContent(st, acc).Ok? && ReadContent(st, acc).value.0 == acc
            && At(ReadContent(st, acc).value.1, [CLOSE] + t)
  {
  }

  lemma CoreBefore(st: State, n: Node, depth: nat, t: seq<byte>, text: seq<byte>)
    requires Before(st, text) && Strip(text) == Core(n, depth) + t
    ensures Before(st, Core(n, depth) + t)
  {
    CoreStart(n, depth);
    StripNothing(Core(n, depth) + t);
  }

  lemma NodeTaken(st: State, acc: seq<Node>, n: Node, depth: nat, t: seq<byte>)
    requires Before(st, Core(n, depth) + t) && Follows(t) && Writable(n)
    ensures Takes(st, acc, n, t)
    decreases n, 3
  {
    match n
    case Group(name, children) => GroupTaken(st, acc, name, children, depth, t);
    case Property(name, value) => PropertyTaken(st, acc, name, value, depth, t);
    case Comment(text, endOfLine) => CommentTaken(st, acc, text, endOfLine, depth, t);
  }

  /** Parsing what was printed gives back an equal tree. The bytes after the final brace are not needed, and are
      left unread if they are there. */
  lemma ParsePrinted(name: seq<byte>, children: seq<Node>, after: seq<byte>)
    requires AllWritable(children)
    ensures var g := Group(name, children);
            var text := PrintNode(g, 0);
            && text[|text| - 2..] == [CLOSE, LF]
            && Parse(text[..|text| - 1] + after) == Ok((g, after))
  {
    hide At, ReadGroup, Start, Remainder, PrintNode, PrintString, AllWritable;
    PrintedText(name, children, after);
    var head := if name != [] then PrintString(name) else [];
    var u := head + ([COLON, LF] + Remainder(children, 1, 0, after));
    RemainderFollows(children, 1, 0, after);
    StartAt([OPEN] + u);
    GroupAt(Start([OPEN] + u).value, name, children, 0, after);
    ClosedAt(ReadGroup(Start([OPEN] + u).value).value.1, after);
  }

  lemma ClosedAt(st: State, t: seq<byte>)
    requires At(st, [CLOSE] + t)
    ensures st.rest == t
  {
  }

  lemma PrintedText(name: seq<byte>, children: seq<Node>, after: seq<byte>)
    ensures var text := PrintNode(Group(name, children), 0);
            && |text| >= 2 && text[|text| - 2..] == [CLOSE, LF]
            && text[..|text| - 1] + after
               == [OPEN] + ((if name != [] then PrintString(name) else [])
                 + ([COLON, LF] + Remainder(children, 1, 0, after)))
  {
    hide PrintString, PrintNodes;
    var head := [OPEN] + ((if name != [] then PrintString(name) else []) + ([COLON, LF] + PrintNodes(children, 1)));
    var text := PrintNode(Group(name, children), 0);
    assert text == head + [CLOSE, LF];
    assert text[..|text| - 1] == head + [CLOSE];
  }

  // ---- Trees that do not come back ----

  /** A line comment ends at the first line feed or carriage return. */
  lemma {:induction false} LineCut(st: State, x: byte, s: seq<byte>, text: seq<byte>, e: byte, t: seq<byte>)
    requires At(st, [x] + (text + ([e] + t))) && (e == LF || e == CR) && CLOSE in t && Printable(text, true)
    ensures ReadLine(st, s).Ok? && ReadLine(st, s).value.0 == s + text
    decreases |text|
  {
    hide At, Next, ReadLine;
    var rest := text + ([e] + t);
    NextAt(st, x, rest);
    HeadAt(Next(st).value, rest);
    if text == [] {
      assert rest == [e] + t;
      LineEnds(st, s, e, t);
      assert s + text == s;
    } else {
      assert rest == [text[0]] + (text[1..] + ([e] + t));
      LineGoesOn(st, s);
      LineCut(Next(st).value, text[0], s + [text[0]], text[1..], e, t);
      assert s + [text[0]] + text[1..] == s + text;
    }
  }

  /** Where a text that cannot be printed as a comment is cut off. */
  lemma {:induction false} Cut(text: seq<byte>, endOfLine: bool) returns (i: nat)
    requires !Printable(text, endOfLine)
    ensures i < |text| && Printable(text[..i], endOfLine)
    ensures endOfLine ==> text[i] == LF || text[i] == CR
    ensures !endOfLine ==> i + 1 < |text| && text[i] == STAR && text[i + 1] == SLASH
  {
    var n := |text| - 1;
    if Printable(text[..n], endOfLine) {
      i := if endOfLine then n else n - 1;
      assert text == text[..n] + [text[n]];
    } else {
      i := Cut(text[..n], endOfLine);
      assert text[..n][..i] == text[..i];
    }
  }

  /** A comment that is cut off is read as another one. */
  lemma LineLost(s: State, text: seq<byte>, t: seq<byte>)
    requires At(s, [SLASH] + ([SLASH] + (text + ([LF] + t)))) && CLOSE in t && !Printable(text, true)
    ensures ReadComment(s, true).Ok? && ReadComment(s, true).value.0 != Comment(text, true)
  {
    hide At, Printable, ReadLine;
    var u := text + ([LF] + t);
    var i := Cut(text, true);
    var tail := text[i + 1..] + ([LF] + t);
    assert u == text[..i] + ([text[i]] + tail);
    NextAt(s, SLASH, [SLASH] + u);
    LineCut(Next(s).value, SLASH, [], text[..i], text[i], tail);
    assert [] + text[..i] == text[..i];
  }

  lemma BlockLost(s: State, text: seq<byte>, t: seq<byte>)
    requires At(s, [SLASH] + ([STAR] + (text + ([STAR, SLASH] + t)))) && CLOSE in t && !Printable(text, false)
    ensures ReadComment(s, false).Ok? && ReadComment(s, false).value.0 != Comment(text, false)
  {
    hide At, Printable, ReadBlock;
    var u := text + ([STAR, SLASH] + t);
    var i := Cut(text, false);
    var tail := text[i + 2..] + ([STAR, SLASH] + t);
    assert u == text[..i] + ([STAR, SLASH] + tail);
    NextAt(s, SLASH, [STAR] + u);
    BlockAt(Next(s).value, STAR, [], text[..i], tail);
    assert [] + text[..i] == text[..i];
  }

  lemma CommentLost(st: State, acc: seq<Node>, text: seq<byte>, endOfLine: bool, depth: nat, t: seq<byte>)
    requires Before(st, Core(Comment(text, endOfLine), depth) + t) && Follows(t) && !Printable(text, endOfLine)
    ensures Misses(st, acc, Comment(text, endOfLine))
  {
    hide Strip, Printable, ReadComment, SkipWs;
    var core := Core(Comment(text, endOfLine), depth);
    StripNothing(core + t);
    var s := SkipWs(st).value;
    if endOfLine {
      assert core + t == [SLASH] + ([SLASH] + (text + ([LF] + t)));
      LineLost(s, text, t);
    } else {
      assert core + t == [SLASH] + ([STAR] + (text + ([STAR, SLASH] + ([SPACE] + t))));
      BlockLost(s, text, [SPACE] + t);
    }
    var c := ReadComment(s, endOfLine).value;
    assert ReadContent(st, acc) == ReadContent(c.1, acc + [c.0]);
  }

  /** What is read in place of `n` is something else. */
  ghost predicate Misses(st: State, acc: seq<Node>, n: Node)
  {
    ReadContent(st, acc).Err? || exists n', st' :: n' != n && ReadContent(st, acc) == ReadContent(st', acc + [n'])
  }

  lemma {:induction false} ContentExtends(st: State, acc: seq<Node>)
    requires ReadContent(st, acc).Ok?
    ensures acc <= ReadContent(st, acc).value.0
    decreases Measure(st)
  {
    var s := SkipWs(st).value;
    if s.c == OPEN {
      var g := ReadGroup(s).value;
      ContentExtends(Next(g.1).value, acc + [g.0]);
    } else if s.c == CLOSE {
    } else if s.c == SLASH && s.la == STAR {
      var c := ReadComment(s, false).value;
      ContentExtends(c.1, acc + [c.0]);
    } else if s.c == SLASH && s.la == SLASH {
      var c := ReadComment(s, true).value;
      ContentExtends(c.1, acc + [c.0]);
    } else if s.c == COLON {
    } else {
      var p := ReadProperty(s).value;
      ContentExtends(p.1, acc + [p.0]);
    }
  }

  lemma MissedIsLost(st: State, acc: seq<Node>, ns: seq<Node>)
    requires ns != [] && Misses(st, acc, ns[0])
    ensures ReadContent(st, acc).Err? || ReadContent(st, acc).value.0 != acc + ns
  {
    hide ReadContent;
    if ReadContent(st, acc).Ok? {
      var n', st' :| n' != ns[0] && ReadContent(st, acc) == ReadContent(st', acc + [n']);
      ContentExtends(st', acc + [n']);
      assert (acc + [n'])[|acc|] == n' && (acc + ns)[|acc|] == ns[0];
    }
  }

  lemma GroupLost(s: State, name: seq<byte>, children: seq<Node>, depth: nat, t: seq<byte>)
    requires At(s, [OPEN] + ((if name != [] then PrintString(name) else []) + ([COLON, LF] +
                   Remainder(children, depth + 1, depth, t)))) && !AllWritable(children)
    ensures ReadGroup(s).Err? || ReadGroup(s).value.0 != Group(name, children)
    decreases children, 1
  {
    hide Strip, PrintString, Remainder, ReadContent, At, ReadStr, SkipWs, Next;
    var body := Remainder(children, depth + 1, depth, t);
    RemainderFollows(children, depth + 1, depth, t);
    var head := if name != [] then PrintString(name) else [];
    var u := [COLON, LF] + body;
    OpenAt(s, head + u);
    assert [COLON] + ([LF] + body) == u;
    NameAt(Next(s).value, name, [LF] + body);
    var v := ReadStr(Next(s).value).value.1;
    BeforeAt(Next(v).value, [LF] + body);
    BodyBefore(Next(v).value, body);
    ContentLost(Next(v).value, [], children, depth + 1, depth, t);
    assert [] + children == children;
  }

  lemma GroupMissed(st: State, acc: seq<Node>, name: seq<byte>, children: seq<Node>, depth: nat, t: seq<byte>)
    requires Before(st, Core(Group(name, children), depth) + t) && !AllWritable(children)
    ensures Misses(st, acc, Group(name, children))
    decreases children, 2
  {
    hide Strip, ReadGroup, PrintString, Core, At, SkipWs, Next;
    var core := Core(Group(name, children), depth);
    GroupCore(name, children, depth, t);
    StripNothing(core + t);
    var s := SkipWs(st).value;
    HeadAt(s, core + t);
    GroupLost(s, name, children, depth, [LF] + t);
    if ReadContent(st, acc).Ok? {
      var g := ReadGroup(s).value;
      assert ReadContent(st, acc) == ReadContent(Next(g.1).value, acc + [g.0]);
    }
  }

  lemma ContentLost(st: State, acc: seq<Node>, ns: seq<Node>, depth: nat, outer: nat, t: seq<byte>)
    requires Before(st, Remainder(ns, depth, outer, t)) && !AllWritable(ns)
    ensures ReadContent(st, acc).Err? || ReadContent(st, acc).value.0 != acc + ns
    decreases ns, 0
  {
    hide Strip, Core, Remainder, Writable, At, ReadContent, Misses;
    RemainderFollows(ns, depth, outer, t);
    var rest := Remainder(ns[1..], depth, outer, t);
    RemainderFollows(ns[1..], depth, outer, t);
    CoreBefore(st, ns[0], depth, rest, Remainder(ns, depth, outer, t));
    if Writable(ns[0]) {
      NodeTaken(st, acc, ns[0], depth, rest);
      var st' :| Before(st', rest) && ReadContent(st, acc) == ReadContent(st', acc + [ns[0]]);
      ContentLost(st', acc + [ns[0]], ns[1..], depth, outer, t);
      assert acc + [ns[0]] + ns[1..] == acc + ns;
    } else {
      NodeMissed(st, acc, ns[0], depth, rest);
      MissedIsLost(st, acc, ns);
    }
  }

  lemma NodeMissed(st: State, acc: seq<Node>, n: Node, depth: nat, t: seq<byte>)
    requires Before(st, Core(n, depth) + t) && Follows(t) && !Writable(n)
    ensures Misses(st, acc, n)
    decreases n, 3
  {
    match n
    case Group(name, children) => GroupMissed(st, acc, name, children, depth, t);
    case Property(name, value) =>
    case Comment(text, endOfLine) => CommentLost(st, acc, text, endOfLine, depth, t);
  }

  /** A printed tree comes back exactly when no comment holds its own end. */
  lemma RoundTrips(name: seq<byte>, children: seq<Node>, after: seq<byte>)
    ensures var g := Group(name, children);
            var text := PrintNode(g, 0);
            |text| >= 2 && (Parse(text[..|text| - 1] + after) == Ok((g, after)) <==> AllWritable(children))
  {
    hide At, ReadGroup, Start, Remainder, PrintNode, PrintString, AllWritable;
    PrintedText(name, children, after);
    if AllWritable(children) {
      ParsePrinted(name, children, after);
    } else {
      var head := if name != [] then PrintString(name) else [];
      var u := head + ([COLON, LF] + Remainder(children, 1, 0, after));
      RemainderFollows(children, 1, 0, after);
      StartAt([OPEN] + u);
      GroupLost(Start([OPEN] + u).value, name, children, 0, after);
    }
  }

  // ---- Two things a reader does that its user may not expect ----

  /** Behind a hexadecimal escape the reader goes on with the next byte exactly when neither the byte it stands for nor
      its second digit is a closing brace. After an escaped brace it drops the byte it had looked ahead at, and a brace
      as second digit it reads twice. The writer never escapes a brace. */
  lemma EscapeKeepsNextByte(e: State, h: byte, l: byte, t: seq<byte>)
    requires At(e, [LOWER_X] + ([h, l] + t)) && CLOSE in t
    ensures Unescape(e).Ok?
    ensures var u := Unescape(e).value;
            u.c == HexByte(h, l) &&
            ((Next(u).Ok? && At(Next(u).value, t)) <==> HexByte(h, l) != CLOSE && l != CLOSE)
  {
    hide HexByte, At, Next;
    TwoDigits(e, h, l, t);
    assert l == CLOSE ==> HexByte(h, l) != CLOSE by {
      BraceIsNoDigit(h);
    }
    var d := Next(Next(e).value).value;
    BehindDigit(d, HexByte(h, l), l, t);
  }

  lemma TwoDigits(e: State, h: byte, l: byte, t: seq<byte>)
    requires At(e, [LOWER_X] + ([h, l] + t)) && CLOSE in t
    ensures e.c == LOWER_X && Next(e).Ok? && Next(e).value.c == h && Next(Next(e).value).Ok?
    ensures var d := Next(Next(e).value).value; At(d, [l] + t) && (l == CLOSE ==> d.la == CLOSE)
  {
    NextAt(e, LOWER_X, [h, l] + t);
    NextTwice(Next(e).value, h, l, t);
  }

  lemma BraceIsNoDigit(h: byte)
    ensures HexByte(h, CLOSE) != CLOSE
  {
  }

  lemma BehindDigit(d: State, x: byte, l: byte, t: seq<byte>)
    requires At(d, [l] + t) && (l == CLOSE ==> d.la == CLOSE && x != CLOSE) && CLOSE in t
    ensures var u := d.(c := x); (Next(u).Ok? && At(Next(u).value, t)) <==> x != CLOSE && l != CLOSE
  {
    if x != CLOSE && l != CLOSE {
      NextAt(d, l, t);
    } else {
      assert |d.rest| == |([l] + t)| - (if l == CLOSE then 1 else 2);
    }
  }

  lemma BraceBehind(d: State, l: byte, y: byte, t: seq<byte>)
    requires At(d, [l] + ([y] + t)) && l != CLOSE && CLOSE in t
    ensures var u := d.(c := CLOSE); Next(u).Ok? && At(Next(u).value, t)
  {
    NextAt(d, l, [y] + t);
  }

  /** A closing brace written as an escape is read, but the byte behind it is lost. */
  lemma EscapedBraceLosesAByte(st: State, s: seq<byte>, h: byte, l: byte, y: byte, t: seq<byte>)
    requires At(st, [BACKSLASH, LOWER_X] + ([h, l] + ([y] + t))) && HexByte(h, l) == CLOSE && CLOSE in t
    ensures exists st' :: At(st', t) && ReadQuoted(st, s) == ReadQuoted(st', s + [CLOSE])
  {
    hide At;
    var hex := [LOWER_X] + ([h, l] + ([y] + t));
    assert [BACKSLASH, LOWER_X] + ([h, l] + ([y] + t)) == [BACKSLASH] + hex;
    NextAt(st, BACKSLASH, hex);
    var e := Next(st).value;
    BraceDrops(e, h, l, y, t);
    HeadAt(st, [BACKSLASH] + hex);
    EscapeRead(st, s, Unescape(e).value);
  }

  lemma BraceDrops(e: State, h: byte, l: byte, y: byte, t: seq<byte>)
    requires At(e, [LOWER_X] + ([h, l] + ([y] + t))) && HexByte(h, l) == CLOSE && CLOSE in t
    ensures Unescape(e).Ok? && Unescape(e).value.c == CLOSE
    ensures Next(Unescape(e).value).Ok? && At(Next(Unescape(e).value).value, t)
  {
    hide At, Next;
    TwoDigits(e, h, l, [y] + t);
    BraceBehind(Next(Next(e).value).value, l, y, t);
  }

  /** A reader that has read a group cannot read another one: it stands on the first one's brace. */
  lemma NoSecondGroup(st: State)
    ensures ReadGroup(st).Ok? ==> ReadGroup(ReadGroup(st).value.1) == Err(ExpectedOpen)
  {
    hide ReadContent;
  }
}
