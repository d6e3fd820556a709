/** What the TAF reader makes of text that people write: every way of writing a string, any white space, and all the
    forms of properties and comments. The bytes are given as numbers. */
module TafSpelling {
  import opened Bytes
  import opened TafSyntax
  import opened TafRoundTrip
  import opened Wrappers

  // ---- Strings ----

  /** How one byte can be written inside of quotes. */
  datatype Piece = Itself(b: byte) | Quote | Backslash | LineFeed | Tab | Hex(high: byte, low: byte)

  function Digit(c: byte): Option<int>
  {
    if 48 <= c <= 57 then Some(c as int - 48)
    else if 65 <= c <= 70 then Some(c as int - 55)
    else if 97 <= c <= 102 then Some(c as int - 87)
    else None
  }

  /** A closing brace as a hexadecimal escape is left out: the reader drops the byte behind it. */
  predicate Sound(p: Piece)
  {
    match p
    case Itself(b) => b != 34 && b != 92
    case Hex(h, l) => Digit(h).Some? && Digit(l).Some? && 16 * Digit(h).value + Digit(l).value != 125
    case _ => true
  }

  function Spelled(p: Piece): seq<byte>
  {
    match p
    case Itself(b) => [b]
    case Quote => [92, 34]
    case Backslash => [92, 92]
    case LineFeed => [92, 110]
    case Tab => [92, 116]
    case Hex(h, l) => [92, 120, h, l]
  }

  function Stands(p: Piece): byte
  {
    match p
    case Itself(b) => b
    case Quote => 34
    case Backslash => 92
    case LineFeed => 10
    case Tab => 9
    case Hex(h, l) => if Digit(h).Some? && Digit(l).Some? then (16 * Digit(h).value + Digit(l).value) as byte else 0
  }

  function SpelledAll(ps: seq<Piece>): seq<byte>
  {
    if ps == [] then [] else Spelled(ps[0]) + SpelledAll(ps[1..])
  }

  /** How a string can be written. */
  datatype Spelling = Quoted(pieces: seq<Piece>) | Bare(text: seq<byte>)

  function StringText(s: Spelling): seq<byte>
  {
    match s
    case Quoted(ps) => [34] + (SpelledAll(ps) + [34])
    case Bare(text) => text
  }

  predicate Blank(b: seq<byte>)
  {
    forall i :: 0 <= i < |b| ==> b[i] in {32, 9, 10, 13}
  }

  /** The first byte behind the white space. */
  function FirstOf(text: seq<byte>): Option<byte>
  {
    if text == [] then None
    else if text[0] in {32, 9, 10, 13} then FirstOf(text[1..])
    else Some(text[0])
  }

  /** The string can be written so when `t` is behind it: without quotes it ends at white space, a brace, a colon or an
      equals sign, and an empty one is there only when one of the latter comes next. */
  predicate StringFits(s: Spelling, t: seq<byte>)
  {
    match s
    case Quoted(ps) => forall i :: 0 <= i < |ps| ==> Sound(ps[i])
    case Bare(text) =>
      && (forall i :: 0 <= i < |text| ==> text[i] !in {32, 9, 10, 13, 125, 123, 58, 61})
      && if text == [] then FirstOf(t) in {Some(125), Some(123), Some(58), Some(61)}
         else text[0] != 34 && t != [] && t[0] in {32, 9, 10, 13, 125, 123, 58, 61}
  }

  function StandsAll(ps: seq<Piece>): seq<byte>
  {
    if ps == [] then [] else [Stands(ps[0])] + StandsAll(ps[1..])
  }

  function StringMeaning(s: Spelling): seq<byte>
  {
    match s
    case Quoted(ps) => StandsAll(ps)
    case Bare(text) => text
  }

  // ---- Trees ----

  /** A node as it is written, with the white space in front of it. */
  datatype Item =
    | Sub(blank: seq<byte>, b0: seq<byte>, name: Spelling, b1: seq<byte>, items: seq<Item>, b2: seq<byte>)
    | Named(blank: seq<byte>, name: Spelling, b0: seq<byte>, b1: seq<byte>, value: Spelling)
    | Nameless(blank: seq<byte>, value: Spelling)
    | Line(blank: seq<byte>, text: seq<byte>, end: seq<byte>)
    | Block(blank: seq<byte>, text: seq<byte>)

  function Body(i: Item): seq<byte>
    decreases i, 0
  {
    match i
    case Sub(_, b0, name, b1, items, b2) =>
      [123] + (b0 + (StringText(name) + (b1 + ([58] + (Texts(items) + (b2 + [125]))))))
    case Named(_, name, b0, b1, value) => StringText(name) + (b0 + ([61] + (b1 + StringText(value))))
    case Nameless(_, value) => StringText(value)
    case Line(_, text, end) => [47, 47] + (text + end)
    case Block(_, text) => [47, 42] + (text + [42, 47])
  }

  function Text(i: Item): seq<byte>
    decreases i, 1
  {
    i.blank + Body(i)
  }

  function Texts(items: seq<Item>): seq<byte>
    decreases items
  {
    if items == [] then [] else Text(items[0]) + Texts(items[1..])
  }

  /** The item can be written so when `t` is behind it. */
  predicate Fits(i: Item, t: seq<byte>)
    decreases i, 0
  {
    && Blank(i.blank)
    && match i
       case Sub(_, b0, name, b1, items, b2) =>
         && Blank(b0) && Blank(b1) && Blank(b2)
         && StringFits(name, b1 + [58]) && AllFit(items, b2 + [125])
       case Named(_, name, b0, b1, value) =>
         && Blank(b0) && Blank(b1) && StringFits(name, b0 + [61]) && StringFits(value, t)
         && !LooksLikeComment(name)
       case Nameless(_, value) =>
         && StringFits(value, t) && value != Bare([]) && FirstOf(t) != Some(61)
         && !LooksLikeComment(value)
       case Line(_, text, end) =>
         && (forall k :: 0 <= k < |text| ==> text[k] !in {10, 13})
         && (end == [13] || end == [10, 13] || (end == [10] && t != [] && t[0] != 13))
       case Block(_, text) => forall k :: 0 <= k < |text| - 1 ==> !(text[k] == 42 && text[k + 1] == 47)
  }

  predicate LooksLikeComment(s: Spelling)
  {
    s.Bare? && |s.text| >= 2 && s.text[0] == 47 && s.text[1] in {42, 47}
  }

  predicate AllFit(items: seq<Item>, t: seq<byte>)
    decreases items
  {
    items == [] || (Fits(items[0], Texts(items[1..]) + t) && AllFit(items[1..], t))
  }

  function Meaning(i: Item): Node
    decreases i, 0
  {
    match i
    case Sub(_, _, name, _, items, _) => Group(StringMeaning(name), Meanings(items))
    case Named(_, name, _, _, value) => Property(StringMeaning(name), StringMeaning(value))
    case Nameless(_, value) => Property([], StringMeaning(value))
    case Line(_, text, _) => Comment(text, true)
    case Block(_, text) => Comment(text, false)
  }

  function Meanings(items: seq<Item>): seq<Node>
    decreases items
  {
    if items == [] then [] else [Meaning(items[0])] + Meanings(items[1..])
  }

  // ---- Reading strings ----

  lemma {:induction false} StripBlank(b: seq<byte>, t: seq<byte>)
    requires Blank(b)
    ensures Strip(b + t) == Strip(t)
  {
    if b == [] {
      assert b + t == t;
    } else {
      assert (b + t)[1..] == b[1..] + t;
      StripBlank(b[1..], t);
    }
  }

  lemma {:induction false} FirstIsStripped(t: seq<byte>)
    ensures FirstOf(t) == if Strip(t) == [] then None else Some(Strip(t)[0])
  {
    if t != [] {
      FirstIsStripped(t[1..]);
    }
  }

  lemma NothingIsBlank()
    ensures Blank([])
  {
  }

  /** A mark that comes next, behind white space or not. */
  lemma MarkReads(st: State, b: seq<byte>, x: byte, t: seq<byte>)
    requires Before(st, b + ([x] + t)) && Blank(b) && CLOSE in t && !IsSpace(x)
    ensures SkipWs(st).Ok? && SkipWs(st).value.c == x
    ensures Next(SkipWs(st).value).Ok? && At(Next(SkipWs(st).value).value, t)
  {
    hide At, Next;
    StripBlank(b, [x] + t);
    StripNothing([x] + t);
    HeadAt(SkipWs(st).value, [x] + t);
    NextAt(SkipWs(st).value, x, t);
  }

  lemma ShortEscape(st: State, s: seq<byte>, x: byte, b: byte, t: seq<byte>)
    requires At(st, [92, x] + t) && CLOSE in t && x != 125 && b != 125
    requires forall e: State :: e.c == x ==> Unescape(e) == Ok(e.(c := b))
    ensures exists st' :: At(st', t) && ReadQuoted(st, s) == ReadQuoted(st', s + [b])
  {
    hide At, Next, Unescape;
    NextTwice(st, 92, x, t);
    HeadAt(st, [92, x] + t);
    var e := Next(st).value;
    HeadAt(e, [x] + t);
    var u := e.(c := b);
    SameNext(e, b);
    EscapeRead(st, s, u);
  }

  lemma SameNext(e: State, b: byte)
    requires e.c != CLOSE && b != CLOSE
    ensures Next(e.(c := b)) == Next(e)
  {
  }

  lemma HexEscape(st: State, s: seq<byte>, h: byte, l: byte, t: seq<byte>)
    requires At(st, [92, 120, h, l] + t) && CLOSE in t && Sound(Hex(h, l))
    ensures exists st' :: At(st', t) && ReadQuoted(st, s) == ReadQuoted(st', s + [Stands(Hex(h, l))])
  {
    hide At, Next, Unescape;
    var hex := [LOWER_X] + ([h, l] + t);
    assert [92, 120, h, l] + t == [BACKSLASH] + hex;
    NextAt(st, BACKSLASH, hex);
    HeadAt(st, [BACKSLASH] + hex);
    var e := Next(st).value;
    EscapeKeepsNextByte(e, h, l, t);
    EscapeRead(st, s, Unescape(e).value);
  }

  lemma PieceReads(st: State, s: seq<byte>, p: Piece, t: seq<byte>)
    requires At(st, Spelled(p) + t) && CLOSE in t && Sound(p)
    ensures exists st' :: At(st', t) && ReadQuoted(st, s) == ReadQuoted(st', s + [Stands(p)])
  {
    match p
    case Itself(b) => NextAt(st, b, t);
    case Quote => ShortEscape(st, s, 34, 34, t);
    case Backslash => ShortEscape(st, s, 92, 92, t);
    case LineFeed => ShortEscape(st, s, 110, 10, t);
    case Tab => ShortEscape(st, s, 116, 9, t);
    case Hex(h, l) => HexEscape(st, s, h, l, t);
  }

  lemma {:induction false} PiecesRead(st: State, s: seq<byte>, ps: seq<Piece>, t: seq<byte>)
    requires At(st, SpelledAll(ps) + ([34] + t)) && CLOSE in t && forall i :: 0 <= i < |ps| ==> Sound(ps[i])
    ensures ReadQuoted(st, s).Ok? && ReadQuoted(st, s).value.0 == s + StandsAll(ps)
    ensures At(ReadQuoted(st, s).value.1, t)
    decreases |ps|
  {
    hide At, Spelled, ReadQuoted;
    if ps == [] {
      assert SpelledAll(ps) + ([34] + t) == [QUOTE] + t;
      QuoteAt(st, s, t);
      assert s + StandsAll(ps) == s;
    } else {
      var u := SpelledAll(ps[1..]) + ([34] + t);
      assert SpelledAll(ps) + ([34] + t) == Spelled(ps[0]) + u;
      PieceReads(st, s, ps[0], u);
      var st' :| At(st', u) && ReadQuoted(st, s) == ReadQuoted(st', s + [Stands(ps[0])]);
      PiecesRead(st', s + [Stands(ps[0])], ps[1..], t);
      assert s + [Stands(ps[0])] + StandsAll(ps[1..]) == s + StandsAll(ps);
    }
  }

  lemma {:induction false} BareReads(st: State, s: seq<byte>, text: seq<byte>, t: seq<byte>)
    requires At(st, text + t) && CLOSE in t && t[0] in {32, 9, 10, 13, 125, 123, 58, 61}
    requires forall i :: 0 <= i < |text| ==> text[i] !in {32, 9, 10, 13, 125, 123, 58, 61}
    ensures ReadBare(st, s).Ok? && ReadBare(st, s).value.0 == s + text && At(ReadBare(st, s).value.1, t)
    decreases |text|
  {
    hide At, Next;
    HeadAt(st, text + t);
    if text == [] {
      assert text + t == t && s + text == s;
    } else {
      assert text + t == [text[0]] + (text[1..] + t);
      NextAt(st, text[0], text[1..] + t);
      BareReads(Next(st).value, s + [text[0]], text[1..], t);
      assert s + [text[0]] + text[1..] == s + text;
    }
  }

  /** However a string is written, it is read. */
  lemma StringReads(st: State, s: Spelling, t: seq<byte>)
    requires Before(st, StringText(s) + t) && StringFits(s, t) && CLOSE in t
    ensures ReadStr(st).Ok? && ReadStr(st).value.0 == StringMeaning(s) && Before(ReadStr(st).value.1, t)
  {
    hide Before, ReadStr, SpelledAll, StandsAll, Sound;
    match s
    case Quoted(ps) => QuotedStringReads(st, ps, t);
    case Bare(text) => BareStringReads(st, text, t);
  }

  lemma QuotedStringReads(st: State, ps: seq<Piece>, t: seq<byte>)
    requires Before(st, StringText(Quoted(ps)) + t) && CLOSE in t && forall i :: 0 <= i < |ps| ==> Sound(ps[i])
    ensures ReadStr(st).Ok? && ReadStr(st).value.0 == StandsAll(ps) && Before(ReadStr(st).value.1, t)
  {
    hide At, Next, ReadQuoted, ReadBare, SpelledAll, StandsAll, Sound, Strip;
    var u := SpelledAll(ps) + ([34] + t);
    OpeningQuote(ps, t);
    MarkReads(st, [], 34, u);
    var n := Next(SkipWs(st).value).value;
    PiecesRead(n, [], ps, t);
    assert [] + StandsAll(ps) == StandsAll(ps);
    BeforeAt(ReadQuoted(n, []).value.1, t);
  }

  lemma OpeningQuote(ps: seq<Piece>, t: seq<byte>)
    ensures StringText(Quoted(ps)) + t == [] + ([34] + (SpelledAll(ps) + ([34] + t)))
  {
    hide SpelledAll;
  }

  lemma BareStringReads(st: State, text: seq<byte>, t: seq<byte>)
    requires Before(st, text + t) && StringFits(Bare(text), t) && CLOSE in t
    ensures ReadStr(st).Ok? && ReadStr(st).value.0 == text && Before(ReadStr(st).value.1, t)
  {
    hide At, Next, ReadQuoted, ReadBare;
    var s0 := SkipWs(st).value;
    var u := if text == [] then Strip(t) else t;
    BareEnds(text, t, u);
    assert At(s0, text + u);
    hide Strip;
    HeadAt(s0, text + u);
    BareReads(s0, [], text, u);
    assert [] + text == text;
    assert ReadStr(st) == ReadBare(s0, []);
    BeforeAt(ReadStr(st).value.1, u);
    StripTwice(t);
  }

  lemma BareEnds(text: seq<byte>, t: seq<byte>, u: seq<byte>)
    requires StringFits(Bare(text), t) && CLOSE in t && u == if text == [] then Strip(t) else t
    ensures u != [] && u[0] in {32, 9, 10, 13, 125, 123, 58, 61} && (text + u)[0] != 34
    ensures Strip(text + t) == text + u
  {
    FirstIsStripped(t);
    if text == [] {
      assert text + t == t && text + u == u;
    } else {
      StripNothing(text + t);
    }
  }

  lemma {:induction false} StripTwice(t: seq<byte>)
    ensures Strip(Strip(t)) == Strip(t)
  {
    if t != [] {
      StripTwice(t[1..]);
    }
  }

  // ---- Reading nodes ----

  lemma BlankBefore(st: State, b: seq<byte>, t: seq<byte>)
    requires Before(st, b + t) && Blank(b)
    ensures Before(st, t)
  {
    StripBlank(b, t);
  }

  lemma SkippedBefore(st: State, t: seq<byte>)
    requires Before(st, t)
    ensures SkipWs(st).Ok? && Before(SkipWs(st).value, t)
  {
  }

  /** A string at the start of a node is not taken for something else. */
  lemma StringStarts(st: State, s: Spelling, t: seq<byte>)
    requires Before(st, StringText(s) + t) && StringFits(s, t) && CLOSE in t && !LooksLikeComment(s)
    requires s == Bare([]) ==> FirstOf(t) == Some(61)
    ensures var r := SkipWs(st).value;
            r.c !in {123, 125, 58} && !(r.c == 47 && r.la in {42, 47}) && (r.c == 61 <==> s == Bare([]))
  {
    hide At;
    var u := StringText(s) + t;
    var r := SkipWs(st).value;
    FirstIsStripped(t);
    if s == Bare([]) {
      assert u == t;
    } else {
      StripNothing(u);
    }
    HeadAt(r, Strip(u));
  }

  lemma NamedReads(s: State, name: Spelling, b0: seq<byte>, b1: seq<byte>, value: Spelling, t: seq<byte>)
    requires Before(s, StringText(name) + (b0 + ([61] + (b1 + (StringText(value) + t))))) && CLOSE in t
    requires Blank(b0) && Blank(b1) && StringFits(name, b0 + ([61] + (b1 + (StringText(value) + t))))
    requires StringFits(value, t)
    ensures ReadProperty(s).Ok? && ReadProperty(s).value.0 == Property(StringMeaning(name), StringMeaning(value))
    ensures Before(ReadProperty(s).value.1, t)
  {
    hide Before, At, StringText, StringFits, StringMeaning, ReadStr, SkipWs, Next, Blank;
    var v := StringText(value) + t;
    StringReads(s, name, b0 + ([61] + (b1 + v)));
    var n := ReadStr(s).value.1;
    MarkReads(n, b0, 61, b1 + v);
    var m := Next(SkipWs(n).value).value;
    BeforeAt(m, b1 + v);
    BlankBefore(m, b1, v);
    StringReads(m, value, t);
  }

  lemma NamelessReads(s: State, value: Spelling, t: seq<byte>)
    requires Before(s, StringText(value) + t) && CLOSE in t && StringFits(value, t) && FirstOf(t) != Some(61)
    ensures ReadProperty(s).Ok? && ReadProperty(s).value.0 == Property([], StringMeaning(value))
    ensures Before(ReadProperty(s).value.1, t)
  {
    hide At, StringText, StringFits, StringMeaning, ReadStr, Next;
    StringReads(s, value, t);
    var n := ReadStr(s).value.1;
    FirstIsStripped(t);
    HeadAt(SkipWs(n).value, Strip(t));
    SkippedBefore(n, t);
  }

  lemma {:induction false} LineReads(st: State, x: byte, s: seq<byte>, text: seq<byte>, end: seq<byte>, t: seq<byte>)
    requires At(st, [x] + (text + (end + t))) && CLOSE in t && forall k :: 0 <= k < |text| ==> text[k] !in {10, 13}
    requires end == [13] || end == [10, 13] || (end == [10] && t[0] != 13)
    ensures ReadLine(st, s).Ok? && ReadLine(st, s).value.0 == s + text && At(ReadLine(st, s).value.1, t)
    decreases |text|
  {
    hide At, Next, ReadLine;
    var rest := text + (end + t);
    NextAt(st, x, rest);
    HeadAt(Next(st).value, rest);
    if text == [] {
      assert rest == end + t;
      LineStops(st, s, end, t);
      assert s + text == s;
    } else {
      assert rest == [text[0]] + (text[1..] + (end + t));
      LineGoesOn(st, s);
      LineReads(Next(st).value, text[0], s + [text[0]], text[1..], end, t);
      assert s + [text[0]] + text[1..] == s + text;
    }
  }

  lemma LineStops(st: State, s: seq<byte>, end: seq<byte>, t: seq<byte>)
    requires Next(st).Ok? && At(Next(st).value, end + t) && CLOSE in t
    requires end == [13] || end == [10, 13] || (end == [10] && t[0] != 13)
    ensures ReadLine(st, s).Ok? && ReadLine(st, s).value.0 == s && At(ReadLine(st, s).value.1, t)
  {
    hide At, Next;
    var n := Next(st).value;
    HeadAt(n, end + t);
    if end == [10, 13] {
      NextTwice(n, 10, 13, t);
    } else {
      NextAt(n, end[0], t);
    }
  }

  lemma CommentReads(s: State, text: seq<byte>, end: seq<byte>, t: seq<byte>)
    requires CLOSE in t
    ensures At(s, [47, 47] + (text + (end + t))) && Fits(Line([], text, end), t) ==>
              ReadComment(s, true).Ok? && ReadComment(s, true).value.0 == Comment(text, true)
              && At(ReadComment(s, true).value.1, t)
    ensures At(s, [47, 42] + (text + ([42, 47] + t))) && Fits(Block([], text), t) ==>
              ReadComment(s, false).Ok? && ReadComment(s, false).value.0 == Comment(text, false)
              && At(ReadComment(s, false).value.1, t)
  {
    hide At, Next, ReadLine, ReadBlock;
    var u := text + (end + t);
    if At(s, [47, 47] + u) && Fits(Line([], text, end), t) {
      assert [47, 47] + u == [47] + ([47] + u);
      NextAt(s, 47, [47] + u);
      LineReads(Next(s).value, 47, [], text, end, t);
      assert [] + text == text;
    }
    var v := text + ([STAR, SLASH] + t);
    if At(s, [47, 42] + v) && Fits(Block([], text), t) {
      assert [47, 42] + v == [SLASH] + ([STAR] + v);
      BlockCommentAt(s, text, t);
    }
  }

  // ---- What follows a closing brace does not matter ----

  lemma {:induction false} FirstMore(t: seq<byte>, u: seq<byte>)
    requires CLOSE in t
    ensures FirstOf(t).Some? && FirstOf(t + u) == FirstOf(t)
  {
    if t[0] in {32, 9, 10, 13} {
      assert (t + u)[1..] == t[1..] + u;
      FirstMore(t[1..], u);
    }
  }

  lemma FitsMore(i: Item, t: seq<byte>, u: seq<byte>)
    requires Fits(i, t) && CLOSE in t
    ensures Fits(i, t + u)
  {
    hide AllFit;
    FirstMore(t, u);
  }

  lemma {:induction false} AllFitMore(items: seq<Item>, t: seq<byte>, u: seq<byte>)
    requires AllFit(items, t) && CLOSE in t
    ensures AllFit(items, t + u)
  {
    hide Fits, Text;
    if items != [] {
      FitsMore(items[0], Texts(items[1..]) + t, u);
      assert Texts(items[1..]) + t + u == Texts(items[1..]) + (t + u);
      AllFitMore(items[1..], t, u);
    }
  }

  lemma NameFits(name: Spelling, b: seq<byte>, x: byte, t: seq<byte>)
    requires StringFits(name, b + [x]) && x in {58, 61} && Blank(b)
    ensures StringFits(name, b + ([x] + t))
  {
    FirstBehind(b, x, []);
    FirstBehind(b, x, t);
    assert [x] + [] == [x];
  }

  lemma {:induction false} FirstBehind(b: seq<byte>, x: byte, t: seq<byte>)
    requires Blank(b) && x !in {32, 9, 10, 13}
    ensures FirstOf(b + ([x] + t)) == Some(x)
  {
    if b == [] {
      assert b + ([x] + t) == [x] + t;
    } else {
      assert (b + ([x] + t))[1..] == b[1..] + ([x] + t);
      FirstBehind(b[1..], x, t);
    }
  }

  // ---- Reading trees ----

  lemma NamedTaken(st: State, acc: seq<Node>, i: Item, t: seq<byte>)
    requires i.Named? && Before(st, Body(i) + t) && Fits(i, t) && CLOSE in t
    ensures Takes(st, acc, Meaning(i), t)
  {
    hide At, Before, StringText, StringFits, StringMeaning, ReadProperty, SkipWs, Next, Blank, LooksLikeComment;
    var v := i.b1 + (StringText(i.value) + t);
    var u := i.b0 + ([61] + v);
    assert Body(i) + t == StringText(i.name) + u;
    NameFits(i.name, i.b0, 61, v);
    FirstBehind(i.b0, 61, v);
    StringStarts(st, i.name, u);
    SkippedBefore(st, StringText(i.name) + u);
    var s := SkipWs(st).value;
    NamedReads(s, i.name, i.b0, i.b1, i.value, t);
    var st' := ReadProperty(s).value.1;
    assert ReadContent(st, acc) == ReadContent(st', acc + [Meaning(i)]);
  }

  lemma NamelessTaken(st: State, acc: seq<Node>, i: Item, t: seq<byte>)
    requires i.Nameless? && Before(st, Body(i) + t) && Fits(i, t) && CLOSE in t
    ensures Takes(st, acc, Meaning(i), t)
  {
    hide At, Before, StringText, StringFits, StringMeaning, ReadProperty, SkipWs, Next, Blank, LooksLikeComment;
    StringStarts(st, i.value, t);
    SkippedBefore(st, StringText(i.value) + t);
    var s := SkipWs(st).value;
    NamelessReads(s, i.value, t);
    var st' := ReadProperty(s).value.1;
    assert ReadContent(st, acc) == ReadContent(st', acc + [Meaning(i)]);
  }

  lemma CommentIsTaken(st: State, acc: seq<Node>, i: Item, t: seq<byte>)
    requires (i.Line? || i.Block?) && Before(st, Body(i) + t) && Fits(i, t) && CLOSE in t
    ensures Takes(st, acc, Meaning(i), t)
  {
    hide Strip, ReadComment, At, SkipWs;
    var u := Body(i) + t;
    StripNothing(u);
    var s := SkipWs(st).value;
    HeadAt(s, u);
    if i.Line? {
      assert u == [47, 47] + (i.text + (i.end + t));
      CommentReads(s, i.text, i.end, t);
    } else {
      assert u == [47, 42] + (i.text + ([42, 47] + t));
      CommentReads(s, i.text, [], t);
    }
    var st' := ReadComment(s, i.Line?).value.1;
    BeforeAt(st', t);
    assert ReadContent(st, acc) == ReadContent(st', acc + [Meaning(i)]);
  }

  /** A group is read up to its closing brace. */
  lemma SubReads(st: State, i: Item, t: seq<byte>)
    requires i.Sub? && Before(st, Body(i) + t) && Fits(i, t)
    ensures ReadGroup(st).Ok? && ReadGroup(st).value.0 == Meaning(i) && At(ReadGroup(st).value.1, [CLOSE] + t)
    decreases i, 1
  {
    hide At, Before, StringText, StringFits, StringMeaning, ReadStr, ReadContent, SkipWs, Next, Blank, AllFit, Texts;
    var w := Texts(i.items) + (i.b2 + ([CLOSE] + t));
    SubText(i, t);
    NameFits(i.name, i.b1, 58, w);
    NameReads(st, i.b0, i.name, i.b1, 58, w);
    var d := Next(SkipWs(ReadStr(SkipWs(Next(SkipWs(st).value).value).value).value.1).value).value;
    BeforeAt(d, w);
    AllFitMore(i.items, i.b2 + [125], t);
    ItemsRead(d, [], i.items, i.b2, t);
    assert [] + Meanings(i.items) == Meanings(i.items);
  }

  lemma SubText(i: Item, t: seq<byte>)
    requires i.Sub?
    ensures i.b2 + [125] + t == i.b2 + ([CLOSE] + t)
    ensures Body(i) + t ==
            [123] + (i.b0 + (StringText(i.name) + (i.b1 + ([58] + (Texts(i.items) + (i.b2 + ([CLOSE] + t)))))))
  {
    hide StringText, Texts;
  }

  /** The opening brace, the name, and the mark behind it. */
  lemma NameReads(st: State, b0: seq<byte>, name: Spelling, b1: seq<byte>, x: byte, t: seq<byte>)
    requires Before(st, [123] + (b0 + (StringText(name) + (b1 + ([x] + t))))) && Blank(b0) && Blank(b1)
    requires CLOSE in t && !IsSpace(x) && StringFits(name, b1 + ([x] + t))
    ensures SkipWs(st).Ok? && SkipWs(st).value.c == OPEN && Next(SkipWs(st).value).Ok?
    ensures var n := SkipWs(Next(SkipWs(st).value).value);
            && n.Ok? && ReadStr(n.value).Ok? && ReadStr(n.value).value.0 == StringMeaning(name)
            && var c := SkipWs(ReadStr(n.value).value.1);
               c.Ok? && c.value.c == x && Next(c.value).Ok? && At(Next(c.value).value, t)
  {
    hide At, Before, StringText, StringFits, StringMeaning, ReadStr, SkipWs, Next, Blank;
    var v := b1 + ([x] + t);
    var u := b0 + (StringText(name) + v);
    assert [] + ([123] + u) == [123] + u;
    NothingIsBlank();
    MarkReads(st, [], 123, u);
    var n := Next(SkipWs(st).value).value;
    BeforeAt(n, u);
    BlankBefore(n, b0, StringText(name) + v);
    SkippedBefore(n, StringText(name) + v);
    StringReads(SkipWs(n).value, name, v);
    var c := ReadStr(SkipWs(n).value).value.1;
    MarkReads(c, b1, x, t);
  }

  lemma SubTaken(st: State, acc: seq<Node>, i: Item, t: seq<byte>)
    requires i.Sub? && Before(st, Body(i) + t) && Fits(i, t) && CLOSE in t
    ensures Takes(st, acc, Meaning(i), t)
    decreases i, 2
  {
    hide Strip, ReadGroup, At, SkipWs, Next, StringText, StringFits, Blank, AllFit, Texts;
    var u := Body(i) + t;
    StripNothing(u);
    var s := SkipWs(st).value;
    HeadAt(s, u);
    SkippedBefore(st, u);
    SubReads(s, i, t);
    var g := ReadGroup(s).value.1;
    NextAt(g, CLOSE, t);
    var st' := Next(g).value;
    BeforeAt(st', t);
    assert ReadContent(st, acc) == ReadContent(st', acc + [Meaning(i)]);
  }

  lemma ItemTaken(st: State, acc: seq<Node>, i: Item, t: seq<byte>)
    requires Before(st, Body(i) + t) && Fits(i, t) && CLOSE in t
    ensures Takes(st, acc, Meaning(i), t)
    decreases i, 3
  {
    hide Before, Fits, Takes, Body;
    match i
    case Sub(_, _, _, _, _, _) => SubTaken(st, acc, i, t);
    case Named(_, _, _, _, _) => NamedTaken(st, acc, i, t);
    case Nameless(_, _) => NamelessTaken(st, acc, i, t);
    case Line(_, _, _) => CommentIsTaken(st, acc, i, t);
    case Block(_, _) => CommentIsTaken(st, acc, i, t);
  }

  lemma ItemsRead(st: State, acc: seq<Node>, items: seq<Item>, b: seq<byte>, t: seq<byte>)
    requires Before(st, Texts(items) + (b + ([CLOSE] + t))) && AllFit(items, b + ([CLOSE] + t)) && Blank(b)
    ensures ReadContent(st, acc).Ok? && ReadContent(st, acc).value.0 == acc + Meanings(items)
    ensures At(ReadContent(st, acc).value.1, [CLOSE] + t)
    decreases items, 1
  {
    hide At, Before, ReadContent, Blank, Meaning, Meanings, Texts, AllFit;
    var end := b + ([CLOSE] + t);
    if items == [] {
      NothingLeft(acc, end);
      StripBlank(b, [CLOSE] + t);
      StripNothing([CLOSE] + t);
      ContentEnds(st, acc, end, t);
    } else {
      assert CLOSE in end;
      FirstTaken(st, acc, items, end);
      var m := Meaning(items[0]);
      var st' :| Before(st', Texts(items[1..]) + end) && ReadContent(st, acc) == ReadContent(st', acc + [m]);
      ItemsRead(st', acc + [m], items[1..], b, t);
      OneMore(acc, items);
    }
  }

  lemma NothingLeft(acc: seq<Node>, end: seq<byte>)
    ensures Texts([]) + end == end && acc + Meanings([]) == acc
  {
  }

  lemma OneMore(acc: seq<Node>, items: seq<Item>)
    requires items != []
    ensures acc + [Meaning(items[0])] + Meanings(items[1..]) == acc + Meanings(items)
  {
    hide Meaning;
  }

  lemma FirstTaken(st: State, acc: seq<Node>, items: seq<Item>, t: seq<byte>)
    requires items != [] && Before(st, Texts(items) + t) && AllFit(items, t) && CLOSE in t
    ensures Takes(st, acc, Meaning(items[0]), Texts(items[1..]) + t) && AllFit(items[1..], t)
    decreases items, 0
  {
    hide Before, Fits, Takes, Texts, Body, Blank;
    var i, rest := items[0], Texts(items[1..]) + t;
    FirstText(items, t);
    BlankInFront(i, rest);
    BlankBefore(st, i.blank, Body(i) + rest);
    ItemTaken(st, acc, i, rest);
  }

  lemma BlankInFront(i: Item, t: seq<byte>)
    requires Fits(i, t)
    ensures Blank(i.blank)
  {
  }

  lemma FirstText(items: seq<Item>, t: seq<byte>)
    requires items != []
    ensures Texts(items) + t == items[0].blank + (Body(items[0]) + (Texts(items[1..]) + t))
  {
    hide Body;
  }

  /** However a tree is written, reading it gives the tree, and takes nothing behind its closing brace. */
  lemma ReadsWritten(i: Item, t: seq<byte>)
    requires i.Sub? && Fits(i, t)
    ensures Parse(Text(i) + t) == Ok((Meaning(i), t))
  {
    hide At, Start, Body, ReadGroup;
    var u := Body(i) + t;
    assert Text(i) + t == i.blank + u;
    BodyStarts(i, t);
    StartAt(i.blank + u);
    var st := Start(i.blank + u).value;
    BeforeAt(st, i.blank + u);
    BlankBefore(st, i.blank, u);
    SubReads(st, i, t);
    ClosedAt(ReadGroup(st).value.1, t);
  }

  lemma BodyStarts(i: Item, t: seq<byte>)
    requires i.Sub? && Blank(i.blank)
    ensures var u := i.blank + (Body(i) + t); u != [] && u[0] != 125 && CLOSE in u
  {
    var u := i.blank + (Body(i) + t);
    assert u[|i.blank| + |Body(i)| - 1] == 125;
  }

  // ---- What is refused ----

  /** No other letter can be behind a backslash. */
  lemma UnknownEscape(st: State, s: seq<byte>, x: byte, t: seq<byte>)
    requires At(st, [92, x] + t) && CLOSE in t && x !in {34, 92, 110, 116, 120}
    ensures ReadQuoted(st, s) == Err(InvalidEscape)
  {
    hide At, Next;
    NextTwice(st, 92, x, t);
    HeadAt(st, [92, x] + t);
    HeadAt(Next(st).value, [x] + t);
  }

  /** A group begins with an opening brace, and a colon in it belongs to a name. */
  lemma WrongStart(st: State, acc: seq<Node>, b: seq<byte>, x: byte, t: seq<byte>)
    requires Before(st, b + ([x] + t)) && Blank(b) && CLOSE in t && x !in {32, 9, 10, 13}
    ensures x != 123 ==> ReadGroup(st) == Err(ExpectedOpen)
    ensures x == 58 ==> ReadContent(st, acc) == Err(StrayColon)
  {
    hide At;
    MarkReads(st, b, x, t);
  }

  /** Behind the name of a group comes a colon. */
  lemma NoColon(st: State, b0: seq<byte>, name: Spelling, b1: seq<byte>, x: byte, t: seq<byte>)
    requires Before(st, [123] + (b0 + (StringText(name) + (b1 + ([x] + t))))) && Blank(b0) && Blank(b1)
    requires CLOSE in t && x !in {32, 9, 10, 13, 58} && StringFits(name, b1 + ([x] + t))
    ensures ReadGroup(st) == Err(ExpectedColon)
  {
    hide At, Before, StringText, StringFits, ReadStr, SkipWs, Next, Blank, ReadContent;
    NameReads(st, b0, name, b1, x, t);
  }

  // ---- What is written ----

  /** A quote and a backslash are written behind a backslash, printable characters as they are, and all other bytes
      with two hexadecimal digits, the letters among them upper-case. */
  lemma ByteWritten(b: byte)
    ensures b == 34 ==> Escaped(b) == [92, 34]
    ensures b == 92 ==> Escaped(b) == [92, 92]
    ensures 32 <= b <= 126 && b != 34 && b != 92 ==> Escaped(b) == [b]
    ensures b < 32 || b > 126 ==>
              exists h, l :: && Escaped(b) == Spelled(Hex(h, l)) && Stands(Hex(h, l)) == b
                             && h < 97 && l < 97 && Digit(h).Some? && Digit(l).Some?
  {
    if b < 32 || b > 126 {
      assert Escaped(b) == Spelled(Hex(HexDigit(b as int / 16), HexDigit(b as int % 16)));
    }
  }

  function Spaces(n: nat): seq<byte>
  {
    seq(n, _ => 32)
  }

  function QuotedText(s: seq<byte>): seq<byte>
  {
    [34] + EscapedAll(s) + [34]
  }

  lemma {:induction false} IndentIsSpaces(depth: nat)
    ensures Indent(depth) == Spaces(4 * depth)
  {
    if depth > 0 {
      IndentIsSpaces(depth - 1);
    }
  }

  /** How each kind of node is written, byte by byte. */
  lemma NodeWritten(n: Node, depth: nat)
    ensures n.Group? ==>
              PrintNode(n, depth) == Spaces(4 * depth) + [123] + (if n.name != [] then QuotedText(n.name) else [])
                                     + [58, 10] + PrintNodes(n.children, depth + 1) + Spaces(4 * depth) + [125, 10]
    ensures n.Property? ==>
              PrintNode(n, depth) == Spaces(4 * depth) + (if n.name != [] then QuotedText(n.name) + [61] else [])
                                     + QuotedText(n.value) + [10]
    ensures n.Comment? ==>
              PrintNode(n, depth) == Spaces(4 * depth) + (if n.endOfLine then [47, 47] + n.text + [10]
                                                          else [47, 42] + n.text + [42, 47, 32])
  {
    hide Spaces, EscapedAll, PrintNodes, Indent;
    IndentIsSpaces(depth);
  }
}
