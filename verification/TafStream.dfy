/** The TAF reader takes a stream byte by byte: nothing behind what it has taken matters, and it asks for more exactly
    when what is there is cut off. */
module TafStream {
  import opened Bytes
  import opened TafSyntax
  import opened Wrappers

  /** The same reader with `u` behind its stream. */
  function Longer(st: State, u: seq<byte>): State
  {
    st.(rest := st.rest + u)
  }

  /** Reading the longer stream comes to the same; if the shorter one ended too soon, it takes some of `u`. */
  ghost predicate Same<T>(short: Result<(T, State), TafError>, long: Result<(T, State), TafError>, u: seq<byte>)
  {
    match short
    case Ok(p) => long == Ok((p.0, Longer(p.1, u)))
    case Err(e) => if e == PrematureEnd then long.Ok? ==> Measure(long.value.1) < 2 * |u| else long == Err(e)
  }

  ghost predicate SameState(short: Result<State, TafError>, long: Result<State, TafError>, u: seq<byte>)
  {
    match short
    case Ok(s) => long == Ok(Longer(s, u))
    case Err(e) => if e == PrematureEnd then long.Ok? ==> Measure(long.value) < 2 * |u| else long == Err(e)
  }

  lemma NextSame(st: State, u: seq<byte>)
    ensures SameState(Next(st), Next(Longer(st, u)), u)
  {
    if st.rest != [] {
      assert (st.rest + u)[1..] == st.rest[1..] + u;
      if |st.rest| > 1 {
        assert (st.rest + u)[2..] == st.rest[2..] + u;
      }
    }
  }

  lemma {:induction false} SkipWsSame(st: State, u: seq<byte>)
    ensures SameState(SkipWs(st), SkipWs(Longer(st, u)), u)
    decreases Measure(st)
  {
    hide Next;
    NextSame(st, u);
    if IsSpace(st.c) && Next(st).Ok? {
      SkipWsSame(Next(st).value, u);
    }
  }

  lemma UnescapeSame(st: State, u: seq<byte>)
    ensures SameState(Unescape(st), Unescape(Longer(st, u)), u)
  {
    hide Next, HexByte;
    NextSame(st, u);
    if Next(st).Ok? {
      NextSame(Next(st).value, u);
    }
  }

  lemma {:induction false} QuotedSame(st: State, s: seq<byte>, u: seq<byte>)
    ensures Same(ReadQuoted(st, s), ReadQuoted(Longer(st, u), s), u)
    decreases Measure(st)
  {
    hide Next, Unescape;
    NextSame(st, u);
    if Next(st).Ok? {
      var n := Next(st).value;
      if st.c == BACKSLASH {
        UnescapeSame(n, u);
        if Unescape(n).Ok? {
          var e := Unescape(n).value;
          NextSame(e, u);
          if Next(e).Ok? {
            QuotedSame(Next(e).value, s + [e.c], u);
          }
        }
      } else if st.c != QUOTE {
        QuotedSame(n, s + [st.c], u);
      }
    }
  }

  lemma {:induction false} BareSame(st: State, s: seq<byte>, u: seq<byte>)
    ensures Same(ReadBare(st, s), ReadBare(Longer(st, u), s), u)
    decreases Measure(st)
  {
    hide Next;
    NextSame(st, u);
    if !EndsBare(st.c) && Next(st).Ok? {
      BareSame(Next(st).value, s + [st.c], u);
    }
  }

  lemma StrSame(st: State, u: seq<byte>)
    ensures Same(ReadStr(st), ReadStr(Longer(st, u)), u)
  {
    hide Next, SkipWs, ReadQuoted, ReadBare;
    SkipWsSame(st, u);
    if SkipWs(st).Ok? {
      var s := SkipWs(st).value;
      NextSame(s, u);
      BareSame(s, [], u);
      if Next(s).Ok? {
        QuotedSame(Next(s).value, [], u);
      }
    }
  }

  lemma {:induction false} LineSame(st: State, s: seq<byte>, u: seq<byte>)
    ensures Same(ReadLine(st, s), ReadLine(Longer(st, u), s), u)
    decreases Measure(st)
  {
    hide Next;
    NextSame(st, u);
    if Next(st).Ok? {
      var n := Next(st).value;
      NextSame(n, u);
      if Next(n).Ok? {
        NextSame(Next(n).value, u);
      }
      if n.c != LF && n.c != CR {
        LineSame(n, s + [n.c], u);
      }
    }
  }

  lemma {:induction false} BlockSame(st: State, s: seq<byte>, u: seq<byte>)
    ensures Same(ReadBlock(st, s), ReadBlock(Longer(st, u), s), u)
    decreases Measure(st)
  {
    hide Next;
    NextSame(st, u);
    if Next(st).Ok? {
      var n := Next(st).value;
      NextSame(n, u);
      if Next(n).Ok? {
        NextSame(Next(n).value, u);
      }
      if n.c != STAR || n.la != SLASH {
        BlockSame(n, s + [n.c], u);
      }
    }
  }

  lemma CommentSame(st: State, endOfLine: bool, u: seq<byte>)
    ensures Same(ReadComment(st, endOfLine), ReadComment(Longer(st, u), endOfLine), u)
  {
    hide Next, ReadLine, ReadBlock;
    NextSame(st, u);
    if Next(st).Ok? {
      LineSame(Next(st).value, [], u);
      BlockSame(Next(st).value, [], u);
    }
  }

  lemma PropertySame(st: State, u: seq<byte>)
    ensures Same(ReadProperty(st), ReadProperty(Longer(st, u)), u)
  {
    hide Next, SkipWs, ReadStr;
    StrSame(st, u);
    if ReadStr(st).Ok? {
      var n := ReadStr(st).value.1;
      SkipWsSame(n, u);
      if SkipWs(n).Ok? {
        var s := SkipWs(n).value;
        NextSame(s, u);
        if Next(s).Ok? {
          StrSame(Next(s).value, u);
        }
      }
    }
  }

  lemma {:induction false} ContentSame(st: State, ns: seq<Node>, u: seq<byte>)
    ensures Same(ReadContent(st, ns), ReadContent(Longer(st, u), ns), u)
    decreases Measure(st), 1
  {
    hide Next, SkipWs, ReadGroup, ReadComment, ReadProperty;
    SkipWsSame(st, u);
    if SkipWs(st).Ok? {
      var s := SkipWs(st).value;
      if s.c == OPEN {
        GroupSame(s, u);
        if ReadGroup(s).Ok? {
          var g := ReadGroup(s).value;
          NextSame(g.1, u);
          if Next(g.1).Ok? {
            ContentSame(Next(g.1).value, ns + [g.0], u);
          }
        }
      } else if s.c == SLASH && (s.la == STAR || s.la == SLASH) {
        CommentSame(s, s.la == SLASH, u);
        if ReadComment(s, s.la == SLASH).Ok? {
          var c := ReadComment(s, s.la == SLASH).value;
          ContentSame(c.1, ns + [c.0], u);
        }
      } else if s.c != CLOSE && s.c != COLON {
        PropertySame(s, u);
        if ReadProperty(s).Ok? {
          var p := ReadProperty(s).value;
          ContentSame(p.1, ns + [p.0], u);
        }
      }
    }
  }

  lemma {:induction false} GroupSame(st: State, u: seq<byte>)
    ensures Same(ReadGroup(st), ReadGroup(Longer(st, u)), u)
    decreases Measure(st), 0
  {
    hide Next, SkipWs, ReadStr, ReadContent;
    SkipWsSame(st, u);
    if SkipWs(st).Ok? && SkipWs(st).value.c == OPEN {
      var s := SkipWs(st).value;
      NextSame(s, u);
      if Next(s).Ok? {
        SkipWsSame(Next(s).value, u);
        if SkipWs(Next(s).value).Ok? {
          var t := SkipWs(Next(s).value).value;
          StrSame(t, u);
          if ReadStr(t).Ok? {
            ColonSame(ReadStr(t).value.1, u);
            var c := SkipWs(ReadStr(t).value.1);
            if c.Ok? && c.value.c == COLON && Next(c.value).Ok? {
              ContentSame(Next(c.value).value, [], u);
            }
          }
        }
      }
    }
  }

  lemma ColonSame(st: State, u: seq<byte>)
    ensures SameState(SkipWs(st), SkipWs(Longer(st, u)), u)
    ensures SkipWs(st).Ok? ==> SameState(Next(SkipWs(st).value), Next(Longer(SkipWs(st).value, u)), u)
  {
    SkipWsSame(st, u);
    if SkipWs(st).Ok? {
      NextSame(SkipWs(st).value, u);
    }
  }

  /** What is behind the group does not matter, and an error does not go away when there is more to read. */
  lemma ParseSame(input: seq<byte>, u: seq<byte>)
    ensures Parse(input).Ok? ==> Parse(input + u) == Ok((Parse(input).value.0, Parse(input).value.1 + u))
    ensures Parse(input).Err? && Parse(input).error != PrematureEnd ==> Parse(input + u) == Parse(input)
    ensures Parse(input) == Err(PrematureEnd) && Parse(input + u).Ok? ==> |Parse(input + u).value.1| < |u|
  {
    hide Next, ReadGroup;
    var st := State(0, 0, input);
    assert Longer(st, u) == State(0, 0, input + u);
    NextSame(st, u);
    if Next(st).Ok? {
      NextSame(Next(st).value, u);
      if Start(input).Ok? {
        GroupSame(Start(input).value, u);
      }
    }
  }

  /** A group is read from its bytes alone: with the ones behind it or without them, and when one of its own bytes is
      missing the reader says that the stream ended too soon. */
  lemma CutOff(input: seq<byte>, n: nat)
    requires Parse(input).Ok? && n <= |input|
    ensures var (g, unread) := Parse(input).value;
            && |unread| <= |input| && unread == input[|input| - |unread|..]
            && Parse(input[..n]) == if n < |input| - |unread| then Err(PrematureEnd)
                                    else Ok((g, input[|input| - |unread|..n]))
  {
    hide Parse;
    UnreadIsBehind(input);
    var k := |input| - |Parse(input).value.1|;
    SplitSame(input, k);
    SplitSame(input, n);
    if n >= k {
      assert input[..n] == input[..k] + input[k..n];
      ParseSame(input[..k], input[k..n]);
      assert [] + input[k..n] == input[k..n];
    }
  }

  lemma UnreadIsBehind(input: seq<byte>)
    requires Parse(input).Ok?
    ensures |Parse(input).value.1| <= |input|
  {
    ParseSame([], input);
    assert [] + input == input;
  }

  lemma SplitSame(input: seq<byte>, n: nat)
    requires Parse(input).Ok? && n <= |input|
    ensures Parse(input[..n]).Ok? ==>
              Parse(input) == Ok((Parse(input[..n]).value.0, Parse(input[..n]).value.1 + input[n..]))
    ensures Parse(input[..n]).Err? ==> Parse(input[..n]).error == PrematureEnd && |Parse(input).value.1| < |input| - n
  {
    hide Parse;
    assert input[..n] + input[n..] == input;
    ParseSame(input[..n], input[n..]);
  }
}
