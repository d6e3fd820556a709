/** The Telnet decoder as it runs: it looks into the client's input buffer and takes what is complete. */
module Telnet {
  import opened Bytes
  import opened TelnetSpec
  import opened Wrappers

  class Telnet {
    var options: map<byte, Flags>
    var dataBuf: seq<byte>
    var subBuf: seq<byte>
    var subOpt: byte
    var bSubOpt: bool
    var canonical: bool
    var echo: bool
    /** The client: input that arrived, and everything sent and handed on. */
    var input: seq<byte>
    var events: seq<Event>

    constructor ()
      ensures input == [] && events == [] && State() == Fresh()
    {
      var none := Flags(false, false, false, false);
      options := map[0x00 := none, OPT_ECHO := none, OPT_NAWS := none, 0x03 := none];
      dataBuf, subBuf, subOpt, bSubOpt := [], [], 0, false;
      canonical, echo, input, events := true, true, [], [];
    }

    function State(): Decoder
      reads `options, `dataBuf, `subBuf, `subOpt, `bSubOpt, `canonical, `echo
    {
      Decoder(options, dataBuf, subBuf, subOpt, bSubOpt, canonical, echo)
    }

    method Send(e: Event)
      modifies `events
      ensures events == old(events) + [e]
    {
      events := events + [e];
    }

    method Seek(n: nat)
      requires n <= |input|
      modifies `input
      ensures input == old(input)[n..]
    {
      input := input[n..];
    }

    method OnWill(option: byte)
      modifies `options, `events
      ensures State() == Negotiate(old(State()), WILL, option).0
      ensures events == old(events) + Negotiate(old(State()), WILL, option).1
    {
      if option !in options {
        Send(Reply([IAC, DONT, option]));
      } else if !options[option].remoteCant {
        options := options[option := options[option].(remoteIs := true)];
        Send(Reply([IAC, DO, option]));
      } else {
        Send(Reply([IAC, DONT, option]));
      }
    }

    method OnWont(option: byte)
      modifies `options, `events
      ensures State() == Negotiate(old(State()), WONT, option).0
      ensures events == old(events) + Negotiate(old(State()), WONT, option).1
    {
      if option in options {
        options := options[option := options[option].(remoteIs := false)];
      }
      Send(Reply([IAC, DONT, option]));
    }

    method OnDo(option: byte)
      modifies `options, `events
      ensures State() == Negotiate(old(State()), DO, option).0
      ensures events == old(events) + Negotiate(old(State()), DO, option).1
    {
      if option !in options {
        Send(Reply([IAC, WONT, option]));
      } else if !options[option].localCant {
        options := options[option := options[option].(localIs := true)];
        Send(Reply([IAC, WILL, option]));
      } else {
        Send(Reply([IAC, WONT, option]));
      }
    }

    method OnDont(option: byte)
      modifies `options, `events
      ensures State() == Negotiate(old(State()), DONT, option).0
      ensures events == old(events) + Negotiate(old(State()), DONT, option).1
    {
      if option in options {
        options := options[option := options[option].(localIs := false)];
      }
      Send(Reply([IAC, DONT, option]));
    }

    method OnSubOpt() returns (thrown: bool)
      modifies `subBuf, `events
      ensures thrown <==> TooShort(subOpt, old(subBuf))
      ensures thrown ==> subBuf == old(subBuf) && events == old(events)
      ensures !thrown ==> subBuf == [] && events == old(events) + [SubDone(subOpt, old(subBuf))]
    {
      if subOpt == OPT_NAWS {
        if |subBuf| < 4 {
          return true;
        }
        Send(WindowSize(256 * (subBuf[0] as nat) + subBuf[1] as nat, 256 * (subBuf[2] as nat) + subBuf[3] as nat));
      } else {
        Send(SubOption(subOpt, subBuf));
      }
      subBuf := [];
      thrown := false;
    }

    method OnCtlChar(c: byte)
      modifies `dataBuf, `events
      ensures c == DEL && old(dataBuf) != [] ==>
                dataBuf == old(dataBuf)[..|old(dataBuf)| - 1] && events == old(events) + [Reply([BS, 0x20, BS])]
      ensures c != DEL || old(dataBuf) == [] ==> dataBuf == old(dataBuf) && events == old(events)
    {
      if c == DEL && |dataBuf| > 0 {
        dataBuf := dataBuf[..|dataBuf| - 1];
        Send(Reply([BS, 0x20, BS]));
      }
    }

    method AddData(c: byte)
      modifies `dataBuf, `events
      ensures dataBuf == old(dataBuf) + [c] && events == old(events) + Echoed(old(State()), c)
    {
      dataBuf := dataBuf + [c];
      if OPT_ECHO in options && options[OPT_ECHO].localIs && echo {
        Send(Reply([c]));
      }
    }

    /** One step did what the specification says. */
    ghost predicate Stepped(before: Decoder, text: seq<byte>, sent: seq<Event>, more: bool, thrown: bool)
      requires text != []
      reads this
    {
      match Next(before, text)
      case Wait => !more && !thrown && State() == before && input == text && events == sent
      case Throw(after) => !more && thrown && State() == after && input == text && events == sent
      case Step(after, out, taken) =>
        more && !thrown && State() == after && input == text[taken..] && events == sent + out
    }

    method InSubOption() returns (more: bool, thrown: bool)
      requires input != [] && bSubOpt
      modifies this
      ensures Stepped(old(State()), old(input), old(events), more, thrown)
    {
      more, thrown := false, false;
      var c := input[0];
      if c == IAC {
        if |input| <= 1 {
          return;
        }
        var c2 := input[1];
        if c2 == SE {
          bSubOpt := false;
          thrown := OnSubOpt();
          if thrown {
            return;
          }
        } else if c2 == IAC {
          subBuf := subBuf + [IAC];
        }
        Seek(1);
      } else {
        subBuf := subBuf + [c];
      }
      Seek(1);
      more := true;
    }

    method Command() returns (more: bool)
      requires input != [] && !bSubOpt && input[0] == IAC
      modifies this
      ensures Stepped(old(State()), old(input), old(events), more, false)
    {
      if |input| <= 1 {
        return false;
      }
      var c := input[1];
      if c == WILL || c == WONT || c == DO || c == DONT || c == SB {
        if |input| <= 2 {
          return false;
        }
        var option := input[2];
        Seek(1);
        if c == WILL {
          OnWill(option);
        } else if c == WONT {
          OnWont(option);
        } else if c == DO {
          OnDo(option);
        } else if c == DONT {
          OnDont(option);
        } else {
          subOpt := option;
          bSubOpt := true;
        }
      } else if c == IAC {
        dataBuf := dataBuf + [IAC];
      }
      Seek(1);
      Seek(1);
      more := true;
    }

    method Character() returns (more: bool)
      requires input != [] && !bSubOpt && input[0] != IAC
      modifies this
      ensures Stepped(old(State()), old(input), old(events), more, false)
    {
      var c := input[0];
      if c == SB {
      } else if canonical {
        if c < 0x20 || c >= DEL {
          if c == CR {
            if |input| <= 1 {
              return false;
            }
            if input[1] == NUL || input[1] == LF {
              OnCtlChar(c);
              Send(Line(dataBuf));
              dataBuf := [];
            }
            Seek(1);
          } else {
            OnCtlChar(c);
          }
        } else {
          AddData(c);
        }
      } else {
        AddData(c);
      }
      Seek(1);
      more := true;
    }

    /** Handle all input that is there completely, unless the string throws. Data outside of lines is handed on when
        nothing is left over. */
    method OnNewData() returns (thrown: bool)
      modifies this
      ensures var r := Run(old(State()), old(input));
              && State() == r.after && input == r.left && thrown == r.thrown
              && events == old(events) + r.events + (if !canonical && input == [] then [Data(dataBuf)] else [])
    {
      hide Next, Run, Prepended, Stepped;
      ghost var all := Run(State(), input);
      ghost var done := [];
      PrependNothing(all);
      thrown := false;
      while input != []
        invariant canonical == old(canonical) && events == old(events) + done && !thrown
        invariant all == Prepended(done, Run(State(), input))
        decreases |input|
      {
        ghost var d, text, sent := State(), input, events;
        var more;
        if bSubOpt {
          more, thrown := InSubOption();
        } else if input[0] == IAC {
          more := Command();
        } else {
          more := Character();
        }
        StepTaken(d, text, sent, more, thrown, done);
        if !more {
          return;
        }
        done := done + Next(d, text).events;
      }
      RunUnfold(State(), input);
      PrependEnd(done, State(), [], false);
      if !canonical {
        Send(Data(dataBuf));
      }
    }

    /** After a step what was done and what is still to be run are together the same as before. */
    lemma StepTaken(d: Decoder, text: seq<byte>, sent: seq<Event>, more: bool, thrown: bool, done: seq<Event>)
      requires text != [] && Stepped(d, text, sent, more, thrown)
      ensures !more ==> Prepended(done, Run(d, text)) == Decoded(State(), text, done, thrown)
                        && input == text && events == sent && canonical == d.canonical
      ensures more ==>
                && !thrown && Next(d, text).Step? && |input| < |text| && canonical == d.canonical
                && Prepended(done, Run(d, text)) == Prepended(done + Next(d, text).events, Run(State(), input))
                && events == sent + Next(d, text).events
    {
      hide Next;
      RunUnfold(d, text);
      if more {
        PrependMore(done, Next(d, text).events, Run(State(), input));
      } else {
        PrependEnd(done, State(), text, thrown);
      }
    }

    static function Prepended(done: seq<Event>, r: Decoded): Decoded
    {
      Decoded(r.after, r.left, done + r.events, r.thrown)
    }

    static lemma PrependNothing(r: Decoded)
      ensures Prepended([], r) == r
    {
    }

    static lemma PrependMore(done: seq<Event>, sent: seq<Event>, r: Decoded)
      ensures Prepended(done, Prepended(sent, r)) == Prepended(done + sent, r)
    {
    }

    static lemma PrependEnd(done: seq<Event>, d: Decoder, left: seq<byte>, thrown: bool)
      ensures Prepended(done, Decoded(d, left, [], thrown)) == Decoded(d, left, done, thrown)
    {
    }

    static lemma RunUnfold(d: Decoder, text: seq<byte>)
      ensures Run(d, text) ==
              if text == [] then Decoded(d, [], [], false)
              else
                var s := Next(d, text);
                if s.Wait? then Decoded(d, text, [], false)
                else if s.Throw? then Decoded(s.after, text, [], true)
                else Prepended(s.events, Run(s.after, text[s.taken..]))
    {
      hide Next;
    }

    /** More input arrives. */
    method Receive(piece: seq<byte>) returns (thrown: bool)
      modifies this
      ensures var r := Run(old(State()), old(input) + piece);
              && State() == r.after && input == r.left && thrown == r.thrown
              && (canonical ==> events == old(events) + r.events)
    {
      input := input + piece;
      thrown := OnNewData();
    }
  }

  /** Feeding a decoder in pieces, and going on when it throws. It is the same as feeding everything at once exactly
      when no window size that is too short is in a piece before the last. */
  method FeedPieces(t: Telnet, pieces: seq<seq<byte>>) returns (thrown: bool)
    requires t.input == [] && t.canonical && pieces != []
    modifies t
    ensures var r := Feed(old(t.State()), [], pieces);
            && t.State() == r.after && t.input == r.left && t.events == old(t.events) + r.events && thrown == r.thrown
            && (r == Run(old(t.State()), Concat(pieces)) <==>
                !Short(old(t.State()), Concat(pieces[..|pieces| - 1])))
  {
    hide Run, Feed, Telnet.Prepended, Short;
    ghost var d, all := t.State(), Feed(t.State(), [], pieces);
    ghost var done := [];
    AnyFragmentation(d, pieces);
    FedNothing(all);
    assert pieces[0..] == pieces;
    thrown := false;
    for i := 0 to |pieces|
      invariant t.canonical && t.events == old(t.events) + done
      invariant all == Fed(done, thrown, Feed(t.State(), t.input, pieces[i..]))
    {
      ghost var before, was := t.State(), thrown;
      ghost var r := Run(before, t.input + pieces[i]);
      FeedUnfold(before, t.input, pieces[i..]);
      assert pieces[i..][0] == pieces[i] && pieces[i..][1..] == pieces[i + 1..];
      var now := t.Receive(pieces[i]);
      thrown := thrown || now;
      FedMore(done, was, r.events, now, Feed(t.State(), t.input, pieces[i + 1..]));
      done := done + r.events;
    }
    assert pieces[|pieces|..] == [];
    FeedUnfold(t.State(), t.input, []);
    FedEnd(done, thrown, t.State(), t.input);
  }

  /** Calls that are over, and those to come. */
  function Fed(done: seq<Event>, thrown: bool, r: Decoded): Decoded
  {
    Decoded(r.after, r.left, done + r.events, thrown || r.thrown)
  }

  lemma FedNothing(r: Decoded)
    ensures Fed([], false, r) == r
  {
  }

  lemma FedMore(done: seq<Event>, was: bool, sent: seq<Event>, now: bool, r: Decoded)
    ensures Fed(done, was, Fed(sent, now, r)) == Fed(done + sent, was || now, r)
  {
  }

  lemma FedEnd(done: seq<Event>, thrown: bool, d: Decoder, left: seq<byte>)
    ensures Fed(done, thrown, Decoded(d, left, [], false)) == Decoded(d, left, done, thrown)
  {
  }

  lemma FeedUnfold(d: Decoder, left: seq<byte>, pieces: seq<seq<byte>>)
    ensures Feed(d, left, pieces) ==
            if pieces == [] then Decoded(d, left, [], false)
            else
              var r := Run(d, left + pieces[0]);
              Fed(r.events, r.thrown, Feed(r.after, r.left, pieces[1..]))
  {
    hide Run;
  }
}
