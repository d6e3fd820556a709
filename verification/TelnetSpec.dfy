/** What a Telnet decoder makes of its input, one command or character at a time. */
module TelnetSpec {
  import opened Bytes
  import opened Wrappers

  const NUL: byte := 0x00
  const BS: byte := 0x08
  const LF: byte := 0x0a
  const CR: byte := 0x0d
  const DEL: byte := 0x7f
  const SE: byte := 0xf0
  const SB: byte := 0xfa
  const WILL: byte := 0xfb
  const WONT: byte := 0xfc
  const DO: byte := 0xfd
  const DONT: byte := 0xfe
  const IAC: byte := 0xff

  const OPT_ECHO: byte := 0x01
  const OPT_NAWS: byte := 0x1f

  /** What is sent or handed on: bytes to the other side, a line, a subnegotiation, data outside of lines. */
  datatype Event =
    | Reply(bytes: seq<byte>)
    | Line(text: seq<byte>)
    | WindowSize(width: nat, height: nat)
    | SubOption(option: byte, payload: seq<byte>)
    | Data(text: seq<byte>)

  datatype Flags = Flags(localCant: bool, localIs: bool, remoteCant: bool, remoteIs: bool)

  /** The decoder: the options it knows, the line begun, the subnegotiation begun and its option. */
  datatype Decoder = Decoder(options: map<byte, Flags>, data: seq<byte>, sub: seq<byte>, subOption: byte, inSub: bool,
                             canonical: bool, echo: bool)

  /** What one step does: it waits for more input; or it changes the decoder, sends something and takes some bytes;
      or it throws, leaving the decoder as it is by then and the input unread. */
  datatype Step =
    | Wait
    | Step(after: Decoder, events: seq<Event>, taken: nat)
    | Throw(after: Decoder)

  /** A decoder as it is made. */
  function Fresh(): Decoder
  {
    var none := Flags(false, false, false, false);
    Decoder(map[0x00 := none, OPT_ECHO := none, OPT_NAWS := none, 0x03 := none], [], [], 0, false, true, true)
  }

  // ---- Negotiation ----

  function Negotiate(d: Decoder, command: byte, option: byte): (Decoder, seq<Event>)
  {
    if option !in d.options then
      (d, [Reply([IAC, if command == WILL || command == WONT || command == DONT then DONT else WONT, option])])
    else
      var f := d.options[option];
      if command == WILL then
        if f.remoteCant then (d, [Reply([IAC, DONT, option])])
        else (d.(options := d.options[option := f.(remoteIs := true)]), [Reply([IAC, DO, option])])
      else if command == WONT then
        (d.(options := d.options[option := f.(remoteIs := false)]), [Reply([IAC, DONT, option])])
      else if command == DO then
        if f.localCant then (d, [Reply([IAC, WONT, option])])
        else (d.(options := d.options[option := f.(localIs := true)]), [Reply([IAC, WILL, option])])
      else
        (d.(options := d.options[option := f.(localIs := false)]), [Reply([IAC, DONT, option])])
  }

  /** The answers of RFC 854: a refusal or acceptance that says what holds from now on. */
  function Answer(d: Decoder, command: byte, option: byte): byte
  {
    var known := option in d.options;
    if command == 251 then if known && d.options[option].remoteIs then 253 else 254
    else if command == 252 then 254
    else if command == 253 then if known && d.options[option].localIs then 251 else 252
    else 252
  }

  /** Options that cannot be enabled are not. */
  predicate Consistent(d: Decoder)
  {
    forall o :: o in d.options ==>
                  && (d.options[o].localCant ==> !d.options[o].localIs)
                  && (d.options[o].remoteCant ==> !d.options[o].remoteIs)
  }

  /** Every command is answered as RFC 854 has it, but for the demand to stop, which is sent back as it came. */
  lemma AnswersAllButDont(d: Decoder, command: byte, option: byte)
    requires command in {251, 252, 253, 254} && Consistent(d)
    ensures var r := Negotiate(d, command, option);
            && Consistent(r.0)
            && (r.1 == [Reply([255, Answer(r.0, command, option), option])] <==> command != 254)
            && (command == 254 ==> r.1 == [Reply([255, 254, option])])
  {
    var r := Negotiate(d, command, option);
    assert r.1 == [Reply([IAC, Answer(r.0, command, option), option])] <==>
           r.1[0].bytes[1] == Answer(r.0, command, option);
  }

  /** What a command does to the option it is about, by the numbers of RFC 854: WILL (251) and DO (253) set the flag
      of their side unless that side cannot have it, WONT (252) and DONT (254) clear it. All else stays. */
  lemma NegotiatedFlags(d: Decoder, command: byte, option: byte)
    requires command in {251, 252, 253, 254}
    ensures var r := Negotiate(d, command, option).0;
            && r == d.(options := r.options) && r.options.Keys == d.options.Keys
            && (forall o :: o in d.options && o != option ==> r.options[o] == d.options[o])
            && (option in d.options ==>
                  var f, g := d.options[option], r.options[option];
                  && g.localCant == f.localCant && g.remoteCant == f.remoteCant
                  && g.remoteIs == (command != 252 && (f.remoteIs || (command == 251 && !f.remoteCant)))
                  && g.localIs == (command != 254 && (f.localIs || (command == 253 && !f.localCant))))
  {
  }

  /** The window size cannot be taken from less than four bytes: the string throws at the index. */
  predicate TooShort(option: byte, sub: seq<byte>)
  {
    option == OPT_NAWS && |sub| < 4
  }

  /** The event at the end of a subnegotiation. */
  function SubDone(option: byte, sub: seq<byte>): Event
    requires !TooShort(option, sub)
  {
    if option != OPT_NAWS then SubOption(option, sub)
    else WindowSize(256 * (sub[0] as nat) + sub[1] as nat, 256 * (sub[2] as nat) + sub[3] as nat)
  }

  function Echoed(d: Decoder, c: byte): seq<Event>
  {
    if OPT_ECHO in d.options && d.options[OPT_ECHO].localIs && d.echo then [Reply([c])] else []
  }

  // ---- One step ----

  /** The end mark of a subnegotiation comes next. */
  predicate EndsSub(input: seq<byte>)
  {
    |input| >= 2 && input[0] == IAC && input[1] == SE
  }

  /** Inside of a subnegotiation. */
  function SubStep(d: Decoder, input: seq<byte>): Step
    requires input != []
  {
    var c := input[0];
    if c != IAC then Step(d.(sub := d.sub + [c]), [], 1)
    else if |input| < 2 then Wait
    else if input[1] == SE then
      if TooShort(d.subOption, d.sub) then Throw(d.(inSub := false))
      else Step(d.(inSub := false, sub := []), [SubDone(d.subOption, d.sub)], 2)
    else if input[1] == IAC then Step(d.(sub := d.sub + [IAC]), [], 2)
    else Step(d, [], 2)
  }

  function CommandStep(d: Decoder, input: seq<byte>): Step
    requires input != [] && input[0] == IAC
  {
    if |input| < 2 then Wait
    else
      var c := input[1];
      if c == WILL || c == WONT || c == DO || c == DONT then
        if |input| < 3 then Wait
        else
          var r := Negotiate(d, c, input[2]);
          Step(r.0, r.1, 3)
      else if c == SB then
        if |input| < 3 then Wait
        else Step(d.(subOption := input[2], inSub := true), [], 3)
      else if c == IAC then Step(d.(data := d.data + [IAC]), [], 2)
      else Step(d, [], 2)
  }

  /** In a line: control characters, and the characters between space and tilde. */
  function LineStep(d: Decoder, input: seq<byte>): Step
    requires input != []
  {
    var c := input[0];
    if c == CR then
      if |input| < 2 then Wait
      else if input[1] == NUL || input[1] == LF then Step(d.(data := []), [Line(d.data)], 2)
      else Step(d, [], 2)
    else if c == DEL && d.data != [] then
      Step(d.(data := d.data[..|d.data| - 1]), [Reply([BS, 0x20, BS])], 1)
    else if 0x20 <= c < DEL then Step(d.(data := d.data + [c]), Echoed(d, c), 1)
    else Step(d, [], 1)
  }

  /** The next command or character. */
  function Next(d: Decoder, input: seq<byte>): (r: Step)
    requires input != []
    ensures r.Step? ==> 0 < r.taken <= |input| && r.after.canonical == d.canonical
    ensures r.Throw? ==> !r.after.inSub && r.after.canonical == d.canonical && EndsSub(input)
  {
    if d.inSub then SubStep(d, input)
    else if input[0] == IAC then CommandStep(d, input)
    else if input[0] == SB then Step(d, [], 1)
    else if d.canonical then LineStep(d, input)
    else Step(d.(data := d.data + [input[0]]), Echoed(d, input[0]), 1)
  }

  /** What is neither a command with an option, nor part of a line, nor in a subnegotiation: 255 twice is that byte as
      data; other commands, a stray 250, control characters and a carriage return before anything but NUL and line
      feed are dropped; without lines every other byte is data. */
  lemma OtherInput(d: Decoder, c: byte, x: byte, more: seq<byte>)
    requires !d.inSub
    ensures Next(d, [255, 255] + more) == Step(d.(data := d.data + [255]), [], 2)
    ensures x !in {250, 251, 252, 253, 254, 255} ==> Next(d, [255, x] + more) == Step(d, [], 2)
    ensures Next(d, [250] + more) == Step(d, [], 1)
    ensures d.canonical && x !in {0, 10} ==> Next(d, [13, x] + more) == Step(d, [], 2)
    ensures d.canonical && (c < 32 || c > 127) && c !in {13, 255} ==> Next(d, [c] + more) == Step(d, [], 1)
    ensures !d.canonical && c !in {250, 255} ==>
              Next(d, [c] + more) == Step(d.(data := d.data + [c]), Echoed(d, c), 1)
  {
  }

  /** Characters are echoed while the echo option (1) is on at this side and echo was not switched off. A new decoder
      has four options that are all off, and reads lines. */
  lemma EchoIsOption(d: Decoder, c: byte)
    ensures Echoed(d, c) == if 1 in d.options && d.options[1].localIs && d.echo then [Reply([c])] else []
    ensures Fresh().options.Keys == {0, 1, 3, 31} && Fresh().canonical && Fresh().echo && !Fresh().inSub
    ensures forall o :: o in Fresh().options ==> Fresh().options[o] == Flags(false, false, false, false)
  {
  }

  /** One call: the decoder afterwards, what is left of the input, all events, and whether it threw. */
  datatype Decoded = Decoded(after: Decoder, left: seq<byte>, events: seq<Event>, thrown: bool)

  function Run(d: Decoder, input: seq<byte>): (r: Decoded)
    ensures |r.left| <= |input| && r.after.canonical == d.canonical
    ensures r.thrown ==> !r.after.inSub && EndsSub(r.left)
    decreases |input|
  {
    if input == [] then Decoded(d, [], [], false)
    else
      match Next(d, input)
      case Wait => Decoded(d, input, [], false)
      case Throw(after) => Decoded(after, input, [], true)
      case Step(after, events, taken) =>
        var r := Run(after, input[taken..]);
        Decoded(r.after, r.left, events + r.events, r.thrown)
  }

  // ---- When a call throws ----

  /** The number of bytes of the next command or character, without what they mean; 0 while it is not complete. */
  function Length(canonical: bool, inSub: bool, input: seq<byte>): (n: nat)
    requires input != []
    ensures n <= |input|
  {
    var n := if input[0] == IAC then
               if !inSub && |input| >= 2 && input[1] in {WILL, WONT, DO, DONT, SB} then 3 else 2
             else if input[0] == CR && canonical && !inSub then 2 else 1;
    if n <= |input| then n else 0
  }

  /** A subnegotiation of the window size ends with less than four bytes. */
  predicate ShortWindow(canonical: bool, inSub: bool, option: byte, sub: seq<byte>, input: seq<byte>)
    decreases |input|
  {
    input != [] &&
    var n := Length(canonical, inSub, input);
    var rest := input[n..];
    n > 0 &&
    if !inSub then
      if input[0] == IAC && input[1] == SB then ShortWindow(canonical, true, input[2], sub, rest)
      else ShortWindow(canonical, false, option, sub, rest)
    else if input[0] != IAC || input[1] == IAC then ShortWindow(canonical, true, option, sub + [input[0]], rest)
    else if input[1] != SE then ShortWindow(canonical, true, option, sub, rest)
    else TooShort(option, sub) || ShortWindow(canonical, false, option, [], rest)
  }

  predicate Short(d: Decoder, input: seq<byte>)
  {
    ShortWindow(d.canonical, d.inSub, d.subOption, d.sub, input)
  }

  lemma LengthTaken(d: Decoder, input: seq<byte>)
    requires input != []
    ensures var n, step := Length(d.canonical, d.inSub, input), Next(d, input);
            && (step.Wait? <==> n == 0)
            && (step.Step? ==> step.taken == n)
            && (step.Throw? ==> n == 2)
  {
  }

  lemma ShortStep(d: Decoder, input: seq<byte>)
    requires input != []
    ensures Short(d, input) <==>
            var s := Next(d, input);
            s.Throw? || (s.Step? && Short(s.after, input[s.taken..]))
  {
    LengthTaken(d, input);
  }

  /** A call throws exactly when a window size it comes to is too short. */
  lemma {:induction false} ThrowsExactly(d: Decoder, input: seq<byte>)
    ensures Run(d, input).thrown <==> Short(d, input)
    decreases |input|
  {
    if input != [] {
      hide Next, ShortWindow, Short;
      ShortStep(d, input);
      if Next(d, input).Step? {
        ThrowsExactly(Next(d, input).after, input[Next(d, input).taken..]);
      }
    } else {
      assert !Short(d, input);
    }
  }

  // ---- Fragmentation ----

  /** A step does not depend on what comes after the bytes it takes. */
  lemma StepStays(d: Decoder, input: seq<byte>, more: seq<byte>)
    requires input != [] && !Next(d, input).Wait?
    ensures Next(d, input + more) == Next(d, input)
  {
    var t := input + more;
    assert t[0] == input[0];
    if |input| >= 2 { assert t[1] == input[1]; }
    if |input| >= 3 { assert t[2] == input[2]; }
  }

  /** What a call does and then another one, on what was left and came in. */
  function Then(r: Decoded, more: seq<byte>): Decoded
  {
    var s := Run(r.after, r.left + more);
    Decoded(s.after, s.left, r.events + s.events, r.thrown || s.thrown)
  }

  /** Decoding what there is and then the rest is decoding all at once, unless it throws: then the rest is not
      looked at. */
  lemma {:induction false} RunInPieces(d: Decoder, input: seq<byte>, more: seq<byte>)
    ensures var r := Run(d, input);
            Run(d, input + more) == if r.thrown then r.(left := r.left + more) else Then(r, more)
    decreases |input|
  {
    hide Run, Next;
    RunUnfolds(d, input);
    RunUnfolds(d, input + more);
    if input == [] || Next(d, input).Wait? {
      assert input == [] ==> input + more == more && [] + more == more;
      var s := Run(d, input + more);
      assert [] + s.events == s.events;
    } else {
      StepStays(d, input, more);
      if Next(d, input).Step? {
        var step := Next(d, input);
        assert (input + more)[step.taken..] == input[step.taken..] + more;
        RunInPieces(step.after, input[step.taken..], more);
        var q := Run(step.after, input[step.taken..]);
        Regroup(step.events, q.events, Run(q.after, q.left + more).events);
      }
    }
  }

  lemma RunUnfolds(d: Decoder, input: seq<byte>)
    ensures input == [] || Next(d, input).Wait? ==> Run(d, input) == Decoded(d, input, [], false)
    ensures input != [] && Next(d, input).Throw? ==> Run(d, input) == Decoded(Next(d, input).after, input, [], true)
    ensures input != [] && Next(d, input).Step? ==>
              var s := Next(d, input);
              var r := Run(s.after, input[s.taken..]);
              Run(d, input) == Decoded(r.after, r.left, s.events + r.events, r.thrown)
  {
    hide Next;
  }

  /** Feeding the pieces one after the other, each in a call of its own. */
  function Feed(d: Decoder, left: seq<byte>, pieces: seq<seq<byte>>): (r: Decoded)
    decreases |pieces|
  {
    if pieces == [] then Decoded(d, left, [], false)
    else
      var r := Run(d, left + pieces[0]);
      var s := Feed(r.after, r.left, pieces[1..]);
      Decoded(s.after, s.left, r.events + s.events, r.thrown || s.thrown)
  }

  /** However the input is cut up, exactly as long as no call but the last throws: the same lines, replies, option
      flags and subnegotiations, in the same order. */
  lemma AnyFragmentation(d: Decoder, pieces: seq<seq<byte>>)
    requires pieces != []
    ensures Feed(d, [], pieces) == Run(d, Concat(pieces)) <==>
            !Short(d, Concat(pieces[..|pieces| - 1]))
  {
    var init := pieces[..|pieces| - 1];
    FeedIsRun(d, [], pieces);
    assert [] + Concat(pieces) == Concat(pieces) && [] + Concat(init) == Concat(init);
    ThrowsExactly(d, Concat(init));
  }

  /** The input can be cut up at will exactly when it holds no window size that is too short. */
  lemma AllFragmentations(d: Decoder, input: seq<byte>)
    ensures (forall pieces :: pieces != [] && Concat(pieces) == input ==> Feed(d, [], pieces) == Run(d, input))
       <==> !Short(d, input)
  {
    ThrowsExactly(d, input);
    if Run(d, input).thrown {
      var pieces := [input, []];
      assert pieces[1..] == [[]] && pieces[..1] == [input];
      assert Concat([[]]) == [] && Concat(pieces) == input && Concat([input]) == input;
      AnyFragmentation(d, pieces);
    } else {
      forall pieces: seq<seq<byte>> | pieces != [] && Concat(pieces) == input
        ensures Feed(d, [], pieces) == Run(d, input)
      {
        var k := |pieces| - 1;
        assert pieces[..k] + pieces[k..] == pieces && pieces[k..][1..] == [];
        ConcatApart(pieces[..k], pieces[k..]);
        RunInPieces(d, Concat(pieces[..k]), Concat(pieces[k..]));
        ThrowsExactly(d, Concat(pieces[..k]));
        AnyFragmentation(d, pieces);
      }
    }
  }

  lemma {:induction false} FeedIsRun(d: Decoder, left: seq<byte>, pieces: seq<seq<byte>>)
    requires pieces != []
    ensures Feed(d, left, pieces) == Run(d, left + Concat(pieces)) <==>
            !Run(d, left + Concat(pieces[..|pieces| - 1])).thrown || |pieces| == 1
    decreases |pieces|
  {
    hide Run, Next;
    var r := Run(d, left + pieces[0]);
    var rest := pieces[1..];
    assert left + Concat(pieces) == left + pieces[0] + Concat(rest);
    if rest == [] {
      assert r.events + [] == r.events && left + Concat(pieces) == left + pieces[0];
    } else {
      var k := |rest| - 1;
      assert pieces[..|pieces| - 1][1..] == rest[..k] && pieces[..|pieces| - 1][0] == pieces[0];
      assert left + Concat(pieces[..|pieces| - 1]) == left + pieces[0] + Concat(rest[..k]);
      RunInPieces(d, left + pieces[0], Concat(rest));
      RunInPieces(d, left + pieces[0], Concat(rest[..k]));
      if r.thrown {
        FeedGoesOn(r.after, r.left, rest);
      } else {
        if k == 0 {
          assert left + pieces[0] + [] == left + pieces[0];
        }
        FeedIsRun(r.after, r.left, rest);
        Same(r.events, Feed(r.after, r.left, rest).events, Run(r.after, r.left + Concat(rest)).events);
      }
    }
  }

  lemma Same(a: seq<Event>, b: seq<Event>, c: seq<Event>)
    ensures a + b == a + c <==> b == c
  {
    if a + b == a + c {
      assert b == (a + b)[|a|..] == (a + c)[|a|..] == c;
    }
  }

  lemma {:induction false} FeedIsShorter(d: Decoder, left: seq<byte>, pieces: seq<seq<byte>>)
    ensures |Feed(d, left, pieces).left| <= |left| + |Concat(pieces)|
    decreases |pieces|
  {
    hide Run, Next;
    if pieces != [] {
      var r := Run(d, left + pieces[0]);
      FeedIsShorter(r.after, r.left, pieces[1..]);
    }
  }

  /** The call after one that threw takes the end mark it left. */
  lemma FeedGoesOn(d: Decoder, left: seq<byte>, pieces: seq<seq<byte>>)
    requires pieces != [] && !d.inSub && EndsSub(left)
    ensures |Feed(d, left, pieces).left| < |left| + |Concat(pieces)|
  {
    var input := left + pieces[0];
    assert Next(d, input) == Step(d, [], 2);
    var r := Run(d, input);
    assert |r.left| <= |input| - 2;
    FeedIsShorter(r.after, r.left, pieces[1..]);
  }

  // ---- Subnegotiations and lines ----

  /** A payload as it is sent: every 255 doubled. */
  function Doubled(p: seq<byte>): seq<byte>
  {
    if p == [] then []
    else (if p[0] == 255 then [255, 255] else [p[0]]) + Doubled(p[1..])
  }

  lemma SubByte(d: Decoder, c: byte, rest: seq<byte>)
    requires d.inSub
    ensures var first := if c == IAC then [IAC, IAC] else [c];
            && Next(d, first + rest) == Step(d.(sub := d.sub + [c]), [], |first|)
            && (first + rest)[|first|..] == rest
  {
  }

  /** A step without events. */
  lemma QuietStep(d: Decoder, input: seq<byte>, e: Decoder, k: nat)
    requires 0 < k <= |input| && Next(d, input) == Step(e, [], k)
    ensures Run(d, input) == Run(e, input[k..])
  {
    hide Next;
    assert [] + Run(e, input[k..]).events == Run(e, input[k..]).events;
  }

  lemma {:induction false} PayloadRead(d: Decoder, p: seq<byte>, more: seq<byte>)
    requires d.inSub
    ensures Run(d, Doubled(p) + more) == Run(d.(sub := d.sub + p), more)
    decreases |p|
  {
    hide Run, Next;
    if p == [] {
      assert Doubled(p) + more == more && d.sub + p == d.sub;
    } else {
      var first := if p[0] == IAC then [IAC, IAC] else [p[0]];
      var rest := Doubled(p[1..]) + more;
      assert Doubled(p) + more == first + rest;
      var e := d.(sub := d.sub + [p[0]]);
      SubByte(d, p[0], rest);
      QuietStep(d, first + rest, e, |first|);
      PayloadRead(e, p[1..], more);
      SubMore(d, p);
    }
  }

  lemma SubMore(d: Decoder, p: seq<byte>)
    requires p != []
    ensures var e := d.(sub := d.sub + [p[0]]); e.(sub := e.sub + p[1..]) == d.(sub := d.sub + p)
  {
    assert d.sub + [p[0]] + p[1..] == d.sub + p;
  }

  /** A payload sent with every 255 doubled is delivered unchanged, and decoding goes on behind it as before. One that
      is too short for its option throws, with the end mark unread and the payload kept. */
  lemma SubnegotiationDelivered(d: Decoder, option: byte, p: seq<byte>, more: seq<byte>)
    requires !d.inSub
    ensures var s := d.sub + p;
            var r := Run(d.(subOption := option, sub := []), more);
            Run(d, [255, 250, option] + (Doubled(p) + ([255, 240] + more))) ==
            if option == 31 && |s| < 4 then Decoded(d.(subOption := option, sub := s), [255, 240] + more, [], true)
            else Decoded(r.after, r.left, [SubDone(option, s)] + r.events, r.thrown)
    ensures var s := d.sub + p;
            && (option != 31 ==> SubDone(option, s) == SubOption(option, s))
            && (option == 31 && |s| >= 4 ==>
                  SubDone(option, s)
                  == WindowSize(256 * (s[0] as nat) + s[1] as nat, 256 * (s[2] as nat) + s[3] as nat))
  {
    var tail := [IAC, SE] + more;
    var body := Doubled(p) + tail;
    var input := [IAC, SB, option] + body;
    var e := d.(subOption := option, inSub := true);
    assert Next(d, input) == Step(e, [], 3) && input[3..] == body;
    QuietStep(d, input, e, 3);
    PayloadRead(e, p, tail);
    SubEnd(e.(sub := d.sub + p), more);
  }

  lemma SubEnd(d: Decoder, more: seq<byte>)
    requires d.inSub
    ensures var r := Run(d.(inSub := false, sub := []), more);
            Run(d, [IAC, SE] + more) ==
            if TooShort(d.subOption, d.sub) then Decoded(d.(inSub := false), [IAC, SE] + more, [], true)
            else Decoded(r.after, r.left, [SubDone(d.subOption, d.sub)] + r.events, r.thrown)
  {
    var input := [IAC, SE] + more;
    assert input[2..] == more;
  }

  /** The end mark that a call left behind is dropped by the next one, and the payload stays. */
  lemma AfterThrow(d: Decoder, more: seq<byte>)
    requires !d.inSub
    ensures Run(d, [IAC, SE] + more) == Run(d, more)
  {
    var input := [IAC, SE] + more;
    assert Next(d, input) == Step(d, [], 2) && input[2..] == more;
    QuietStep(d, input, d, 2);
  }

  /** A window size of one byte and a line: one call throws and hands on nothing. In two pieces the second call hands
      the line on. */
  lemma ShortWindowLosesALine()
    ensures var cut, line := [IAC, SB, OPT_NAWS, 7, IAC, SE], [0x61, CR, LF];
            var d := Fresh().(subOption := OPT_NAWS, sub := [7]);
            && Run(Fresh(), cut + line) == Decoded(d, [IAC, SE] + line, [], true)
            && Feed(Fresh(), [], [cut, line]) == Decoded(d, [], [Line([0x61])], true)
  {
    hide Run, Next;
    var cut, line := [IAC, SB, OPT_NAWS, 7, IAC, SE], [0x61, CR, LF];
    var d := Fresh().(subOption := OPT_NAWS, sub := [7]);
    CutThrows(line);
    CutThrows([]);
    assert cut + [] == cut && [] + cut == cut && [IAC, SE] + [] == [IAC, SE];
    AfterThrow(d, line);
    OneLetter(d);
    var pieces := [cut, line];
    assert pieces[1..] == [line] && pieces[1..][1..] == [];
    assert Feed(d, [IAC, SE], [line]) == Decoded(d, [], [Line([0x61])], false);
  }

  lemma CutThrows(more: seq<byte>)
    ensures Run(Fresh(), [IAC, SB, OPT_NAWS, 7, IAC, SE] + more) ==
            Decoded(Fresh().(subOption := OPT_NAWS, sub := [7]), [IAC, SE] + more, [], true)
  {
    hide Run, Next;
    var p: seq<byte> := [7];
    assert p[1..] == [] && Doubled(p) == p && Fresh().sub + p == p;
    assert [IAC, SB, OPT_NAWS, 7, IAC, SE] + more == [IAC, SB, OPT_NAWS] + (p + ([IAC, SE] + more));
    SubnegotiationDelivered(Fresh(), OPT_NAWS, p, more);
  }

  lemma OneLetter(d: Decoder)
    requires !d.inSub && d.canonical && d.data == [] && Echoed(d, 0x61) == []
    ensures Run(d, [0x61, CR, LF]) == Decoded(d, [], [Line([0x61])], false)
  {
    hide Next, Echoed;
    var text: seq<byte> := [0x61];
    LineDelivered(d, text, LF, []);
    assert [0x61, CR, LF] == text + ([CR, LF] + []) && d.data + text == text && text[1..] == [];
    assert d.(data := []) == d && Echoes(d, text) == [];
  }

  /** What is sent back of the characters of a line. */
  function Echoes(d: Decoder, text: seq<byte>): seq<Event>
  {
    if text == [] then [] else Echoed(d, text[0]) + Echoes(d, text[1..])
  }

  /** A line of characters between space and tilde is handed on as it is at its end, behind its echo. */
  lemma {:induction false} LineDelivered(d: Decoder, text: seq<byte>, end: byte, more: seq<byte>)
    requires !d.inSub && d.canonical && (end == 0 || end == 10)
    requires forall i :: 0 <= i < |text| ==> 32 <= text[i] <= 126
    ensures var r := Run(d.(data := []), more);
            Run(d, text + ([13, end] + more)) ==
            Decoded(r.after, r.left, Echoes(d, text) + ([Line(d.data + text)] + r.events), r.thrown)
    decreases |text|
  {
    hide Run, Next, Echoed;
    var tail := [CR, end] + more;
    if text == [] {
      LineEnd(d, end, more);
      var events := [Line(d.data)] + Run(d.(data := []), more).events;
      assert text + tail == tail && d.data + text == d.data && [] + events == events;
    } else {
      var e, rest := d.(data := d.data + [text[0]]), text[1..];
      LineByte(d, text, tail);
      LineDelivered(e, rest, end, more);
      assert d.data + [text[0]] + rest == d.data + text;
      SameEchoes(d, e, rest);
      Regroup(Echoed(d, text[0]), Echoes(d, rest), [Line(d.data + text)] + Run(d.(data := []), more).events);
    }
  }

  /** A character and the delete key behind it leave the line as it was; on the other side the character is echoed
      and wiped out. In an empty line the key does nothing. */
  lemma DeletedCharacter(d: Decoder, c: byte, more: seq<byte>)
    requires !d.inSub && d.canonical
    ensures 32 <= c <= 126 ==>
              var r := Run(d, more);
              Run(d, [c, 127] + more) ==
              Decoded(r.after, r.left, Echoed(d, c) + ([Reply([8, 32, 8])] + r.events), r.thrown)
    ensures d.data == [] ==> Run(d, [127] + more) == Run(d, more)
  {
    if 32 <= c <= 126 {
      var e := d.(data := d.data + [c]);
      var input, tail := [c, 127] + more, [127] + more;
      assert input[1..] == tail && tail[1..] == more;
      assert e.(data := e.data[..|e.data| - 1]) == d;
      assert Next(d, input) == Step(e, Echoed(d, c), 1);
      assert Next(e, tail) == Step(d, [Reply([8, 32, 8])], 1);
      hide Next;
      assert Run(e, tail) == Decoded(Run(d, more).after, Run(d, more).left,
                                     [Reply([8, 32, 8])] + Run(d, more).events, Run(d, more).thrown);
    }
    if d.data == [] {
      assert ([127] + more)[1..] == more && Next(d, [127] + more) == Step(d, [], 1);
      QuietStep(d, [127] + more, d, 1);
    }
  }

  lemma LineEnd(d: Decoder, end: byte, more: seq<byte>)
    requires !d.inSub && d.canonical && (end == NUL || end == LF)
    ensures var r := Run(d.(data := []), more);
            Run(d, [CR, end] + more) == Decoded(r.after, r.left, [Line(d.data)] + r.events, r.thrown)
  {
    var tail := [CR, end] + more;
    assert Next(d, tail) == Step(d.(data := []), [Line(d.data)], 2) && tail[2..] == more;
  }

  lemma LineByte(d: Decoder, text: seq<byte>, tail: seq<byte>)
    requires !d.inSub && d.canonical && text != [] && 0x20 <= text[0] < DEL
    ensures var r := Run(d.(data := d.data + [text[0]]), text[1..] + tail);
            Run(d, text + tail) == Decoded(r.after, r.left, Echoed(d, text[0]) + r.events, r.thrown)
  {
    var input := text + tail;
    assert Next(d, input) == Step(d.(data := d.data + [text[0]]), Echoed(d, text[0]), 1);
    assert input[1..] == text[1..] + tail;
  }

  lemma Regroup(a: seq<Event>, b: seq<Event>, c: seq<Event>)
    ensures a + (b + c) == a + b + c
  {
  }

  lemma {:induction false} SameEchoes(d: Decoder, e: Decoder, text: seq<byte>)
    requires d.options == e.options && d.echo == e.echo
    ensures Echoes(d, text) == Echoes(e, text)
  {
    if text != [] {
      SameEchoes(d, e, text[1..]);
    }
  }
}
