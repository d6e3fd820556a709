/** Printing integers and reading them back. */
module Formatter {
  import opened Bytes
  import opened Numbers
  import opened Wrappers

  const PLUS: byte := 0x2b
  const MINUS: byte := 0x2d
  const ZERO: byte := 0x30
  const SPACE: byte := 0x20

  datatype Align = Left | Right | Center

  datatype Fmt = Fmt(minWidth: nat, fill: byte, radix: nat, align: Align, plus: bool, caps: bool, tokenize: bool)

  const DEFAULT := Fmt(0, SPACE, 10, Right, false, false, true)

  // ---- Digits ----

  function Power(r: nat, k: nat): nat
  {
    if k == 0 then 1 else r * Power(r, k - 1)
  }

  /** The character for a digit. The remainder of a negative number is negative, which only the minimum of a signed
      type still is once its sign was taken off. */
  function DigitChar(c: nat, caps: bool, negative: bool): byte
    requires c < 36
  {
    if negative then ZERO - c as byte
    else if c < 10 then ZERO + c as byte else (if caps then 0x41 else 0x61) + (c - 10) as byte
  }

  lemma LessAfterDivision(m: nat, r: nat)
    requires r >= 2
    ensures m > 0 ==> m / r < m
    ensures m < r <==> m / r == 0
    ensures m < r ==> m % r == m
  {
  }

  /** The digits of `n`, the most significant first. */
  function Figures(n: nat, r: nat, caps: bool, negative: bool): (s: seq<byte>)
    requires 2 <= r <= 36
    ensures s != []
    decreases n
  {
    if n < r then [DigitChar(n, caps, negative)]
    else
      LessAfterDivision(n, r);
      Figures(n / r, r, caps, negative) + [DigitChar(n % r, caps, negative)]
  }

  function Digits(n: nat, r: nat, caps: bool): seq<byte>
    requires 2 <= r <= 36
  {
    Figures(n, r, caps, false)
  }

  predicate IsDigit(c: byte) { 0x30 <= c <= 0x39 }

  /** What a character adds as a digit, whether it is one or not. */
  function DigitValue(c: byte): int { c as int - 0x30 }

  /** The value of a sequence of digits. */
  function Value(s: seq<byte>, r: nat): int
  {
    if s == [] then 0 else DigitValue(s[0]) * Power(r, |s| - 1) + Value(s[1..], r)
  }

  /** One more digit at the end. */
  lemma {:induction false} ValueMore(s: seq<byte>, c: byte, r: nat)
    ensures Value(s + [c], r) == r * Value(s, r) + DigitValue(c)
  {
    if s == [] {
      assert s + [c] == [c] && [c][1..] == [];
      assert Value([c], r) == DigitValue(c) * Power(r, 0) + Value([], r);
    } else {
      var t := s[1..];
      assert (s + [c])[1..] == t + [c];
      ValueMore(t, c, r);
      var d, p := DigitValue(s[0]), Power(r, |t|);
      assert Power(r, |t| + 1) == r * p;
      Shuffle(d, p, r, Value(t, r));
    }
  }

  lemma Shuffle(d: int, p: int, r: int, v: int)
    ensures d * (r * p) + r * v == r * (d * p + v)
  {
  }

  lemma {:induction false} DigitsValue(n: nat, r: nat, caps: bool)
    requires 2 <= r <= 10
    ensures Value(Digits(n, r, caps), r) == n
    ensures forall i :: 0 <= i < |Digits(n, r, caps)| ==> IsDigit(Digits(n, r, caps)[i])
    decreases n
  {
    hide Value, DigitChar;
    if n < r {
      OneDigit(n, r, caps);
    } else {
      DigitsValue(n / r, r, caps);
      ValueMore(Digits(n / r, r, caps), DigitChar(n % r, caps, false), r);
      DigitIs(n % r, caps);
      Euclid(n, r);
    }
  }

  lemma DigitIs(c: nat, caps: bool)
    requires c < 10
    ensures DigitValue(DigitChar(c, caps, false)) == c && IsDigit(DigitChar(c, caps, false))
  {
  }

  lemma OneDigit(n: nat, r: nat, caps: bool)
    requires n < 10
    ensures Value([DigitChar(n, caps, false)], r) == n && IsDigit(DigitChar(n, caps, false))
  {
    var s := [DigitChar(n, caps, false)];
    assert s[1..] == [];
    assert Power(r, 0) == 1 && Value([], r) == 0;
    assert Value(s, r) == DigitValue(s[0]) * Power(r, 0) + Value([], r);
  }

  lemma Euclid(n: nat, r: nat)
    requires r > 0
    ensures n == r * (n / r) + n % r
  {
  }

  // ---- Digits of any radix ----

  /** What a character stands for as a digit of a radix up to 36. */
  function Stands(c: byte): Option<nat>
  {
    if 48 <= c <= 57 then Some((c - 48) as nat)
    else if 65 <= c <= 90 then Some((c - 55) as nat)
    else if 97 <= c <= 122 then Some((c - 87) as nat)
    else None
  }

  /** What the characters stand for, the most significant first. */
  function Number(s: seq<byte>, r: nat): Option<nat>
  {
    if s == [] then Some(0)
    else
      var n, d := Number(s[..|s| - 1], r), Stands(s[|s| - 1]);
      if n.Some? && d.Some? && d.value < r then Some(r * n.value + d.value) else None
  }

  /** The digits of a number stand for it in every radix; letters among them are upper-case when that is asked for, and
      lower-case otherwise. No zero is put in front. */
  lemma {:induction false} DigitsStand(n: nat, r: nat, caps: bool)
    requires 2 <= r <= 36
    ensures Number(Digits(n, r, caps), r) == Some(n)
    ensures forall i :: 0 <= i < |Digits(n, r, caps)| ==>
              var c := Digits(n, r, caps)[i]; 48 <= c <= 57 || if caps then 65 <= c <= 90 else 97 <= c <= 122
    ensures n > 0 ==> Digits(n, r, caps)[0] != 48
    ensures n == 0 ==> Digits(n, r, caps) == [48]
    decreases n
  {
    hide Number, DigitChar, Stands;
    if n < r {
      FigureStands(n, r, caps);
      NumberMore([], DigitChar(n, caps, false), r);
      assert [] + [DigitChar(n, caps, false)] == [DigitChar(n, caps, false)];
    } else {
      LessAfterDivision(n, r);
      DigitsStand(n / r, r, caps);
      FigureStands(n % r, r, caps);
      NumberMore(Digits(n / r, r, caps), DigitChar(n % r, caps, false), r);
      Euclid(n, r);
    }
  }

  lemma FigureStands(c: nat, r: nat, caps: bool)
    requires c < r <= 36
    ensures var d := DigitChar(c, caps, false);
            && Stands(d) == Some(c) && (48 <= d <= 57 || if caps then 65 <= d <= 90 else 97 <= d <= 122)
            && (d == 48 <==> c == 0)
  {
  }

  lemma NumberMore(s: seq<byte>, c: byte, r: nat)
    ensures Number([], r) == Some(0)
    ensures Number(s, r).Some? && Stands(c).Some? && Stands(c).value < r ==>
              Number(s + [c], r) == Some(r * Number(s, r).value + Stands(c).value)
  {
    assert (s + [c])[..|s|] == s;
  }

  /** A number of `k` bits has at most `k` digits. */
  lemma {:induction false} DigitsFit(n: nat, r: nat, caps: bool, negative: bool, k: nat)
    requires 2 <= r <= 36 && k > 0 && n < Pow2(k)
    ensures |Figures(n, r, caps, negative)| <= k
    decreases k
  {
    if n >= r && k > 1 {
      Halves(n, r, Pow2(k - 1));
      DigitsFit(n / r, r, caps, negative, k - 1);
    }
  }

  lemma Halves(n: nat, r: nat, p: nat)
    requires r >= 2 && n < 2 * p
    ensures n / r < p
  {
    var q := n / r;
    assert n == r * q + n % r;
    assert r * q >= 2 * q;
  }

  // ---- Whole numbers as text ----

  /** Everything an integer of `bits` bits is printed as; the type's minimum has no negative. */
  function Text(i: int, f: Fmt): seq<byte>
    requires 2 <= f.radix <= 36
  {
    (if i < 0 then [MINUS] else if f.plus then [PLUS] else []) + Digits(if i < 0 then -i else i, f.radix, f.caps)
  }

  function Fill(c: byte, n: nat): (s: seq<byte>)
    ensures |s| == n
  {
    seq<byte>(n, _ => c)
  }

  /** The text in its place among fill characters. */
  function Aligned(s: seq<byte>, f: Fmt): seq<byte>
  {
    if |s| > f.minWidth then s
    else
      var rem := f.minWidth - |s|;
      match f.align
      case Right => Fill(f.fill, rem) + s
      case Center => Fill(f.fill, rem / 2) + s + Fill(f.fill, rem - rem / 2)
      case Left => s + Fill(f.fill, rem)
  }

  /** Where the text is: at the right end, at the left end, or in the middle with at most one fill character more
      behind it than in front. Nothing is cut off. */
  lemma AlignedPlace(s: seq<byte>, f: Fmt)
    ensures var a := Aligned(s, f);
            var before := if f.align.Left? then 0 else if f.align.Right? then |a| - |s| else (|a| - |s|) / 2;
            && |a| == (if |s| < f.minWidth then f.minWidth else |s|)
            && a[before..before + |s|] == s
            && forall i :: 0 <= i < |a| && !(before <= i < before + |s|) ==> a[i] == f.fill
  {
    var rem := if |s| < f.minWidth then f.minWidth - |s| else 0;
    var before := if f.align.Left? then 0 else if f.align.Right? then rem else rem / 2;
    assert Aligned(s, f) == Fill(f.fill, before) + s + Fill(f.fill, rem - before);
  }

  /** A minus sign is put in front of negative numbers, and a plus sign of others when that is asked for. */
  lemma SignInFront(i: int, f: Fmt)
    requires 2 <= f.radix <= 36
    ensures i < 0 ==> Text(i, f) == [45] + Digits(-i, f.radix, f.caps)
    ensures i >= 0 ==> Text(i, f) == (if f.plus then [43] else []) + Digits(i, f.radix, f.caps)
  {
  }

  function SkipWs(s: seq<byte>): seq<byte>
  {
    if s != [] && IsSpace(s[0]) then SkipWs(s[1..]) else s
  }

  /** The characters up to white space, and what is behind that. */
  function Word(s: seq<byte>): (seq<byte>, seq<byte>)
  {
    if s == [] then ([], [])
    else if IsSpace(s[0]) then ([], s[1..])
    else
      var w := Word(s[1..]);
      ([s[0]] + w.0, w.1)
  }

  /** The next token, or everything when the format does not ask for tokens. */
  function Token(s: seq<byte>, f: Fmt): (seq<byte>, seq<byte>)
  {
    if f.tokenize then Word(SkipWs(s)) else (s, [])
  }

  /** How far the digits of a token reach; its first character is taken for what it is. */
  function Extent(s: seq<byte>): (m: nat)
    requires s != []
    ensures 1 <= m <= |s|
  {
    1 + DigitRun(s[1..])
  }

  function DigitRun(s: seq<byte>): (m: nat)
    ensures m <= |s|
    ensures forall i :: 0 <= i < m ==> IsDigit(s[i])
    ensures m < |s| ==> !IsDigit(s[m])
  {
    if s == [] || !IsDigit(s[0]) then 0 else 1 + DigitRun(s[1..])
  }

  /** What a token is read as; `signed` types read a minus sign. */
  function Parsed(s: seq<byte>, r: nat, signed: bool): int
    requires s != []
  {
    var t := s[..Extent(s)];
    var v := if t[0] == PLUS || (signed && t[0] == MINUS) then Value(t[1..], r) else Value(t, r);
    if signed && s[0] == MINUS then -v else v
  }

  lemma {:induction false} RunOfDigits(s: seq<byte>)
    requires forall i :: 0 <= i < |s| ==> IsDigit(s[i])
    ensures DigitRun(s) == |s|
  {
    if s != [] {
      RunOfDigits(s[1..]);
    }
  }

  /** A token is read as the number its leading figures stand for, in any radix, with a sign in front of them or
      without one; what is behind the figures does not matter. */
  lemma LeadingFigures(d: seq<byte>, rest: seq<byte>, r: nat)
    requires d != [] && (forall i :: 0 <= i < |d| ==> 48 <= d[i] <= 57) && (rest == [] || !(48 <= rest[0] <= 57))
    ensures Parsed(d + rest, r, true) == Parsed(d + rest, r, false) == Value(d, r)
    ensures Parsed([43] + (d + rest), r, true) == Parsed([43] + (d + rest), r, false) == Value(d, r)
    ensures Parsed([45] + (d + rest), r, true) == -Value(d, r)
  {
    hide Value, Extent;
    FiguresExtent(d[..1], d[1..], rest);
    assert d[..1] + d[1..] == d;
    FiguresExtent([43], d, rest);
    FiguresExtent([45], d, rest);
  }

  lemma FiguresExtent(first: seq<byte>, d: seq<byte>, rest: seq<byte>)
    requires |first| == 1
    requires (forall i :: 0 <= i < |d| ==> 48 <= d[i] <= 57) && (rest == [] || !(48 <= rest[0] <= 57))
    ensures var s := first + (d + rest);
            && s == first + d + rest && s[0] == first[0] && Extent(s) == 1 + |d| && s[..Extent(s)] == first + d
            && (first + d)[1..] == d
  {
    FiguresEnd(d, rest);
    assert (first + (d + rest))[1..] == d + rest;
  }

  lemma {:induction false} FiguresEnd(d: seq<byte>, rest: seq<byte>)
    requires (forall i :: 0 <= i < |d| ==> 48 <= d[i] <= 57) && (rest == [] || !(48 <= rest[0] <= 57))
    ensures DigitRun(d + rest) == |d|
  {
    if d == [] {
      assert d + rest == rest;
    } else {
      assert (d + rest)[1..] == d[1..] + rest;
      FiguresEnd(d[1..], rest);
    }
  }

  /** What was printed in radix 2 to 10 is read as the number it was printed from. */
  lemma TextParsed(i: int, f: Fmt, signed: bool)
    requires 2 <= f.radix <= 10 && (i >= 0 || signed)
    ensures Text(i, f) != [] && Parsed(Text(i, f), f.radix, signed) == i
  {
    var n := if i < 0 then -i else i;
    var d := Digits(n, f.radix, f.caps);
    var s := Text(i, f);
    DigitsValue(n, f.radix, f.caps);
    if |s| > |d| {
      assert s[1..] == d;
      RunOfDigits(d);
      assert s[..Extent(s)] == s;
    } else {
      assert s == d;
      RunOfDigits(d[1..]);
      assert s[..Extent(s)] == s;
    }
  }

  lemma {:induction false} WordOfText(s: seq<byte>, rest: seq<byte>)
    requires forall i :: 0 <= i < |s| ==> !IsSpace(s[i])
    requires rest == [] || IsSpace(rest[0])
    ensures Word(s + rest).0 == s
  {
    if s == [] {
      assert s + rest == rest;
    } else {
      assert (s + rest)[1..] == s[1..] + rest;
      WordOfText(s[1..], rest);
    }
  }

  lemma {:induction false} SkipFill(n: nat, s: seq<byte>)
    requires s != [] && !IsSpace(s[0])
    ensures SkipWs(Fill(SPACE, n) + s) == s
  {
    if n == 0 {
      assert Fill(SPACE, 0) + s == s;
    } else {
      assert (Fill(SPACE, n) + s)[1..] == Fill(SPACE, n - 1) + s;
      SkipFill(n - 1, s);
    }
  }

  /** The token read back from an aligned text filled with spaces is the text. */
  lemma TokenOfAligned(s: seq<byte>, f: Fmt, g: Fmt)
    requires s != [] && (forall i :: 0 <= i < |s| ==> !IsSpace(s[i])) && f.fill == SPACE && g.tokenize
    ensures Token(Aligned(s, f), g).0 == s
  {
    var rem := if |s| > f.minWidth then 0 else f.minWidth - |s|;
    var before := if |s| > f.minWidth || f.align.Left? then 0 else if f.align.Right? then rem else rem / 2;
    var after := rem - before;
    var tail := s + Fill(SPACE, after);
    assert Aligned(s, f) == Fill(SPACE, before) + tail;
    SkipFill(before, tail);
    WordOfText(s, Fill(SPACE, after));
  }

  lemma TextIsSolid(i: int, f: Fmt)
    requires 2 <= f.radix <= 10
    ensures forall k :: 0 <= k < |Text(i, f)| ==> !IsSpace(Text(i, f)[k])
  {
    DigitsValue(if i < 0 then -i else i, f.radix, f.caps);
  }

  /** Printing an integer in radix 2 to 10 with any width, alignment, sign and space fill, and reading a token back
      in the same radix, gives the integer. */
  lemma PrintedIsRead(i: int, f: Fmt, g: Fmt, signed: bool)
    requires 2 <= f.radix <= 10 && f.fill == SPACE && g.radix == f.radix && g.tokenize && (i >= 0 || signed)
    ensures var t := Token(Aligned(Text(i, f), f), g).0;
            t != [] && Parsed(t, g.radix, signed) == i
  {
    TextIsSolid(i, f);
    TextParsed(i, f, signed);
    TokenOfAligned(Text(i, f), f, g);
  }

  // ---- The minimum of a signed type ----

  /** What the minimum of a signed type is printed as: it is its own negative, so its digits come out below '0'. */
  function MinimumText(bits: nat, f: Fmt): seq<byte>
    requires 2 <= f.radix <= 36 && bits > 0
  {
    [MINUS] + Figures(Pow2(bits - 1), f.radix, f.caps, true)
  }

  lemma {:induction false} FirstFigure(n: nat, r: nat, caps: bool)
    requires 2 <= r <= 10 && n > 0
    ensures forall i :: 0 <= i < |Figures(n, r, caps, true)| ==> 39 <= Figures(n, r, caps, true)[i] <= 48
    ensures Figures(n, r, caps, true)[0] < 48
    decreases n
  {
    if n >= r {
      FirstFigure(n / r, r, caps);
    }
  }

  /** It is read back as 0. */
  lemma MinimumIsLost(bits: nat, f: Fmt, g: Fmt)
    requires bits > 0 && 2 <= f.radix <= 10 && f.fill == SPACE && g.tokenize && g.radix == f.radix
    ensures var t := Token(Aligned(MinimumText(bits, f), f), g).0;
            t != [] && Parsed(t, g.radix, true) == 0
  {
    var s := MinimumText(bits, f);
    FirstFigure(Pow2(bits - 1), f.radix, f.caps);
    TokenOfAligned(s, f, g);
    assert s[1..] == Figures(Pow2(bits - 1), f.radix, f.caps, true);
    assert s[..1][1..] == [];
  }

  /** The text of any value of a signed type of `bits` bits. */
  function SignedText(i: int, bits: nat, f: Fmt): seq<byte>
    requires 2 <= f.radix <= 36 && bits > 0
  {
    if i == -(Pow2(bits - 1) as int) then MinimumText(bits, f) else Text(i, f)
  }

  /** A signed value comes back exactly when it is not the minimum of its type. */
  lemma SignedRoundTrip(i: int, bits: nat, f: Fmt, g: Fmt)
    requires bits > 0 && 2 <= f.radix <= 10 && f.fill == SPACE && g.tokenize && g.radix == f.radix
    ensures var t := Token(Aligned(SignedText(i, bits, f), f), g).0;
            t != [] && (Parsed(t, g.radix, true) == i <==> i != -(Pow2(bits - 1) as int))
  {
    if i == -(Pow2(bits - 1) as int) {
      MinimumIsLost(bits, f, g);
    } else {
      PrintedIsRead(i, f, g, true);
    }
  }

  // ---- The formatter ----

  /** The negative of a signed number of `bits` bits: the minimum is its own. */
  function Negate(i: int, bits: nat): int
    requires bits > 0
  {
    if i == -(Pow2(bits - 1) as int) then i else -i
  }

  /** Division and remainder as the machine has them, toward zero. */
  function Quotient(i: int, r: nat): int
    requires r > 0
  {
    if i >= 0 then i / r else -(-i / r)
  }

  function Remainder(i: int, r: nat): int
    requires r > 0
  {
    if i >= 0 then i % r else -(-i % r)
  }

  class Formatter {
    var last: Fmt
    var temp: bool
    var out: seq<byte>
    var input: seq<byte>

    constructor (input: seq<byte>)
      ensures last == Fmt(0, 32, 10, Right, false, false, true) && !temp && out == [] && this.input == input
    {
      last, temp, out, this.input := DEFAULT, false, [], input;
    }

    method SetFormat(f: Fmt)
      modifies `last, `temp
      ensures last == f && !temp
    {
      last, temp := f, false;
    }

    /** A format for the next value only. */
    method SetTempFormat(f: Fmt)
      modifies `last, `temp
      ensures last == f && temp
    {
      last, temp := f, true;
    }

    method UsedFormat()
      modifies `last
      ensures last == if temp then Fmt(0, 32, 10, Right, false, false, true) else old(last)
    {
      if temp {
        last := DEFAULT;
      }
    }

    method WriteFill(n: nat)
      modifies `out
      ensures out == old(out) + Fill(last.fill, n)
    {
      for k := 0 to n
        invariant out == old(out) + Fill(last.fill, k)
      {
        out := out + [last.fill];
      }
    }

    method WriteAligned(s: seq<byte>)
      modifies `out, `last
      ensures out == old(out) + Aligned(s, old(last)) && last == if temp then DEFAULT else old(last)
    {
      if |s| > last.minWidth {
        out := out + s;
      } else {
        var rem := last.minWidth - |s|;
        match last.align
        case Right =>
          WriteFill(rem);
          out := out + s;
        case Center =>
          WriteFill(rem / 2);
          out := out + s;
          WriteFill(rem - rem / 2);
        case Left =>
          out := out + s;
          WriteFill(rem);
      }
      UsedFormat();
    }

    /** Print an unsigned integer of `bits` bits. */
    method PrintUnsigned(i: nat, bits: nat)
      requires bits > 0 && i < Pow2(bits)
      modifies `out, `last
      ensures last == if temp then Fmt(0, 32, 10, Right, false, false, true) else old(last)
      ensures old(last).radix < 2 || old(last).radix > 36 ==> out == old(out)
      ensures 2 <= old(last).radix <= 36 ==> out == old(out) + Aligned(Text(i, old(last)), old(last))
    {
      hide Aligned, Figures;
      if last.radix < 2 || last.radix > 36 {
        UsedFormat();
        return;
      }
      var s := FillBuffer(i, bits);
      if last.plus {
        s := [PLUS] + s;
      }
      assert s == Text(i, last);
      WriteAligned(s);
    }

    /** Print a signed integer of `bits` bits. */
    method PrintSigned(i: int, bits: nat)
      requires bits > 0 && -(Pow2(bits - 1) as int) <= i < Pow2(bits - 1)
      modifies `out, `last
      ensures last == if temp then Fmt(0, 32, 10, Right, false, false, true) else old(last)
      ensures old(last).radix < 2 || old(last).radix > 36 ==> out == old(out)
      ensures 2 <= old(last).radix <= 36 ==> out == old(out) + Aligned(SignedText(i, bits, old(last)), old(last))
    {
      hide Aligned, Figures;
      var n := if i < 0 then Negate(i, bits) else i;
      if last.radix < 2 || last.radix > 36 {
        UsedFormat();
        return;
      }
      assert Pow2(bits) == 2 * Pow2(bits - 1);
      var s := FillBuffer(n, bits);
      if i < 0 {
        s := [MINUS] + s;
      } else if last.plus {
        s := [PLUS] + s;
      }
      assert s == SignedText(i, bits, last);
      WriteAligned(s);
    }

    /** The digits of a number, put into a buffer from its end. They fit into `bits` characters. */
    method FillBuffer(n: int, bits: nat) returns (s: seq<byte>)
      requires bits > 0 && -(Pow2(bits) as int) < n < Pow2(bits) && 2 <= last.radix <= 36
      ensures s == Figures(if n < 0 then -n else n, last.radix, last.caps, n < 0) && |s| <= bits
    {
      var r := last.radix;
      ghost var m: nat := if n < 0 then -n else n;
      DigitsFit(m, r, last.caps, n < 0, bits);
      var i := n;
      s := [];
      var done := false;
      while !done
        invariant done <==> s != [] && i == 0
        invariant done ==> s == Figures(m, r, last.caps, n < 0)
        invariant !done ==> FiguresOf(i, r, last.caps, n < 0) + s == Figures(m, r, last.caps, n < 0)
        invariant n < 0 <==> (if s == [] then i < 0 else n < 0)
        invariant n < 0 ==> i <= 0
        invariant n >= 0 ==> i >= 0
        decreases if i < 0 then -i else i, !done
      {
        var c := Remainder(i, r);
        FiguresStep(i, r, last.caps, n < 0, s);
        s := [DigitChar(if n < 0 then -c else c, last.caps, n < 0)] + s;
        i := Quotient(i, r);
        done := i == 0;
      }
    }

    static function FiguresOf(i: int, r: nat, caps: bool, negative: bool): seq<byte>
      requires 2 <= r <= 36
    {
      Figures(if i < 0 then -i else i, r, caps, negative)
    }

    /** Taking off the last digit. */
    static lemma FiguresStep(i: int, r: nat, caps: bool, negative: bool, s: seq<byte>)
      requires 2 <= r <= 36 && (negative ==> i <= 0) && (!negative ==> i >= 0)
      ensures var c := Remainder(i, r);
              var d := if negative then -c else c;
              var q := Quotient(i, r);
              && 0 <= d < r && (negative ==> q <= 0) && (!negative ==> q >= 0)
              && (i != 0 ==> (if q < 0 then -q else q) < if i < 0 then -i else i)
              && FiguresOf(i, r, caps, negative) + s
                 == (if q == 0 then [] else FiguresOf(q, r, caps, negative)) + ([DigitChar(d, caps, negative)] + s)
    {
      hide DigitChar, Figures;
      var m: nat := if i < 0 then -i else i;
      LessAfterDivision(m, r);
      LastFigure(m, r, caps, negative, s);
    }

    static lemma LastFigure(m: nat, r: nat, caps: bool, negative: bool, s: seq<byte>)
      requires 2 <= r <= 36
      ensures Figures(m, r, caps, negative) + s ==
              (if m / r == 0 then [] else Figures(m / r, r, caps, negative)) + ([DigitChar(m % r, caps, negative)] + s)
    {
      hide DigitChar;
      LessAfterDivision(m, r);
    }

    // ---- Reading ----

    /** The next token of the input. */
    method ReadToken() returns (s: seq<byte>)
      modifies `input
      ensures s == Token(old(input), last).0 && input == Token(old(input), last).1
    {
      if !last.tokenize {
        s := input;
        input := [];
        return;
      }
      while input != [] && IsSpace(input[0])
        invariant SkipWs(input) == SkipWs(old(input))
        decreases |input|
      {
        input := input[1..];
      }
      ghost var start := input;
      s := [];
      assert s + Word(input).0 == Word(input).0;
      while input != []
        invariant Word(start) == (s + Word(input).0, Word(input).1)
        decreases |input|
      {
        var c := input[0];
        input := input[1..];
        if IsSpace(c) {
          assert s + [] == s;
          return;
        }
        assert s + ([c] + Word(input).0) == s + [c] + Word(input).0;
        s := s + [c];
      }
    }

    /** Read an integer from a token, its digits from the last to the first. An empty token leaves the variable, which
        was `before`, and the format as they are. */
    method Parse(before: int, s: seq<byte>, signed: bool) returns (i: int)
      modifies `last
      ensures s == [] ==> i == before && last == old(last)
      ensures s != [] ==> i == Parsed(s, old(last).radix, signed) && last == if temp then DEFAULT else old(last)
    {
      if s == [] {
        return before;
      }
      var r := last.radix;
      var m := 1;
      while m < |s| && IsDigit(s[m])
        invariant 1 <= m <= |s| && Extent(s) == m + DigitRun(s[m..])
      {
        m := m + 1;
      }
      i := 0;
      var pos, j := 1, m;
      while j > 0
        invariant 0 <= j <= m && (j > 0 ==> pos == Power(r, m - j))
        invariant j > 0 ==> i == Value(s[j..m], r)
        invariant j == 0 ==>
                    i == if s[0] == PLUS || (signed && s[0] == MINUS) then Value(s[1..m], r) else Value(s[..m], r)
      {
        j := j - 1;
        var c := s[j];
        if !(c == PLUS || (signed && c == MINUS)) {
          assert s[j..m][1..] == s[j + 1..m];
          i := i + DigitValue(c) * pos;
          pos := pos * r;
        }
      }
      assert s[..m][1..] == s[1..m];
      if signed && s[0] == MINUS {
        i := -i;
      }
      UsedFormat();
    }
  }
}
