/** Base64 on values: the canonical encoding of section 4 of RFC 4648, lines of a fixed
    length, and what a decoder that skips white space makes of any input. */
module Base64Codec {
  import opened BlockMath
  import opened Bytes

  const CRLF: seq<byte> := [13, 10]
  const PAD: byte := 0x3d

  // ---- The alphabet ----

  function EncodeDigit(v: nat): byte
    requires v < 64
  {
    if v < 26 then (0x41 + v) as byte
    else if v < 52 then (0x61 + v - 26) as byte
    else if v < 62 then (0x30 + v - 52) as byte
    else if v == 62 then 0x2b else 0x2f
  }

  /** The bytes the decoding table has an entry for. */
  predicate InTable(c: byte) { 0x2b <= c <= 0x7a }

  /** The decoding table; what is not in the alphabet has the value 0. */
  function DecodeDigit(c: byte): (v: nat)
    ensures v < 64
  {
    if 0x41 <= c <= 0x5a then (c - 0x41) as nat
    else if 0x61 <= c <= 0x7a then (c - 0x61) as nat + 26
    else if 0x30 <= c <= 0x39 then (c - 0x30) as nat + 52
    else if c == 0x2b then 62
    else if c == 0x2f then 63
    else 0
  }

  lemma DigitRoundTrip(v: nat)
    requires v < 64
    ensures InTable(EncodeDigit(v)) && !IsSpace(EncodeDigit(v)) && EncodeDigit(v) != PAD
    ensures DecodeDigit(EncodeDigit(v)) == v
  {
  }

  /** The alphabet of section 4 of RFC 4648: upper-case letters, lower-case letters, figures, plus and slash; and its
      padding. */
  lemma AlphabetIsStandard(v: nat)
    requires v < 64
    ensures EncodeDigit(v) as int == if v < 26 then 'A' as int + v
                                     else if v < 52 then 'a' as int + (v - 26)
                                     else if v < 62 then '0' as int + (v - 52)
                                     else if v == 62 then '+' as int else '/' as int
    ensures PAD as int == '=' as int
  {
  }

  // ---- Encoding ----

  /** Three bytes as one number. */
  function Join(a: byte, b: byte, c: byte): nat
  {
    65536 * (a as nat) + 256 * (b as nat) + (c as nat)
  }

  /** The four digits of a 24-bit number. */
  function Digits(v: nat): (s: seq<byte>)
    requires v < 0x100_0000
    ensures |s| == 4
  {
    [EncodeDigit(v / 262144), EncodeDigit(v / 4096 % 64), EncodeDigit(v / 64 % 64), EncodeDigit(v % 64)]
  }

  /** The last one or two bytes, padded. */
  function LastDigits(s: seq<byte>): (t: seq<byte>)
    requires |s| == 1 || |s| == 2
    ensures |t| == 4
  {
    if |s| == 1 then Digits(Join(s[0], 0, 0))[..2] + [PAD, PAD]
    else Digits(Join(s[0], s[1], 0))[..3] + [PAD]
  }

  /** The encoding of section 4 of RFC 4648. */
  function Encode(s: seq<byte>): seq<byte>
  {
    if |s| == 0 then []
    else if |s| < 3 then LastDigits(s)
    else Digits(Join(s[0], s[1], s[2])) + Encode(s[3..])
  }

  /** Whole groups of three bytes can be encoded one after the other. */
  lemma {:induction false} EncodeMore(s: seq<byte>, t: seq<byte>)
    requires |s| % 3 == 0
    ensures Encode(s + t) == Encode(s) + Encode(t)
  {
    if s == [] {
      assert s + t == t;
    } else {
      assert (s + t)[3..] == s[3..] + t;
      EncodeMore(s[3..], t);
    }
  }

  /** Which bits of its bytes each character of a group stands for, and where padding is. */
  lemma GroupBits(a: byte, b: byte, c: byte)
    ensures var x, y, z := a as nat, b as nat, c as nat;
            && Digits(Join(a, b, c)) == [EncodeDigit(x / 4), EncodeDigit(x % 4 * 16 + y / 16),
                                         EncodeDigit(y % 16 * 4 + z / 64), EncodeDigit(z % 64)]
            && LastDigits([a, b]) == [EncodeDigit(x / 4), EncodeDigit(x % 4 * 16 + y / 16),
                                      EncodeDigit(y % 16 * 4), 0x3d]
            && LastDigits([a]) == [EncodeDigit(x / 4), EncodeDigit(x % 4 * 16), 0x3d, 0x3d]
  {
    hide EncodeDigit;
    SixBits(a as nat, b as nat, c as nat);
    SixBits(a as nat, b as nat, 0);
    SixBits(a as nat, 0, 0);
  }

  lemma SixBits(x: nat, y: nat, z: nat)
    requires x < 256 && y < 256 && z < 256
    ensures var v := 65536 * x + 256 * y + z;
            && v < 0x100_0000 && v / 262144 == x / 4 && v / 4096 % 64 == x % 4 * 16 + y / 16
            && v / 64 % 64 == y % 16 * 4 + z / 64 && v % 64 == z % 64
  {
    FourDigits(x / 4, x % 4 * 16 + y / 16, y % 16 * 4 + z / 64, z % 64);
    assert x == 4 * (x / 4) + x % 4 && y == 16 * (y / 16) + y % 16 && z == 64 * (z / 64) + z % 64;
  }

  lemma FourDigits(a: nat, b: nat, c: nat, d: nat)
    requires a < 64 && b < 64 && c < 64 && d < 64
    ensures var v := 262144 * a + 4096 * b + 64 * c + d;
            v / 262144 == a && v / 4096 % 64 == b && v / 64 % 64 == c && v % 64 == d
  {
    var v := 262144 * a + 4096 * b + 64 * c + d;
    LowDigit(4096 * a + 64 * b + c, d);
    LowDigit(64 * a + b, c);
    LowDigit(a, b);
    SplitDigits(v);
  }

  lemma LowDigit(n: nat, d: nat)
    requires d < 64
    ensures (64 * n + d) / 64 == n && (64 * n + d) % 64 == d
  {
  }

  lemma EncodeThree(a: byte, b: byte, c: byte)
    ensures Encode([a, b, c]) == Digits(Join(a, b, c))
  {
    assert [a, b, c][3..] == [];
    assert Encode([]) == [];
  }

  // ---- Encoding byte by byte ----

  /** One or two bytes, moved up to where they are in a group. */
  function Collected(s: seq<byte>): (v: nat)
    requires |s| < 3
  {
    if |s| == 0 then 0 else if |s| == 1 then Join(s[0], 0, 0) else Join(s[0], s[1], 0)
  }

  /** `k` of the bytes `given` are collected in `buf`; the others are whole groups. */
  ghost predicate Held(given: seq<byte>, k: nat, buf: nat)
    ensures Held(given, k, buf) ==> k < 3 && k <= |given|
  {
    k < 3 && k <= |given| && (|given| - k) % 3 == 0 && buf == Collected(given[|given| - k..])
  }

  /** How a byte is added to those collected. */
  function Added(buf: nat, k: nat, b: byte): nat
  {
    buf + (if k == 0 then 65536 * (b as nat) else if k == 1 then 256 * (b as nat) else b as nat)
  }

  /** The whole groups. */
  function Whole(given: seq<byte>, k: nat): seq<byte>
    requires k <= |given|
  {
    given[..|given| - k]
  }

  lemma CollectByte(given: seq<byte>, k: nat, buf: nat, b: byte)
    requires Held(given, k, buf) && k < 2
    ensures Held(given + [b], k + 1, Added(buf, k, b)) && Whole(given + [b], k + 1) == Whole(given, k)
  {
    var t := given + [b];
    assert t[|t| - (k + 1)..] == given[|given| - k..] + [b];
  }

  lemma CollectLast(given: seq<byte>, buf: nat, b: byte)
    requires Held(given, 2, buf)
    ensures Added(buf, 2, b) < 0x100_0000 && Held(given + [b], 0, 0)
    ensures Encode(Whole(given + [b], 0)) == Encode(Whole(given, 2)) + Digits(Added(buf, 2, b))
  {
    hide Digits, Encode;
    var n := |given| - 2;
    var x, y := given[n], given[n + 1];
    assert given[n..] == [x, y];
    AddThird(x, y, b);
    EncodeThree(x, y, b);
    EncodeMore(given[..n], [x, y, b]);
    WholeMore(given, b);
  }

  lemma AddThird(x: byte, y: byte, b: byte)
    ensures Added(Collected([x, y]), 2, b) == Join(x, y, b) < 0x100_0000
  {
    JoinedBytes(x, y, b);
  }

  lemma WholeMore(given: seq<byte>, b: byte)
    requires |given| >= 2 && (|given| - 2) % 3 == 0
    ensures Whole(given + [b], 0) == Whole(given, 2) + [given[|given| - 2], given[|given| - 1], b]
    ensures Held(given + [b], 0, 0)
  {
    var t := given + [b];
    assert t[..|t|] == t && t[|t|..] == [];
    assert |t| == |given| - 2 + 3;
  }

  /** The padded group that ends the encoding of `s`, if there is one. */
  function Final(s: seq<byte>): seq<byte>
  {
    if |s| % 3 == 0 then [] else LastDigits(s[|s| - |s| % 3..])
  }

  lemma FinalEncodes(s: seq<byte>, k: nat, buf: nat)
    requires Held(s, k, buf)
    ensures k == |s| % 3 && Encode(Whole(s, k)) + Final(s) == Encode(s)
    ensures k > 0 ==> buf < 0x100_0000 && Final(s) == Digits(buf)[..k + 1] + seq(3 - k, _ => PAD)
  {
    hide Digits, Encode, Collected, LastDigits, Join;
    ModThree(|s|, k);
    var part := s[|s| - k..];
    assert Final(s) == if k == 0 then [] else LastDigits(part);
    hide Final;
    EncodeMore(s[..|s| - k], part);
    assert s[..|s| - k] + part == s;
    FinalPart(part);
  }

  lemma FinalPart(part: seq<byte>)
    requires |part| < 3
    ensures Encode(part) == if |part| == 0 then [] else LastDigits(part)
    ensures |part| > 0 ==>
              && Collected(part) < 0x100_0000
              && LastDigits(part) == Digits(Collected(part))[..|part| + 1] + seq(3 - |part|, _ => PAD)
  {
    if |part| > 0 {
      JoinedBytes(part[0], if |part| == 2 then part[1] else 0, 0);
    }
  }

  /** Writing the final group once more, as a second stop does, spoils the encoding unless there is none. */
  lemma FinalOnce(s: seq<byte>)
    ensures Encode(s) + Final(s) == Encode(s) <==> |s| % 3 == 0
  {
    assert |Encode(s) + Final(s)| == |Encode(s)| + |Final(s)|;
  }

  lemma ModThree(n: nat, k: nat)
    requires k < 3 && k <= n && (n - k) % 3 == 0
    ensures n % 3 == k
  {
    var m := (n - k) / 3;
    assert n == 3 * m + k;
  }

  // ---- Lines ----

  /** `s` with a line end after every `line` characters; 0 stands for a single line. */
  function Wrap(s: seq<byte>, line: nat): seq<byte>
  {
    if line == 0 || |s| < line then s
    else s[..line] + CRLF + Wrap(s[line..], line)
  }

  /** Characters in the line begun last. */
  function InLine(n: nat, line: nat): (k: nat)
    ensures line > 0 ==> k < line
  {
    if line == 0 then 0 else Offset(n, line)
  }

  /** The first line of a longer text. */
  lemma WrapFirst(s: seq<byte>, q: seq<byte>, line: nat)
    requires 0 < line <= |s|
    ensures Wrap(s, line) == s[..line] + CRLF + Wrap(s[line..], line)
    ensures Wrap(s + q, line) == s[..line] + CRLF + Wrap(s[line..] + q, line)
    ensures InLine(|s|, line) == InLine(|s| - line, line) && InLine(|s + q|, line) == InLine(|s[line..] + q|, line)
    ensures forall a, b :: s[..line] + CRLF + (a + b) == s[..line] + CRLF + a + b
  {
    assert (s + q)[..line] == s[..line] && (s + q)[line..] == s[line..] + q;
  }

  /** At most one more line end is needed for a few more characters. */
  lemma {:induction false} WrapMore(s: seq<byte>, q: seq<byte>, line: nat)
    requires line == 0 || |q| <= line
    ensures var cur := InLine(|s|, line) + |q|;
            if line == 0 || cur < line
            then Wrap(s + q, line) == Wrap(s, line) + q && (line > 0 ==> InLine(|s + q|, line) == cur)
            else
              var r := cur - line;
              && r <= |q| && InLine(|s + q|, line) == r
              && Wrap(s + q, line) == Wrap(s, line) + (q[..|q| - r] + CRLF + q[|q| - r..])
  {
    hide Wrap, InLine;
    if line > 0 && |s| >= line {
      WrapMore(s[line..], q, line);
      WrapFirst(s, q, line);
    } else if line > 0 && |s| + |q| >= line {
      WrapLast(s, q, line);
    } else {
      WrapShort(s, q, line);
    }
  }

  /** A text that stays in its first line, or has no lines. */
  lemma WrapShort(s: seq<byte>, q: seq<byte>, line: nat)
    requires line == 0 || |s| + |q| < line
    ensures Wrap(s, line) == s && Wrap(s + q, line) == s + q
    ensures line > 0 ==> InLine(|s|, line) == |s| && InLine(|s + q|, line) == |s| + |q|
    ensures line == 0 ==> InLine(|s|, line) == 0
  {
  }

  /** A text that comes to fill its first line. */
  lemma WrapLast(s: seq<byte>, q: seq<byte>, line: nat)
    requires |s| < line <= |s| + |q| && |q| <= line
    ensures var r := |s| + |q| - line;
            && r <= |q| && InLine(|s|, line) == |s| && InLine(|s + q|, line) == r
            && Wrap(s, line) == s && Wrap(s + q, line) == s + (q[..|q| - r] + CRLF + q[|q| - r..])
  {
    var k := line - |s|;
    assert (s + q)[..line] == s + q[..k] && (s + q)[line..] == q[k..];
    assert |s + q| - line == |q| - k < line;
    assert Offset(|s + q|, line) == Offset(|q| - k, line);
  }

  /** The input without white space. */
  function Solid(s: seq<byte>): seq<byte>
  {
    if s == [] then []
    else if IsSpace(s[0]) then Solid(s[1..])
    else [s[0]] + Solid(s[1..])
  }

  lemma {:induction false} SolidConcat(s: seq<byte>, t: seq<byte>)
    ensures Solid(s + t) == Solid(s) + Solid(t)
  {
    if s == [] {
      assert s + t == t;
    } else {
      assert (s + t)[1..] == s[1..] + t;
      SolidConcat(s[1..], t);
    }
  }

  ghost predicate NoSpace(s: seq<byte>)
  {
    forall i :: 0 <= i < |s| ==> !IsSpace(s[i])
  }

  lemma {:induction false} SolidNone(s: seq<byte>)
    requires NoSpace(s)
    ensures Solid(s) == s
  {
    if s != [] {
      SolidNone(s[1..]);
    }
  }

  /** Without its line ends a wrapped text is the text. */
  lemma {:induction false} SolidWrap(s: seq<byte>, line: nat)
    requires NoSpace(s)
    ensures Solid(Wrap(s, line)) == s
    decreases |s|
  {
    if line == 0 || |s| < line {
      SolidNone(s);
    } else {
      SolidConcat(s[..line] + CRLF, Wrap(s[line..], line));
      SolidConcat(s[..line], CRLF);
      SolidNone(s[..line]);
      SolidWrap(s[line..], line);
      assert Solid(CRLF) == [] by {
        assert CRLF[1..] == [10] && [10 as byte][1..] == [];
      }
    }
  }

  /** Every full line has exactly `line` characters: those of its part of the text, then a line end. */
  lemma {:induction false} FullLines(s: seq<byte>, line: nat, k: nat, x: nat)
    requires line > 0 && Span(k + 1, line) <= |s| && x < line
    ensures var p := Span(k, line + 2);
            && p + line + 2 <= |Wrap(s, line)|
            && Wrap(s, line)[p + x] == s[Span(k, line) + x]
            && Wrap(s, line)[p + line] == 13 && Wrap(s, line)[p + line + 1] == 10
    decreases k
  {
    hide Wrap;
    SpanMonotone(1, k + 1, line);
    if k == 0 {
      LineShift(s, line, x);
      LineShift(s, line, line);
      LineShift(s, line, line + 1);
    } else {
      FullLines(s[line..], line, k - 1, x);
      var p := Span(k - 1, line + 2);
      LineShift(s, line, line + 2 + p + x);
      LineShift(s, line, line + 2 + p + line);
      LineShift(s, line, line + 2 + p + line + 1);
    }
  }

  /** The first line, and where the others are. */
  lemma LineShift(s: seq<byte>, line: nat, p: nat)
    requires 0 < line <= |s|
    ensures |Wrap(s, line)| == line + 2 + |Wrap(s[line..], line)|
    ensures p < line ==> Wrap(s, line)[p] == s[p]
    ensures p == line ==> Wrap(s, line)[p] == 13
    ensures p == line + 1 ==> Wrap(s, line)[p] == 10
    ensures line + 2 <= p < |Wrap(s, line)| ==> Wrap(s, line)[p] == Wrap(s[line..], line)[p - line - 2]
  {
  }

  // ---- Decoding ----

  /** How a decoder's output ends. */
  datatype End = Clean | Premature | BadCharacter

  datatype Decoded = Decoded(bytes: seq<byte>, end: End)

  function ThreeBytes(v: nat): (s: seq<byte>)
    requires v < 0x100_0000
    ensures |s| == 3
  {
    [(v / 65536) as byte, (v / 256 % 256) as byte, (v % 256) as byte]
  }

  predicate Decodable(q: seq<byte>)
  {
    forall i :: 0 <= i < |q| ==> q[i] == PAD || InTable(q[i])
  }

  function PadCount(q: seq<byte>): (n: nat)
    requires |q| == 4
    ensures n <= 4
  {
    (if q[0] == PAD then 1 else 0) + (if q[1] == PAD then 1 else 0) +
    (if q[2] == PAD then 1 else 0) + (if q[3] == PAD then 1 else 0)
  }

  function Digit(c: byte): (v: nat)
    ensures v < 64
  {
    if c == PAD then 0 else DecodeDigit(c)
  }

  function Value(q: seq<byte>): (v: nat)
    requires |q| == 4
    ensures v < 0x100_0000
  {
    262144 * Digit(q[0]) + 4096 * Digit(q[1]) + 64 * Digit(q[2]) + Digit(q[3])
  }

  function Prepend(s: seq<byte>, d: Decoded): Decoded
  {
    Decoded(s + d.bytes, d.end)
  }

  /** What is decoded from characters without white space. A group with padding is the last one; after a group of
      nothing but padding one more follows, which then is the last. */
  function Decode(s: seq<byte>, last: bool): Decoded
  {
    if s == [] then Decoded([], Clean)
    else if |s| < 4 then Decoded([], Premature)
    else
      var q := s[..4];
      if !Decodable(q) then Decoded([], BadCharacter)
      else if PadCount(q) == 4 then Decode(s[4..], true)
      else
        var b := ThreeBytes(Value(q))[..3 - PadCount(q)];
        if PadCount(q) > 0 || last then Decoded(b, Clean)
        else Prepend(b, Decode(s[4..], false))
  }

  /** One group of four characters. */
  lemma DecodeStep(s: seq<byte>, last: bool)
    requires |s| >= 4 && Decodable(s[..4])
    ensures var q := s[..4];
            Decode(s, last) == if PadCount(q) == 4 then Decode(s[4..], true)
                               else Prepend(ThreeBytes(Value(q))[0..3 - PadCount(q)],
                                            if PadCount(q) > 0 || last then Decoded([], Clean)
                                            else Decode(s[4..], false))
  {
    var b := ThreeBytes(Value(s[..4]));
    if PadCount(s[..4]) < 4 {
      assert b[0..3 - PadCount(s[..4])] == b[..3 - PadCount(s[..4])];
      assert b[..3 - PadCount(s[..4])] + [] == b[..3 - PadCount(s[..4])];
    }
  }

  /** A group is decoded exactly when its characters have a place in the decoding table. The bytes are those of its four
      digits, less one for each padding character, with which decoding ends; a group of nothing but padding stands for
      nothing and lets one more group follow. */
  lemma GroupDecoded(q: seq<byte>, rest: seq<byte>, last: bool)
    requires |q| == 4
    ensures (exists i :: 0 <= i < 4 && !(0x2b <= q[i] <= 0x7a)) ==> Decode(q + rest, last) == Decoded([], BadCharacter)
    ensures (forall i :: 0 <= i < 4 ==> 0x2b <= q[i] <= 0x7a) ==>
              var a, b, c, d := Digit(q[0]), Digit(q[1]), Digit(q[2]), Digit(q[3]);
              var s := [(4 * a + b / 16) as byte, (b % 16 * 16 + c / 4) as byte, (c % 4 * 64 + d) as byte];
              var pads := Pad(q[0]) + Pad(q[1]) + Pad(q[2]) + Pad(q[3]);
              var more := Decode(rest, false);
              Decode(q + rest, last) == if pads == 4 then Decode(rest, true)
                                        else if pads > 0 || last then Decoded(s[..3 - pads], Clean)
                                        else Decoded(s + more.bytes, more.end)
  {
    hide Digit, Value, ThreeBytes;
    assert (q + rest)[..4] == q && (q + rest)[4..] == rest;
    GroupBytes(q);
    var b := ThreeBytes(Value(q));
    assert b[..3] == b;
  }

  lemma GroupBytes(q: seq<byte>)
    requires |q| == 4
    ensures var a, b, c, d := Digit(q[0]), Digit(q[1]), Digit(q[2]), Digit(q[3]);
            ThreeBytes(Value(q)) == [(4 * a + b / 16) as byte, (b % 16 * 16 + c / 4) as byte, (c % 4 * 64 + d) as byte]
  {
    hide Digit;
    EightBits(Digit(q[0]), Digit(q[1]), Digit(q[2]), Digit(q[3]));
  }

  function Pad(c: byte): nat
  {
    if c == 0x3d then 1 else 0
  }

  lemma EightBits(a: nat, b: nat, c: nat, d: nat)
    requires a < 64 && b < 64 && c < 64 && d < 64
    ensures var v := 262144 * a + 4096 * b + 64 * c + d;
            v < 0x100_0000 && v / 65536 == 4 * a + b / 16 && v / 256 % 256 == b % 16 * 16 + c / 4
            && v % 256 == c % 4 * 64 + d
  {
    var v := 262144 * a + 4096 * b + 64 * c + d;
    var x, y, z := 4 * a + b / 16, b % 16 * 16 + c / 4, c % 4 * 64 + d;
    assert b == 16 * (b / 16) + b % 16 && c == 4 * (c / 4) + c % 4;
    assert v == 65536 * x + 256 * y + z;
    ThreeParts(x, y, z);
  }

  lemma DecodeShort(s: seq<byte>, last: bool)
    requires |s| < 4
    ensures Decode(s, last) == Decoded([], if s == [] then Clean else Premature)
  {
  }

  lemma DecodeBad(s: seq<byte>, last: bool)
    requires |s| >= 4 && !Decodable(s[..4])
    ensures Decode(s, last) == Decoded([], BadCharacter)
  {
  }

  lemma SplitDigits(v: nat)
    requires v < 0x100_0000
    ensures v / 262144 < 64
    ensures v == 262144 * (v / 262144) + 4096 * (v / 4096 % 64) + 64 * (v / 64 % 64) + v % 64
  {
    var u := v / 64;
    var t := u / 64;
    assert v / 4096 == t && v / 262144 == t / 64;
    assert v == 64 * u + v % 64 && u == 64 * t + u % 64 && t == 64 * (t / 64) + t % 64;
  }

  lemma PlainDigits(a: nat, b: nat, c: nat, d: nat)
    requires a < 64 && b < 64 && c < 64 && d < 64
    ensures var q := [EncodeDigit(a), EncodeDigit(b), EncodeDigit(c), EncodeDigit(d)];
            Value(q) == 262144 * a + 4096 * b + 64 * c + d && PadCount(q) == 0 && Decodable(q) && NoSpace(q)
  {
    hide EncodeDigit, DecodeDigit, InTable, IsSpace;
    DigitRoundTrip(a);
    DigitRoundTrip(b);
    DigitRoundTrip(c);
    DigitRoundTrip(d);
  }

  lemma DigitsValue(v: nat)
    requires v < 0x100_0000
    ensures Value(Digits(v)) == v && PadCount(Digits(v)) == 0 && Decodable(Digits(v)) && NoSpace(Digits(v))
  {
    hide EncodeDigit, Value, Decodable, NoSpace, PadCount;
    SplitDigits(v);
    PlainDigits(v / 262144, v / 4096 % 64, v / 64 % 64, v % 64);
  }

  lemma JoinedBytes(a: byte, b: byte, c: byte)
    ensures Join(a, b, c) < 0x100_0000 && ThreeBytes(Join(a, b, c)) == [a, b, c]
  {
    var x, y, z: nat := a as nat, b as nat, c as nat;
    ThreeParts(x, y, z);
  }

  lemma ThreeParts(x: nat, y: nat, z: nat)
    requires x < 256 && y < 256 && z < 256
    ensures var v := 65536 * x + 256 * y + z; v < 0x100_0000 && v / 65536 == x && v / 256 % 256 == y && v % 256 == z
  {
    var v := 65536 * x + 256 * y + z;
    var u := 256 * x + y;
    assert v == 256 * u + z && v / 256 == u && v % 256 == z;
  }

  /** A value without low bits has zero digits there, which padding stands for as well. */
  lemma LowDigits(x: nat, y: nat)
    requires x < 256 && y < 256
    ensures var v := 65536 * x + 256 * y; v % 64 == 0 && (y == 0 ==> v / 64 % 64 == 0)
  {
    var v := 65536 * x + 256 * y;
    assert v == 64 * (1024 * x + 4 * y) && v / 64 == 1024 * x + 4 * y;
    assert 1024 * x == 64 * (16 * x);
  }

  lemma LastRoundTrip(s: seq<byte>)
    requires |s| == 1 || |s| == 2
    ensures Decode(LastDigits(s), false) == Decoded(s, Clean) && NoSpace(LastDigits(s))
  {
    var q := LastDigits(s);
    var v := Join(s[0], if |s| == 2 then s[1] else 0, 0);
    JoinedBytes(s[0], if |s| == 2 then s[1] else 0, 0);
    DigitsValue(v);
    assert q[..4] == q;
    LastValue(s);
    assert ThreeBytes(v)[..3 - PadCount(q)] == s;
  }

  lemma LastValue(s: seq<byte>)
    requires |s| == 1 || |s| == 2
    ensures var q := LastDigits(s);
            Value(q) == Join(s[0], if |s| == 2 then s[1] else 0, 0) && PadCount(q) == 3 - |s| && Decodable(q)
              && NoSpace(q)
  {
    hide EncodeDigit, DecodeDigit, InTable;
    var b := if |s| == 2 then s[1] else 0;
    var v := Join(s[0], b, 0);
    ThreeParts(s[0] as nat, b as nat, 0);
    SplitDigits(v);
    LowDigits(s[0] as nat, b as nat);
    DigitRoundTrip(v / 262144);
    DigitRoundTrip(v / 4096 % 64);
    DigitRoundTrip(v / 64 % 64);
  }

  /** Decoding undoes encoding. */
  lemma {:induction false} DecodeEncode(s: seq<byte>)
    ensures Decode(Encode(s), false) == Decoded(s, Clean) && NoSpace(Encode(s))
  {
    if |s| == 0 {
    } else if |s| < 3 {
      LastRoundTrip(s);
    } else {
      var q, rest := Digits(Join(s[0], s[1], s[2])), Encode(s[3..]);
      JoinedBytes(s[0], s[1], s[2]);
      DigitsValue(Join(s[0], s[1], s[2]));
      DecodeEncode(s[3..]);
      assert (q + rest)[..4] == q && (q + rest)[4..] == rest;
      assert [s[0], s[1], s[2]] + s[3..] == s;
    }
  }

  /** The text that is written for `s` in lines of `line` characters decodes to `s`. */
  lemma RoundTrip(s: seq<byte>, line: nat)
    ensures Decode(Solid(Wrap(Encode(s), line)), false) == Decoded(s, Clean)
  {
    DecodeEncode(s);
    SolidWrap(Encode(s), line);
  }
}
