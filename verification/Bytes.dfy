/** Bytes, and the four-byte little-endian integers the library writes by
    copying an `int` straight out of memory. */
module Bytes {
  newtype byte = x: int | 0 <= x < 256

  const TWO_TO_THE_32 := 0x1_0000_0000

  /** True for the values a 32-bit `int` can hold. */
  predicate FitsInt32(x: int) { -0x8000_0000 <= x < 0x8000_0000 }

  function Le32(x: int): (s: seq<byte>)
    ensures |s| == 4
  {
    var u0 := x % TWO_TO_THE_32;
    var u1 := u0 / 256;
    var u2 := u1 / 256;
    [(u0 % 256) as byte, (u1 % 256) as byte, (u2 % 256) as byte, (u2 / 256) as byte]
  }

  function FromLe32(s: seq<byte>): (x: int)
    requires |s| == 4
    ensures FitsInt32(x)
  {
    var u := s[0] as int + 256 * (s[1] as int + 256 * (s[2] as int + 256 * (s[3] as int)));
    if u >= 0x8000_0000 then u - TWO_TO_THE_32 else u
  }

  lemma Le32RoundTrip(x: int)
    requires FitsInt32(x)
    ensures FromLe32(Le32(x)) == x
  {
    var u0 := x % TWO_TO_THE_32;
    assert u0 == if x >= 0 then x else x + TWO_TO_THE_32;
    var u1 := u0 / 256;
    var u2 := u1 / 256;
    assert u0 % 256 + 256 * u1 == u0 && u1 % 256 + 256 * u2 == u1;
  }

  /** White space between words. */
  predicate IsSpace(c: byte) { c == 0x20 || c == 0x09 || c == 0x0a || c == 0x0d }

  function Concat(parts: seq<seq<byte>>): seq<byte>
  {
    if parts == [] then [] else parts[0] + Concat(parts[1..])
  }

  lemma {:induction false} ConcatApart(a: seq<seq<byte>>, b: seq<seq<byte>>)
    ensures Concat(a + b) == Concat(a) + Concat(b)
  {
    if a == [] {
      assert a + b == b;
    } else {
      assert (a + b)[1..] == a[1..] + b;
      ConcatApart(a[1..], b);
    }
  }

  lemma ConcatOne(parts: seq<seq<byte>>, i: nat)
    requires i < |parts|
    ensures Concat(parts[..i + 1]) == Concat(parts[..i]) + parts[i]
  {
    assert parts[..i + 1] == parts[..i] + [parts[i]];
    ConcatApart(parts[..i], [parts[i]]);
    assert Concat([parts[i]]) == parts[i];
  }
}
