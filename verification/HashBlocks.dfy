/** What the message digests share: 64-byte blocks taken in one after the other, and words of 32 bits. */
module HashBlocks {
  import opened Bytes

  type word = bv32

  /** Take the whole blocks of `s` into `h`. */
  function Fold<H>(f: (H, seq<byte>) -> H, h: H, s: seq<byte>): H
  {
    if |s| < 64 then h else Fold(f, f(h, s[..64]), s[64..])
  }

  lemma {:induction false} FoldMore<H>(f: (H, seq<byte>) -> H, h: H, s: seq<byte>, t: seq<byte>)
    requires |s| % 64 == 0
    ensures Fold(f, h, s + t) == Fold(f, Fold(f, h, s), t)
  {
    if s == [] {
      assert s + t == t;
    } else {
      assert (s + t)[..64] == s[..64] && (s + t)[64..] == s[64..] + t;
      FoldMore(f, f(h, s[..64]), s[64..], t);
    }
  }

  lemma FoldOne<H>(f: (H, seq<byte>) -> H, h: H, s: seq<byte>)
    requires |s| == 64
    ensures Fold(f, h, s) == f(h, s)
  {
    assert s[..64] == s && s[64..] == [];
  }

  /** The whole blocks of `s`, and what is behind them. */
  function Whole(s: seq<byte>): (w: seq<byte>)
    ensures |w| % 64 == 0 && |w| <= |s|
  {
    s[..|s| - |s| % 64]
  }

  function Rest(s: seq<byte>): (r: seq<byte>)
    ensures |r| == |s| % 64
  {
    s[|s| - |s| % 64..]
  }

  /** More bytes that do not fill the block. */
  lemma RestMore(s: seq<byte>, t: seq<byte>)
    requires |Rest(s)| + |t| < 64
    ensures Whole(s + t) == Whole(s) && Rest(s + t) == Rest(s) + t
  {
    var u := s + t;
    assert |u| % 64 == |s| % 64 + |t|;
    assert u[..|s| - |s| % 64] == s[..|s| - |s| % 64];
  }

  /** More bytes that just fill it. */
  lemma RestFull<H>(f: (H, seq<byte>) -> H, h: H, s: seq<byte>, t: seq<byte>)
    requires |Rest(s)| + |t| == 64
    ensures Rest(s + t) == [] && Whole(s + t) == s + t
    ensures Fold(f, h, Whole(s + t)) == f(Fold(f, h, Whole(s)), Rest(s) + t)
  {
    var u := s + t;
    assert |u| % 64 == 0 by {
      assert |u| == (|s| - |s| % 64) + 64;
    }
    assert u == Whole(s) + (Rest(s) + t);
    FoldMore(f, h, Whole(s), Rest(s) + t);
    FoldOne(f, Fold(f, h, Whole(s)), Rest(s) + t);
  }

  function Zeros(n: nat): (s: seq<byte>)
    ensures |s| == n
  {
    seq<byte>(n, _ => 0)
  }

  /** How many zero bytes bring the length to 56 behind whole blocks, once a byte was added. */
  function ZeroCount(n: nat): (k: nat)
    ensures k < 64 && (n + 1 + k) % 64 == 56
  {
    if (n + 1) % 64 <= 56 then 56 - (n + 1) % 64 else 120 - (n + 1) % 64
  }

  /** The message with a set bit, zeros, and its length in bits behind it. */
  function Padded(s: seq<byte>, length: seq<byte>): (p: seq<byte>)
    requires |length| == 8
    ensures |p| % 64 == 0
  {
    s + [0x80] + Zeros(ZeroCount(|s|)) + length
  }

  /** Addition modulo 2^32. */
  function Plus(x: word, y: word): word { x + y }

  /** The padding as it is added: a set bit, zeros up to the end of the block if the length does not fit there,
      zeros up to byte 56, and the length. */
  lemma PadSteps(s: seq<byte>, length: seq<byte>)
    requires |length| == 8
    ensures var t := s + [0x80];
            && (|Rest(t)| <= 56 ==> t + (Zeros(56 - |Rest(t)|) + length) == Padded(s, length))
            && (|Rest(t)| > 56 ==>
                  var u := t + Zeros(64 - |Rest(t)|);
                  Rest(u) == [] && u + (Zeros(56) + length) == Padded(s, length))
  {
    var t := s + [0x80];
    var k := |Rest(t)|;
    if k <= 56 {
      assert Zeros(ZeroCount(|s|)) == Zeros(56 - k);
    } else {
      var u := t + Zeros(64 - k);
      FillUp(t, Zeros(64 - k));
      assert Zeros(ZeroCount(|s|)) == Zeros(64 - k) + Zeros(56);
    }
  }

  lemma PaddedParts(s: seq<byte>, length: seq<byte>)
    requires |length| == 8
    ensures var r := Rest(s) + [0x80];
            && |r| <= 64
            && (|r| <= 56 ==> Padded(s, length) == Whole(s) + (r + Zeros(56 - |r|) + length))
            && (|r| > 56 ==> Padded(s, length) == Whole(s) + (r + Zeros(64 - |r|) + (Zeros(56) + length)))
  {
    var r := Rest(s) + [0x80];
    assert s == Whole(s) + Rest(s);
    if |r| <= 56 {
      assert Zeros(ZeroCount(|s|)) == Zeros(56 - |r|);
    } else {
      assert Zeros(ZeroCount(|s|)) == Zeros(64 - |r|) + Zeros(56);
    }
  }

  /** The blocks that the padding makes of what was left over: one, or two when the length does not fit. */
  lemma PadBlocks<H>(f: (H, seq<byte>) -> H, h: H, s: seq<byte>, length: seq<byte>)
    requires |length| == 8
    ensures var r := Rest(s) + [0x80];
            && (|r| <= 56 ==>
                  Fold(f, h, Padded(s, length)) == f(Fold(f, h, Whole(s)), r + Zeros(56 - |r|) + length))
            && (|r| > 56 ==>
                  Fold(f, h, Padded(s, length)) == f(f(Fold(f, h, Whole(s)), r + Zeros(64 - |r|)), Zeros(56) + length))
  {
    hide Fold, Padded, Whole, Rest, Zeros;
    PaddedParts(s, length);
    var r := Rest(s) + [0x80];
    if |r| <= 56 {
      var b := r + Zeros(56 - |r|) + length;
      FoldMore(f, h, Whole(s), b);
      FoldOne(f, Fold(f, h, Whole(s)), b);
    } else {
      var b, c := r + Zeros(64 - |r|), Zeros(56) + length;
      FoldMore(f, h, Whole(s), b + c);
      FoldMore(f, Fold(f, h, Whole(s)), b, c);
      FoldOne(f, Fold(f, h, Whole(s)), b);
      FoldOne(f, f(Fold(f, h, Whole(s)), b), c);
    }
  }

  lemma FillUp(s: seq<byte>, t: seq<byte>)
    requires |Rest(s)| + |t| == 64
    ensures Rest(s + t) == []
  {
    var u := s + t;
    assert |u| == (|s| - |s| % 64) + 64;
    assert |u| % 64 == 0;
  }

  lemma WholePadded(s: seq<byte>)
    requires |s| % 64 == 0
    ensures Whole(s) == s && Rest(s) == []
  {
  }

  /** The left rotation by `n` bits. */
  function RotateLeft(x: word, n: bv6): word
    requires n < 32
  {
    (x << n) | (x >> (32 - n))
  }

  /** It is the rotation of the language, for every amount the two digests use. */
  lemma RotatesLeft(x: word)
    ensures RotateLeft(x, 1) == x.RotateLeft(1) && RotateLeft(x, 4) == x.RotateLeft(4)
    ensures RotateLeft(x, 5) == x.RotateLeft(5)
    ensures RotateLeft(x, 6) == x.RotateLeft(6) && RotateLeft(x, 7) == x.RotateLeft(7)
    ensures RotateLeft(x, 9) == x.RotateLeft(9)
    ensures RotateLeft(x, 10) == x.RotateLeft(10) && RotateLeft(x, 11) == x.RotateLeft(11)
    ensures RotateLeft(x, 12) == x.RotateLeft(12)
    ensures RotateLeft(x, 14) == x.RotateLeft(14) && RotateLeft(x, 15) == x.RotateLeft(15)
    ensures RotateLeft(x, 16) == x.RotateLeft(16)
    ensures RotateLeft(x, 17) == x.RotateLeft(17) && RotateLeft(x, 20) == x.RotateLeft(20)
    ensures RotateLeft(x, 21) == x.RotateLeft(21)
    ensures RotateLeft(x, 22) == x.RotateLeft(22) && RotateLeft(x, 23) == x.RotateLeft(23)
    ensures RotateLeft(x, 30) == x.RotateLeft(30)
  {
  }
}
