/** The SHA-1 digest, fed in pieces. */
module Sha1 {
  import opened Bytes
  import opened HashBlocks

  datatype State = State(a: word, b: word, c: word, d: word, e: word)

  const INIT := State(0x67452301, 0xefcdab89, 0x98badcfe, 0x10325476, 0xc3d2e1f0)

  // ---- Sections 4.1.1, 4.2.1 and 6.1.2 of FIPS 180-4 ----

  function Ch(x: word, y: word, z: word): word { (x & y) ^ (!x & z) }

  function Parity(x: word, y: word, z: word): word { x ^ y ^ z }

  function Maj(x: word, y: word, z: word): word { (x & y) ^ (x & z) ^ (y & z) }

  function F(t: nat, x: word, y: word, z: word): word
  {
    if t < 20 then Ch(x, y, z) else if t < 40 then Parity(x, y, z) else if t < 60 then Maj(x, y, z) else Parity(x, y, z)
  }

  function K(t: nat): word
  {
    if t < 20 then 0x5a827999 else if t < 40 then 0x6ed9eba1 else if t < 60 then 0x8f1bbcdc else 0xca62c1d6
  }

  /** Word `t` of a block, the most significant byte first. */
  function BigWord(block: seq<byte>, t: nat): word
    requires 4 * t + 4 <= |block|
  {
    BigBytes(block[4 * t], block[4 * t + 1], block[4 * t + 2], block[4 * t + 3])
  }

  function BigBytes(a: byte, b: byte, c: byte, d: byte): word
  {
    (a as bv32 << 24) + (b as bv32 << 16) + (c as bv32 << 8) + d as bv32
  }

  function Schedule(block: seq<byte>, t: nat): word
    requires |block| == 64
  {
    if t < 16 then BigWord(block, t)
    else
      var w := Schedule(block, t - 3) ^ Schedule(block, t - 8) ^ Schedule(block, t - 14) ^ Schedule(block, t - 16);
      RotateLeft(w, 1)
  }

  /** The working variables after `t` rounds. */
  function Rounds(h: State, block: seq<byte>, t: nat): State
    requires |block| == 64
  {
    if t == 0 then h
    else
      var s := Rounds(h, block, t - 1);
      State(Plus(Plus(Plus(Plus(RotateLeft(s.a, 5), F(t - 1, s.b, s.c, s.d)), s.e), Schedule(block, t - 1)), K(t - 1)),
            s.a, RotateLeft(s.b, 30), s.c, s.d)
  }

  function Add(h: State, s: State): State
  {
    State(Plus(h.a, s.a), Plus(h.b, s.b), Plus(h.c, s.c), Plus(h.d, s.d), Plus(h.e, s.e))
  }

  function Compress(h: State, block: seq<byte>): State
  {
    if |block| == 64 then Add(h, Rounds(h, block, 80)) else h
  }

  // ---- Section 5.1.1, and the result ----

  function BigEndian(n: nat): (s: seq<byte>)
    ensures |s| == 4
  {
    [(n / 0x100_0000 % 256) as byte, (n / 0x1_0000 % 256) as byte, (n / 0x100 % 256) as byte, (n % 256) as byte]
  }

  /** A length in 64 bits. */
  function Length64(bits: nat): (s: seq<byte>)
    ensures |s| == 8
  {
    BigEndian(bits / TWO_TO_THE_32) + BigEndian(bits % TWO_TO_THE_32)
  }

  function Output(h: State): seq<byte>
  {
    BigEndian(h.a as nat) + BigEndian(h.b as nat) + BigEndian(h.c as nat) + BigEndian(h.d as nat)
      + BigEndian(h.e as nat)
  }

  /** The digest of a message whose length is given as `bits`. */
  function DigestAs(message: seq<byte>, bits: nat): seq<byte>
  {
    Output(Fold(Compress, INIT, Padded(message, Length64(bits))))
  }

  /** The digest of a message. */
  function Digest(message: seq<byte>): seq<byte>
  {
    DigestAs(message, 8 * |message|)
  }

  lemma SameChoice(b: word, c: word, d: word)
    ensures (b & c) | (!b & d) == (b & c) ^ (!b & d)
  {
  }

  lemma SameMajority(b: word, c: word, d: word)
    ensures (b & c) | (b & d) | (c & d) == (b & c) ^ (b & d) ^ (c & d)
  {
  }

  /** The code's choice and majority functions, which are the standard's. */
  function Choose(b: word, c: word, d: word): (f: word)
    ensures f == Ch(b, c, d)
  {
    SameChoice(b, c, d);
    (b & c) | (!b & d)
  }

  function Majority(b: word, c: word, d: word): (f: word)
    ensures f == Maj(b, c, d)
  {
    SameMajority(b, c, d);
    (b & c) | (b & d) | (c & d)
  }

  /** The two 32-bit halves of eight times a number of bytes, as the code computes them. */
  lemma LengthBytes(n: nat)
    requires n < TWO_TO_THE_32
    ensures BigEndian(n / 0x2000_0000) + BigEndian(n * 8 % TWO_TO_THE_32) == Length64(8 * n)
  {
    assert 8 * n / TWO_TO_THE_32 == n / 0x2000_0000;
  }

  /** One round. */
  lemma RoundStep(h: State, block: seq<byte>, t: nat)
    requires |block| == 64
    ensures Rounds(h, block, 0) == h
    ensures var s := Rounds(h, block, t);
            Rounds(h, block, t + 1)
            == State(Plus(Plus(Plus(Plus(RotateLeft(s.a, 5), F(t, s.b, s.c, s.d)), s.e), Schedule(block, t)), K(t)),
                     s.a, RotateLeft(s.b, 30), s.c, s.d)
  {
    hide RotateLeft, F, K, Schedule, Plus;
  }

  lemma ScheduleStep(block: seq<byte>, t: nat)
    requires |block| == 64
    ensures t < 16 ==> Schedule(block, t) == BigWord(block, t)
    ensures t >= 16 ==> Schedule(block, t) == RotateLeft(Schedule(block, t - 3) ^ Schedule(block, t - 8) ^
                                                         Schedule(block, t - 14) ^ Schedule(block, t - 16), 1)
  {
    hide RotateLeft, BigWord;
  }

  class Sha1 {
    var h0: word
    var h1: word
    var h2: word
    var h3: word
    var h4: word
    const bytes: array<byte>
    var unprocessed: nat
    var total: nat
    /** Everything added so far. */
    ghost var data: seq<byte>

    constructor ()
      ensures Valid() && data == [] && fresh(bytes)
    {
      bytes := new byte[64](_ => 0);
      h0, h1, h2, h3, h4 := 0x67452301, 0xefcdab89, 0x98badcfe, 0x10325476, 0xc3d2e1f0;
      unprocessed, total, data := 0, 0, [];
      new;
      FoldNothing();
    }

    static lemma FoldNothing()
      ensures Fold(Compress, INIT, Whole([])) == INIT && Rest([]) == []
    {
    }

    function H(): State
      reads `h0, `h1, `h2, `h3, `h4
    {
      State(h0, h1, h2, h3, h4)
    }

    /** The whole blocks were taken in, and the rest is in the buffer. */
    ghost predicate Valid()
      reads this, bytes
    {
      && bytes.Length == 64 && unprocessed == |Rest(data)| && bytes[..unprocessed] == Rest(data)
      && H() == Fold(Compress, INIT, Whole(data)) && total == |data| % TWO_TO_THE_32
    }

    method Reset()
      modifies this
      requires bytes.Length == 64
      ensures Valid() && data == []
    {
      hide Fold, Compress, Whole, Rest;
      FoldNothing();
      h0, h1, h2, h3, h4 := 0x67452301, 0xefcdab89, 0x98badcfe, 0x10325476, 0xc3d2e1f0;
      unprocessed, total, data := 0, 0, [];
    }

    /** Take the block in the buffer in. */
    method Process()
      requires bytes.Length == 64
      modifies `h0, `h1, `h2, `h3, `h4, `unprocessed
      ensures H() == Compress(old(H()), bytes[..]) && unprocessed == 0
    {
      hide F, K, RotateLeft, Schedule, Rounds, Plus;
      ghost var block, start := bytes[..], H();
      RoundStep(start, block, 0);
      var w := Expand();
      var a, b, c, d, e := h0, h1, h2, h3, h4;
      for t := 0 to 80
        invariant State(a, b, c, d, e) == Rounds(start, block, t) && H() == start
        invariant forall i :: 0 <= i < 80 ==> w[i] == Schedule(block, i)
      {
        var k, f;
        k, f := RoundParts(t, b, c, d);
        RoundStep(start, block, t);
        var temp := Plus(Plus(Plus(Plus(RotateLeft(a, 5), f), e), w[t]), k);
        e := d;
        d := c;
        c := RotateLeft(b, 30);
        b := a;
        a := temp;
      }
      h0, h1, h2, h3, h4 := Plus(h0, a), Plus(h1, b), Plus(h2, c), Plus(h3, d), Plus(h4, e);
      unprocessed := 0;
    }

    /** The constant and the function value of a round. */
    method RoundParts(t: nat, b: word, c: word, d: word) returns (k: word, f: word)
      ensures k == K(t) && f == F(t, b, c, d)
    {
      hide Ch, Maj, Parity, Choose, Majority;
      if t < 20 {
        k := 0x5a827999;
        f := Choose(b, c, d);
      } else if t < 40 {
        k := 0x6ed9eba1;
        f := Parity(b, c, d);
      } else if t < 60 {
        k := 0x8f1bbcdc;
        f := Majority(b, c, d);
      } else {
        k := 0xca62c1d6;
        f := Parity(b, c, d);
      }
    }

    /** The message schedule of the block in the buffer. */
    method Expand() returns (w: array<word>)
      requires bytes.Length == 64
      ensures fresh(w) && w.Length == 80 && forall t :: 0 <= t < 80 ==> w[t] == Schedule(bytes[..], t)
    {
      hide RotateLeft, Schedule, BigWord;
      w := new word[80](_ => 0);
      for t := 0 to 16
        invariant forall i :: 0 <= i < t ==> w[i] == Schedule(bytes[..], i)
      {
        ScheduleStep(bytes[..], t);
        w[t] := BigWord(bytes[..], t);
      }
      for t := 16 to 80
        invariant forall i :: 0 <= i < t ==> w[i] == Schedule(bytes[..], i)
      {
        ScheduleStep(bytes[..], t);
        w[t] := RotateLeft(w[t - 3] ^ w[t - 8] ^ w[t - 14] ^ w[t - 16], 1);
      }
    }

    method CopyIn(at: nat, piece: seq<byte>)
      requires bytes.Length == 64 && at + |piece| <= 64
      modifies bytes
      ensures bytes[..at + |piece|] == old(bytes[..at]) + piece
    {
      for i := 0 to |piece|
        invariant bytes[..at + i] == old(bytes[..at]) + piece[..i]
      {
        bytes[at + i] := piece[i];
      }
      assert piece[..|piece|] == piece;
    }

    /** Copy a piece that fits into the buffer, and take a full buffer in. */
    method AddPiece(piece: seq<byte>)
      requires Valid() && unprocessed + |piece| <= 64
      modifies this, bytes
      ensures Valid() && data == old(data) + piece
    {
      hide Fold, Compress, Whole, Rest;
      ghost var before := data;
      CopyIn(unprocessed, piece);
      data := data + piece;
      total := (total + |piece|) % TWO_TO_THE_32;
      unprocessed := unprocessed + |piece|;
      if unprocessed == 64 {
        RestFull(Compress, INIT, before, piece);
        assert bytes[..] == Rest(before) + piece;
        Process();
      } else {
        RestMore(before, piece);
      }
    }

    method AddData(message: seq<byte>)
      requires Valid()
      modifies this, bytes
      ensures Valid() && data == old(data) + message
    {
      hide Fold, Compress, Whole, Rest;
      var done := 0;
      while done < |message|
        invariant done <= |message| && Valid() && data == old(data) + message[..done]
      {
        var left, needed := |message| - done, 64 - unprocessed;
        var n := if left < needed then left else needed;
        assert message[..done] + message[done..done + n] == message[..done + n];
        AddPiece(message[done..done + n]);
        done := done + n;
      }
      assert message[..done] == message;
    }

    /** The digest. The padding stays in, so nothing can be added afterwards. The length is counted in 32 bits. */
    method GetResult() returns (digest: seq<byte>)
      requires Valid()
      modifies this, bytes
      ensures digest == DigestAs(old(data), 8 * (|old(data)| % TWO_TO_THE_32))
      ensures |old(data)| < TWO_TO_THE_32 ==> digest == Digest(old(data))
    {
      hide Fold, Compress, Whole, Rest, BigEndian, Length64, Padded;
      Pad();
      WholePadded(data);
      digest := BigEndian(h0 as nat) + BigEndian(h1 as nat) + BigEndian(h2 as nat) + BigEndian(h3 as nat)
                + BigEndian(h4 as nat);
    }

    /** The padding behind the message, with the length as it is counted. */
    method Pad()
      requires Valid()
      modifies this, bytes
      ensures Valid() && data == Padded(old(data), Length64(8 * (|old(data)| % TWO_TO_THE_32)))
    {
      hide Fold, Compress, Whole, Rest, BigEndian, Length64, Padded;
      var low, high := total * 8 % TWO_TO_THE_32, total / 0x2000_0000;
      LengthBytes(total);
      PadSteps(data, Length64(8 * total));
      AddData([0x80]);
      if unprocessed > 56 {
        AddData(Zeros(64 - unprocessed));
      }
      AddData(Zeros(56 - unprocessed) + (BigEndian(high) + BigEndian(low)));
    }
  }
}
