/** The stored format of a header in numbers: which byte of the store is what. */
module MyriadFormat {
  import opened BlockMath
  import opened Bytes
  import opened MyriadHeader
  import opened MyriadLayout
  import opened MyriadMeta

  /** The four bytes at `o` are the number `v`, the least significant byte first. */
  ghost predicate FieldAt(h: seq<byte>, o: nat, v: int)
  {
    && o + 4 <= |h|
    && h[o] as int == v % 256
    && h[o + 1] as int == v / 256 % 256
    && h[o + 2] as int == v / 65536 % 256
    && h[o + 3] as int == v / 16777216 % 256
  }

  /** Where record `i` begins: 8 bytes and 4 bytes for each block are the length of one. */
  function Start(recs: seq<Rec>, i: nat): nat
    requires i <= |recs|
  {
    if i == 0 then 14 else Start(recs, i - 1) + 8 + 4 * |recs[i - 1].blocks|
  }

  /** Six bytes that never change, the block size at 6, the number of streams at 10, and then for each stream its id,
      its size, and the blocks in use. */
  ghost predicate Layout(h: seq<byte>, block: nat, recs: seq<Rec>)
  {
    && Start(recs, |recs|) <= |h| && |h| >= 14
    && h[..6] == [0x0a, 0xd3, 0xfa, 0x84, 1, 32]
    && FieldAt(h, 6, block) && FieldAt(h, 10, |recs|)
    && forall i :: 0 <= i < |recs| ==> RecordAt(h, Start(recs, i), recs[i])
  }

  ghost predicate RecordAt(h: seq<byte>, o: nat, r: Rec)
  {
    && FieldAt(h, o, r.id) && FieldAt(h, o + 4, r.size)
    && forall k :: 0 <= k < |r.blocks| ==> FieldAt(h, o + 8 + 4 * k, r.blocks[k])
  }

  lemma Le32Bytes(v: int)
    ensures FieldAt(Le32(v), 0, v)
  {
    var q, u := v / TWO_TO_THE_32, v % TWO_TO_THE_32;
    assert v == 0x1_0000_0000 * q + u;
    ByteTwo(q, u);
    ByteThree(q, u);
    ByteFour(q, u);
    assert v % 256 == u % 256;
  }

  lemma ByteTwo(q: int, u: nat)
    requires u < 0x1_0000_0000
    ensures (0x1_0000_0000 * q + u) / 256 % 256 == u / 256 % 256
  {
    var x, a := 0x1_0000_0000 * q + u, u / 256;
    assert x / 256 == 0x100_0000 * q + a;
    LowByte(0x1_0000 * q, a);
  }

  lemma LowByte(k: int, a: nat)
    ensures (256 * k + a) % 256 == a % 256
  {
  }

  lemma ByteThree(q: int, u: nat)
    requires u < 0x1_0000_0000
    ensures (0x1_0000_0000 * q + u) / 65536 % 256 == u / 256 / 256 % 256
  {
    var x, a, b := 0x1_0000_0000 * q + u, u / 256, u / 256 / 256;
    var r := 256 * (a % 256) + u % 256;
    assert x == 65536 * (0x1_0000 * q + b) + r;
    Quotient(0x1_0000 * q + b, r);
    LowByte(0x100 * q, b);
  }

  lemma Quotient(n: int, r: nat)
    ensures r < 65536 ==> (65536 * n + r) / 65536 == n
    ensures r < 16777216 ==> (16777216 * n + r) / 16777216 == n
  {
  }

  lemma ByteFour(q: int, u: nat)
    requires u < 0x1_0000_0000
    ensures (0x1_0000_0000 * q + u) / 16777216 % 256 == u / 256 / 256 / 256 < 256
  {
    var x, a, b, c := 0x1_0000_0000 * q + u, u / 256, u / 256 / 256, u / 256 / 256 / 256;
    var r := 65536 * (b % 256) + 256 * (a % 256) + u % 256;
    assert x == 16777216 * (0x100 * q + c) + r;
    Quotient(0x100 * q + c, r);
    LowByte(q, c);
  }

  /** A field holds the bytes that are written for its number, and no other number's. */
  lemma FieldIs(h: seq<byte>, o: nat, v: int)
    requires o + 4 <= |h|
    ensures FieldAt(h, o, v) <==> h[o..o + 4] == Le32(v)
  {
    Le32Bytes(v);
    hide Le32;
    var s := h[o..o + 4];
    assert s[0] == h[o] && s[1] == h[o + 1] && s[2] == h[o + 2] && s[3] == h[o + 3];
  }

  lemma {:induction false} StartIs(recs: seq<Rec>, i: nat)
    requires i <= |recs|
    ensures Start(recs, i) == RecOffset(recs, i)
  {
    if i > 0 {
      StartIs(recs, i - 1);
      RecOffsetStep(recs, i - 1);
    }
  }

  /** The bytes `d` come in `h` behind `p`. */
  lemma Behind(h: seq<byte>, p: seq<byte>, d: seq<byte>)
    requires p <= h && |p| + |d| <= |h|
    ensures p + d <= h <==> h[|p|..|p| + |d|] == d
  {
    if p + d <= h {
      assert h[..|p| + |d|] == p + d;
    }
  }

  /** A store begins with a header exactly when its bytes are laid out so. */
  lemma LayoutExactly(h: seq<byte>, block: nat, recs: seq<Rec>)
    ensures HeaderBytes(block, recs) <= h <==> Layout(h, block, recs)
  {
    hide HeaderBytes;
    PreambleParts(block, recs);
    StartIs(recs, |recs|);
    RecOffsetEnd(block, recs);
    if HeaderBytes(block, recs) <= h {
      PreambleLaidOut(h, block, recs);
      forall i | 0 <= i < |recs|
        ensures RecordAt(h, Start(recs, i), recs[i])
      {
        RecordLaidOut(h, block, recs, i);
      }
    }
    if Layout(h, block, recs) {
      PreambleLaidOut(h, block, recs);
      LaidOutUpTo(h, block, recs, |recs|);
    }
  }

  lemma PreambleLaidOut(h: seq<byte>, block: nat, recs: seq<Rec>)
    requires |h| >= 14
    ensures Before(block, recs, 0) <= h <==>
            h[..6] == [0x0a, 0xd3, 0xfa, 0x84, 1, 32] && FieldAt(h, 6, block) && FieldAt(h, 10, |recs|)
  {
    hide Le32, FieldAt;
    FieldIs(h, 6, block);
    FieldIs(h, 10, |recs|);
    assert recs[..0] == [];
    var first: seq<byte> := [0x0a, 0xd3, 0xfa, 0x84, 1, 32];
    assert Before(block, recs, 0) == first + Le32(block) + Le32(|recs|);
    if h[..6] == first {
      Behind(h, first, Le32(block));
      if first + Le32(block) <= h {
        Behind(h, first + Le32(block), Le32(|recs|));
      }
    }
    if Before(block, recs, 0) <= h {
      assert h[..14] == Before(block, recs, 0);
      assert h[..6] == h[..14][..6] && h[6..10] == h[..14][6..10] && h[10..14] == h[..14][10..14];
    }
  }

  lemma BeforeLength(block: nat, recs: seq<Rec>, i: nat)
    requires i <= |recs|
    ensures |Before(block, recs, i)| == Start(recs, i)
    ensures i < |recs| ==>
              forall k :: 0 <= k <= |recs[i].blocks| ==> |SoFar(block, recs, i, k)| == Start(recs, i) + 8 + 4 * k
  {
    StartIs(recs, i);
  }

  lemma RecordLaidOut(h: seq<byte>, block: nat, recs: seq<Rec>, i: nat)
    requires i < |recs| && HeaderBytes(block, recs) <= h
    ensures RecordAt(h, Start(recs, i), recs[i])
  {
    hide HeaderBytes, Le32, Before, SoFar, FieldAt, Start;
    var o, r := Start(recs, i), recs[i];
    FieldsOfRecord(block, recs, i);
    BeforeLength(block, recs, i);
    var b := Before(block, recs, i);
    Field(h, b, r.id);
    Field(h, b + Le32(r.id), r.size);
    forall k | 0 <= k < |r.blocks|
      ensures FieldAt(h, o + 8 + 4 * k, r.blocks[k])
    {
      FieldOfBlock(block, recs, i, k);
      Field(h, SoFar(block, recs, i, k), r.blocks[k]);
    }
  }

  lemma Field(h: seq<byte>, p: seq<byte>, v: int)
    requires p + Le32(v) <= h
    ensures p <= h && FieldAt(h, |p|, v)
  {
    hide Le32, FieldAt;
    FieldIs(h, |p|, v);
    assert h[..|p| + 4] == p + Le32(v);
    assert h[|p|..|p| + 4] == h[..|p| + 4][|p|..];
  }

  lemma {:induction false} LaidOutUpTo(h: seq<byte>, block: nat, recs: seq<Rec>, i: nat)
    requires i <= |recs| && Layout(h, block, recs) && Before(block, recs, 0) <= h
    ensures Before(block, recs, i) <= h
  {
    hide Before, RecordAt, Start, FieldAt;
    if i > 0 {
      LaidOutUpTo(h, block, recs, i - 1);
      RecordGrows(h, block, recs, i - 1);
    }
  }

  lemma RecordGrows(h: seq<byte>, block: nat, recs: seq<Rec>, i: nat)
    requires i < |recs| && Before(block, recs, i) <= h && RecordAt(h, Start(recs, i), recs[i])
    ensures Before(block, recs, i + 1) <= h
  {
    hide Le32, Before, SoFar, FieldAt, Start;
    var b, r := Before(block, recs, i), recs[i];
    BeforeLength(block, recs, i);
    FieldsOfRecord(block, recs, i);
    Grows(h, b, r.id);
    Grows(h, b + Le32(r.id), r.size);
    BlocksUpTo(h, block, recs, i, |r.blocks|);
  }

  lemma Grows(h: seq<byte>, p: seq<byte>, v: int)
    requires p <= h && FieldAt(h, |p|, v)
    ensures p + Le32(v) <= h
  {
    FieldIs(h, |p|, v);
    Behind(h, p, Le32(v));
  }

  lemma {:induction false} BlocksUpTo(h: seq<byte>, block: nat, recs: seq<Rec>, i: nat, k: nat)
    requires i < |recs| && k <= |recs[i].blocks| && SoFar(block, recs, i, 0) <= h
    requires RecordAt(h, Start(recs, i), recs[i])
    ensures SoFar(block, recs, i, k) <= h
    decreases k
  {
    hide Le32, SoFar, FieldAt, Start, Before;
    if k > 0 {
      BlocksUpTo(h, block, recs, i, k - 1);
      BeforeLength(block, recs, i);
      FieldOfBlock(block, recs, i, k - 1);
      Grows(h, SoFar(block, recs, i, k - 1), recs[i].blocks[k - 1]);
    }
  }
}
