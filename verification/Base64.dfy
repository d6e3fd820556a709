/** The Base64 filter: writes are encoded into lines, reads are decoded, in pieces of any size. */
module Base64 {
  import opened Base64Codec
  import opened BlockMath
  import opened Bytes
  import opened Numbers
  import opened Wrappers

  datatype Base64Error = WrongMode | BadInput(end: End)

  datatype Mode = Nothing | Encoding | Decoding

  class Base64 {
    /** The stream behind the filter: what was written to it, and what is left to read from it. */
    var sink: seq<byte>
    var source: seq<byte>
    const line: nat
    var mode: Mode
    // Encoding: bytes collected, their number, characters in the current line, characters written.
    var buf: nat
    var bpos: nat
    var curChunk: nat
    var totalOut: nat
    /** All bytes written to the filter, and all characters of the encoding so far. */
    ghost var given: seq<byte>
    ghost var chars: seq<byte>
    // Decoding: a group's value, the next byte of it, the number of its bytes.
    var group: nat
    var rpos: int
    var count: int
    var eosIn: bool

    constructor (source: seq<byte>, line: nat)
      requires line == 0 || line >= 4
      ensures Valid() && this.line == line && this.source == source && sink == [] && given == [] && mode == Nothing
      ensures Rest() == Decode(Solid(source), false) && totalOut == 0 && chars == []
    {
      sink, this.source, this.line, mode := [], source, line, Nothing;
      buf, bpos, curChunk, totalOut, given, chars := 0, 0, 0, 0, [], [];
      group, rpos, count, eosIn := 0, 0, 0, false;
      new;
      assert Wrap([], line) == [];
      assert Whole(given, 0) == [] && given[0..] == [];
      PrependNothing(Decode(Solid(source), false));
    }

    /** The text written so far is the encoding so far, in lines. */
    ghost predicate LinesOk()
      reads `sink, `chars, `curChunk, `totalOut
    {
      && (line == 0 || line >= 4)
      && sink == Wrap(chars, line) && (line > 0 ==> curChunk == InLine(|chars|, line))
      && totalOut == |sink|
    }

    /** What is not encoded yet is collected. */
    ghost predicate Holding()
      reads `given, `bpos, `buf
    {
      Held(given, bpos, buf)
    }

    /** The encoding so far is that of all whole groups of three bytes. */
    ghost predicate InStep()
      reads `given, `bpos, `chars
    {
      bpos <= |given| && chars == Encode(Whole(given, bpos))
    }

    ghost predicate Valid()
      reads this
      ensures Valid() ==> Reading()
    {
      LinesOk() && Holding() && InStep() && Reading()
    }

    ghost predicate Reading()
      reads `group, `rpos, `count, `eosIn
    {
      group < 0x100_0000 && (0 <= rpos <= count <= 3 || (count == -1 && eosIn && -1 <= rpos <= 0))
    }

    // ---- Encoding ----

    /** Write four characters, with a line end where the line is full. */
    method PutGroup(q: seq<byte>)
      requires LinesOk() && |q| == 4
      modifies `sink, `curChunk, `chars, `totalOut
      ensures LinesOk() && chars == old(chars) + q && |sink| > |old(sink)|
    {
      WrapMore(chars, q, line);
      chars := chars + q;
      curChunk := curChunk + 4;
      var before := |sink|;
      if line > 0 && curChunk >= line {
        curChunk := curChunk - line;
        sink := sink + q[..4 - curChunk];
        sink := sink + CRLF;
        sink := sink + q[4 - curChunk..];
      } else {
        sink := sink + q;
      }
      totalOut := totalOut + (|sink| - before);
    }

    method PutByte(b: byte)
      requires Valid()
      modifies `sink, `curChunk, `chars, `totalOut, `buf, `bpos, `given
      ensures Valid() && given == old(given) + [b] && |sink| >= |old(sink)|
    {
      hide Held, Added, Whole, Encode, Digits, Wrap, InLine;
      ghost var before := given;
      given := given + [b];
      if bpos < 2 {
        CollectByte(before, bpos, buf, b);
        buf := Added(buf, bpos, b);
        bpos := bpos + 1;
      } else {
        CollectLast(before, buf, b);
        buf := Added(buf, bpos, b);
        PutGroup(Digits(buf));
        bpos, buf := 0, 0;
      }
    }

    method Write(data: seq<byte>) returns (r: Result<nat, Base64Error>)
      requires Valid()
      modifies this
      ensures Valid()
      ensures old(mode) == Decoding ==> r == Err(WrongMode) && sink == old(sink) && given == old(given)
      ensures old(mode) != Decoding ==>
                r == Ok(|sink| - |old(sink)|) && mode == Encoding && given == old(given) + data
    {
      hide Held, Whole, Encode, Wrap, InLine;
      if mode == Decoding {
        return Err(WrongMode);
      }
      mode := Encoding;
      var before := totalOut;
      for j := 0 to |data|
        invariant Valid() && given == old(given) + data[..j] && totalOut >= before && mode == Encoding
      {
        PutByte(data[j]);
        assert data[..j] + [data[j]] == data[..j + 1];
      }
      assert data[..|data|] == data;
      r := Ok(totalOut - before);
    }

    /** Finish the encoding: what is collected is written with padding. Nothing is reset, so every further call
        writes the padded group once more. */
    method Stop() returns (total: nat)
      requires LinesOk() && Holding()
      modifies `sink, `curChunk, `chars, `totalOut
      ensures LinesOk() && Holding()
      ensures mode == Encoding ==> total == |sink| && chars == old(chars) + Final(given)
      ensures mode != Encoding ==> sink == old(sink) && chars == old(chars)
      // After the first call the text is the canonical encoding of everything that was written, in lines.
      ensures mode == Encoding && old(InStep()) ==> sink == Wrap(Encode(given), line)
    {
      hide Held, Whole, Encode, Wrap, InLine, Final, Digits;
      total := 0;
      if mode == Encoding {
        FinalEncodes(given, bpos, buf);
        if bpos == 0 {
          FinalNothing(given);
          return totalOut;
        }
        var q := Digits(buf);
        PutGroup(q[..bpos + 1] + seq(3 - bpos, _ => PAD));
        return totalOut;
      }
    }

    static lemma FinalNothing(s: seq<byte>)
      requires |s| % 3 == 0
      ensures Final(s) == []
    {
    }

    // ---- Decoding ----

    /** What the filter still has to give. */
    ghost function Rest(): Decoded
      requires Reading()
      reads `group, `rpos, `count, `eosIn, `source
    {
      if count == -1 then (if rpos == 0 then Decode(Solid(source), true) else Decoded([], Clean))
      else Prepend(ThreeBytes(group)[rpos..count], Behind())
    }

    /** What comes after the group in hand. */
    ghost function Behind(): Decoded
      reads `eosIn, `source
    {
      if eosIn then Decoded([], Clean) else Decode(Solid(source), false)
    }

    /** Take four characters that are not white space, or as many as there are. */
    method Gather() returns (q: seq<byte>)
      modifies `source
      ensures |q| <= 4 && (|q| < 4 ==> source == [])
      ensures q == if |Solid(old(source))| < 4 then Solid(old(source)) else Solid(old(source))[..4]
      ensures |q| == 4 ==> Solid(source) == Solid(old(source))[4..] && |source| < |old(source)|
    {
      q := [];
      while |q| < 4 && source != []
        invariant |q| <= 4 && |q| + |source| <= |old(source)|
        invariant q + Solid(source) == Solid(old(source))
        decreases |source|
      {
        var c := source[0];
        source := source[1..];
        if !IsSpace(c) {
          q := q + [c];
        }
      }
    }

    /** The next byte of the group in hand. */
    function Byte(): byte
      requires group < 0x100_0000 && 0 <= rpos < 3
      reads this
    {
      ThreeBytes(group)[rpos]
    }

    /** Give bytes of the group in hand, until it or the room for them is used up. */
    method Drain(room: nat) returns (out: seq<byte>)
      requires Reading()
      modifies `rpos
      ensures Reading() && |out| <= room && Prepend(out, Rest()) == old(Rest())
      ensures rpos == count || |out| == room || (count == -1 && out == [])
      ensures old(rpos) > count ==> rpos == old(rpos)
      ensures rpos >= old(rpos) && (count == -1 ==> rpos == old(rpos))
    {
      hide Decode, ThreeBytes, Solid, Prepend, Base64.Behind;
      out := [];
      PrependNothing(Rest());
      while rpos < count && |out| < room
        invariant Reading() && |out| <= room && Prepend(out, Rest()) == old(Rest())
        invariant rpos >= old(rpos) && (count == -1 ==> rpos == old(rpos) && out == [])
        decreases count - rpos
      {
        DrainStep(out, ThreeBytes(group), rpos, count, Behind());
        out := out + [Byte()];
        rpos := rpos + 1;
      }
    }

    /** Read the next group. Fails when the input ends within it or it holds a byte that cannot be decoded. */
    method NextGroup() returns (r: Result<bool, Base64Error>)
      requires Reading() && ((rpos == count && !eosIn) || (count == -1 && rpos == 0))
      modifies `source, `group, `rpos, `count, `eosIn
      ensures r.Ok? ==> Reading() && Rest() == old(Rest())
      ensures r == Ok(true) ==> |source| < |old(source)|
      ensures r == Ok(false) ==> eosIn && rpos == count
      ensures r.Err? ==> r.error.BadInput? && old(Rest()) == Decoded([], r.error.end) && r.error.end != Clean
    {
      hide Decode, Solid, Value, PadCount, ThreeBytes, Decodable;
      ghost var last := eosIn;
      ghost var text := Solid(source);
      RestIsDecode();
      rpos := 0;
      var q := Gather();
      if |q| < 4 {
        DecodeShort(text, last);
        rpos := count;
        eosIn := true;
        NothingLeft();
        if q != [] {
          return Err(BadInput(Premature));
        }
        return Ok(false);
      }
      if !Decodable(q) {
        DecodeBad(text, last);
        return Err(BadInput(BadCharacter));
      }
      DecodeStep(text, last);
      count := 3 - PadCount(q);
      eosIn := eosIn || PadCount(q) > 0;
      group := Value(q);
      return Ok(true);
    }

    /** Between two groups what is left is what the text behind decodes to. */
    lemma RestIsDecode()
      requires Reading() && ((rpos == count && !eosIn) || (count == -1 && rpos == 0))
      ensures Rest() == Decode(Solid(source), eosIn)
    {
      PrependNothing(Decode(Solid(source), eosIn));
    }

    /** Read up to `n` bytes of what the text decodes to. */
    method Read(n: nat) returns (r: Result<seq<byte>, Base64Error>)
      requires Valid()
      modifies `mode, `source, `group, `rpos, `count, `eosIn
      ensures old(mode) == Encoding ==> r == Err(WrongMode) && Valid() && Rest() == old(Rest())
      ensures old(mode) != Encoding ==> mode == Decoding
      // The next bytes, as many as there are, whatever was read before.
      ensures r.Ok? ==>
                && Valid() && r.value == old(Rest()).bytes[..Min(n, |old(Rest()).bytes|)]
                && Rest() == Decoded(old(Rest()).bytes[Min(n, |old(Rest()).bytes|)..], old(Rest()).end)
                && (n > |old(Rest()).bytes| ==> Rest().end == Clean)
      // An error is reported only when all the bytes before it are asked for.
      ensures r.Err? && old(mode) != Encoding ==>
                r.error == BadInput(old(Rest()).end) && old(Rest()).end != Clean && n >= |old(Rest()).bytes|
    {
      hide Decode, ThreeBytes, Solid, Prepend, LinesOk, Holding, InStep, Rest, Min;
      if mode == Encoding {
        return Err(WrongMode);
      }
      mode := Decoding;
      ghost var all := Rest();
      PrependNothing(Rest());
      if eosIn && rpos == count {
        NothingLeft();
        ReadDone(all, [], Rest(), n);
        return Ok([]);
      }
      var out := [];
      while |out| < n
        invariant Valid() && |out| <= n && Prepend(out, Rest()) == all && mode == Decoding
        decreases |source|
      {
        var more := Drain(n - |out|);
        ReadMore(out, more, Rest());
        out := out + more;
        if rpos == count {
          if eosIn {
            NothingLeft();
            ReadDone(all, out, Rest(), n);
            return Ok(out);
          }
        } else if |out| == n {
          ReadDone(all, out, Rest(), n);
          return Ok(out);
        }
        var found := NextGroup();
        if found.Err? {
          ReadFailed(all, out, found.error.end);
          return Err(found.error);
        }
        if !found.value {
          NothingLeft();
          ReadDone(all, out, Rest(), n);
          return Ok(out);
        }
      }
      ReadDone(all, out, Rest(), n);
      r := Ok(out);
    }

    lemma NothingLeft()
      requires Reading() && eosIn && rpos == count
      ensures Rest() == Decoded([], Clean)
    {
    }

    static lemma ReadFailed(all: Decoded, out: seq<byte>, end: End)
      requires Prepend(out, Decoded([], end)) == all
      ensures all.end == end && |all.bytes| == |out|
    {
    }

    method IsEos() returns (eos: bool)
      requires Valid()
      ensures eos ==> Rest() == Decoded([], Clean)
    {
      eos := eosIn && rpos == count;
    }

    static lemma DrainStep(out: seq<byte>, b: seq<byte>, at: nat, n: nat, d: Decoded)
      requires at < n <= |b|
      ensures Prepend(out, Prepend(b[at..n], d)) == Prepend(out + [b[at]], Prepend(b[at + 1..n], d))
    {
      assert b[at..n] == [b[at]] + b[at + 1..n];
      assert out + ([b[at]] + b[at + 1..n] + d.bytes) == out + [b[at]] + (b[at + 1..n] + d.bytes);
    }

    static lemma ReadMore(out: seq<byte>, more: seq<byte>, rest: Decoded)
      ensures Prepend(out + more, rest) == Prepend(out, Prepend(more, rest))
    {
      assert out + (more + rest.bytes) == out + more + rest.bytes;
    }

    /** What was read is the first part of what there was. */
    static lemma ReadDone(all: Decoded, out: seq<byte>, rest: Decoded, n: nat)
      requires Prepend(out, rest) == all && |out| <= n
      requires |out| == n || rest == Decoded([], Clean)
      ensures out == all.bytes[..Min(n, |all.bytes|)] && rest == Decoded(all.bytes[Min(n, |all.bytes|)..], all.end)
      ensures n > |all.bytes| ==> rest.end == Clean
    {
    }

    static lemma PrependNothing(d: Decoded)
      ensures Prepend([], d) == d && Prepend(d.bytes, Decoded([], d.end)) == d
    {
    }
  }

  function Total(sizes: seq<nat>): nat
  {
    if sizes == [] then 0 else Total(sizes[..|sizes| - 1]) + sizes[|sizes| - 1]
  }

  /** Write the parts one after the other, and stop. */
  method EncodeParts(parts: seq<seq<byte>>, line: nat) returns (text: seq<byte>)
    requires line == 0 || line >= 4
    ensures text == Wrap(Encode(Concat(parts)), line)
  {
    hide Encode, Wrap, Held, Whole, InLine;
    var encoder := new Base64([], line);
    var _ := encoder.Write([]);
    for i := 0 to |parts|
      invariant encoder.Valid() && encoder.given == Concat(parts[..i]) && encoder.mode == Encoding
    {
      var _ := encoder.Write(parts[i]);
      ConcatOne(parts, i);
    }
    assert parts[..|parts|] == parts;
    var _ := encoder.Stop();
    text := encoder.sink;
  }

  /** Read in pieces of the given sizes. */
  method DecodeParts(text: seq<byte>, sizes: seq<nat>, ghost all: seq<byte>) returns (data: seq<byte>)
    requires Decode(Solid(text), false) == Decoded(all, Clean)
    ensures data == all[..Min(Total(sizes), |all|)]
  {
    hide Decode, Solid, Min, Total, Base64.Valid, Base64.Rest, Base64.Reading;
    var decoder := new Base64(text, 0);
    data := [];
    ReadStart(all);
    NoTotal();
    ghost var k := 0;
    for i := 0 to |sizes|
      invariant decoder.Valid() && decoder.mode != Encoding
      invariant k == Total(sizes[..i]) && data == all[..Min(k, |all|)]
      invariant decoder.Rest() == Decoded(all[Min(k, |all|)..], Clean)
    {
      TotalStep(sizes, i);
      data := ReadPiece(decoder, sizes[i], data, all, k);
      k := k + sizes[i];
    }
    assert sizes[..|sizes|] == sizes;
  }

  lemma NoTotal()
    ensures Total([]) == 0
  {
  }

  lemma TotalStep(sizes: seq<nat>, i: nat)
    requires i < |sizes|
    ensures Total(sizes[..i + 1]) == Total(sizes[..i]) + sizes[i]
  {
    assert sizes[..i + 1][..i] == sizes[..i];
  }

  method ReadPiece(decoder: Base64, n: nat, before: seq<byte>, ghost all: seq<byte>, ghost k: nat)
    returns (data: seq<byte>)
    requires decoder.Valid() && decoder.mode != Encoding && before == all[..Min(k, |all|)]
    requires decoder.Rest() == Decoded(all[Min(k, |all|)..], Clean)
    modifies decoder
    ensures decoder.Valid() && decoder.mode != Encoding && data == all[..Min(k + n, |all|)]
    ensures decoder.Rest() == Decoded(all[Min(k + n, |all|)..], Clean)
  {
    hide Decode, Solid, Min;
    var piece := decoder.Read(n);
    ReadOn(all, k, n);
    data := before + piece.value;
  }

  lemma ReadStart(all: seq<byte>)
    ensures Min(0, |all|) == 0 && all[..0] == [] && all[0..] == all
  {
  }

  /** However the bytes are cut up for writing, however long the lines are, and however the reads are cut up:
      what is read is what was written. */
  method Through(parts: seq<seq<byte>>, line: nat, sizes: seq<nat>) returns (text: seq<byte>, data: seq<byte>)
    requires line == 0 || line >= 4
    ensures text == Wrap(Encode(Concat(parts)), line)
    ensures data == Concat(parts)[..Min(Total(sizes), |Concat(parts)|)]
  {
    text := EncodeParts(parts, line);
    RoundTrip(Concat(parts), line);
    data := DecodeParts(text, sizes, Concat(parts));
  }

  lemma ReadOn(all: seq<byte>, k: nat, n: nat)
    ensures var rest := all[Min(k, |all|)..];
            && all[..Min(k, |all|)] + rest[..Min(n, |rest|)] == all[..Min(k + n, |all|)]
            && rest[Min(n, |rest|)..] == all[Min(k + n, |all|)..]
  {
  }
}
