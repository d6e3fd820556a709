/** A random-access backing stream: bytes and a position. */
module Store {
  import opened BlockMath
  import opened Bytes
  import opened MyriadLayout
  import opened Numbers

  /** `s` padded with zeros up to length `n`. */
  function Padded(s: seq<byte>, n: nat): (t: seq<byte>)
    ensures |t| == Max(|s|, n) && t[..|s|] == s
  {
    if |s| < n then s + seq(n - |s|, _ => 0) else s
  }

  class Store {
    var data: seq<byte>
    var pos: nat
    const writable: bool

    constructor (data: seq<byte>, writable: bool)
      ensures this.data == data && pos == 0 && this.writable == writable
    {
      this.data, pos, this.writable := data, 0, writable;
    }

    method SetPos(p: nat)
      modifies `pos
      ensures pos == p
    {
      pos := p;
    }

    method SetPosEnd(p: nat)
      modifies `pos
      ensures pos == if p <= |data| then |data| - p else 0
    {
      pos := if p <= |data| then |data| - p else 0;
    }

    method Read(n: nat) returns (buf: seq<byte>)
      modifies `pos
      ensures pos == old(pos) + |buf|
      ensures old(pos) + n <= |data| ==> buf == data[old(pos)..old(pos) + n]
      ensures old(pos) + n > |data| ==> buf == if old(pos) <= |data| then data[old(pos)..] else []
    {
      if pos > |data| {
        buf := [];
      } else if pos + n > |data| {
        buf := data[pos..];
      } else {
        buf := data[pos..pos + n];
      }
      pos := pos + |buf|;
    }

    method Write(buf: seq<byte>)
      modifies this
      ensures pos == old(pos) + |buf|
      ensures data == Splice(Padded(old(data), old(pos)), old(pos), buf)
    {
      data := Splice(Padded(data, pos), pos, buf);
      pos := pos + |buf|;
    }

    method SetSize(n: nat)
      modifies `data
      ensures |data| == n
      ensures n >= |old(data)| ==> data == Padded(old(data), n)
      ensures n < |old(data)| ==> data == old(data)[..n]
    {
      data := if n <= |data| then data[..n] else Padded(data, n);
    }
  }
}
