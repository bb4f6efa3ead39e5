/** The reader of gzip.c: file_read delivers the input in chunks of any size, and keeps
    the checksum and the length of what has been read. */
module Input {
  import opened Bits
  import opened LengthPasses

  /** A checksum that is computed byte by byte. */
  function Crc(step: (nat, byte) -> nat, start: nat, s: seq<byte>): nat
  {
    if s == [] then start else step(Crc(step, start, s[..|s| - 1]), s[|s| - 1])
  }

  /** Reading in chunks does not change the checksum. */
  lemma {:induction false} CrcConcat(step: (nat, byte) -> nat, start: nat, a: seq<byte>, b: seq<byte>)
    ensures Crc(step, start, a + b) == Crc(step, Crc(step, start, a), b)
    decreases |b|
  {
    if b == [] {
      assert a + b == a;
    } else {
      CrcConcat(step, start, a, b[..|b| - 1]);
      assert (a + b)[..|a + b| - 1] == a + b[..|b| - 1];
    }
  }

  class Source {
    const data: seq<byte>               // the whole input
    const step: (nat, byte) -> nat      // one byte of crc32_block_endian0
    const crc0: nat
    var pos: nat                        // how much of it has been read
    var failed: bool                    // whether a read has failed
    var crc: nat
    var isize: nat

    ghost predicate Valid()
      reads this
    {
      pos <= |data| && crc == Crc(step, crc0, data[..pos]) && isize == Wrap(pos)
    }

    constructor (data: seq<byte>, step: (nat, byte) -> nat, crc0: nat)
      ensures Valid() && pos == 0 && !failed && this.data == data && this.step == step && this.crc0 == crc0
    {
      this.data, this.step, this.crc0 := data, step, crc0;
      pos, failed, crc, isize := 0, false, crc0, 0;
    }

    /** updcrc */
    method UpdCrc(buf: array<byte>, at: nat, n: nat)
      requires at + n <= buf.Length
      modifies this`crc
      ensures crc == Crc(step, old(crc), buf[at..at + n])
    {
      var i := 0;
      assert buf[at..at] == [];
      while i < n
        invariant i <= n && crc == Crc(step, old(crc), buf[at..at + i])
      {
        crc := step(crc, buf[at + i]);
        i := i + 1;
        assert buf[at..at + i][..i - 1] == buf[at..at + i - 1];
      }
    }

    /** The bytes that a read puts into the buffer. */
    method Deliver(buf: array<byte>, at: nat, n: nat)
      requires at + n <= buf.Length && pos + n <= |data|
      modifies buf
      ensures buf[at..at + n] == data[pos..pos + n]
      ensures forall j :: 0 <= j < buf.Length && !(at <= j < at + n) ==> buf[j] == old(buf[j])
    {
      for i := 0 to n
        invariant buf[at..at + i] == data[pos..pos + i]
        invariant forall j :: 0 <= j < buf.Length && !(at <= j < at + i) ==> buf[j] == old(buf[j])
      {
        buf[at + i] := data[pos + i];
        assert buf[at..at + i + 1] == buf[at..at + i] + [data[pos + i]];
      }
    }

    /** file_read: up to size bytes, at least one unless the input is at its end (0) or the
        read fails (-1). */
    method FileRead(buf: array<byte>, at: nat, size: nat) returns (n: int)
      requires Valid() && at + size <= buf.Length && size >= 2
      modifies this`pos, this`failed, this`crc, this`isize, buf
      ensures Valid() && -1 <= n <= size
      ensures n <= 0 ==> pos == old(pos) && buf[..] == old(buf[..])
      ensures n > 0 ==> pos == old(pos) + n && buf[at..at + n] == data[old(pos)..pos]
      ensures n == 0 ==> pos == |data|
      ensures failed == (old(failed) || n == -1)
      ensures forall i :: 0 <= i < buf.Length && !(at <= i < at + n) ==> buf[i] == old(buf[i])
    {
      hide Crc;
      n :| -1 <= n <= size && pos + n <= |data| && (n == 0 ==> pos == |data|);
      if n == -1 {
        failed := true;
        return;
      }
      if n == 0 { return; }
      ghost var pos0 := pos;
      Deliver(buf, at, n);
      UpdCrc(buf, at, n);
      CrcConcat(step, crc0, data[..pos], data[pos..pos + n]);
      assert data[..pos] + data[pos..pos + n] == data[..pos + n];
      pos := pos + n;
      WrapAdd(pos0, n);
      isize := Wrap(isize + n);
    }
  }
}
