/** The optional value used for the error paths of the model. */
module Wrappers {
  datatype Option<+T> = None | Some(value: T)
}

/** Byte-level building blocks shared by the host tools and the programmer
    firmware: the 16-bit wrapping checksum, the low-byte-first split of a
    16-bit operand, the 3-byte command frame and the ASCII reply lines. */
module Bytes {

  /** An unsigned 8-bit value (C# `byte`, C `uint8_t`). */
  type byte = b: int | 0 <= b < 256

  /** An unsigned 16-bit value (C# `ushort`, C `uint16_t`). */
  type u16 = v: int | 0 <= v < 0x1_0000

  /** Concatenation regroups freely. */
  lemma AppendAssoc<T>(a: seq<T>, b: seq<T>, c: seq<T>)
    ensures a + b + c == a + (b + c)
  {
  }

  /** Plain (unbounded) sum of a byte sequence, accumulated from the front
      the way the source's `for` loops do. */
  function Sum(s: seq<byte>): (r: nat)
    ensures r <= 255 * |s|
  {
    if s == [] then 0 else Sum(s[..|s| - 1]) + s[|s| - 1]
  }

  /** The protocol checksum: the byte sum reduced modulo 65536, which is what
      a `ushort`/`uint16_t` accumulator holds after the loop. */
  function Checksum(s: seq<byte>): (r: u16)
  {
    Sum(s) % 0x1_0000
  }

  /** One step of the 16-bit accumulator: `chksum += b` on a `ushort`. */
  function AddWrap(acc: u16, b: byte): (r: u16)
  {
    (acc + b) % 0x1_0000
  }

  lemma {:induction false} SumAppend(s: seq<byte>, t: seq<byte>)
    ensures Sum(s + t) == Sum(s) + Sum(t)
  {
    if t == [] {
      assert s + t == s;
    } else {
      var t' := t[..|t| - 1];
      assert (s + t)[..|s + t| - 1] == s + t';
      SumAppend(s, t');
    }
  }

  /** Accumulating one more byte with wrap-around keeps the accumulator equal
      to the checksum of the prefix read so far. */
  lemma ChecksumSnoc(s: seq<byte>, b: byte)
    ensures Checksum(s + [b]) == AddWrap(Checksum(s), b)
  {
    assert (s + [b])[..|s + [b]| - 1] == s;
  }

  /** The checksum of a concatenation only depends on the parts' checksums. */
  lemma ChecksumAppend(s: seq<byte>, t: seq<byte>)
    ensures Checksum(s + t) == (Checksum(s) + Checksum(t)) % 0x1_0000
  {
    SumAppend(s, t);
    ModAdd(Sum(s), Sum(t));
  }

  /** Reducing the addends first does not change a sum's 16-bit remainder. */
  lemma ModAdd(a: nat, b: nat)
    ensures (a + b) % 0x1_0000 == (a % 0x1_0000 + b % 0x1_0000) % 0x1_0000
  {
    var qa, qb := a / 0x1_0000, b / 0x1_0000;
    assert a == qa * 0x1_0000 + a % 0x1_0000;
    assert b == qb * 0x1_0000 + b % 0x1_0000;
  }

  /** Low byte of the 32-bit value `(uint)x`, i.e. `(byte)(x & 0xFF)`. */
  function Lo(x: int): (r: byte)
  {
    x % 256
  }

  /** Second byte of `(uint)x`, i.e. `(byte)(x >> 8)`. */
  function Hi(x: int): (r: byte)
  {
    (x / 256) % 256
  }

  /** The 16-bit value the firmware reads from two operand bytes with
      `uart0Gets((uint8_t*) &param, 2)` on a little-endian target. */
  function Le16(lo: byte, hi: byte): (r: u16)
  {
    lo + 256 * hi
  }

  /** Splitting any integer and joining it again yields its low 16 bits, so
      only `x mod 65536` ever reaches the far end. */
  lemma {:induction false} SplitJoin(x: int)
    ensures Le16(Lo(x), Hi(x)) == x % 0x1_0000
  {
    var q := x / 0x1_0000;
    var m := x % 0x1_0000;
    assert x == q * 0x1_0000 + m;
    assert x / 256 == q * 256 + m / 256;
    assert (x / 256) % 256 == (m / 256) % 256;
    assert x % 256 == m % 256;
  }

  /** A 16-bit value is its own low 16 bits. */
  lemma Low16(v: u16)
    ensures v % 0x1_0000 == v
  {
  }

  /** The split of a 16-bit value is undone by `Le16`, and the bytes are
      determined by the value: the operand encoding is a bijection. */
  lemma JoinSplit(lo: byte, hi: byte)
    ensures Lo(Le16(lo, hi)) == lo && Hi(Le16(lo, hi)) == hi
  {
  }

  /** A 3-byte command: opcode followed by the operand, low byte first. */
  function Cmd(op: byte, operand: int): (r: seq<byte>)
    ensures |r| == 3 && r[0] == op
    ensures Le16(r[1], r[2]) == operand % 0x1_0000
  {
    SplitJoin(operand);
    [op, Lo(operand), Hi(operand)]
  }

  /** The bytes of a text reply as the firmware sends it with `uart0Write`:
      its characters (ASCII) followed by a line feed. */
  function LineBytes(text: string): (r: seq<byte>)
    ensures |r| == |text| + 1 && r[|text|] == 10
  {
    seq(|text|, i requires 0 <= i < |text| => (text[i] as int) % 256) + [10]
  }
}
