/** Z80 register values, the state handed to a CPU extension handler, the sparse
    register overlay a handler returns, and the byte-level encodings shared by the
    two driver ABIs (the carry flag and 32-bit little-endian sector numbers). */
module Registers {

  type byte = x: int | 0 <= x < 0x100
  type word = x: int | 0 <= x < 0x1_0000
  type u32 = x: int | 0 <= x < 0x1_0000_0000

  datatype Option<+T> = None | Some(value: T)

  /** A trapped extension call: the extension code and the registers the handlers read. */
  datatype ExtState = ExtState(
    extNum: int,
    A: byte, B: byte, C: byte, F: byte,
    DE: word, HL: word, IX: word, IY: word)

  /** The register overlay a handler returns: only the fields that are `Some` are
      written back to the CPU; the others keep their values. */
  datatype Overlay = Overlay(
    A: Option<byte>, B: Option<byte>, C: Option<byte>, F: Option<byte>, HL: Option<word>)

  /** The overlay that sets nothing. */
  const NO_REGISTERS := Overlay(None, None, None, None, None)

  /** The byte codes of the characters of `s`, as stored into a byte array (`charCodeAt`,
      truncated to eight bits). */
  function CharCodes(s: string): (b: seq<byte>)
    ensures |b| == |s|
  {
    seq(|s|, i requires 0 <= i < |s| => s[i] as int % 0x100)
  }

  /** `F & 1`: bit 0 of the flag register. */
  function Carry(f: byte): (c: bool)
    ensures c <==> f % 2 == 1
  {
    (f as bv8) & 1 == 1
  }

  /** `F | 1`: the flags with the carry bit set. */
  function SetCarry(f: byte): (r: byte)
    ensures Carry(r)
    ensures r / 2 == f / 2
  {
    if Carry(f) then f else f + 1
  }

  /** `F & ~1`: the flags with the carry bit cleared. */
  function ClearCarry(f: byte): (r: byte)
    ensures !Carry(r)
    ensures r / 2 == f / 2
  {
    if Carry(f) then f - 1 else f
  }

  /** The number whose little-endian bytes are `b`: `b[0] | b[1] << 8 | b[2] << 16 | b[3] << 24`
      (the fields do not overlap, so the or of the shifted bytes is their weighted sum). */
  function Le32(b: seq<byte>): (x: u32)
    requires |b| == 4
    ensures x % 0x100 == b[0] && x / 0x100_0000 == b[3]
  {
    var b0, b1, b2, b3 := b[0] as int, b[1] as int, b[2] as int, b[3] as int;
    var x := b0 + 0x100 * b1 + 0x1_0000 * b2 + 0x100_0000 * b3;
    DivUnique(x, 0x100, b1 + 0x100 * b2 + 0x1_0000 * b3, b0);
    DivUnique(x, 0x100_0000, b3, b0 + 0x100 * b1 + 0x1_0000 * b2);
    x
  }

  /** The four bytes of `x`, least significant first: `x & 0xff, (x >> 8) & 0xff, ...`. */
  function Le32Bytes(x: u32): (b: seq<byte>)
    ensures |b| == 4
    ensures Le32(b) == x
  {
    var b := [x % 0x100, x / 0x100 % 0x100, x / 0x1_0000 % 0x100, x / 0x100_0000];
    ByteDigits(x);
    b
  }

  /** `x` is the sum of its four base-256 digits. */
  lemma ByteDigits(x: u32)
    ensures x == x % 0x100 + 0x100 * (x / 0x100 % 0x100)
                 + 0x1_0000 * (x / 0x1_0000 % 0x100) + 0x100_0000 * (x / 0x100_0000)
  {
    var q1, q2, q3 := x / 0x100, x / 0x1_0000, x / 0x100_0000;
    assert q1 / 0x100 == q2;
    assert q2 / 0x100 == q3;
    assert x == x % 0x100 + 0x100 * q1;
    assert q1 == q1 % 0x100 + 0x100 * q2;
    assert q2 == q2 % 0x100 + 0x100 * q3;
  }

  /** Four bytes are recovered from the number they encode: `Le32` is one-to-one. */
  lemma {:induction false} Le32BytesOfLe32(b: seq<byte>)
    requires |b| == 4
    ensures Le32Bytes(Le32(b)) == b
  {
    var x, b0, b1, b2, b3 := Le32(b), b[0] as int, b[1] as int, b[2] as int, b[3] as int;
    DivUnique(x, 0x100, b1 + 0x100 * b2 + 0x1_0000 * b3, b0);
    DivUnique(x, 0x1_0000, b2 + 0x100 * b3, b0 + 0x100 * b1);
    DivUnique(x, 0x100_0000, b3, b0 + 0x100 * b1 + 0x1_0000 * b2);
    DivUnique(b1 + 0x100 * b2 + 0x1_0000 * b3, 0x100, b2 + 0x100 * b3, b1);
    DivUnique(b2 + 0x100 * b3, 0x100, b3, b2);
  }

  /** Quotient and remainder are unique: `x == j * d + r` with `0 <= r < j` makes `d` the quotient. */
  lemma DivUnique(x: int, j: int, d: int, r: int)
    requires j > 0 && 0 <= r < j && x == j * d + r
    ensures x / j == d && x % j == r
  {
    var d', r' := x / j, x % j;
    assert j * (d - d') == r' - r;   // strictly between -j and j, so d - d' is 0
    if d - d' >= 1 {
      assert false;
    } else if d - d' <= -1 {
      assert false;
    }
  }

  /** The legacy ABI's sector number `(IY << 16) | IX`. */
  function Lba16Pair(lo: word, hi: word): (x: u32)
    ensures x % 0x1_0000 == lo && x / 0x1_0000 == hi
  {
    DivUnique(hi * 0x1_0000 + lo, 0x1_0000, hi, lo);
    hi * 0x1_0000 + lo
  }

  /** The legacy ABI's sector number is the little-endian number whose bytes are
      IX low, IX high, IY low, IY high: both ABIs address the same 32-bit sectors. */
  lemma Lba16PairIsLe32(lo: word, hi: word)
    ensures Lba16Pair(lo, hi) == Le32([lo % 0x100, lo / 0x100, hi % 0x100, hi / 0x100])
  {
  }
}
