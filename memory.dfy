/** The guest's 64 KiB address space as the driver sees it through the machine bus:
    single-byte reads and writes, addresses taken modulo 64 KiB. */
module Memory {
  import opened Registers

  const MEM_SIZE := 0x1_0000

  /** The cell an address designates. */
  function Cell(a: int): (i: nat)
    ensures i < MEM_SIZE
    ensures (i - a) % MEM_SIZE == 0
  {
    a % MEM_SIZE
  }

  /** Memory `m` after `data` has been written at the consecutive addresses `a`, `a + 1`, ...
      Cell `i` holds `data[k]` when `i` is the cell of `a + k`, and keeps its value otherwise. */
  function Stored(m: seq<byte>, a: int, data: seq<byte>): (m': seq<byte>)
    requires |m| == MEM_SIZE && |data| <= MEM_SIZE
    ensures |m'| == MEM_SIZE
    ensures forall k :: 0 <= k < |data| ==> m'[Cell(a + k)] == data[k]
    ensures forall i :: 0 <= i < MEM_SIZE && (i - a) % MEM_SIZE >= |data| ==> m'[i] == m[i]
  {
    var m' := seq(MEM_SIZE, i requires 0 <= i < MEM_SIZE =>
      var k := (i - a) % MEM_SIZE; if k < |data| then data[k] else m[i]);
    forall k | 0 <= k < |data|
      ensures m'[Cell(a + k)] == data[k]
    {
      var i := Cell(a + k);
      CellOffset(a, k);
      assert m'[i] == data[(i - a) % MEM_SIZE];
    }
    m'
  }

  /** The cell of `a + k` lies `k` cells after the cell of `a`, for `k` below 64 KiB. */
  lemma CellOffset(a: int, k: nat)
    requires k < MEM_SIZE
    ensures (Cell(a + k) - a) % MEM_SIZE == k
  {
    var q := (a + k) / MEM_SIZE;
    assert Cell(a + k) - a == k - q * MEM_SIZE;
  }

  /** Offsets below 64 KiB from the same address designate the same cell exactly when they are equal. */
  lemma SameOffset(a: int, k: nat, j: nat)
    requires k < MEM_SIZE && j < MEM_SIZE
    ensures Cell(a + k) == Cell(a + j) <==> k == j
  {
    CellOffset(a, k);
    CellOffset(a, j);
  }

  /** Cell `i` is the cell of `a + k` exactly when `k` is the offset of `i` from `a`. */
  lemma SameCell(a: int, i: nat, k: nat)
    requires i < MEM_SIZE && k < MEM_SIZE
    ensures Cell(a + k) == i <==> k == (i - a) % MEM_SIZE
  {
    CellOffset(a, k);
    var q := (i - a) / MEM_SIZE;
    assert i == a + (i - a) % MEM_SIZE + q * MEM_SIZE;
  }

  /** Writing nothing changes nothing. */
  lemma StoredNothing(m: seq<byte>, a: int)
    requires |m| == MEM_SIZE
    ensures Stored(m, a, []) == m
  {
  }

  /** Writing one more byte extends a block write by one cell. */
  lemma {:induction false} StoredStep(m: seq<byte>, a: int, data: seq<byte>, v: byte)
    requires |m| == MEM_SIZE && |data| < MEM_SIZE
    ensures Stored(m, a, data + [v]) == Stored(m, a, data)[Cell(a + |data|) := v]
  {
    var l, r := Stored(m, a, data + [v]), Stored(m, a, data)[Cell(a + |data|) := v];
    forall i | 0 <= i < MEM_SIZE
      ensures l[i] == r[i]
    {
      SameCell(a, i, |data|);
    }
  }

  /** Writing two bytes is two single-cell updates. */
  lemma StoredPair(m: seq<byte>, a: int, x: byte, y: byte)
    requires |m| == MEM_SIZE
    ensures Stored(m, a, [x, y]) == m[Cell(a) := x][Cell(a + 1) := y]
  {
    StoredNothing(m, a);
    StoredStep(m, a, [], x);
    StoredStep(m, a, [x], y);
    assert [] + [x] == [x] && [x] + [y] == [x, y];
  }

  class Bus {
    const mem: array<byte>
    /** The cells read so far, in order. */
    ghost var Reads: seq<nat>

    ghost predicate Valid()
    {
      mem.Length == MEM_SIZE
    }

    constructor (contents: seq<byte>)
      requires |contents| == MEM_SIZE
      ensures Valid() && fresh(mem)
      ensures mem[..] == contents && Reads == []
    {
      mem := new byte[MEM_SIZE](i requires 0 <= i < MEM_SIZE => contents[i]);
      Reads := [];
    }

    method Read(a: int) returns (v: byte)
      requires Valid()
      modifies this
      ensures v == mem[Cell(a)]
      ensures Reads == old(Reads) + [Cell(a)]
    {
      v := mem[Cell(a)];
      Reads := Reads + [Cell(a)];
    }

    method Write(a: int, v: byte)
      requires Valid()
      modifies mem
      ensures mem[..] == old(mem[..])[Cell(a) := v]
    {
      mem[Cell(a)] := v;
    }

    /** Writes `data` byte by byte from address `a` upwards, as the driver's copy loops do. */
    method WriteBytes(a: int, data: seq<byte>)
      requires Valid() && |data| <= MEM_SIZE
      modifies mem
      ensures mem[..] == Stored(old(mem[..]), a, data)
    {
      StoredNothing(mem[..], a);
      for b := 0 to |data|
        invariant mem[..] == Stored(old(mem[..]), a, data[..b])
      {
        StoredStep(old(mem[..]), a, data[..b], data[b]);
        assert data[..b] + [data[b]] == data[..b + 1];
        Write(a + b, data[b]);
      }
      assert data[..|data|] == data;
    }
  }
}
