/** Patching the Nextor kernel ROM so that its driver entry points trap into the
    emulator: a driver header (flags and name), the common routines and the
    device-based routines, each a few bytes of Z80 code at a fixed offset. */
module KernelPatch {
  import opened Registers

  /** Z80 opcodes used by the patch. */
  const RET: byte := 0xC9
  const SCF: byte := 0x37   // set carry flag
  const ED: byte := 0xED    // prefix of the emulator's extension instruction `ED xx`

  /** Offsets of the driver header and the routine table in the kernel image. */
  const DRV_FLAGS := 0x1c10e
  const DRV_NAME := 0x1c110
  const DRV_TIMI := 0x1c130
  const DRV_VERSION := 0x1c133
  const DRV_INIT := 0x1c136
  const DRV_BASSTAT := 0x1c139
  const DRV_BASDEV := 0x1c13c
  const DRV_EXTBIO := 0x1c13f
  const DRV_DIRECT := 0x1c142
  const DEV_RW := 0x1c160
  const DEV_INFO := 0x1c163
  const DEV_STATUS := 0x1c166
  const LUN_INFO := 0x1c169
  /** One past the last patched offset. */
  const PATCH_END := 0x1c16c

  const DRIVER_NAME := "WebMSX Nextor Device Driver     "

  /** DRV_TIMI .. DRV_EXTBIO, from offset DRV_TIMI on; DRV_DIRECT0..4 follow as 16 returns. */
  const COMMON_ROUTINES: seq<byte> := [
    RET, RET, RET,           // DRV_TIMI: nothing
    ED, 0xE0, RET,           // DRV_VERSION: extension E0
    ED, 0xE1, RET,           // DRV_INIT: extension E1
    SCF, RET, RET,           // DRV_BASSTAT: just set carry
    SCF, RET, RET,           // DRV_BASDEV: just set carry
    RET, RET, RET]           // DRV_EXTBIO: nothing

  /** DEV_RW, DEV_INFO, DEV_STATUS and LUN_INFO, from offset DEV_RW on. */
  const DEVICE_ROUTINES: seq<byte> := [
    ED, 0xE8, RET,           // DEV_RW: extension E8
    ED, 0xE9, RET,           // DEV_INFO: extension E9
    ED, 0xEA, RET,           // DEV_STATUS: extension EA
    ED, 0xEB, RET]           // LUN_INFO: extension EB

  /** The value the patch gives offset `i`, or `None` when the patch leaves it alone. */
  function PatchByte(i: int): (v: Option<byte>)
    ensures v.Some? <==> i == DRV_FLAGS || DRV_NAME <= i < DRV_DIRECT + 16 || DEV_RW <= i < PATCH_END
  {
    if i == DRV_FLAGS then Some(0x01)   // device-based driver
    else if DRV_NAME <= i < DRV_TIMI then Some(CharCodes(DRIVER_NAME)[i - DRV_NAME])
    else if DRV_TIMI <= i < DRV_DIRECT then Some(COMMON_ROUTINES[i - DRV_TIMI])
    else if DRV_DIRECT <= i < DRV_DIRECT + 16 then Some(RET)   // DRV_DIRECT0..4: nothing
    else if DEV_RW <= i < PATCH_END then Some(DEVICE_ROUTINES[i - DEV_RW])
    else None
  }

  /** The kernel image `k` after the patch. */
  function Patched(k: seq<byte>): (p: seq<byte>)
    ensures |p| == |k|
  {
    seq(|k|, i requires 0 <= i < |k| => match PatchByte(i) case Some(v) => v case None => k[i])
  }

  /** `now` is `was` patched at the offsets in `[lo, hi)` and nowhere else. */
  ghost predicate PatchedBetween(now: seq<byte>, was: seq<byte>, lo: int, hi: int)
  {
    |now| == |was| &&
    forall i {:trigger now[i]} :: 0 <= i < |now| ==>
      now[i] == if lo <= i < hi && PatchByte(i).Some? then PatchByte(i).value else was[i]
  }

  /** Writes the patch into the kernel image, section by section. */
  method PatchNextorKernel(bytes: array<byte>)
    requires bytes.Length >= PATCH_END
    modifies bytes
    ensures bytes[..] == Patched(old(bytes[..]))
  {
    PatchDriverHeader(bytes);
    PatchCommonRoutines(bytes);
    PatchDeviceRoutines(bytes);
    assert forall i | 0 <= i < bytes.Length :: bytes[..][i] == Patched(old(bytes[..]))[i];
  }

  /** DRV_FLAGS and DRV_NAME (DRV_SIGN is already right in the kernel). */
  method PatchDriverHeader(bytes: array<byte>)
    requires bytes.Length >= PATCH_END
    modifies bytes
    ensures PatchedBetween(bytes[..], old(bytes[..]), DRV_FLAGS, DRV_TIMI)
  {
    ghost var was := bytes[..];
    Put(bytes, DRV_FLAGS, 0x01, was, DRV_FLAGS);   // device-based driver
    var name := CharCodes(DRIVER_NAME);
    for b := 0 to 32
      invariant PatchedBetween(bytes[..], was, DRV_FLAGS, DRV_NAME + b)
    {
      Put(bytes, DRV_NAME + b, name[b], was, DRV_FLAGS);
    }
  }

  method PatchCommonRoutines(bytes: array<byte>)
    requires bytes.Length >= PATCH_END
    modifies bytes
    ensures PatchedBetween(bytes[..], old(bytes[..]), DRV_TIMI, DRV_DIRECT + 16)
  {
    ghost var was := bytes[..];
    PatchRoutine(bytes, DRV_TIMI, RET, RET, RET, was, DRV_TIMI);       // nothing
    PatchRoutine(bytes, DRV_VERSION, ED, 0xE0, RET, was, DRV_TIMI);    // extension E0
    PatchRoutine(bytes, DRV_INIT, ED, 0xE1, RET, was, DRV_TIMI);       // extension E1
    PatchRoutine(bytes, DRV_BASSTAT, SCF, RET, RET, was, DRV_TIMI);    // just set carry
    PatchRoutine(bytes, DRV_BASDEV, SCF, RET, RET, was, DRV_TIMI);     // just set carry
    PatchRoutine(bytes, DRV_EXTBIO, RET, RET, RET, was, DRV_TIMI);     // nothing
    // DRV_DIRECT0..4: nothing
    for b := DRV_DIRECT to DRV_DIRECT + 16
      invariant PatchedBetween(bytes[..], was, DRV_TIMI, b)
    {
      Put(bytes, b, RET, was, DRV_TIMI);
    }
  }

  method PatchDeviceRoutines(bytes: array<byte>)
    requires bytes.Length >= PATCH_END
    modifies bytes
    ensures PatchedBetween(bytes[..], old(bytes[..]), DEV_RW, PATCH_END)
  {
    ghost var was := bytes[..];
    PatchRoutine(bytes, DEV_RW, ED, 0xE8, RET, was, DEV_RW);
    PatchRoutine(bytes, DEV_INFO, ED, 0xE9, RET, was, DEV_RW);
    PatchRoutine(bytes, DEV_STATUS, ED, 0xEA, RET, was, DEV_RW);
    PatchRoutine(bytes, LUN_INFO, ED, 0xEB, RET, was, DEV_RW);
  }

  /** Stores the three bytes of one routine at offset `at`, extending the patched
      range `[lo, at)` of `was` to `[lo, at + 3)`. */
  method PatchRoutine(bytes: array<byte>, at: int, b0: byte, b1: byte, b2: byte,
                      ghost was: seq<byte>, ghost lo: int)
    requires 0 <= lo <= at && at + 3 <= bytes.Length
    requires PatchByte(at) == Some(b0) && PatchByte(at + 1) == Some(b1) && PatchByte(at + 2) == Some(b2)
    requires PatchedBetween(bytes[..], was, lo, at)
    modifies bytes
    ensures PatchedBetween(bytes[..], was, lo, at + 3)
  {
    Put(bytes, at, b0, was, lo);
    Put(bytes, at + 1, b1, was, lo);
    Put(bytes, at + 2, b2, was, lo);
  }

  /** One store of the patch: offset `j` gets the value the patch gives it, extending
      the patched range `[lo, j)` of `was` by one. */
  method Put(bytes: array<byte>, j: int, v: byte, ghost was: seq<byte>, ghost lo: int)
    requires 0 <= lo <= j < bytes.Length && PatchByte(j) == Some(v)
    requires PatchedBetween(bytes[..], was, lo, j)
    modifies bytes
    ensures PatchedBetween(bytes[..], was, lo, j + 1)
  {
    bytes[j] := v;
  }

  /** The patched image holds the driver header: the flags byte and the 32-character name. */
  lemma PatchedHeader(k: seq<byte>)
    requires |k| >= PATCH_END
    ensures Patched(k)[DRV_FLAGS] == 0x01
    ensures Patched(k)[DRV_NAME..DRV_TIMI] == CharCodes("WebMSX Nextor Device Driver     ")
  {
    var p := Patched(k);
    assert forall i | DRV_NAME <= i < DRV_TIMI :: p[i] == CharCodes(DRIVER_NAME)[i - DRV_NAME];
  }

  /** The patched image holds the common routines: DRV_VERSION and DRV_INIT trap to
      extensions E0 and E1, DRV_BASSTAT and DRV_BASDEV set carry and return, and the
      remaining routines return at once. */
  lemma PatchedCommonRoutines(k: seq<byte>)
    requires |k| >= PATCH_END
    ensures Patched(k)[DRV_TIMI..DRV_VERSION] == [RET, RET, RET]
    ensures Patched(k)[DRV_VERSION..DRV_INIT] == [ED, 0xE0, RET]
    ensures Patched(k)[DRV_INIT..DRV_BASSTAT] == [ED, 0xE1, RET]
    ensures Patched(k)[DRV_BASSTAT..DRV_BASDEV] == [SCF, RET, RET]
    ensures Patched(k)[DRV_BASDEV..DRV_EXTBIO] == [SCF, RET, RET]
    ensures forall i | DRV_EXTBIO <= i < DRV_DIRECT + 16 :: Patched(k)[i] == RET
  {
    var p := Patched(k);
    var c := p[DRV_TIMI..DRV_DIRECT];
    assert c == COMMON_ROUTINES;
    assert p[DRV_TIMI..DRV_VERSION] == c[0..3];
    assert p[DRV_VERSION..DRV_INIT] == c[3..6];
    assert p[DRV_INIT..DRV_BASSTAT] == c[6..9];
    assert p[DRV_BASSTAT..DRV_BASDEV] == c[9..12];
    assert p[DRV_BASDEV..DRV_EXTBIO] == c[12..15];
    assert p[DRV_EXTBIO..DRV_DIRECT] == c[15..18];
  }

  /** The patched image holds the device-based routines, which trap to extensions E8 to EB. */
  lemma PatchedDeviceRoutines(k: seq<byte>)
    requires |k| >= PATCH_END
    ensures Patched(k)[DEV_RW..DEV_INFO] == [ED, 0xE8, RET]
    ensures Patched(k)[DEV_INFO..DEV_STATUS] == [ED, 0xE9, RET]
    ensures Patched(k)[DEV_STATUS..LUN_INFO] == [ED, 0xEA, RET]
    ensures Patched(k)[LUN_INFO..PATCH_END] == [ED, 0xEB, RET]
  {
    var p := Patched(k);
    var d := p[DEV_RW..PATCH_END];
    assert d == DEVICE_ROUTINES;
    assert p[DEV_RW..DEV_INFO] == d[0..3];
    assert p[DEV_INFO..DEV_STATUS] == d[3..6];
    assert p[DEV_STATUS..LUN_INFO] == d[6..9];
    assert p[LUN_INFO..PATCH_END] == d[9..12];
  }

  /** The patch changes no byte outside its table: every other offset keeps its value. */
  lemma PatchedFrame(k: seq<byte>, i: int)
    requires 0 <= i < |k|
    requires !(i == DRV_FLAGS || DRV_NAME <= i < DRV_DIRECT + 16 || DEV_RW <= i < PATCH_END)
    ensures Patched(k)[i] == k[i]
  {
  }

  /** Applying the patch a second time changes nothing. */
  lemma PatchIdempotent(k: seq<byte>)
    ensures Patched(Patched(k)) == Patched(k)
  {
  }
}
