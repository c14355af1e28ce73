/** The device-based Nextor driver for disk images and its SymbOS counterpart: the
    handlers behind the CPU extension codes E0..EB and F0..F2. Each handler answers
    with a sparse register overlay and may read or write guest memory through the bus
    and call the drive in slot 2. Its effect is specified by a step relation over a
    `World` value (memory, bus reads, the drive's answers, the drive call log), and
    each handler method is proved to take exactly such a step. */
module NextorDriver {
  import opened Registers
  import opened Memory
  import opened Drives
  import KernelPatch

  /** The drive slot every call addresses. */
  const SLOT := 2

  /** Nextor error codes. */
  const NEXTOR_NRDY: byte := 0xFC    // not ready
  const NEXTOR_WPROT: byte := 0xF8   // write protected: no handler returns it
  const NEXTOR_IDEVL: byte := 0xB5   // invalid device or logical unit

  /** SymbOS error codes, returned in A with the carry flag set. */
  const SYMBOS_NO_DEVICE: byte := 0       // device not available
  const SYMBOS_NOT_READY: byte := 26      // device not ready
  const SYMBOS_NO_CHANNEL: byte := 32     // device channel not available
  const SYMBOS_UNKNOWN_DISK: byte := 9    // unknown disk error

  /** The DEV_INFO strings as the driver holds them, 73 and 77 characters long: a name
      padded with spaces. Only their first 64 characters are written. */
  const MANUFACTURER_NAME := MANUFACTURER + Blanks(67)
  const DEVICE_NAME := DEVICE + Blanks(51)
  const MANUFACTURER := "WebMSX"
  const DEVICE := "WebMSX Removable Hard Disk"

  function Blanks(n: nat): (s: string)
    ensures |s| == n
  {
    seq(n, i => ' ')
  }

  /** The character code of a space. */
  const SPACE: byte := 0x20

  /** The handler an extension code stands for. */
  datatype Call =
    | DrvVersionCall | DrvInitCall
    | DevRwCall | DevInfoCall | DevStatusCall | LunInfoCall
    | SymbosDrvInpCall | SymbosDrvOutCall | SymbosDrvActCall

  /** The handler for extension code `extNum`; the driver ignores every other code. */
  function Route(extNum: int): (c: Option<Call>)
    ensures c.Some? <==> extNum in {0xE0, 0xE1, 0xE8, 0xE9, 0xEA, 0xEB, 0xF0, 0xF1, 0xF2}
    ensures c.Some? ==> ExtCode(c.value) == extNum
  {
    match extNum
    case 0xE0 => Some(DrvVersionCall)
    case 0xE1 => Some(DrvInitCall)
    case 0xE8 => Some(DevRwCall)
    case 0xE9 => Some(DevInfoCall)
    case 0xEA => Some(DevStatusCall)
    case 0xEB => Some(LunInfoCall)
    case 0xF0 => Some(SymbosDrvInpCall)
    case 0xF1 => Some(SymbosDrvOutCall)
    case 0xF2 => Some(SymbosDrvActCall)
    case _ => None
  }

  /** The extension code that reaches handler `c`. */
  function ExtCode(c: Call): byte
  {
    match c
    case DrvVersionCall => 0xE0
    case DrvInitCall => 0xE1
    case DevRwCall => 0xE8
    case DevInfoCall => 0xE9
    case DevStatusCall => 0xEA
    case LunInfoCall => 0xEB
    case SymbosDrvInpCall => 0xF0
    case SymbosDrvOutCall => 0xF1
    case SymbosDrvActCall => 0xF2
  }

  /** Register answers shared by several handlers. */
  function StatusA(a: byte): Overlay { NO_REGISTERS.(A := Some(a)) }
  function NextorError(code: byte): Overlay { NO_REGISTERS.(A := Some(code), B := Some(0)) }
  function SymbosError(f: byte, code: byte): Overlay { NO_REGISTERS.(F := Some(SetCarry(f)), A := Some(code)) }
  function SymbosOk(f: byte): Overlay { NO_REGISTERS.(F := Some(ClearCarry(f))) }

  /** DRV_VERSION: driver version 5.0.0. */
  function DrvVersion(): (r: Overlay)
    ensures r.A == Some(5) && r.B == Some(0) && r.C == Some(0)
    ensures r.F.None? && r.HL.None?
  {
    NO_REGISTERS.(A := Some(5), B := Some(0), C := Some(0))
  }

  /** DRV_INIT: no extra memory wanted, no error. */
  function DrvInit(A: byte, B: byte, HL: word): (r: Overlay)
    ensures r.F == Some(0) && r.A == Some(0) && r.HL == Some(0)
    ensures r.B.None? && r.C.None?
  {
    NO_REGISTERS.(F := Some(0), A := Some(0), HL := Some(0))
  }

  /** The value JavaScript's bitwise operators give a 32-bit pattern: two's complement. */
  function Int32(x: u32): (v: int)
    ensures -0x8000_0000 <= v < 0x8000_0000
    ensures (v - x) % 0x1_0000_0000 == 0
  {
    if x < 0x8000_0000 then x else x - 0x1_0000_0000
  }

  /** The DEV_INFO block for info kind `B`: basic info (one logical unit, no flags),
      the manufacturer name or the device name; `None` for any other kind. */
  function InfoBlock(B: byte): (d: Option<seq<byte>>)
    ensures d.Some? <==> B <= 2
    ensures B == 0 ==> d == Some([1, 0])
    ensures B != 0 && d.Some? ==> |d.value| == 64
  {
    if B == 0 then Some([0x01, 0x00])
    else if B == 1 then Some(CharCodes(MANUFACTURER_NAME)[..64])
    else if B == 2 then Some(CharCodes(DEVICE_NAME)[..64])
    else None
  }

  /** The name DEV_INFO reports for info kind 1 (manufacturer) or 2 (device). */
  function InfoName(B: byte): string
  {
    if B == 1 then MANUFACTURER else DEVICE
  }

  /** The name blocks are the name followed by spaces up to 64 bytes, with no terminator. */
  lemma {:induction false} InfoBlockNames(B: byte)
    requires B == 1 || B == 2
    ensures forall k | 0 <= k < 64 ::
      InfoBlock(B).value[k] == if k < |InfoName(B)| then CharCodes(InfoName(B))[k] else SPACE
  {
    var name := InfoName(B);
    var padded := if B == 1 then MANUFACTURER_NAME else DEVICE_NAME;
    assert padded == name + Blanks(|padded| - |name|);
    forall k | 0 <= k < 64
      ensures InfoBlock(B).value[k] == if k < |name| then CharCodes(name)[k] else SPACE
    {
      assert InfoBlock(B).value[k] == CharCodes(padded)[k] == padded[k] as int % 0x100;
    }
  }

  /** DEV_STATUS's answer for what the drive says about a media change. */
  function StatusCode(c: MediaChange): (a: byte)
    ensures a == 1 <==> c == Unchanged
    ensures a == 2 <==> c == Changed
    ensures a == 3 <==> c == Unknown
  {
    match c
    case Unknown => 3
    case Changed => 2
    case Unchanged => 1
  }

  /** `getTotalSectorsAvailable(2) || 0`. */
  function SectorCount(total: Option<nat>): (n: nat)
    ensures total.Some? ==> n == total.value
    ensures total.None? ==> n == 0
  {
    match total
    case Some(n) => n
    case None => 0
  }

  /** The LUN_INFO block for `ts` sectors: a block device with 512-byte sectors, the
      sector count as a 32-bit little-endian number, removable, no CHS information. */
  function LunDescriptor(ts: nat): (d: seq<byte>)
    ensures |d| == 12
    ensures d[..3] == [0, 0, 2]
    ensures Le32(d[3..7]) == ts % 0x1_0000_0000
    ensures d[7..] == [1, 0, 0, 0, 0]
  {
    [0x00, 0x00, 0x02] + Le32Bytes(ts % 0x1_0000_0000) + [0x01, 0x00, 0x00, 0x00, 0x00]
  }

  /** The JavaScript bytes `ts & 0xff, (ts >> 8) & 0xff, (ts >> 16) & 0xff, (ts >> 24) & 0xff`
      of a non-negative `ts` are the little-endian bytes of `ts` truncated to 32 bits. */
  lemma TruncatedBytes(ts: nat)
    ensures [ts % 0x100, ts / 0x100 % 0x100, ts / 0x1_0000 % 0x100, ts / 0x100_0000 % 0x100]
            == Le32Bytes(ts % 0x1_0000_0000)
  {
    var t, q := ts % 0x1_0000_0000, ts / 0x1_0000_0000;
    DigitOfTruncation(t, q, 0x1, 0x100_0000);
    DigitOfTruncation(t, q, 0x100, 0x1_0000);
    DigitOfTruncation(t, q, 0x1_0000, 0x100);
    DigitOfTruncation(t, q, 0x100_0000, 0x1);
  }

  /** Adding a multiple of 2^32 to `t` leaves the base-256 digit of weight `j` unchanged. */
  lemma DigitOfTruncation(t: nat, q: nat, j: nat, c: nat)
    requires j > 0 && j * 0x100 * c == 0x1_0000_0000
    ensures (t + 0x1_0000_0000 * q) / j % 0x100 == t / j % 0x100
  {
    var u, v, n := t / j, t % j, c * q;
    var x := t + 0x1_0000_0000 * q;
    assert x == j * (u + 0x100 * n) + v by {
      assert 0x1_0000_0000 * q == j * (0x100 * n);
    }
    DivUnique(x, j, u + 0x100 * n, v);
    assert (u + 0x100 * n) % 0x100 == u % 0x100;
  }

  /** The value SYMBOS_DRVACT stores at offset `k` of the device information block:
      status ready (1), type SD card (17), starting sector 0 (four bytes) and flags 0
      (SD slot, not SDHC); `None` where it stores nothing. */
  function ActivatedField(k: int): (v: Option<byte>)
    ensures v.Some? <==> k in {0, 1, 12, 13, 14, 15, 31}
  {
    if k == 0 then Some(1)
    else if k == 1 then Some(17)
    else if 12 <= k < 16 then Some(0)
    else if k == 31 then Some(0)
    else None
  }

  /** Memory `m` after the seven writes of SYMBOS_DRVACT to the device information block
      at `HL`: the cell at each offset `k` from `HL` holds the field stored there, if any,
      and keeps its value otherwise. */
  function ActivatedInfo(m: seq<byte>, HL: word): (m': seq<byte>)
    requires |m| == MEM_SIZE
    ensures |m'| == MEM_SIZE
    ensures forall k | 0 <= k < MEM_SIZE ::
      m'[Cell(HL + k)] == if ActivatedField(k).Some? then ActivatedField(k).value else m[Cell(HL + k)]
  {
    var m' := m[Cell(HL) := 1][Cell(HL + 1) := 17]
               [Cell(HL + 12) := 0][Cell(HL + 13) := 0][Cell(HL + 14) := 0][Cell(HL + 15) := 0]
               [Cell(HL + 31) := 0];
    forall k | 0 <= k < MEM_SIZE
      ensures m'[Cell(HL + k)] == if ActivatedField(k).Some? then ActivatedField(k).value else m[Cell(HL + k)]
    {
      SameOffset(HL, k, 0); SameOffset(HL, k, 1); SameOffset(HL, k, 12); SameOffset(HL, k, 13);
      SameOffset(HL, k, 14); SameOffset(HL, k, 15); SameOffset(HL, k, 31);
    }
    m'
  }

  /** What the handlers observe and change: guest memory, the cells read through the
      bus so far, the drive's answers and the log of calls made on the drive. */
  datatype World = World(
    mem: seq<byte>, busReads: seq<nat>,
    inserted: int -> bool, change: int -> MediaChange, total: int -> Option<nat>,
    calls: seq<DriveCall>)

  ghost predicate Fits(w: World) { |w.mem| == MEM_SIZE }

  /** A sector transfer call on the driver's slot. */
  function Transfer(write: bool, lba: int, count: byte, addr: word, ok: bool): DriveCall
  {
    if write then WriteSectorsFromSlot(SLOT, lba, count, addr, ok)
    else ReadSectorsToSlot(SLOT, lba, count, addr, ok)
  }

  /** DEV_RW's first sector: the four bytes at DE, least significant first, combined with `|`. */
  ghost function NextorSector(m: seq<byte>, DE: word): (v: int)
    requires |m| == MEM_SIZE
    ensures v % 0x1_0000_0000 == Le32([m[Cell(DE)], m[Cell(DE + 1)], m[Cell(DE + 2)], m[Cell(DE + 3)]])
    ensures v < 0 <==> m[Cell(DE + 3)] >= 0x80
  {
    Int32(Le32([m[Cell(DE)], m[Cell(DE + 1)], m[Cell(DE + 2)], m[Cell(DE + 3)]]))
  }

  /** The SymbOS first sector `(IY << 16) | IX`. */
  function SymbosSector(IX: word, IY: word): (v: int)
    ensures v % 0x1_0000_0000 == Le32([IX % 0x100, IX / 0x100, IY % 0x100, IY / 0x100])
    ensures v < 0 <==> IY >= 0x8000
  {
    Lba16PairIsLe32(IX, IY);
    Int32(Lba16Pair(IX, IY))
  }

  /** DEV_RW once unit and media are checked: read the sector number at DE, transfer
      `B` sectors to or from HL, answer success or not ready. A read may change any memory. */
  ghost function DevRwTransferStep(write: bool, B: byte, DE: word, HL: word, w: World, w': World, r: Overlay): (s: bool)
    requires Fits(w)
    ensures s ==> |w'.calls| == |w.calls| + 1 && w'.calls[..|w.calls|] == w.calls
    ensures s ==> w'.calls[|w.calls|].ReadSectorsToSlot? || w'.calls[|w.calls|].WriteSectorsFromSlot?
    ensures s ==> (w'.calls[|w.calls|].WriteSectorsFromSlot? <==> write)
    ensures s ==> (r == StatusA(0) <==> w'.calls[|w.calls|].ok)
  {
    var ok := r == StatusA(0);
    (ok || r == NextorError(NEXTOR_NRDY)) &&
    Fits(w') && (write ==> w'.mem == w.mem) &&
    w' == w.(mem := w'.mem,
             busReads := w.busReads + [Cell(DE), Cell(DE + 1), Cell(DE + 2), Cell(DE + 3)],
             calls := w.calls + [Transfer(write, NextorSector(w.mem, DE), B, HL, ok)])
  }

  ghost function DevRwStep(F: byte, A: byte, B: byte, C: byte, DE: word, HL: word, w: World, w': World, r: Overlay): (s: bool)
    requires Fits(w)
    ensures s ==> r.A.Some? && r.A.value in {0, NEXTOR_NRDY, NEXTOR_IDEVL}
    ensures s ==> (r.B.Some? <==> r.A != Some(0)) && r.C.None? && r.F.None? && r.HL.None?
  {
    if A != 1 || C != 1 then r == NextorError(NEXTOR_IDEVL) && w' == w
    else
      var w1 := w.(calls := w.calls + [MotorFlash(SLOT), IsDiskInserted(SLOT)]);
      if !w.inserted(SLOT) then r == NextorError(NEXTOR_NRDY) && w' == w1
      else DevRwTransferStep(Carry(F), B, DE, HL, w1, w', r)
  }

  ghost function DevInfoStep(A: byte, B: byte, HL: word, w: World, w': World, r: Overlay): (s: bool)
    requires Fits(w)
    ensures s ==> r == StatusA(0) || r == StatusA(1)
    ensures s && r == StatusA(1) ==> w' == w
  {
    if A != 1 || InfoBlock(B).None? then r == StatusA(1) && w' == w
    else r == StatusA(0) && w' == w.(mem := Stored(w.mem, HL, InfoBlock(B).value))
  }

  ghost function DevStatusStep(A: byte, B: byte, w: World, w': World, r: Overlay): (s: bool)
    ensures s ==> r.A.Some? && r.A.value <= 3 && r == StatusA(r.A.value)
    ensures s ==> (r.A == Some(0) <==> w' == w)
  {
    if A != 1 || B != 1 then r == StatusA(0) && w' == w
    else r == StatusA(StatusCode(w.change(SLOT))) && w' == w.(calls := w.calls + [DiskHasChanged(SLOT)])
  }

  ghost function LunInfoStep(A: byte, B: byte, HL: word, w: World, w': World, r: Overlay): (s: bool)
    requires Fits(w)
    ensures s ==> r == StatusA(0) || r == StatusA(1)
    ensures s ==> (r == StatusA(1) <==> w' == w)
  {
    if A != 1 || B != 1 then r == StatusA(1) && w' == w
    else
      r == StatusA(0) &&
      w' == w.(mem := Stored(w.mem, HL, LunDescriptor(SectorCount(w.total(SLOT)))),
               calls := w.calls + [GetTotalSectorsAvailable(SLOT)])
  }

  ghost function SymbosDrvActStep(F: byte, A: byte, HL: word, w: World, w': World, r: Overlay): (s: bool)
    requires Fits(w)
    ensures s ==> r.F.Some? && r.F.value / 2 == F / 2 && (Carry(r.F.value) <==> r.A.Some?)
    ensures s ==> r.B.None? && r.C.None? && r.HL.None?
  {
    if A > 0 then r == SymbosError(F, SYMBOS_NO_DEVICE) && w' == w
    else
      var w1 := w.(busReads := w.busReads + [Cell(HL + 26)]);
      if w.mem[Cell(HL + 26)] > 0 then r == SymbosError(F, SYMBOS_NO_CHANNEL) && w' == w1
      else r == SymbosOk(F) && w' == w1.(mem := ActivatedInfo(w.mem, HL), calls := w.calls + [MotorFlash(SLOT)])
  }

  /** SYMBOS_DRVINP (`write` false) and SYMBOS_DRVOUT (`write` true). */
  ghost function SymbosTransferStep(write: bool, F: byte, B: byte, HL: word, IX: word, IY: word, w: World, w': World, r: Overlay): (s: bool)
    requires Fits(w)
    ensures s ==> r.F.Some? && r.F.value / 2 == F / 2 && (Carry(r.F.value) <==> r.A.Some?)
    ensures s ==> r.B.None? && r.C.None? && r.HL.None?
  {
    var w1 := w.(calls := w.calls + [IsDiskInserted(SLOT)]);
    if !w.inserted(SLOT) then r == SymbosError(F, SYMBOS_NOT_READY) && w' == w1
    else
      var ok := r == SymbosOk(F);
      (ok || r == SymbosError(F, SYMBOS_UNKNOWN_DISK)) &&
      Fits(w') && (write ==> w'.mem == w.mem) &&
      w' == w1.(mem := w'.mem,
                calls := w1.calls + [MotorFlash(SLOT), Transfer(write, SymbosSector(IX, IY), B, HL, ok)])
  }

  /** The step handler `c` takes on the trapped registers `s`. */
  ghost function Step(c: Call, s: ExtState, w: World, w': World, r: Overlay): (ok: bool)
    requires Fits(w)
    ensures ok ==> r.A.Some? || r.F.Some?
  {
    match c
    case DrvVersionCall => r == DrvVersion() && w' == w
    case DrvInitCall => r == DrvInit(s.A, s.B, s.HL) && w' == w
    case DevRwCall => DevRwStep(s.F, s.A, s.B, s.C, s.DE, s.HL, w, w', r)
    case DevInfoCall => DevInfoStep(s.A, s.B, s.HL, w, w', r)
    case DevStatusCall => DevStatusStep(s.A, s.B, w, w', r)
    case LunInfoCall => LunInfoStep(s.A, s.B, s.HL, w, w', r)
    case SymbosDrvInpCall => SymbosTransferStep(false, s.F, s.B, s.HL, s.IX, s.IY, w, w', r)
    case SymbosDrvOutCall => SymbosTransferStep(true, s.F, s.B, s.HL, s.IX, s.IY, w, w', r)
    case SymbosDrvActCall => SymbosDrvActStep(s.F, s.A, s.HL, w, w', r)
  }

  class ImageNextorDeviceDriver {
    const drive: Drive
    const bus: Bus

    ghost predicate Valid()
    {
      bus.Valid()
    }

    /** The world as the handlers see it now. */
    ghost function Now(): World
      reads bus, bus.mem, drive
    {
      World(bus.mem[..], bus.Reads, drive.inserted, drive.change, drive.total, drive.Calls)
    }

    /** Connects to the machine: takes its drive and bus and patches the kernel. */
    constructor Connect(kernel: array<byte>, drive: Drive, bus: Bus)
      requires bus.Valid() && kernel.Length >= KernelPatch.PATCH_END
      modifies kernel
      ensures Valid() && this.drive == drive && this.bus == bus
      ensures kernel[..] == KernelPatch.Patched(old(kernel[..]))
    {
      this.drive := drive;
      this.bus := bus;
      new;
      KernelPatch.PatchNextorKernel(kernel);
    }

    /** Runs the handler of the trapped extension code; codes without a handler get no answer. */
    method CpuExtensionBegin(s: ExtState) returns (r: Option<Overlay>)
      requires Valid()
      modifies drive, bus, bus.mem
      ensures Route(s.extNum).None? ==> r.None? && Now() == old(Now())
      ensures Route(s.extNum).Some? ==> r.Some? && Step(Route(s.extNum).value, s, old(Now()), Now(), r.value)
    {
      match s.extNum {
        case 0xE0 => r := Some(DrvVersion());
        case 0xE1 => r := Some(DrvInit(s.A, s.B, s.HL));
        case 0xE8 => var o := DevRw(s.F, s.A, s.B, s.C, s.DE, s.HL); r := Some(o);
        case 0xE9 => var o := DevInfo(s.A, s.B, s.HL); r := Some(o);
        case 0xEA => var o := DevStatus(s.A, s.B); r := Some(o);
        case 0xEB => var o := LunInfo(s.A, s.B, s.HL); r := Some(o);
        case 0xF0 => var o := SymbosDrvInp(s.F, s.A, s.B, s.HL, s.IX, s.IY); r := Some(o);
        case 0xF1 => var o := SymbosDrvOut(s.F, s.A, s.B, s.HL, s.IX, s.IY); r := Some(o);
        case 0xF2 => var o := SymbosDrvAct(s.F, s.A, s.HL); r := Some(o);
        case _ => r := None;
      }
    }

    method DevRw(F: byte, A: byte, B: byte, C: byte, DE: word, HL: word) returns (r: Overlay)
      requires Valid()
      modifies drive, bus, bus.mem
      ensures DevRwStep(F, A, B, C, DE, HL, old(Now()), Now(), r)
    {
      // invalid device or logical unit
      if A != 1 || C != 1 {
        return NextorError(NEXTOR_IDEVL);
      }
      drive.MotorFlash(SLOT);
      // not ready if no disk is present
      var present := drive.IsDiskInserted(SLOT);
      if !present {
        return NextorError(NEXTOR_NRDY);
      }
      if Carry(F) {
        r := DevRwWrite(F, A, B, C, DE, HL);
      } else {
        r := DevRwRead(F, A, B, C, DE, HL);
      }
    }

    method DevRwRead(F: byte, A: byte, B: byte, C: byte, DE: word, HL: word) returns (r: Overlay)
      requires Valid()
      modifies drive, bus, bus.mem
      ensures DevRwTransferStep(false, B, DE, HL, old(Now()), Now(), r)
    {
      var b0 := bus.Read(DE + 0);
      var b1 := bus.Read(DE + 1);
      var b2 := bus.Read(DE + 2);
      var b3 := bus.Read(DE + 3);
      var initialSector := Int32(Le32([b0, b1, b2, b3]));
      var suc := drive.ReadSectorsToSlot(SLOT, initialSector, B, bus, HL);
      // not ready if the sectors cannot be read
      if !suc {
        return NextorError(NEXTOR_NRDY);
      }
      return StatusA(0);
    }

    /** WebMSX's write-protect check is commented out, so NEXTOR_WPROT is never returned. */
    method DevRwWrite(F: byte, A: byte, B: byte, C: byte, DE: word, HL: word) returns (r: Overlay)
      requires Valid()
      modifies drive, bus
      ensures DevRwTransferStep(true, B, DE, HL, old(Now()), Now(), r)
    {
      var b0 := bus.Read(DE);
      var b1 := bus.Read(DE + 1);
      var b2 := bus.Read(DE + 2);
      var b3 := bus.Read(DE + 3);
      var initialSector := Int32(Le32([b0, b1, b2, b3]));
      var suc := drive.WriteSectorsFromSlot(SLOT, initialSector, B, bus, HL);
      // not ready if the sectors cannot be written
      if !suc {
        return NextorError(NEXTOR_NRDY);
      }
      return StatusA(0);
    }

    method DevInfo(A: byte, B: byte, HL: word) returns (r: Overlay)
      requires Valid()
      modifies bus.mem
      ensures DevInfoStep(A, B, HL, old(Now()), Now(), r)
    {
      // invalid device
      if A != 1 {
        return StatusA(1);
      }
      // basic information: one logical unit, no flags
      if B == 0 {
        StoredPair(bus.mem[..], HL, 0x01, 0x00);
        bus.Write(HL, 0x01);
        bus.Write(HL + 1, 0x00);
        return StatusA(0);
      }
      if B == 1 {
        bus.WriteBytes(HL, CharCodes(MANUFACTURER_NAME)[..64]);
        return StatusA(0);
      }
      if B == 2 {
        bus.WriteBytes(HL, CharCodes(DEVICE_NAME)[..64]);
        return StatusA(0);
      }
      // information not available
      return StatusA(1);
    }

    method DevStatus(A: byte, B: byte) returns (r: Overlay)
      requires Valid()
      modifies drive
      ensures DevStatusStep(A, B, old(Now()), Now(), r)
    {
      // invalid device or logical unit
      if A != 1 || B != 1 {
        return StatusA(0);
      }
      var res := drive.DiskHasChanged(SLOT);
      return StatusA(StatusCode(res));
    }

    method LunInfo(A: byte, B: byte, HL: word) returns (r: Overlay)
      requires Valid()
      modifies drive, bus.mem
      ensures LunInfoStep(A, B, HL, old(Now()), Now(), r)
    {
      // invalid device or logical unit
      if A != 1 || B != 1 {
        return StatusA(1);
      }
      var total := drive.GetTotalSectorsAvailable(SLOT);
      var ts := SectorCount(total);
      var res := [0x00, 0x00, 0x02,
                  ts % 0x100, ts / 0x100 % 0x100, ts / 0x1_0000 % 0x100, ts / 0x100_0000 % 0x100,
                  0x01, 0x00, 0x00, 0x00, 0x00];
      TruncatedBytes(ts);
      assert res == LunDescriptor(ts);
      bus.WriteBytes(HL, res);
      return StatusA(0);
    }

    method SymbosDrvAct(F: byte, A: byte, HL: word) returns (r: Overlay)
      requires Valid()
      modifies drive, bus, bus.mem
      ensures SymbosDrvActStep(F, A, HL, old(Now()), Now(), r)
    {
      // only device 0 is supported
      if A > 0 {
        return SymbosError(F, SYMBOS_NO_DEVICE);
      }
      // only channel 0 is supported
      var channel := bus.Read(HL + 26);
      if channel > 0 {
        return SymbosError(F, SYMBOS_NO_CHANNEL);
      }
      drive.MotorFlash(SLOT);
      bus.Write(HL + 0, 1);         // status: ready
      bus.Write(HL + 1, 17);        // type: SD card
      bus.Write(HL + 12 + 0, 0);    // starting sector 0
      bus.Write(HL + 12 + 1, 0);
      bus.Write(HL + 12 + 2, 0);
      bus.Write(HL + 12 + 3, 0);
      bus.Write(HL + 31, 0);        // flags: SD slot, not SDHC
      return SymbosOk(F);
    }

    method SymbosDrvInp(F: byte, A: byte, B: byte, HL: word, IX: word, IY: word) returns (r: Overlay)
      requires Valid()
      modifies drive, bus.mem
      ensures SymbosTransferStep(false, F, B, HL, IX, IY, old(Now()), Now(), r)
    {
      // not ready if no disk is present
      var present := drive.IsDiskInserted(SLOT);
      if !present {
        return SymbosError(F, SYMBOS_NOT_READY);
      }
      drive.MotorFlash(SLOT);
      var suc := drive.ReadSectorsToSlot(SLOT, Int32(Lba16Pair(IX, IY)), B, bus, HL);
      if !suc {
        return SymbosError(F, SYMBOS_UNKNOWN_DISK);
      }
      return SymbosOk(F);
    }

    method SymbosDrvOut(F: byte, A: byte, B: byte, HL: word, IX: word, IY: word) returns (r: Overlay)
      requires Valid()
      modifies drive
      ensures SymbosTransferStep(true, F, B, HL, IX, IY, old(Now()), Now(), r)
    {
      // not ready if no disk is present
      var present := drive.IsDiskInserted(SLOT);
      if !present {
        return SymbosError(F, SYMBOS_NOT_READY);
      }
      drive.MotorFlash(SLOT);
      var suc := drive.WriteSectorsFromSlot(SLOT, Int32(Lba16Pair(IX, IY)), B, bus, HL);
      if !suc {
        return SymbosError(F, SYMBOS_UNKNOWN_DISK);
      }
      return SymbosOk(F);
    }
  }
}
