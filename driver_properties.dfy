/** Properties of the driver's handlers, stated over their step relations: what each
    handler answers, which memory it writes, which drive calls it makes and in what
    order, and that the patched kernel's entry points reach the matching handlers. */
module DriverProperties {
  import opened Registers
  import opened Memory
  import opened Drives
  import opened NextorDriver
  import KernelPatch

  /** Number of activity-light flashes in a drive call log. */
  function Flashes(calls: seq<DriveCall>): nat
  {
    if calls == [] then 0 else (if calls[0].MotorFlash? then 1 else 0) + Flashes(calls[1..])
  }

  /** Number of sector transfers in a drive call log. */
  function Transfers(calls: seq<DriveCall>): nat
  {
    if calls == [] then 0
    else (if calls[0].ReadSectorsToSlot? || calls[0].WriteSectorsFromSlot? then 1 else 0) + Transfers(calls[1..])
  }

  /** Both counts add up over the concatenation of two logs. */
  lemma {:induction false} CountsAppend(a: seq<DriveCall>, b: seq<DriveCall>)
    ensures Flashes(a + b) == Flashes(a) + Flashes(b)
    ensures Transfers(a + b) == Transfers(a) + Transfers(b)
  {
    if a != [] {
      assert (a + b)[1..] == a[1..] + b;
      CountsAppend(a[1..], b);
    } else {
      assert a + b == b;
    }
  }

  /** Each entry point the patch turns into an `ED xx; RET` thunk traps to the extension
      code of the handler with the same name. */
  lemma ThunksReachHandlers(k: seq<byte>)
    requires |k| >= KernelPatch.PATCH_END
    ensures var p := KernelPatch.Patched(k);
      p[KernelPatch.DRV_VERSION] == KernelPatch.ED && Route(p[KernelPatch.DRV_VERSION + 1]) == Some(DrvVersionCall)
      && p[KernelPatch.DRV_INIT] == KernelPatch.ED && Route(p[KernelPatch.DRV_INIT + 1]) == Some(DrvInitCall)
      && p[KernelPatch.DEV_RW] == KernelPatch.ED && Route(p[KernelPatch.DEV_RW + 1]) == Some(DevRwCall)
      && p[KernelPatch.DEV_INFO] == KernelPatch.ED && Route(p[KernelPatch.DEV_INFO + 1]) == Some(DevInfoCall)
      && p[KernelPatch.DEV_STATUS] == KernelPatch.ED && Route(p[KernelPatch.DEV_STATUS + 1]) == Some(DevStatusCall)
      && p[KernelPatch.LUN_INFO] == KernelPatch.ED && Route(p[KernelPatch.LUN_INFO + 1]) == Some(LunInfoCall)
  {
    var p := KernelPatch.Patched(k);
    KernelPatch.PatchedCommonRoutines(k);
    KernelPatch.PatchedDeviceRoutines(k);
    assert p[KernelPatch.DRV_VERSION..KernelPatch.DRV_INIT][1] == p[KernelPatch.DRV_VERSION + 1];
    assert p[KernelPatch.DRV_INIT..KernelPatch.DRV_BASSTAT][1] == p[KernelPatch.DRV_INIT + 1];
    assert p[KernelPatch.DEV_RW..KernelPatch.DEV_INFO][1] == p[KernelPatch.DEV_RW + 1];
    assert p[KernelPatch.DEV_INFO..KernelPatch.DEV_STATUS][1] == p[KernelPatch.DEV_INFO + 1];
    assert p[KernelPatch.DEV_STATUS..KernelPatch.LUN_INFO][1] == p[KernelPatch.DEV_STATUS + 1];
    assert p[KernelPatch.LUN_INFO..KernelPatch.PATCH_END][1] == p[KernelPatch.LUN_INFO + 1];
  }

  /** Every extension code a handler is reached by routes back to that handler. */
  lemma RouteExtCode(c: Call)
    ensures Route(ExtCode(c)) == Some(c)
  {
  }

  /** DRV_VERSION and DRV_INIT answer constants whatever the registers and touch nothing. */
  lemma ConstantAnswers(s: ExtState, w: World, w': World, r: Overlay)
    requires Fits(w)
    ensures Step(DrvVersionCall, s, w, w', r) <==>
              r == Overlay(Some(5), Some(0), Some(0), None, None) && w' == w
    ensures Step(DrvInitCall, s, w, w', r) <==>
              r == Overlay(Some(0), None, None, Some(0), Some(0)) && w' == w
  {
  }

  /** DEV_RW with a device or logical unit other than 1 answers IDEVL before doing
      anything: no flash, no bus read, no drive call. */
  lemma DevRwInvalidUnit(F: byte, A: byte, B: byte, C: byte, DE: word, HL: word, w: World, w': World, r: Overlay)
    requires Fits(w) && DevRwStep(F, A, B, C, DE, HL, w, w', r)
    requires A != 1 || C != 1
    ensures r == Overlay(Some(NEXTOR_IDEVL), Some(0), None, None, None)
    ensures w' == w
  {
  }

  /** With a valid unit DEV_RW flashes the activity light exactly once, first, and then
      asks whether a disk is inserted; it makes at most one sector transfer. */
  lemma {:induction false} DevRwFlashesOnceFirst(F: byte, A: byte, B: byte, C: byte, DE: word, HL: word,
                                                 w: World, w': World, r: Overlay)
    requires Fits(w) && DevRwStep(F, A, B, C, DE, HL, w, w', r)
    requires A == 1 && C == 1
    ensures |w'.calls| >= |w.calls| + 2 && w'.calls[..|w.calls|] == w.calls
    ensures w'.calls[|w.calls|] == MotorFlash(SLOT) && w'.calls[|w.calls| + 1] == IsDiskInserted(SLOT)
    ensures Flashes(w'.calls) == Flashes(w.calls) + 1
    ensures Transfers(w'.calls) <= Transfers(w.calls) + 1
  {
    var added := w'.calls[|w.calls|..];
    assert w'.calls == w.calls + added;
    CountsAppend(w.calls, added);
    var t := if w.inserted(SLOT) then [w'.calls[|w'.calls| - 1]] else [];
    assert added == [MotorFlash(SLOT), IsDiskInserted(SLOT)] + t;
    CountsAppend([MotorFlash(SLOT), IsDiskInserted(SLOT)], t);
  }

  /** With no disk inserted DEV_RW answers NRDY without reading the sector number and
      without a transfer. */
  lemma DevRwNoDisk(F: byte, A: byte, B: byte, C: byte, DE: word, HL: word, w: World, w': World, r: Overlay)
    requires Fits(w) && DevRwStep(F, A, B, C, DE, HL, w, w', r)
    requires A == 1 && C == 1 && !w.inserted(SLOT)
    ensures r == Overlay(Some(NEXTOR_NRDY), Some(0), None, None, None)
    ensures w'.mem == w.mem && w'.busReads == w.busReads
    ensures w'.calls == w.calls + [MotorFlash(SLOT), IsDiskInserted(SLOT)]
  {
  }

  /** With a disk inserted DEV_RW reads the four sector-number bytes at DE, then makes
      one transfer of B sectors at HL in the direction the carry flag selects, from the
      sector those bytes encode. It answers A = 0 without touching B exactly when the
      transfer succeeds, NRDY otherwise; it never answers WPROT; a write leaves memory alone. */
  lemma DevRwTransfer(F: byte, A: byte, B: byte, C: byte, DE: word, HL: word, w: World, w': World, r: Overlay)
    requires Fits(w) && DevRwStep(F, A, B, C, DE, HL, w, w', r)
    requires A == 1 && C == 1 && w.inserted(SLOT)
    ensures w'.busReads == w.busReads + [Cell(DE), Cell(DE + 1), Cell(DE + 2), Cell(DE + 3)]
    ensures w'.calls == w.calls + [MotorFlash(SLOT), IsDiskInserted(SLOT),
                                   Transfer(Carry(F), NextorSector(w.mem, DE), B, HL, r == StatusA(0))]
    ensures r == StatusA(0) || r == NextorError(NEXTOR_NRDY)
    ensures r.B.None? <==> r.A == Some(0)
    ensures r.A != Some(NEXTOR_WPROT)
    ensures Carry(F) ==> w'.mem == w.mem
    ensures Fits(w')
  {
  }

  /** DEV_RW's sector number is the little-endian number at DE as a signed 32-bit value:
      unchanged below 2^31, and negative when the top byte has its high bit set. */
  lemma NextorSectorSigned(m: seq<byte>, DE: word)
    requires |m| == MEM_SIZE
    ensures var x := Le32([m[Cell(DE)], m[Cell(DE + 1)], m[Cell(DE + 2)], m[Cell(DE + 3)]]);
            (m[Cell(DE + 3)] < 0x80 ==> NextorSector(m, DE) == x)
            && (m[Cell(DE + 3)] >= 0x80 ==> NextorSector(m, DE) == x - 0x1_0000_0000 < 0)
  {
  }

  /** DEV_INFO with a device other than 1 or an unknown kind answers 1 and writes
      nothing; otherwise it answers 0 and writes exactly the info block at HL. */
  lemma DevInfoWrites(A: byte, B: byte, HL: word, w: World, w': World, r: Overlay)
    requires Fits(w) && DevInfoStep(A, B, HL, w, w', r)
    ensures A != 1 || B > 2 ==> r == StatusA(1) && w' == w
    ensures A == 1 && B <= 2 ==>
      r == StatusA(0) && w'.calls == w.calls && w'.busReads == w.busReads && |w'.mem| == MEM_SIZE
      && (forall k | 0 <= k < |InfoBlock(B).value| :: w'.mem[Cell(HL + k)] == InfoBlock(B).value[k])
      && (forall i | 0 <= i < MEM_SIZE && (i - HL) % MEM_SIZE >= |InfoBlock(B).value| :: w'.mem[i] == w.mem[i])
  {
  }

  /** DEV_INFO writes the manufacturer name "WebMSX" or the device name "WebMSX Removable
      Hard Disk" as 64 bytes: the name, then spaces to the end, with no terminator and
      nothing written past offset 63. */
  lemma {:induction false} DevInfoNames(A: byte, B: byte, HL: word, w: World, w': World, r: Overlay)
    requires Fits(w) && DevInfoStep(A, B, HL, w, w', r)
    requires A == 1 && (B == 1 || B == 2)
    ensures forall k | 0 <= k < 64 ::
      w'.mem[Cell(HL + k)] == if k < |InfoName(B)| then CharCodes(InfoName(B))[k] else SPACE
    ensures forall i | 0 <= i < MEM_SIZE && (i - HL) % MEM_SIZE >= 64 :: w'.mem[i] == w.mem[i]
  {
    InfoBlockNames(B);
    var d := InfoBlock(B).value;
    assert |d| == 64 && w'.mem == Stored(w.mem, HL, d);
    forall k | 0 <= k < 64
      ensures w'.mem[Cell(HL + k)] == d[k]
    {
    }
  }

  /** DEV_STATUS with a device or unit other than 1 answers 0 without asking the drive;
      otherwise it asks once and answers 1, 2 or 3 for unchanged, changed or unknown. */
  lemma DevStatusAnswers(A: byte, B: byte, w: World, w': World, r: Overlay)
    requires DevStatusStep(A, B, w, w', r)
    ensures A != 1 || B != 1 ==> r == StatusA(0) && w' == w
    ensures A == 1 && B == 1 ==>
      w'.calls == w.calls + [DiskHasChanged(SLOT)] && w'.mem == w.mem
      && (r == StatusA(1) <==> w.change(SLOT) == Unchanged)
      && (r == StatusA(2) <==> w.change(SLOT) == Changed)
      && (r == StatusA(3) <==> w.change(SLOT) == Unknown)
  {
  }

  /** LUN_INFO with a device or unit other than 1 answers 1 and writes nothing; otherwise
      it asks the drive for its sector count once and writes the 12-byte descriptor for
      that count (0 when the drive has none) at HL, and nothing past it. */
  lemma LunInfoWrites(A: byte, B: byte, HL: word, w: World, w': World, r: Overlay)
    requires Fits(w) && LunInfoStep(A, B, HL, w, w', r)
    ensures A != 1 || B != 1 ==> r == StatusA(1) && w' == w
    ensures A == 1 && B == 1 ==>
      var d := LunDescriptor(SectorCount(w.total(SLOT)));
      r == StatusA(0) && w'.calls == w.calls + [GetTotalSectorsAvailable(SLOT)] && |w'.mem| == MEM_SIZE
      && (forall k | 0 <= k < 12 :: w'.mem[Cell(HL + k)] == d[k])
      && (forall i | 0 <= i < MEM_SIZE && (i - HL) % MEM_SIZE >= 12 :: w'.mem[i] == w.mem[i])
  {
  }

  /** The sector count field of the LUN_INFO descriptor, read back as a little-endian
      number, is the drive's sector count modulo 2^32 (0 when it has none). */
  lemma {:induction false} LunInfoSectorCount(A: byte, B: byte, HL: word, w: World, w': World, r: Overlay)
    requires Fits(w) && LunInfoStep(A, B, HL, w, w', r)
    requires A == 1 && B == 1
    ensures Le32([w'.mem[Cell(HL + 3)], w'.mem[Cell(HL + 4)], w'.mem[Cell(HL + 5)], w'.mem[Cell(HL + 6)]])
            == SectorCount(w.total(SLOT)) % 0x1_0000_0000
  {
    var d := LunDescriptor(SectorCount(w.total(SLOT)));
    LunInfoWrites(A, B, HL, w, w', r);
    assert d[3..7] == [d[3], d[4], d[5], d[6]];
  }

  /** A disk of 65536 sectors is reported with sector-count bytes 00 00 01 00, and a
      drive without a sector count is reported as empty. */
  lemma LunDescriptorExamples()
    ensures LunDescriptor(65536)[3..7] == [0x00, 0x00, 0x01, 0x00]
    ensures LunDescriptor(SectorCount(None)) == [0, 0, 2, 0, 0, 0, 0, 1, 0, 0, 0, 0]
  {
  }

  /** Every SymbOS handler keeps the flags other than carry, and sets carry exactly when
      it returns an error code in A. */
  lemma SymbosCarryMeansError(c: Call, s: ExtState, w: World, w': World, r: Overlay)
    requires Fits(w) && Step(c, s, w, w', r)
    requires c in {SymbosDrvInpCall, SymbosDrvOutCall, SymbosDrvActCall}
    ensures r.F.Some? && r.F.value / 2 == s.F / 2
    ensures Carry(r.F.value) <==> r.A.Some?
    ensures r.B.None? && r.C.None? && r.HL.None?
  {
  }

  /** SYMBOS_DRVACT for a device other than 0 fails before reading anything; for a
      channel other than 0 it fails after reading only the channel byte at HL + 26. */
  lemma SymbosDrvActRefusals(F: byte, A: byte, HL: word, w: World, w': World, r: Overlay)
    requires Fits(w) && SymbosDrvActStep(F, A, HL, w, w', r)
    ensures A > 0 ==> r.A == Some(SYMBOS_NO_DEVICE) && w' == w
    ensures A == 0 && w.mem[Cell(HL + 26)] > 0 ==>
      r.A == Some(SYMBOS_NO_CHANNEL) && w' == w.(busReads := w.busReads + [Cell(HL + 26)])
  {
  }

  /** A successful SYMBOS_DRVACT clears carry, flashes once and changes only the fields
      of the device information block it fills in: offsets 0, 1, 12..15 and 31 from HL. */
  lemma {:induction false} SymbosDrvActSuccess(F: byte, A: byte, HL: word, w: World, w': World, r: Overlay)
    requires Fits(w) && SymbosDrvActStep(F, A, HL, w, w', r)
    requires A == 0 && w.mem[Cell(HL + 26)] == 0
    ensures r == SymbosOk(F) && !Carry(r.F.value)
    ensures w'.calls == w.calls + [MotorFlash(SLOT)] && Flashes(w'.calls) == Flashes(w.calls) + 1
    ensures |w'.mem| == MEM_SIZE
    ensures forall k | 0 <= k < MEM_SIZE :: w'.mem[Cell(HL + k)] ==
              if ActivatedField(k).Some? then ActivatedField(k).value else w.mem[Cell(HL + k)]
  {
    CountsAppend(w.calls, [MotorFlash(SLOT)]);
    assert Flashes([MotorFlash(SLOT)]) == 1;
  }

  /** SYMBOS_DRVINP and SYMBOS_DRVOUT without a disk fail with "not ready" after asking
      only whether a disk is inserted: no flash and no transfer. */
  lemma {:induction false} SymbosNoDisk(write: bool, F: byte, B: byte, HL: word, IX: word, IY: word,
                                        w: World, w': World, r: Overlay)
    requires Fits(w) && SymbosTransferStep(write, F, B, HL, IX, IY, w, w', r)
    requires !w.inserted(SLOT)
    ensures r == SymbosError(F, SYMBOS_NOT_READY)
    ensures w' == w.(calls := w.calls + [IsDiskInserted(SLOT)])
    ensures Flashes(w'.calls) == Flashes(w.calls) && Transfers(w'.calls) == Transfers(w.calls)
  {
    CountsAppend(w.calls, [IsDiskInserted(SLOT)]);
  }

  /** SYMBOS_DRVINP and SYMBOS_DRVOUT with a disk flash, then make one transfer of B
      sectors at HL from sector `(IY << 16) | IX`, the sector whose little-endian bytes
      are IX low, IX high, IY low, IY high; they succeed exactly when the transfer does. */
  lemma {:induction false} SymbosTransfer(write: bool, F: byte, B: byte, HL: word, IX: word, IY: word,
                                          w: World, w': World, r: Overlay)
    requires Fits(w) && SymbosTransferStep(write, F, B, HL, IX, IY, w, w', r)
    requires w.inserted(SLOT)
    ensures w'.calls == w.calls + [IsDiskInserted(SLOT), MotorFlash(SLOT),
                                   Transfer(write, SymbosSector(IX, IY), B, HL, r == SymbosOk(F))]
    ensures SymbosSector(IX, IY) == Int32(Le32([IX % 0x100, IX / 0x100, IY % 0x100, IY / 0x100]))
    ensures r == SymbosOk(F) || r == SymbosError(F, SYMBOS_UNKNOWN_DISK)
    ensures write ==> w'.mem == w.mem
    ensures w'.busReads == w.busReads
    ensures Flashes(w'.calls) == Flashes(w.calls) + 1 && Transfers(w'.calls) == Transfers(w.calls) + 1
  {
    Lba16PairIsLe32(IX, IY);
    var t := Transfer(write, SymbosSector(IX, IY), B, HL, r == SymbosOk(F));
    var added := [IsDiskInserted(SLOT), MotorFlash(SLOT), t];
    assert w'.calls == w.calls + added;
    CountsAppend(w.calls, added);
    assert t.ReadSectorsToSlot? || t.WriteSectorsFromSlot?;
    assert [t][1..] == [] && Flashes([t]) == 0 && Transfers([t]) == 1;
    assert added[1..] == [MotorFlash(SLOT), t] && [MotorFlash(SLOT), t][1..] == [t];
  }

  /** No handler changes what the drive answers; each only appends to the drive call log
      and to the bus read log, and leaves memory the size it was. */
  lemma StepKeepsDrive(c: Call, s: ExtState, w: World, w': World, r: Overlay)
    requires Fits(w) && Step(c, s, w, w', r)
    ensures Fits(w')
    ensures w'.inserted == w.inserted && w'.change == w.change && w'.total == w.total
    ensures |w'.calls| >= |w.calls| && w'.calls[..|w.calls|] == w.calls
    ensures |w'.busReads| >= |w.busReads| && w'.busReads[..|w.busReads|] == w.busReads
  {
  }

  /** No handler answers NEXTOR_WPROT: the write-protect check is disabled. */
  lemma NeverWriteProtected(c: Call, s: ExtState, w: World, w': World, r: Overlay)
    requires Fits(w) && Step(c, s, w, w', r)
    requires c in {DevRwCall, DevInfoCall, DevStatusCall, LunInfoCall}
    ensures r.A != Some(NEXTOR_WPROT)
  {
  }
}
