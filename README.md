# WebMSX image Nextor device driver, in Dafny

This project models WebMSX's bridge between the Nextor disk operating system and its
disk-image drive (`src/main/msx/miscdevices/ImageNextorDeviceDriver.js`). The bridge has
two parts.

- **Kernel patch.** When the bridge connects, it writes a fixed table of bytes into the
  Nextor kernel ROM image. The table holds the driver flags, the driver name, and a set of
  routine entry points. Each routine either returns at once, sets carry and returns, or
  traps into the emulator with the extension instruction `ED xx` followed by `RET`.
- **Extension handlers.** When the CPU executes `ED xx`, the emulator calls
  `cpuExtensionBegin` with the registers. The code `xx` selects a handler. The Nextor
  device-based driver ABI has six: DRV_VERSION, DRV_INIT, DEV_RW, DEV_INFO, DEV_STATUS
  and LUN_INFO. The SymbOS mass-storage ABI has three: DRVINP, DRVOUT and DRVACT. A
  handler checks its registers, reads or writes guest memory through the bus, calls the
  drive in slot 2, and answers with a sparse register overlay that sets only some of
  A, B, C, F and HL.

Modules:

- `Registers` (`registers.dfy`) holds the byte and word types, the trapped register
  state, the overlay datatype, the carry flag and 32-bit little-endian numbers.
- `Memory` (`memory.dfy`) holds the guest's 64 KiB address space as a `Bus` class over
  an array, and `Stored`, the specification of a block write.
- `Drives` (`drive.dfy`) holds the drive as a class. Its specification fields give the
  drive's answers, and a log records every call made on it.
- `KernelPatch` (`kernel_patch.dfy`) holds the patch. `PatchNextorKernel` updates the
  image array in place, section by section as WebMSX's `patchNextorKernel` does. It is proved equal to
  `Patched`, a declarative offset-to-byte table.
- `NextorDriver` (`driver.dfy`) holds the dispatch and the handlers. Each handler's
  effect is a step relation over a `World` value: memory, the cells read, the drive's
  answers and the drive call log. Each handler method of `ImageNextorDeviceDriver`
  changes the bus and the drive and is proved to take exactly its step.
- `DriverProperties` (`driver_properties.dfy`) states what the handlers promise, as
  lemmas over the step relations.

JavaScript's bitwise operators work on signed 32-bit values. DEV_RW builds its first
sector as `b0 | b1 << 8 | b2 << 16 | b3 << 24`, and SymbOS builds it as
`(IY << 16) | IX`. Both therefore hand the drive a negative number when the top bit is
set. The model reproduces this with `Int32`, and `NextorSectorSigned` states it.

## Model

| member | source | states |
|---|---|---|
| Registers.CharCodes | src/main/msx/miscdevices/ImageNextorDeviceDriver.js:63 | `charCodeAt` over a string gives one byte per character |
| Registers.Carry | src/main/msx/miscdevices/ImageNextorDeviceDriver.js:148 | `F & 1`, taken on the bit pattern, is set exactly when the flags are odd |
| Registers.SetCarry | src/main/msx/miscdevices/ImageNextorDeviceDriver.js:256 | `F \| 1` has carry set and keeps every other flag bit |
| Registers.ClearCarry | src/main/msx/miscdevices/ImageNextorDeviceDriver.js:274 | `F & ~1` has carry clear and keeps every other flag bit |
| Registers.Le32 | src/main/msx/miscdevices/ImageNextorDeviceDriver.js:155 | `b0 \| b1 << 8 \| b2 << 16 \| b3 << 24` as a number: its low byte is b0 and its top byte is b3 |
| Registers.Le32Bytes | src/main/msx/miscdevices/ImageNextorDeviceDriver.js:240 | the four bytes `x & 0xff` … `(x >> 24) & 0xff` of a 32-bit value encode it back under `Le32` |
| Registers.Le32BytesOfLe32 | src/main/msx/miscdevices/ImageNextorDeviceDriver.js:155 | four bytes combined little-endian and split again are the same bytes, so no two byte quadruples name the same sector |
| Registers.Lba16Pair | src/main/msx/miscdevices/ImageNextorDeviceDriver.js:286 | `(IY << 16) \| IX` as an unsigned number: IX is its low half and IY its high half |
| Registers.Lba16PairIsLe32 | src/main/msx/miscdevices/ImageNextorDeviceDriver.js:286 | the SymbOS sector `(IY << 16) \| IX` is the little-endian number with bytes IX low, IX high, IY low, IY high |
| Memory.Stored | src/main/msx/miscdevices/ImageNextorDeviceDriver.js:202 | after a byte-by-byte copy from HL, the cell at each offset `k` below the length holds byte `k`, and every other cell keeps its value |
| Memory.StoredStep | src/main/msx/miscdevices/ImageNextorDeviceDriver.js:241 | one more single-byte write extends a block write by one cell |
| Memory.StoredPair | src/main/msx/miscdevices/ImageNextorDeviceDriver.js:195 | the two writes at HL and HL + 1 are a two-byte block write |
| Memory.SameCell | src/main/msx/miscdevices/ImageNextorDeviceDriver.js:202 | a cell is written by the `k`-th byte of a copy from HL exactly when `k` is its offset from HL |
| Memory.SameOffset | src/main/msx/miscdevices/ImageNextorDeviceDriver.js:265-271 | different offsets from HL below 64 KiB are different cells |
| Memory.Bus.Read | src/main/msx/miscdevices/ImageNextorDeviceDriver.js:155 | `bus.read` returns the addressed cell and logs the read |
| Memory.Bus.Write | src/main/msx/miscdevices/ImageNextorDeviceDriver.js:195 | `bus.write` changes the addressed cell and nothing else |
| Memory.Bus.WriteBytes | src/main/msx/miscdevices/ImageNextorDeviceDriver.js:241 | the copy loop leaves memory equal to `Stored` of the data |
| Drives.Drive.MotorFlash | src/main/msx/miscdevices/ImageNextorDeviceDriver.js:142 | a flash is logged and changes none of the drive's answers |
| Drives.Drive.IsDiskInserted | src/main/msx/miscdevices/ImageNextorDeviceDriver.js:145 | answers whether a disk is in the slot, and logs the query |
| Drives.Drive.DiskHasChanged | src/main/msx/miscdevices/ImageNextorDeviceDriver.js:224 | answers changed, unchanged or unknown for the slot, and logs the query |
| Drives.Drive.GetTotalSectorsAvailable | src/main/msx/miscdevices/ImageNextorDeviceDriver.js:237 | answers the slot's sector count or none, and logs the query |
| Drives.Drive.ReadSectorsToSlot | src/main/msx/miscdevices/ImageNextorDeviceDriver.js:157 | logs the read transfer with its slot, sector, count, address and result; memory contents are left open |
| Drives.Drive.WriteSectorsFromSlot | src/main/msx/miscdevices/ImageNextorDeviceDriver.js:176 | logs the write transfer with its arguments and result; guest memory is not changed |
| KernelPatch.PatchByte | src/main/msx/miscdevices/ImageNextorDeviceDriver.js:51-123 | the patch touches exactly offset 0x1c10e, 0x1c110 to 0x1c151 and 0x1c160 to 0x1c16b |
| KernelPatch.Patched | src/main/msx/miscdevices/ImageNextorDeviceDriver.js:51-123 | the patched image has the length of the unpatched one; its bytes are stated by `PatchedHeader`, `PatchedCommonRoutines`, `PatchedDeviceRoutines` and `PatchedFrame` |
| KernelPatch.PatchNextorKernel | src/main/msx/miscdevices/ImageNextorDeviceDriver.js:51-123 | the in-place patch leaves the image equal to `Patched` of the image as it was before |
| KernelPatch.PatchDriverHeader | src/main/msx/miscdevices/ImageNextorDeviceDriver.js:58-63 | patches exactly the flags byte and the 32 name bytes |
| KernelPatch.PatchCommonRoutines | src/main/msx/miscdevices/ImageNextorDeviceDriver.js:66-99 | patches exactly DRV_TIMI through the five DRV_DIRECT entries |
| KernelPatch.PatchDeviceRoutines | src/main/msx/miscdevices/ImageNextorDeviceDriver.js:102-122 | patches exactly DEV_RW, DEV_INFO, DEV_STATUS and LUN_INFO |
| KernelPatch.PatchRoutine | src/main/msx/miscdevices/ImageNextorDeviceDriver.js:68-96 | one three-byte routine extends the patched range by three offsets |
| KernelPatch.Put | src/main/msx/miscdevices/ImageNextorDeviceDriver.js:59 | one store of the patch extends the patched range by one offset |
| KernelPatch.PatchedHeader | src/main/msx/miscdevices/ImageNextorDeviceDriver.js:58-63 | 0x01 at 0x1c10e, and "WebMSX Nextor Device Driver     " at 0x1c110 to 0x1c12f |
| KernelPatch.PatchedCommonRoutines | src/main/msx/miscdevices/ImageNextorDeviceDriver.js:66-99 | C9 C9 C9 at DRV_TIMI, ED E0 C9 at DRV_VERSION, ED E1 C9 at DRV_INIT, 37 C9 C9 at DRV_BASSTAT and DRV_BASDEV, and C9 from DRV_EXTBIO to 0x1c151 |
| KernelPatch.PatchedDeviceRoutines | src/main/msx/miscdevices/ImageNextorDeviceDriver.js:102-122 | ED E8 C9, ED E9 C9, ED EA C9 and ED EB C9 at 0x1c160, 0x1c163, 0x1c166 and 0x1c169 |
| KernelPatch.PatchedFrame | src/main/msx/miscdevices/ImageNextorDeviceDriver.js:51-123 | every offset outside the patch table keeps its byte |
| KernelPatch.PatchIdempotent | src/main/msx/miscdevices/ImageNextorDeviceDriver.js:51-123 | patching a patched image changes nothing |
| NextorDriver.Route | src/main/msx/miscdevices/ImageNextorDeviceDriver.js:21-45 | exactly the nine codes E0, E1, E8 to EB and F0 to F2 have a handler, and each routes to the handler that `ExtCode` maps back to it |
| NextorDriver.DrvVersion | src/main/msx/miscdevices/ImageNextorDeviceDriver.js:125-129 | version 5.0.0 in A, B and C, and neither F nor HL set |
| NextorDriver.DrvInit | src/main/msx/miscdevices/ImageNextorDeviceDriver.js:131-135 | F, A and HL are 0 whatever the registers, and neither B nor C set |
| NextorDriver.Int32 | src/main/msx/miscdevices/ImageNextorDeviceDriver.js:155 | the result of a JavaScript bitwise operator is the signed 32-bit value congruent to the bit pattern |
| NextorDriver.InfoBlock | src/main/msx/miscdevices/ImageNextorDeviceDriver.js:192-211 | a block exists exactly for kinds 0, 1 and 2: 01 00 for kind 0, and 64 bytes for kinds 1 and 2 |
| NextorDriver.InfoBlockNames | src/main/msx/miscdevices/ImageNextorDeviceDriver.js:199-210 | the name blocks are "WebMSX" or "WebMSX Removable Hard Disk" followed by spaces up to byte 63 |
| NextorDriver.StatusCode | src/main/msx/miscdevices/ImageNextorDeviceDriver.js:224-227 | answers 1 exactly for unchanged, 2 for changed and 3 for unknown |
| NextorDriver.SectorCount | src/main/msx/miscdevices/ImageNextorDeviceDriver.js:237 | `getTotalSectorsAvailable(2) \|\| 0`: the drive's count, or 0 when it has none |
| NextorDriver.LunDescriptor | src/main/msx/miscdevices/ImageNextorDeviceDriver.js:239-240 | 12 bytes: 00 00 02, then the sector count modulo 2^32 little-endian, then 01 00 00 00 00 |
| NextorDriver.TruncatedBytes | src/main/msx/miscdevices/ImageNextorDeviceDriver.js:240 | `ts & 0xff` … `(ts >> 24) & 0xff` of a non-negative count are the little-endian bytes of the count modulo 2^32 |
| NextorDriver.DigitOfTruncation | src/main/msx/miscdevices/ImageNextorDeviceDriver.js:240 | adding a multiple of 2^32 leaves each byte of the low 32 bits unchanged |
| NextorDriver.ActivatedField | src/main/msx/miscdevices/ImageNextorDeviceDriver.js:265-271 | DRVACT stores something exactly at offsets 0, 1, 12 to 15 and 31 |
| NextorDriver.ActivatedInfo | src/main/msx/miscdevices/ImageNextorDeviceDriver.js:265-271 | after the seven writes, each offset from HL holds its field (1, 17, 0) or keeps its byte |
| NextorDriver.NextorSector | src/main/msx/miscdevices/ImageNextorDeviceDriver.js:155 | the DEV_RW first sector is congruent modulo 2^32 to the little-endian bytes at DE to DE + 3, and negative exactly when the byte at DE + 3 is 0x80 or more (the same expression is at :174) |
| NextorDriver.SymbosSector | src/main/msx/miscdevices/ImageNextorDeviceDriver.js:286 | the SymbOS first sector is congruent modulo 2^32 to the little-endian bytes IX low, IX high, IY low, IY high, and negative exactly when IY is 0x8000 or more (the same expression is at :305) |
| NextorDriver.DevRwTransferStep | src/main/msx/miscdevices/ImageNextorDeviceDriver.js:152-184 | the transfer step logs exactly one call, a read or write transfer as carry selects, and answers A = 0 exactly when that transfer reports success |
| NextorDriver.DevRwStep | src/main/msx/miscdevices/ImageNextorDeviceDriver.js:137-150 | DEV_RW answers A = 0, 0xFC or 0xB5, sets B exactly when A is not 0, and never sets C, F or HL |
| NextorDriver.DevInfoStep | src/main/msx/miscdevices/ImageNextorDeviceDriver.js:186-215 | DEV_INFO answers {A:0} or {A:1}, and {A:1} leaves everything unchanged |
| NextorDriver.DevStatusStep | src/main/msx/miscdevices/ImageNextorDeviceDriver.js:217-228 | DEV_STATUS answers only A, at most 3, and answers 0 exactly when it neither queries nor changes anything |
| NextorDriver.LunInfoStep | src/main/msx/miscdevices/ImageNextorDeviceDriver.js:230-245 | LUN_INFO answers {A:0} or {A:1}, and {A:1} exactly when it changes nothing |
| NextorDriver.SymbosDrvActStep | src/main/msx/miscdevices/ImageNextorDeviceDriver.js:250-275 | DRVACT answers F with bits 1 to 7 kept and carry set exactly when A carries an error; B, C and HL are never set |
| NextorDriver.SymbosTransferStep | src/main/msx/miscdevices/ImageNextorDeviceDriver.js:277-313 | DRVINP and DRVOUT answer F with bits 1 to 7 kept and carry set exactly when A carries an error; B, C and HL are never set |
| NextorDriver.Step | src/main/msx/miscdevices/ImageNextorDeviceDriver.js:21-45 | every handler's answer sets A or F |
| NextorDriver.ImageNextorDeviceDriver.Connect | src/main/msx/miscdevices/ImageNextorDeviceDriver.js:7-12 | connecting keeps the drive and bus and leaves the kernel image patched |
| NextorDriver.ImageNextorDeviceDriver.CpuExtensionBegin | src/main/msx/miscdevices/ImageNextorDeviceDriver.js:21-45 | an unhandled code gives no answer and changes nothing; a handled code takes exactly the step of its handler |
| NextorDriver.ImageNextorDeviceDriver.DevRw | src/main/msx/miscdevices/ImageNextorDeviceDriver.js:137-150 | checks device and unit, flashes, checks the media, then takes the transfer step in the direction given by carry |
| NextorDriver.ImageNextorDeviceDriver.DevRwRead | src/main/msx/miscdevices/ImageNextorDeviceDriver.js:152-165 | reads DE to DE + 3, reads B sectors from that sector to HL, and answers {A:0} or {A:NRDY, B:0} by the result |
| NextorDriver.ImageNextorDeviceDriver.DevRwWrite | src/main/msx/miscdevices/ImageNextorDeviceDriver.js:167-184 | the same for writing, with memory unchanged |
| NextorDriver.ImageNextorDeviceDriver.DevInfo | src/main/msx/miscdevices/ImageNextorDeviceDriver.js:186-215 | writes exactly the info block at HL and answers 0, or answers 1 and writes nothing |
| NextorDriver.ImageNextorDeviceDriver.DevStatus | src/main/msx/miscdevices/ImageNextorDeviceDriver.js:217-228 | answers 0 for a bad device or unit without querying, else queries once and answers the status code |
| NextorDriver.ImageNextorDeviceDriver.LunInfo | src/main/msx/miscdevices/ImageNextorDeviceDriver.js:230-245 | answers 1 for a bad device or unit, else queries the count once and writes its descriptor at HL |
| NextorDriver.ImageNextorDeviceDriver.SymbosDrvAct | src/main/msx/miscdevices/ImageNextorDeviceDriver.js:250-275 | refuses device > 0 untouched, refuses channel > 0 after one read, else flashes and fills the info block |
| NextorDriver.ImageNextorDeviceDriver.SymbosDrvInp | src/main/msx/miscdevices/ImageNextorDeviceDriver.js:277-294 | not ready without a disk, else flashes and reads B sectors from `(IY << 16) \| IX` to HL |
| NextorDriver.ImageNextorDeviceDriver.SymbosDrvOut | src/main/msx/miscdevices/ImageNextorDeviceDriver.js:296-313 | the same for writing, with memory unchanged |
| DriverProperties.CountsAppend | src/main/msx/miscdevices/ImageNextorDeviceDriver.js:142 | flash and transfer counts add up over concatenated call logs |
| DriverProperties.ThunksReachHandlers | src/main/msx/miscdevices/ImageNextorDeviceDriver.js:73-122 | each `ED xx` thunk the patch writes routes to the handler of the same name |
| DriverProperties.RouteExtCode | src/main/msx/miscdevices/ImageNextorDeviceDriver.js:21-45 | every handler is reached by its own extension code |
| DriverProperties.ConstantAnswers | src/main/msx/miscdevices/ImageNextorDeviceDriver.js:125-135 | DRV_VERSION answers exactly {A:5,B:0,C:0} and DRV_INIT exactly {F:0,A:0,HL:0}, whatever the registers and without any effect |
| DriverProperties.DevRwInvalidUnit | src/main/msx/miscdevices/ImageNextorDeviceDriver.js:138-140 | A ≠ 1 or C ≠ 1 answers exactly {A:0xB5,B:0}, with F, C and HL unset, with no flash, no bus read and no drive call |
| DriverProperties.DevRwFlashesOnceFirst | src/main/msx/miscdevices/ImageNextorDeviceDriver.js:142-146 | with a valid unit the first drive call is the only flash, the second the media check, and at most one transfer follows |
| DriverProperties.DevRwNoDisk | src/main/msx/miscdevices/ImageNextorDeviceDriver.js:145-146 | without a disk the answer is exactly {A:0xFC,B:0}, with F, C and HL unset,, with no bus read and no transfer |
| DriverProperties.DevRwTransfer | src/main/msx/miscdevices/ImageNextorDeviceDriver.js:148-184 | reads DE to DE + 3, transfers B sectors at HL from that sector, writes when carry is set, answers {A:0} without B exactly on success and {A:0xFC,B:0} otherwise, never WPROT |
| DriverProperties.NextorSectorSigned | src/main/msx/miscdevices/ImageNextorDeviceDriver.js:155 | the DEV_RW sector is the little-endian value below 2^31, and that value minus 2^32 when the top byte is 0x80 or more |
| DriverProperties.DevInfoWrites | src/main/msx/miscdevices/ImageNextorDeviceDriver.js:186-215 | A ≠ 1 or B > 2 answers {A:1} with no write; otherwise {A:0}, the block is at HL and nothing else changes |
| DriverProperties.DevInfoNames | src/main/msx/miscdevices/ImageNextorDeviceDriver.js:199-210 | kinds 1 and 2 write the name and then spaces to HL + 63, and nothing at HL + 64 or beyond |
| DriverProperties.DevStatusAnswers | src/main/msx/miscdevices/ImageNextorDeviceDriver.js:217-228 | a bad device or unit answers {A:0} with no query; otherwise one query, and 1, 2 or 3 for unchanged, changed or unknown |
| DriverProperties.LunInfoWrites | src/main/msx/miscdevices/ImageNextorDeviceDriver.js:230-245 | a bad device or unit answers {A:1} with no write; otherwise one query, the 12-byte descriptor at HL and nothing beyond |
| DriverProperties.LunInfoSectorCount | src/main/msx/miscdevices/ImageNextorDeviceDriver.js:237-241 | bytes HL + 3 to HL + 6 read back as the drive's count modulo 2^32, and 0 when it has none |
| DriverProperties.LunDescriptorExamples | src/main/msx/miscdevices/ImageNextorDeviceDriver.js:237-240 | 65536 sectors gives count bytes 00 00 01 00; no count gives an all-zero count |
| DriverProperties.SymbosCarryMeansError | src/main/msx/miscdevices/ImageNextorDeviceDriver.js:250-313 | every SymbOS answer keeps the non-carry flags and sets carry exactly when it carries an error code in A |
| DriverProperties.SymbosDrvActRefusals | src/main/msx/miscdevices/ImageNextorDeviceDriver.js:255-260 | device > 0 answers error 0 with no effect; channel > 0 answers error 32 after reading only HL + 26 |
| DriverProperties.SymbosDrvActSuccess | src/main/msx/miscdevices/ImageNextorDeviceDriver.js:262-274 | on success carry is cleared, one flash happens, and only offsets 0, 1, 12 to 15 and 31 from HL change |
| DriverProperties.SymbosNoDisk | src/main/msx/miscdevices/ImageNextorDeviceDriver.js:281-282 | without a disk the answer is error 26 after the media query alone: no flash, no transfer |
| DriverProperties.SymbosTransfer | src/main/msx/miscdevices/ImageNextorDeviceDriver.js:284-293 | with a disk: one flash, then one transfer from `(IY << 16) \| IX`, answering success or error 9 by its result |
| DriverProperties.StepKeepsDrive | src/main/msx/miscdevices/ImageNextorDeviceDriver.js:21-45 | the driver itself sets none of the drive's state: each handler only calls the drive, appends to the call and read logs and keeps memory 64 KiB |
| DriverProperties.NeverWriteProtected | src/main/msx/miscdevices/ImageNextorDeviceDriver.js:170-172 | no Nextor handler answers 0xF8, because the write-protect check is disabled |

## Left out

- The `disconnect`, `powerOff` and `cpuExtensionFinish` entry points are not modelled. Neither is the registration with `bus.setFixedCpuExtensionHandler`. They are host plumbing with no logic.
- The diagnostic logging in the SymbOS handlers is not modelled. It reads the program counter through a global object.
- The disk drive, the machine bus and the Nextor kernel image are not part of this model. Only the calls the driver makes on them are modelled.
- Sector contents are not modelled. A read transfer may leave guest memory in any state. A write transfer leaves it unchanged. Each transfer's success is an arbitrary boolean that the driver passes on.
- Memory.Cell: bus addresses are taken modulo 64 KiB. HL + 63 or DE + 3 beyond 0xFFFF therefore wrap, whereas the WebMSX bus behaves as its slots decide.
- Drives.Drive.IsDiskInserted, Drives.Drive.DiskHasChanged, Drives.Drive.GetTotalSectorsAvailable: the drive's queries are modelled as changing none of its state. Any side effect of WebMSX's drive, such as `diskHasChanged` clearing its flag, is not captured, so `StepKeepsDrive` speaks only for the driver's own code.
- Drives.Drive.GetTotalSectorsAvailable: the count is a natural number or none. JavaScript's `|| 0` also maps other falsy values such as `NaN` to 0, and non-integer counts are not modelled.
- KernelPatch.PatchNextorKernel: the kernel image is a plain array of bytes. The ROM object that holds it is not modelled.
- NEXTOR_WPROT is declared but never returned. The write-protect check in DEV_RW_Write is commented out in WebMSX, and the model follows the code.
