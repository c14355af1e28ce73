/** The disk drive the driver talks to, seen only through the calls the driver makes.
    Its sector storage is not modelled: the drive records every call in a log, answers
    queries from three specification fields, and reports an arbitrary success value for
    each sector transfer. */
module Drives {
  import opened Registers
  import opened Memory

  /** The answer of `diskHasChanged`: `true`, `false` or `null` (unknown). */
  datatype MediaChange = Changed | Unchanged | Unknown

  /** One call on the drive, with its arguments and, for a transfer, its result. */
  datatype DriveCall =
    | MotorFlash(slot: int)
    | IsDiskInserted(slot: int)
    | DiskHasChanged(slot: int)
    | GetTotalSectorsAvailable(slot: int)
    | ReadSectorsToSlot(slot: int, lba: int, count: int, addr: int, ok: bool)
    | WriteSectorsFromSlot(slot: int, lba: int, count: int, addr: int, ok: bool)

  class Drive {
    /** Whether a disk is inserted in each slot. */
    var inserted: int -> bool
    /** What `diskHasChanged` answers for each slot. */
    var change: int -> MediaChange
    /** What `getTotalSectorsAvailable` answers for each slot; `None` stands for a missing value. */
    var total: int -> Option<nat>
    /** Every call made on the drive, oldest first. */
    ghost var Calls: seq<DriveCall>

    constructor (inserted: int -> bool, change: int -> MediaChange, total: int -> Option<nat>)
      ensures this.inserted == inserted && this.change == change && this.total == total
      ensures Calls == []
    {
      this.inserted, this.change, this.total := inserted, change, total;
      Calls := [];
    }

    /** Blinks the activity light; nothing else happens. */
    method MotorFlash(slot: int)
      modifies this
      ensures Calls == old(Calls) + [DriveCall.MotorFlash(slot)]
      ensures inserted == old(inserted) && change == old(change) && total == old(total)
    {
      Calls := Calls + [DriveCall.MotorFlash(slot)];
    }

    method IsDiskInserted(slot: int) returns (b: bool)
      modifies this
      ensures b == inserted(slot)
      ensures Calls == old(Calls) + [DriveCall.IsDiskInserted(slot)]
      ensures inserted == old(inserted) && change == old(change) && total == old(total)
    {
      b := inserted(slot);
      Calls := Calls + [DriveCall.IsDiskInserted(slot)];
    }

    method DiskHasChanged(slot: int) returns (c: MediaChange)
      modifies this
      ensures c == change(slot)
      ensures Calls == old(Calls) + [DriveCall.DiskHasChanged(slot)]
      ensures inserted == old(inserted) && change == old(change) && total == old(total)
    {
      c := change(slot);
      Calls := Calls + [DriveCall.DiskHasChanged(slot)];
    }

    method GetTotalSectorsAvailable(slot: int) returns (t: Option<nat>)
      modifies this
      ensures t == total(slot)
      ensures Calls == old(Calls) + [DriveCall.GetTotalSectorsAvailable(slot)]
      ensures inserted == old(inserted) && change == old(change) && total == old(total)
    {
      t := total(slot);
      Calls := Calls + [DriveCall.GetTotalSectorsAvailable(slot)];
    }

    /** Reads `count` sectors from `lba` into guest memory at `addr`. What lands in
        memory is not modelled: the memory is left unconstrained. */
    method ReadSectorsToSlot(slot: int, lba: int, count: int, bus: Bus, addr: int) returns (ok: bool)
      modifies this, bus.mem
      ensures Calls == old(Calls) + [DriveCall.ReadSectorsToSlot(slot, lba, count, addr, ok)]
      ensures inserted == old(inserted) && change == old(change) && total == old(total)
    {
      ok :| true;
      Calls := Calls + [DriveCall.ReadSectorsToSlot(slot, lba, count, addr, ok)];
    }

    /** Writes `count` sectors at `lba` from guest memory at `addr`; guest memory is only read. */
    method WriteSectorsFromSlot(slot: int, lba: int, count: int, bus: Bus, addr: int) returns (ok: bool)
      modifies this
      ensures Calls == old(Calls) + [DriveCall.WriteSectorsFromSlot(slot, lba, count, addr, ok)]
      ensures inserted == old(inserted) && change == old(change) && total == old(total)
    {
      ok :| true;
      Calls := Calls + [DriveCall.WriteSectorsFromSlot(slot, lba, count, addr, ok)];
    }
  }
}
