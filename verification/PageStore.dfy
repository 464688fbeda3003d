/**
 A store of pages that may fail at any call and may tear the slot a failed write was meant
 for.  Failures are counted, so that whoever reports one can be held to it.
 */
module PageStore {
  import opened PageError
  import opened Disk

  class PageStore {
    var disk: Disk
    /** Slots that exist, readable or not. */
    var present: set<u64>
    const payloadLen: PayloadLen
    /** How many calls have failed with an I/O error. */
    ghost var faults: nat
    /** The contents at the last `sync` that succeeded. */
    ghost var synced: Disk

    constructor (payloadLen: PayloadLen)
      ensures disk == map[] && present == {} && this.payloadLen == payloadLen && faults == 0 && synced == map[]
    {
      this.disk := map[];
      this.present := {};
      this.payloadLen := payloadLen;
      this.faults := 0;
      this.synced := map[];
    }

    /** There is no such slot yet. */
    predicate Missing(id: u64)
      reads this
    {
      id !in disk && id !in present
    }

    /** `read_into`: the stored page, or an error.  Only `Io` can be transient, and it is a fault. */
    method Read(id: u64) returns (r: Result<PageData>)
      modifies this`faults
      ensures faults == old(faults) + if r == Failure(Io) then 1 else 0
      ensures r.Success? ==> Stored(disk, id) == Some(r.value)
      ensures r.Failure? && r.error != Io ==> Stored(disk, id) == None
      ensures r.Failure? && r.error.ShortRead? <==> r.Failure? && r.error != Io && Missing(id)
      ensures r.Failure? ==> r.error == Io || ReadError(r.error)
      ensures r.Failure? && r.error.ShortRead? ==> r.error.slot == id
    {
      var fault: bool := *;
      if fault {
        faults := faults + 1;
        return Failure(Io);
      }
      if id in disk {
        return Success(disk[id]);
      }
      if id !in present {
        return Failure(ShortRead(id, 0));
      }
      var bad: bool := *;
      r := Failure(if bad then ChecksumMismatch(id, 0, 1) else BadMagic(0));
    }

    /**
     `write_page`: the page lands, or the call fails and the slot may be torn.  Either way
     other slots may come into being, as when a file grows past slots it did not have; none
     of them is readable.
     */
    method Write(id: u64, data: PageData) returns (r: Result<()>, ghost torn: Option<Slot>)
      modifies this
      ensures r.Success? ==> disk == old(disk)[id := data]
      ensures r.Failure? ==> r.error == Io && disk == Torn(old(disk), id, torn)
      ensures faults == old(faults) + if r.Failure? then 1 else 0
      ensures old(present) <= present && synced == old(synced)
    {
      torn := None;
      var grown: set<u64> := *;
      present := present + grown;
      var fault: bool := *;
      if fault {
        var damage: Option<Slot> := *;
        torn := damage;
        if damage.Some? {
          present := present + {id};
          match damage.value
          case Good(landed) => disk := disk[id := landed];
          case Corrupt => disk := disk - {id};
        }
        faults := faults + 1;
        return Failure(Io), torn;
      }
      present := present + {id};
      disk := disk[id := data];
      r := Success(());
    }

    /** `sync`: what is on the store is durable from now on; the contents do not change. */
    method Sync() returns (r: Result<()>)
      modifies this`faults, this`synced
      ensures r.Success? ==> synced == disk
      ensures r.Failure? ==> r.error == Io && synced == old(synced)
      ensures faults == old(faults) + if r.Failure? then 1 else 0
    {
      var fault: bool := *;
      if fault {
        faults := faults + 1;
        return Failure(Io);
      }
      synced := disk;
      r := Success(());
    }
  }
}
