/** What a page store holds, seen through its checked reads (`src/store.rs`, `src/test_store.rs`). */
module Disk {
  import opened PageError

  /** The payload of the smallest page: 4096 bytes less the 32-byte header. */
  const MIN_PAYLOAD := 4064

  /** Every page size the crate accepts leaves at least this much payload. */
  type Payload = p: seq<bv8> | MIN_PAYLOAD <= |p| witness seq(MIN_PAYLOAD, _ => 0)

  type PayloadLen = n: nat | MIN_PAYLOAD <= n witness MIN_PAYLOAD

  /** What callers put in a page: the LSN and the payload. */
  datatype PageData = PageData(lsn: u64, payload: Payload)

  /** What a write leaves in a slot: it verifies and yields its page, or it does not. */
  datatype Slot = Good(data: PageData) | Corrupt

  /** The pages that can be read back; slots that do not verify are not among them. */
  type Disk = map<u64, PageData>

  /** The page a fault-free read of `id` returns, if any. */
  function Stored(disk: Disk, id: u64): Option<PageData> {
    if id in disk then Some(disk[id]) else None
  }

  /** Stores with the same pages are the same store. */
  lemma SameStored(a: Disk, b: Disk)
    requires forall id: u64 :: Stored(a, id) == Stored(b, id)
    ensures a == b
  {
    forall id: u64 ensures (id in a <==> id in b) && (id in a ==> a[id] == b[id]) {
      assert Stored(a, id) == Stored(b, id);
    }
  }

  /** The store with `slot` at `id`. */
  function WithSlot(disk: Disk, id: u64, slot: Slot): Disk {
    match slot
    case Good(data) => disk[id := data]
    case Corrupt => disk - {id}
  }

  /** The store after a failed write of `id`: the slot is untouched, or torn into anything at all. */
  function Torn(disk: Disk, id: u64, torn: Option<Slot>): Disk {
    if torn.Some? then WithSlot(disk, id, torn.value) else disk
  }

  /** What `reset` leaves: LSN 0 and a payload of zeros. */
  function BlankPage(payloadLen: PayloadLen): PageData { PageData(0, seq(payloadLen, _ => 0)) }

  predicate IsBlank(page: PageData, payloadLen: PayloadLen) {
    page.lsn == 0 && |page.payload| == payloadLen && forall i :: 0 <= i < payloadLen ==> page.payload[i] == 0
  }
}
