/** The error type of the crate and its result type. */
module PageError {

  /** An unsigned 64-bit integer: page ids, log sequence numbers, links and counts. */
  type u64 = n: int | 0 <= n < 0x1_0000_0000_0000_0000

  datatype Option<+T> = None | Some(value: T)

  datatype Error =
    | Io
    | InvalidPageSize(size: nat)
    | BadMagic(found: bv32)
    | UnsupportedVersion(version: bv16)
    | ChecksumMismatch(pageId: u64, stored: bv32, computed: bv32)
    | MisdirectedPage(requested: u64, stamped: u64)
    | ShortRead(slot: u64, got: nat)
    | BufferPoolExhausted(capacity: nat)
    | InvalidPageId(id: u64)
    | InvalidSuperblock

  /** What reading a page reports when the page is not there or not right. */
  predicate ReadError(e: Error) {
    e.ShortRead? || e.BadMagic? || e.UnsupportedVersion? || e.ChecksumMismatch? || e.MisdirectedPage?
  }

  datatype Result<+T> = Success(value: T) | Failure(error: Error)
}
