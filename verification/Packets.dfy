/** Constants and messages of scp_rdma: what travels through the slots (packets)
    and what travels over the send/receive queues (CDC signals). */
module Packets {
  const CHUNK_SIZE: nat := 16 * 1024 * 1024
  const DATA_OFFSET: nat := 4096
  const COMBINED_CHUNK_SIZE: nat := CHUNK_SIZE + DATA_OFFSET
  const MAX_FILENAME_LEN: nat := 256
  const SLOTS: nat := 4
  const RING: nat := 8
  const MAX_WC: nat := 16

  newtype byte = x: int | 0 <= x < 256
  type Slot = x: nat | x < SLOTS
  type RingIdx = x: nat | x < RING

  /** A C string: its bytes up to, and without, the terminating NUL. */
  type CString = s: string | '\0' !in s

  /** A C string: everything before the first zero byte. */
  function BeforeNul(f: seq<byte>): seq<byte> {
    if f == [] || f[0] == 0 then [] else [f[0]] + BeforeNul(f[1..])
  }

  lemma {:induction false} BeforeNulAll(f: seq<byte>)
    requires 0 !in f
    ensures BeforeNul(f) == f
  {
    if f != [] {
      BeforeNulAll(f[1..]);
      assert f == [f[0]] + f[1..];
    }
  }

  /** The bytes of a C string. */
  type CBytes = s: seq<byte> | 0 !in s

  datatype FileKind = Regular | Symlink

  /** The content of a slot as the receiver reads it. `Blank` is memory without a
      valid header (the buffer starts zeroed, so magic and version do not match). */
  datatype Packet =
    | FileMeta(name: CString, size: nat, kind: FileKind, chunks: nat)
    | FileData(index: nat, length: nat, offset: nat, bytes: seq<byte>)
    | DirEnter(dirName: CString)
    | DirLeave
    | TransferEnd
    | Blank

  /** The fields of rdma_cdc_t that the two programs write or read. */
  datatype Cdc = Cdc(slot: nat, ack: bool, clientIsWrite: bool, confirmed: bool, credits: int)

  function DataReady(slot: nat): Cdc {
    Cdc(slot, false, true, false, 0)
  }

  /** A work completion; a receive completion carries the wr_id it was posted with. */
  datatype Wc = WriteDone | SendDone | Recv(wrId: nat)
}
