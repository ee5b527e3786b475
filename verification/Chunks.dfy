/** How scp_send_file cuts a file into chunks, for every possible sequence of pread
    results, and exactly when the whole file gets through. */
module Chunks {
  import opened Packets

  /** total_chunks is a uint32_t. */
  function TotalChunks(size: nat): nat {
    ((size + CHUNK_SIZE - 1) / CHUNK_SIZE) % 0x1_0000_0000
  }

  function Min(a: int, b: int): int { if a <= b then a else b }

  function ToRead(size: nat, offset: nat): nat
    requires offset <= size
  {
    if offset + CHUNK_SIZE > size then size - offset else CHUNK_SIZE
  }

  /** pread at `offset` asked for `want` bytes. `r` is what the system would like to
      return: an error, end of file, or some count, never more than asked or left. */
  function Pread(size: nat, offset: nat, want: nat, r: int): (n: int)
    requires offset <= size
    ensures n <= want && n <= size - offset
  {
    if r <= 0 then Min(r, 0) else Min(r, Min(want, size - offset))
  }

  /** Direct reads ask for whole 4 KiB blocks. */
  function Aligned(n: nat): (r: nat)
    ensures n <= r < n + 4096 && r % 4096 == 0
  {
    (n + 4095) / 4096 * 4096
  }

  /** The result of the i-th pread; beyond the list every read is a full one. */
  function ReadResult(results: seq<int>, i: nat): int {
    if i < |results| then results[i] else CHUNK_SIZE
  }

  /** The byte count used for chunk i, after cutting to the rest of the file. */
  function ChunkLen(size: nat, results: seq<int>, i: nat, offset: nat): (n: int)
    requires offset <= size
    ensures n <= ToRead(size, offset)
  {
    Pread(size, offset, ToRead(size, offset), ReadResult(results, i))
  }

  /** Asking for whole blocks and cutting the result gives the same count. */
  lemma DirectReadSame(size: nat, offset: nat, r: int)
    requires offset <= size
    ensures Min(Pread(size, offset, Aligned(ToRead(size, offset)), r), ToRead(size, offset))
      == Pread(size, offset, ToRead(size, offset), r)
    ensures Aligned(ToRead(size, offset)) <= CHUNK_SIZE
  {
  }

  /** Where the loop over chunks i, i+1, ... ends: all chunks done, or a read of
      zero or fewer bytes. */
  function Final(size: nat, results: seq<int>, i: nat, offset: nat): (r: nat)
    requires offset <= size
    ensures offset <= r <= size
    decreases TotalChunks(size) - i
  {
    if i >= TotalChunks(size) || ChunkLen(size, results, i, offset) <= 0 then offset
    else Final(size, results, i + 1, offset + ChunkLen(size, results, i, offset))
  }

  /** The chunk packets the loop sends. */
  function ChunkPackets(content: seq<byte>, results: seq<int>, i: nat, offset: nat): seq<Packet>
    requires offset <= |content|
    decreases TotalChunks(|content|) - i
  {
    if i >= TotalChunks(|content|) || ChunkLen(|content|, results, i, offset) <= 0 then []
    else
      var n := ChunkLen(|content|, results, i, offset);
      [FileData(i, n, offset, content[offset..offset + n])] + ChunkPackets(content, results, i + 1, offset + n)
  }

  /** Concatenated, the chunks are the file up to where the loop ends, without gaps. */
  function Payload(ps: seq<Packet>): seq<byte> {
    if ps == [] then [] else (if ps[0].FileData? then ps[0].bytes else []) + Payload(ps[1..])
  }

  lemma {:induction false} ChunksAreGapFree(content: seq<byte>, results: seq<int>, i: nat, offset: nat)
    requires offset <= |content|
    ensures Payload(ChunkPackets(content, results, i, offset)) == content[offset..Final(|content|, results, i, offset)]
    ensures forall p :: p in ChunkPackets(content, results, i, offset) ==>
      p.FileData? && p.length == |p.bytes| && 0 < p.length <= 0x100_0000 && p.index < TotalChunks(|content|)
    decreases TotalChunks(|content|) - i
  {
    var ps := ChunkPackets(content, results, i, offset);
    if ps != [] {
      var n := ChunkLen(|content|, results, i, offset);
      ChunksAreGapFree(content, results, i + 1, offset + n);
      assert ps[1..] == ChunkPackets(content, results, i + 1, offset + n);
    }
  }

  /** The chunks are numbered without a gap from `i` on, each begins where the one before
      ended, and each holds that part of the file. */
  ghost predicate Numbered(content: seq<byte>, ps: seq<Packet>, i: nat, offset: nat)
    decreases |ps|
  {
    ps != [] ==>
      && ps[0].FileData? && ps[0].index == i && ps[0].offset == offset && offset + ps[0].length <= |content|
      && ps[0].bytes == content[offset..offset + ps[0].length]
      && Numbered(content, ps[1..], i + 1, offset + ps[0].length)
  }

  lemma {:induction false} ChunksAreNumbered(content: seq<byte>, results: seq<int>, i: nat, offset: nat)
    requires offset <= |content|
    ensures Numbered(content, ChunkPackets(content, results, i, offset), i, offset)
    decreases TotalChunks(|content|) - i
  {
    hide TotalChunks;
    var ps := ChunkPackets(content, results, i, offset);
    if ps != [] {
      var n := ChunkLen(|content|, results, i, offset);
      ChunksAreNumbered(content, results, i + 1, offset + n);
      assert ps[1..] == ChunkPackets(content, results, i + 1, offset + n);
    }
  }

  /** With full reads and a chunk count of 32 bits, chunk k is the k-th stretch of 16 MiB
      of the file, the last one shorter. */
  lemma {:induction false} FullChunks(content: seq<byte>, results: seq<int>, i: nat, k: nat)
    requires AtLeast(|content|, results, 0x100_0000) && |content| <= 0xFFFF_FFFF * 0x100_0000
    requires i <= k && k * 0x100_0000 < |content|
    ensures var ps := ChunkPackets(content, results, i, i * 0x100_0000);
      var n := Min(0x100_0000, |content| - k * 0x100_0000);
      k - i < |ps| && ps[k - i] == FileData(k, n, k * 0x100_0000, content[k * 0x100_0000..k * 0x100_0000 + n])
    decreases k - i
  {
    hide ChunkPackets, AtLeast;
    OneFullChunk(content, results, i);
    if i < k { FullChunks(content, results, i + 1, k); }
  }

  lemma OneFullChunk(content: seq<byte>, results: seq<int>, i: nat)
    requires AtLeast(|content|, results, 0x100_0000) && |content| <= 0xFFFF_FFFF * 0x100_0000
    requires i * 0x100_0000 < |content|
    ensures var n := Min(0x100_0000, |content| - i * 0x100_0000);
      var from := i * 0x100_0000;
      && from + n <= |content|
      && ChunkPackets(content, results, i, from) ==
           [FileData(i, n, from, content[from..from + n])] + ChunkPackets(content, results, i + 1, from + n)
  {
    assert i < TotalChunks(|content|);
    hide TotalChunks;
    assert ChunkLen(|content|, results, i, i * 0x100_0000) >= Min(0x100_0000, |content| - i * 0x100_0000);
  }

  /** Every pread returns at least `m` bytes, or all that was asked for. */
  ghost predicate AtLeast(size: nat, results: seq<int>, m: nat) {
    forall i, offset | 0 <= i && 0 <= offset <= size ::
      ChunkLen(size, results, i, offset) >= Min(m, ToRead(size, offset))
  }

  lemma {:induction false} FinalLower(size: nat, results: seq<int>, m: nat, i: nat, offset: nat)
    requires AtLeast(size, results, m) && 0 < m <= CHUNK_SIZE && offset <= size && i <= TotalChunks(size)
    ensures Final(size, results, i, offset) >= Min(size, offset + (TotalChunks(size) - i) * m)
    decreases TotalChunks(size) - i
  {
    hide TotalChunks;
    if i < TotalChunks(size) && offset < size {
      var n := ChunkLen(size, results, i, offset);
      FinalLower(size, results, m, i + 1, offset + n);
      OneMore(TotalChunks(size) - i, m);
    }
  }

  lemma OneMore(k: nat, m: nat)
    ensures k * m >= 0
    ensures k > 0 ==> k * m == (k - 1) * m + m && (k - 1) * m >= 0
  {
  }

  function Repeat(m: nat, k: nat): seq<int> { seq(k, _ => m) }

  lemma {:induction false} FinalExact(size: nat, m: nat, i: nat, offset: nat)
    requires 0 < m <= CHUNK_SIZE && offset <= size && i <= TotalChunks(size)
    ensures Final(size, Repeat(m, TotalChunks(size)), i, offset) == Min(size, offset + (TotalChunks(size) - i) * m)
    decreases TotalChunks(size) - i
  {
    hide TotalChunks;
    OneMore(TotalChunks(size) - i, m);
    if i < TotalChunks(size) && offset < size {
      var n := ChunkLen(size, Repeat(m, TotalChunks(size)), i, offset);
      assert n == Min(m, size - offset);
      FinalExact(size, m, i + 1, offset + n);
    }
  }

  /** The exact condition: a file of this size is sent completely whenever every
      pread delivers at least `m` bytes (or all it was asked for) if and only if
      total_chunks reads of `m` bytes cover it. */
  lemma CompleteIff(size: nat, m: nat)
    requires 0 < m <= CHUNK_SIZE
    ensures (forall results :: AtLeast(size, results, m) ==> Final(size, results, 0, 0) == size)
      <==> TotalChunks(size) * m >= size
  {
    if TotalChunks(size) * m >= size {
      forall results | AtLeast(size, results, m) ensures Final(size, results, 0, 0) == size {
        FinalLower(size, results, m, 0, 0);
      }
    } else {
      var results := Repeat(m, TotalChunks(size));
      FinalExact(size, m, 0, 0);
      assert AtLeast(size, results, m);
    }
  }

  /** With full reads this is exactly the range of sizes whose chunk count fits
      into 32 bits. */
  lemma FullReadsComplete(size: nat)
    ensures (forall results :: AtLeast(size, results, 0x100_0000) ==> Final(size, results, 0, 0) == size)
      <==> size <= 0xFFFF_FFFF * 0x100_0000
  {
    CompleteIff(size, CHUNK_SIZE);
  }

  /** What reads i, i+1, ... deliver before the first error or end of file, none more
      than a chunk and `k` of them at most. */
  function Delivered(results: seq<int>, i: nat, k: nat): nat
    decreases k
  {
    if k == 0 || ReadResult(results, i) <= 0 then 0
    else Min(ReadResult(results, i), CHUNK_SIZE) + Delivered(results, i + 1, k - 1)
  }

  lemma {:induction false} FinalIs(size: nat, results: seq<int>, i: nat, offset: nat)
    requires offset <= size && i <= TotalChunks(size)
    ensures Final(size, results, i, offset) == Min(size, offset + Delivered(results, i, TotalChunks(size) - i))
    decreases TotalChunks(size) - i
  {
    hide TotalChunks;
    if i < TotalChunks(size) && ChunkLen(size, results, i, offset) > 0 {
      FinalIs(size, results, i + 1, offset + ChunkLen(size, results, i, offset));
    }
  }

  /** How much of a file is sent for given read results: what the first total_chunks
      reads deliver before one of them fails or returns nothing, and no more than the
      file. The rest is lost although the send returns 0. */
  lemma SentIs(size: nat, results: seq<int>)
    ensures Final(size, results, 0, 0) == Min(size, Delivered(results, 0, TotalChunks(size)))
    ensures Final(size, results, 0, 0) == size <==> Delivered(results, 0, TotalChunks(size)) >= size
  {
    hide TotalChunks;
    FinalIs(size, results, 0, 0);
  }

  /** Two instances. A short read loses the tail of a file of 16 MiB, which has one
      chunk only; a file one byte longer has a second chunk and loses nothing. */
  lemma ShortReadTruncates()
    ensures TotalChunks(CHUNK_SIZE) == 1
    ensures Final(CHUNK_SIZE, [4096], 0, 0) == 4096 < CHUNK_SIZE
    ensures Final(CHUNK_SIZE + 1, [CHUNK_SIZE - 4096], 0, 0) == CHUNK_SIZE + 1
  {
    assert TotalChunks(CHUNK_SIZE) == 1 && TotalChunks(CHUNK_SIZE + 1) == 2;
    hide TotalChunks, Final;
    SentIs(CHUNK_SIZE, [4096]);
    SentIs(CHUNK_SIZE + 1, [CHUNK_SIZE - 4096]);
    assert Delivered([4096], 0, 1) == 4096 + Delivered([4096], 1, 0);
    var results := [CHUNK_SIZE - 4096];
    assert Delivered(results, 1, 1) == CHUNK_SIZE + Delivered(results, 2, 0);
    assert Delivered(results, 0, 2) == CHUNK_SIZE - 4096 + Delivered(results, 1, 1);
  }
}
