/** The bytes of a slot: packed structures as the sender stores them, the gathering
    write that moves header and data together, and the receiver's view of the result. */
module Layout {
  import opened Packets
  import opened Chunks

  const MAGIC: nat := 0x5343_5052
  const VERSION: nat := 1
  const CMD_FILE_META: nat := 1
  const CMD_FILE_DATA: nat := 2
  const CMD_DIR_ENTER: nat := 3
  const CMD_DIR_LEAVE: nat := 4
  const CMD_TRANSFER_END: nat := 5
  const HEADER_SIZE: nat := 16
  const CHUNK_SIZE_BYTES: nat := 36

  // ---------------------------------------------------------------- numbers as bytes

  function Pow256(k: nat): (r: nat)
    ensures r > 0
  {
    if k == 0 then 1 else 256 * Pow256(k - 1)
  }

  /** `v` as `w` bytes, the lowest first; higher bits are cut off. */
  function Le(v: nat, w: nat): (s: seq<byte>)
    ensures |s| == w
    decreases w
  {
    if w == 0 then [] else [(v % 256) as byte] + Le(v / 256, w - 1)
  }

  function FromLe(s: seq<byte>): nat {
    if s == [] then 0 else s[0] as nat + 256 * FromLe(s[1..])
  }

  lemma {:induction false} FromLeLe(v: nat, w: nat)
    requires v < Pow256(w)
    ensures FromLe(Le(v, w)) == v
    decreases w
  {
    if w > 0 {
      FromLeLe(v / 256, w - 1);
      assert Le(v, w)[1..] == Le(v / 256, w - 1);
    }
  }

  lemma {:induction false} LeFromLe(s: seq<byte>)
    ensures Le(FromLe(s), |s|) == s && FromLe(s) < Pow256(|s|)
    decreases |s|
  {
    if s != [] {
      LeFromLe(s[1..]);
      assert s == [s[0]] + s[1..];
    }
  }

  // ---------------------------------------------------------------- packed structures

  /** A packed structure is the list of its field widths. */
  function Size(ws: seq<nat>): nat {
    if ws == [] then 0 else ws[0] + Size(ws[1..])
  }

  function Pack(ws: seq<nat>, vs: seq<nat>): (s: seq<byte>)
    requires |ws| == |vs|
    ensures |s| == Size(ws)
    decreases |ws|
  {
    if ws == [] then [] else Le(vs[0], ws[0]) + Pack(ws[1..], vs[1..])
  }

  function Unpack(ws: seq<nat>, s: seq<byte>): (vs: seq<nat>)
    requires |s| >= Size(ws)
    ensures |vs| == |ws|
    decreases |ws|
  {
    if ws == [] then [] else [FromLe(s[..ws[0]])] + Unpack(ws[1..], s[ws[0]..])
  }

  predicate Fit(ws: seq<nat>, vs: seq<nat>)
    requires |ws| == |vs|
    decreases |ws|
  {
    ws == [] || (vs[0] < Pow256(ws[0]) && Fit(ws[1..], vs[1..]))
  }

  lemma {:induction false} UnpackPack(ws: seq<nat>, vs: seq<nat>, rest: seq<byte>)
    requires |ws| == |vs| && Fit(ws, vs)
    ensures Unpack(ws, Pack(ws, vs) + rest) == vs
    decreases |ws|
  {
    hide Le, FromLe, Pow256;
    if ws != [] {
      var s, tail := Pack(ws, vs) + rest, Pack(ws[1..], vs[1..]) + rest;
      FirstField(Le(vs[0], ws[0]), Pack(ws[1..], vs[1..]), rest);
      assert s[..ws[0]] == Le(vs[0], ws[0]) && s[ws[0]..] == tail;
      FromLeLe(vs[0], ws[0]);
      UnpackPack(ws[1..], vs[1..], rest);
      assert Unpack(ws, s) == [vs[0]] + Unpack(ws[1..], tail);
    }
  }

  lemma FirstField(first: seq<byte>, more: seq<byte>, rest: seq<byte>)
    ensures (first + more + rest)[..|first|] == first && (first + more + rest)[|first|..] == more + rest
  {
  }

  lemma {:induction false} PackUnpack(ws: seq<nat>, s: seq<byte>)
    requires |s| >= Size(ws)
    ensures Pack(ws, Unpack(ws, s)) == s[..Size(ws)] && Fit(ws, Unpack(ws, s))
    decreases |ws|
  {
    if ws != [] {
      LeFromLe(s[..ws[0]]);
      PackUnpack(ws[1..], s[ws[0]..]);
      assert s[..Size(ws)] == s[..ws[0]] + s[ws[0]..][..Size(ws[1..])];
      assert Unpack(ws, s)[1..] == Unpack(ws[1..], s[ws[0]..]);
    }
  }

  /** scp_packet_header_t: magic, version, cmd_type, flags, payload_len, seq_num. */
  const HEADER: seq<nat> := [4, 1, 1, 2, 4, 4]

  /** scp_data_chunk_t: the header, chunk_index, chunk_size, offset, checksum. */
  const CHUNK: seq<nat> := [4, 1, 1, 2, 4, 4, 4, 4, 8, 4]

  function HeaderFields(cmd: nat, payload: nat): seq<nat> { [MAGIC, VERSION, cmd, 0, payload, 0] }

  /** What the sender fills in for a chunk; the checksum field stays zero. */
  function ChunkFields(i: nat, n: nat, offset: nat): seq<nat> {
    HeaderFields(CMD_FILE_DATA, n + CHUNK_SIZE_BYTES - HEADER_SIZE) + [i, n, offset, 0]
  }

  function HeaderBytes(cmd: nat, payload: nat): (s: seq<byte>)
    ensures |s| == HEADER_SIZE
  {
    Sizes();
    Pack(HEADER, HeaderFields(cmd, payload))
  }

  function ChunkBytes(i: nat, n: nat, offset: nat): (s: seq<byte>)
    ensures |s| == CHUNK_SIZE_BYTES
  {
    Sizes();
    Pack(CHUNK, ChunkFields(i, n, offset))
  }

  lemma Sizes()
    ensures Size(HEADER) == HEADER_SIZE && Size(CHUNK) == CHUNK_SIZE_BYTES
  {
  }

  lemma {:induction false} SizeAppend(a: seq<nat>, b: seq<nat>)
    ensures Size(a + b) == Size(a) + Size(b)
    decreases |a|
  {
    if a == [] {
      assert a + b == b;
    } else {
      assert (a + b)[1..] == a[1..] + b;
      SizeAppend(a[1..], b);
    }
  }

  // ---------------------------------------------------------------- slots

  const TOTAL: nat := SLOTS * COMBINED_CHUNK_SIZE

  function Base(slot: Slot): (r: nat)
    ensures r == slot * 0x100_1000 && r + COMBINED_CHUNK_SIZE <= TOTAL
  {
    slot * COMBINED_CHUNK_SIZE
  }

  /** Slot regions are disjoint and lie inside the session buffer. */
  lemma SlotsDisjoint(s: Slot, t: Slot, k: nat)
    requires Base(s) <= k < Base(s) + COMBINED_CHUNK_SIZE
    ensures k < TOTAL
    ensures s != t ==> !(Base(t) <= k < Base(t) + COMBINED_CHUNK_SIZE)
  {
  }

  /** Both the rounded-up direct read and the gathered write stay in their slot, for
      every chunk of every file. */
  lemma ChunkStaysInSlot(size: nat, results: seq<int>, i: nat, offset: nat)
    requires offset <= size
    ensures DATA_OFFSET + Aligned(ToRead(size, offset)) <= COMBINED_CHUNK_SIZE
    ensures 36 + ChunkLen(size, results, i, offset) <= COMBINED_CHUNK_SIZE == 0x100_1000
    ensures (DATA_OFFSET + COMBINED_CHUNK_SIZE) % 4096 == 0
  {
  }

  // ---------------------------------------------------------------- memory

  /** `s` with `bytes` stored at `at`. */
  function Splice(s: seq<byte>, at: nat, bytes: seq<byte>): (r: seq<byte>)
    requires at + |bytes| <= |s|
    ensures |r| == |s|
  {
    s[..at] + bytes + s[at + |bytes|..]
  }

  lemma SpliceJoin(s: seq<byte>, at: nat, a: seq<byte>, b: seq<byte>)
    requires at + |a| + |b| <= |s|
    ensures Splice(Splice(s, at, a), at + |a|, b) == Splice(s, at, a + b)
  {
  }

  lemma SpliceOver(s: seq<byte>, at: nat, z: seq<byte>, a: seq<byte>)
    requires at + |z| <= |s| && |a| <= |z|
    ensures Splice(Splice(s, at, z), at, a) == Splice(s, at, a + z[|a|..])
  {
  }

  lemma {:induction false} PackAppend(ws: seq<nat>, vs: seq<nat>, ws': seq<nat>, vs': seq<nat>)
    requires |ws| == |vs| && |ws'| == |vs'|
    ensures Pack(ws + ws', vs + vs') == Pack(ws, vs) + Pack(ws', vs')
    decreases |ws|
  {
    if ws == [] {
      assert ws + ws' == ws' && vs + vs' == vs';
    } else {
      assert (ws + ws')[1..] == ws[1..] + ws' && (vs + vs')[1..] == vs[1..] + vs';
      PackAppend(ws[1..], vs[1..], ws', vs');
    }
  }

  lemma PackOne(w: nat, v: nat)
    ensures Size([w]) == w && Pack([w], [v]) == Le(v, w)
  {
  }

  /** memcpy, and what the NIC does for one scatter/gather element. */
  method Copy(dst: array<byte>, at: nat, src: seq<byte>)
    requires at + |src| <= dst.Length
    modifies dst
    ensures dst[..] == Splice(old(dst[..]), at, src)
  {
    hide Splice;
    ghost var was := dst[..];
    SpliceNone(was, at);
    for k := 0 to |src|
      invariant dst[..] == Splice(was, at, src[..k])
    {
      SpliceOne(was, at, src, k);
      ghost var before := dst[..];
      dst[at + k] := src[k];
      assert dst[..] == before[at + k := src[k]];
    }
    assert src[..|src|] == src;
  }

  lemma SpliceNone(s: seq<byte>, at: nat)
    requires at <= |s|
    ensures Splice(s, at, []) == s
  {
  }

  lemma SpliceOne(s: seq<byte>, at: nat, src: seq<byte>, k: nat)
    requires at + |src| <= |s| && k < |src|
    ensures Splice(s, at, src[..k])[at + k := src[k]] == Splice(s, at, src[..k + 1])
  {
  }

  /** Assigning one field of a packed structure that is filled in from its start. */
  method SetField(buf: array<byte>, field: nat, w: nat, v: nat, ghost s: seq<byte>, ghost at: nat, ghost ws: seq<nat>,
                  ghost vs: seq<nat>)
    requires |ws| == |vs| && |s| == buf.Length && at + Size(ws) + w <= |s| && field == at + Size(ws)
    requires buf[..] == Splice(s, at, Pack(ws, vs))
    modifies buf
    ensures Size(ws + [w]) == Size(ws) + w
    ensures buf[..] == Splice(s, at, Pack(ws + [w], vs + [v]))
  {
    SizeAppend(ws, [w]);
    PackAppend(ws, vs, [w], [v]);
    PackOne(w, v);
    assert Size([w]) == w;
    assert Pack(ws, vs) + Le(v, w) == Pack(ws + [w], vs + [v]);
    SpliceJoin(s, at, Pack(ws, vs), Le(v, w));
    Copy(buf, field, Le(v, w));
  }

  /** scp_init_packet_header. */
  method InitPacketHeader(buf: array<byte>, at: nat, cmd: nat, payload: nat)
    requires at + HEADER_SIZE <= buf.Length
    modifies buf
    ensures buf[..] == Splice(old(buf[..]), at, HeaderBytes(cmd, payload))
  {
    hide Pack, Splice, Size;
    ghost var s := buf[..];
    HeaderSizes();
    NothingYet(s, at);
    SetField(buf, at, 4, MAGIC, s, at, [], []);
    assert [] + [4] == [4] && [] + [MAGIC] == [MAGIC];
    SetField(buf, at + 4, 1, VERSION, s, at, [4], [MAGIC]);
    assert [4] + [1] == [4, 1] && [MAGIC] + [VERSION] == [MAGIC, VERSION];
    SetField(buf, at + 5, 1, cmd, s, at, [4, 1], [MAGIC, VERSION]);
    assert [4, 1] + [1] == [4, 1, 1] && [MAGIC, VERSION] + [cmd] == [MAGIC, VERSION, cmd];
    SetField(buf, at + 6, 2, 0, s, at, [4, 1, 1], [MAGIC, VERSION, cmd]);
    assert [4, 1, 1] + [2] == [4, 1, 1, 2] && [MAGIC, VERSION, cmd] + [0] == [MAGIC, VERSION, cmd, 0];
    SetField(buf, at + 8, 4, payload, s, at, [4, 1, 1, 2], [MAGIC, VERSION, cmd, 0]);
    assert [4, 1, 1, 2] + [4] == [4, 1, 1, 2, 4];
    assert [MAGIC, VERSION, cmd, 0] + [payload] == [MAGIC, VERSION, cmd, 0, payload];
    SetField(buf, at + 12, 4, 0, s, at, [4, 1, 1, 2, 4], [MAGIC, VERSION, cmd, 0, payload]);
    assert [4, 1, 1, 2, 4] + [4] == HEADER;
    assert [MAGIC, VERSION, cmd, 0, payload] + [0] == HeaderFields(cmd, payload);
  }

  lemma HeaderSizes()
    ensures Size([]) == 0 && Size([4]) == 4 && Size([4, 1]) == 5 && Size([4, 1, 1]) == 6
    ensures Size([4, 1, 1, 2]) == 8 && Size([4, 1, 1, 2, 4]) == 12 && Size(HEADER) == HEADER_SIZE
  {
  }

  lemma NothingYet(s: seq<byte>, at: nat)
    requires at <= |s|
    ensures Splice(s, at, Pack([], [])) == s
  {
  }

  function Zeros(n: nat): seq<byte> { seq(n, _ => 0) }

  lemma ZerosDrop(a: nat, b: nat)
    ensures |Zeros(a + b)| == a + b && Zeros(a + b)[a..] == Zeros(b)
  {
  }

  lemma ZeroTail(ws: seq<nat>, vs: seq<nat>, w: nat)
    requires |ws| == |vs|
    ensures Size(ws + [w]) == Size(ws) + w
    ensures Pack(ws + [w], vs + [0]) == Pack(ws, vs) + Zeros(Size(ws) + w)[Size(ws)..]
  {
    SizeAppend(ws, [w]);
    PackAppend(ws, vs, [w], [0]);
    PackOne(w, 0);
    LeZero(w);
    hide Pack, Size, Zeros;
    ZerosDrop(Size(ws), w);
  }

  /** A field left out of a zeroed structure is a field that is zero. */
  lemma ZeroField(s: seq<byte>, at: nat, ws: seq<nat>, vs: seq<nat>, w: nat)
    requires |ws| == |vs| && at + Size(ws) + w <= |s|
    ensures Size(ws + [w]) == Size(ws) + w
    ensures Splice(Splice(s, at, Zeros(Size(ws) + w)), at, Pack(ws, vs)) == Splice(s, at, Pack(ws + [w], vs + [0]))
  {
    hide Pack, Size, Zeros, Splice;
    ZerosDrop(Size(ws), w);
    ZeroTail(ws, vs, w);
    SpliceOver(s, at, Zeros(Size(ws) + w), Pack(ws, vs));
  }

  lemma {:induction false} LeZero(w: nat)
    ensures Le(0, w) == Zeros(w)
    decreases w
  {
    if w > 0 { LeZero(w - 1); }
  }

  /** The chunk header at the start of a slot: zeroed, then filled in; the checksum
      stays zero. */
  method FillChunkHeader(buf: array<byte>, slot: Slot, i: nat, n: nat, offset: nat)
    requires buf.Length == TOTAL
    modifies buf
    ensures buf[..] == Splice(old(buf[..]), Base(slot), ChunkBytes(i, n, offset))
  {
    hide Pack, Splice, Size, Base;
    ghost var s := buf[..];
    var at := Base(slot);
    ChunkSizes();
    Copy(buf, at, Zeros(CHUNK_SIZE_BYTES));
    ghost var z := buf[..];
    InitPacketHeader(buf, at, CMD_FILE_DATA, n + CHUNK_SIZE_BYTES - HEADER_SIZE);
    ghost var h := HeaderFields(CMD_FILE_DATA, n + CHUNK_SIZE_BYTES - HEADER_SIZE);
    SetField(buf, at + 16, 4, i, z, at, HEADER, h);
    SetField(buf, at + 20, 4, n, z, at, HEADER + [4], h + [i]);
    SetField(buf, at + 24, 8, offset, z, at, HEADER + [4] + [4], h + [i] + [n]);
    ZeroField(s, at, HEADER + [4] + [4] + [8], h + [i] + [n] + [offset], 4);
    assert HEADER + [4] + [4] + [8] + [4] == CHUNK;
    assert h + [i] + [n] + [offset] + [0] == ChunkFields(i, n, offset);
  }

  lemma ChunkSizes()
    ensures Size(HEADER) == HEADER_SIZE && Size(CHUNK) == CHUNK_SIZE_BYTES
    ensures Size(HEADER + [4]) == 20 && Size(HEADER + [4] + [4]) == 24 && Size(HEADER + [4] + [4] + [8]) == 32
  {
    Sizes();
    assert [4][1..] == [] && [8][1..] == [];
    assert Size([4]) == 4 && Size([8]) == 8;
    SizeAppend(HEADER, [4]);
    SizeAppend(HEADER + [4], [4]);
    SizeAppend(HEADER + [4] + [4], [8]);
  }

  /** The RDMA write of a chunk: two scatter/gather elements, one remote range. */
  method RdmaWrite(local: array<byte>, remote: array<byte>, slot: Slot, n: nat)
    requires local.Length == remote.Length == TOTAL && local != remote && n <= CHUNK_SIZE
    modifies remote
    ensures remote[..] == Splice(old(remote[..]), Base(slot),
      local[Base(slot)..Base(slot) + CHUNK_SIZE_BYTES] + local[Base(slot) + DATA_OFFSET..Base(slot) + DATA_OFFSET + n])
  {
    hide Splice, Base;
    var at := Base(slot);
    var head, data := local[at..at + CHUNK_SIZE_BYTES], local[at + DATA_OFFSET..at + DATA_OFFSET + n];
    SpliceJoin(remote[..], at, head, data);
    Copy(remote, at, head);
    Copy(remote, at + CHUNK_SIZE_BYTES, data);
  }

  /** scp_validate_header. */
  function Validate(fields: seq<nat>): int
    requires |fields| >= 2
  {
    if fields[0] != MAGIC then -1 else if fields[1] != VERSION then -2 else 0
  }

  function ChunkView(s: seq<byte>): (fields: seq<nat>)
    requires |s| >= CHUNK_SIZE_BYTES
    ensures |fields| == 10
  {
    Sizes();
    Unpack(CHUNK, s)
  }

  /** Memory that starts with the bytes of a chunk header and the chunk's data. */
  predicate HoldsChunk(head: seq<byte>, i: nat, n: nat, offset: nat, bytes: seq<byte>) {
    && i < 0x1_0000_0000 && n == |bytes| <= CHUNK_SIZE && offset < 0x1_0000_0000_0000_0000
    && ChunkBytes(i, n, offset) + bytes <= head
  }

  lemma ViewOfHeld(head: seq<byte>, i: nat, n: nat, offset: nat, bytes: seq<byte>)
    requires HoldsChunk(head, i, n, offset, bytes)
    ensures CHUNK_SIZE_BYTES + n <= |head| && ChunkView(head) == ChunkFields(i, n, offset)
    ensures head[CHUNK_SIZE_BYTES..CHUNK_SIZE_BYTES + n] == bytes
  {
    hide ChunkView, ChunkBytes;
    var fields := ChunkBytes(i, n, offset);
    var rest := head[CHUNK_SIZE_BYTES + n..];
    assert head == fields + (bytes + rest);
    ViewOfBytes(i, n, offset, bytes + rest);
  }

  lemma LeIff(s: seq<byte>, v: nat)
    requires v < Pow256(|s|)
    ensures FromLe(s) == v <==> s == Le(v, |s|)
  {
    hide Pow256;
    LeFromLe(s);
    FromLeLe(v, |s|);
  }

  lemma FirstTwo(s: seq<byte>)
    requires |s| >= CHUNK_SIZE_BYTES
    ensures ChunkView(s)[0] == FromLe(s[..4]) && ChunkView(s)[1] == FromLe(s[4..5])
  {
    Sizes();
    hide FromLe;
    assert s[4..][..1] == s[4..5];
  }

  predicate MagicThere(s: seq<byte>) { |s| >= 4 && s[..4] == Le(MAGIC, 4) }

  predicate VersionThere(s: seq<byte>) { |s| >= 5 && s[4..5] == Le(VERSION, 1) }

  /** The header is accepted exactly if it starts with the bytes of the magic number
      and the version. */
  lemma AcceptedIff(s: seq<byte>)
    requires |s| >= CHUNK_SIZE_BYTES
    ensures Validate(ChunkView(s)) == if !MagicThere(s) then -1 else if !VersionThere(s) then -2 else 0
  {
    FirstTwo(s);
    Powers();
    hide Le, FromLe, ChunkView, Pow256;
    LeIff(s[..4], MAGIC);
    LeIff(s[4..5], VERSION);
  }

  function PackChunk(fields: seq<nat>): seq<byte>
    requires |fields| == 10
  {
    Pack(CHUNK, fields)
  }

  lemma PackedView(s: seq<byte>)
    requires |s| >= CHUNK_SIZE_BYTES
    ensures PackChunk(ChunkView(s)) == s[..CHUNK_SIZE_BYTES]
  {
    Sizes();
    PackUnpack(CHUNK, s);
  }

  /** The verdict on a header and what its fields and data are, in terms of bytes. */
  predicate ReadsBytes(head: seq<byte>, code: int, fields: seq<nat>, data: seq<byte>) {
    && |fields| == 10 && |head| >= CHUNK_SIZE_BYTES
    && data == head[CHUNK_SIZE_BYTES..Min(CHUNK_SIZE_BYTES + fields[7], |head|)]
    && PackChunk(fields) == head[..CHUNK_SIZE_BYTES]
    && code == (if !MagicThere(head) then -1 else if !VersionThere(head) then -2 else 0)
  }

  /** What reading memory from the start of a slot gives. A chunk that is there is read
      as it is; the header is accepted exactly if it starts with magic number and
      version; the fields are those its 36 bytes pack; the data is what lies behind. */
  ghost predicate ReadAs(head: seq<byte>, code: int, fields: seq<nat>, data: seq<byte>) {
    && ReadsBytes(head, code, fields, data)
    && forall i, n, offset, bytes :: HoldsChunk(head, i, n, offset, bytes) ==>
         code == 0 && fields == ChunkFields(i, n, offset) && data == bytes
  }

  lemma ReadIs(head: seq<byte>)
    requires |head| >= CHUNK_SIZE_BYTES
    ensures var fields := ChunkView(head);
      ReadAs(head, Validate(fields), fields, head[CHUNK_SIZE_BYTES..Min(CHUNK_SIZE_BYTES + fields[7], |head|)])
  {
    hide ChunkView, PackChunk, MagicThere, VersionThere, HoldsChunk;
    AcceptedIff(head);
    PackedView(head);
    forall i, n, offset, bytes | HoldsChunk(head, i, n, offset, bytes)
      ensures Validate(ChunkView(head)) == 0 && ChunkView(head) == ChunkFields(i, n, offset)
      ensures head[CHUNK_SIZE_BYTES..Min(CHUNK_SIZE_BYTES + n, |head|)] == bytes
    {
      ViewOfHeld(head, i, n, offset, bytes);
      HeldAccepted(i, n, offset);
    }
  }

  lemma HeldAccepted(i: nat, n: nat, offset: nat)
    ensures Validate(ChunkFields(i, n, offset)) == 0
  {
  }

  /** The receiver's reads in a slot: header fields, verdict and data. */
  method ReadChunk(remote: array<byte>, slot: Slot) returns (code: int, fields: seq<nat>, data: seq<byte>)
    requires remote.Length == TOTAL
    ensures ReadAs(remote[Base(slot)..], code, fields, data)
  {
    hide ChunkView, Base, ReadAs;
    var slotBase := remote[Base(slot)..];
    ReadIs(slotBase);
    fields := ChunkView(slotBase);
    code := Validate(fields);
    data := slotBase[CHUNK_SIZE_BYTES..Min(CHUNK_SIZE_BYTES + fields[7], |slotBase|)];
  }

  // ---------------------------------------------------------------- round trip

  lemma Powers()
    ensures Pow256(1) == 0x100 && Pow256(2) == 0x1_0000 && Pow256(4) == 0x1_0000_0000
    ensures Pow256(8) == 0x1_0000_0000_0000_0000
  {
  }

  lemma {:induction false} FitAppend(ws: seq<nat>, vs: seq<nat>, ws': seq<nat>, vs': seq<nat>)
    requires |ws| == |vs| && |ws'| == |vs'| && Fit(ws, vs) && Fit(ws', vs')
    ensures Fit(ws + ws', vs + vs')
    decreases |ws|
  {
    if ws == [] {
      assert ws + ws' == ws' && vs + vs' == vs';
    } else {
      assert (ws + ws')[1..] == ws[1..] + ws' && (vs + vs')[1..] == vs[1..] + vs';
      FitAppend(ws[1..], vs[1..], ws', vs');
    }
  }

  lemma FitTwo(w: nat, v: nat, w': nat, v': nat)
    requires v < Pow256(w) && v' < Pow256(w')
    ensures Fit([w, w'], [v, v'])
  {
  }

  /** Every field of a chunk header fits its width. */
  lemma ChunkFits(i: nat, n: nat, offset: nat)
    requires i < 0x1_0000_0000 && n <= CHUNK_SIZE && offset < 0x1_0000_0000_0000_0000
    ensures Fit(CHUNK, ChunkFields(i, n, offset))
  {
    hide Fit, Pow256;
    Powers();
    var payload := n + CHUNK_SIZE_BYTES - HEADER_SIZE;
    FitTwo(4, MAGIC, 1, VERSION);
    FitTwo(1, CMD_FILE_DATA, 2, 0);
    FitTwo(4, payload, 4, 0);
    FitTwo(4, i, 4, n);
    FitTwo(8, offset, 4, 0);
    FitAppend([4, 1], [MAGIC, VERSION], [1, 2], [CMD_FILE_DATA, 0]);
    FitAppend([4, 1] + [1, 2], [MAGIC, VERSION] + [CMD_FILE_DATA, 0], [4, 4], [payload, 0]);
    FitAppend([4, 4], [i, n], [8, 4], [offset, 0]);
    FitAppend([4, 1] + [1, 2] + [4, 4], [MAGIC, VERSION] + [CMD_FILE_DATA, 0] + [payload, 0],
              [4, 4] + [8, 4], [i, n] + [offset, 0]);
    assert [4, 1] + [1, 2] + [4, 4] + ([4, 4] + [8, 4]) == CHUNK;
    assert [MAGIC, VERSION] + [CMD_FILE_DATA, 0] + [payload, 0] + ([i, n] + [offset, 0]) == ChunkFields(i, n, offset);
  }

  lemma ViewOfBytes(i: nat, n: nat, offset: nat, rest: seq<byte>)
    requires i < 0x1_0000_0000 && n <= CHUNK_SIZE && offset < 0x1_0000_0000_0000_0000
    ensures ChunkView(ChunkBytes(i, n, offset) + rest) == ChunkFields(i, n, offset)
  {
    hide Fit, Pack, Unpack, Size;
    ChunkFits(i, n, offset);
    Sizes();
    UnpackPack(CHUNK, ChunkFields(i, n, offset), rest);
  }

  /** The part of the remote slot a chunk's write covers. */
  lemma SplicedAt(s: seq<byte>, at: nat, a: seq<byte>, b: seq<byte>)
    requires at + |a| + |b| <= |s|
    ensures var r := Splice(s, at, a + b);
      && r[at..] == a + (b + s[at + |a| + |b|..])
      && r[at + |a|..at + |a| + |b|] == b
      && (forall k :: 0 <= k < |s| && !(at <= k < at + |a| + |b|) ==> r[k] == s[k])
  {
  }

  lemma HeaderLeavesData(s: seq<byte>, at: nat, head: seq<byte>, from: nat, to: nat)
    requires at + |head| <= from <= to <= |s|
    ensures Splice(s, at, head)[at..at + |head|] == head && Splice(s, at, head)[from..to] == s[from..to]
  {
  }

  /** One chunk through one slot, byte by byte: the header is filled in at the start of
      the local slot, the write gathers it with the data region, and the receiver
      reads the same fields and the same data right behind the header. Nothing
      outside this slot changes on either side. */
  method ChunkThroughSlot(local: array<byte>, remote: array<byte>, slot: Slot, i: nat, n: nat, offset: nat)
    returns (code: int, fields: seq<nat>, data: seq<byte>)
    requires local.Length == remote.Length == TOTAL && local != remote
    requires i < 0x1_0000_0000 && n <= CHUNK_SIZE && offset < 0x1_0000_0000_0000_0000
    modifies local, remote
    ensures code == 0 && fields == ChunkFields(i, n, offset)
    ensures data == old(local[Base(slot) + 4096..Base(slot) + 4096 + n])
    ensures HoldsChunk(remote[Base(slot)..], i, n, offset, data)
    ensures forall k :: 0 <= k < TOTAL && !(Base(slot) <= k < Base(slot) + COMBINED_CHUNK_SIZE) ==>
      local[k] == old(local[k]) && remote[k] == old(remote[k])
  {
    hide Splice, Base, ChunkBytes, ChunkView, MagicThere, VersionThere, PackChunk;
    var at := Base(slot);
    ghost var head := ChunkBytes(i, n, offset);
    ghost var body := local[at + DATA_OFFSET..at + DATA_OFFSET + n];
    HeaderLeavesData(local[..], at, head, at + DATA_OFFSET, at + DATA_OFFSET + n);
    SplicedAt(local[..], at, head, []);
    assert head + [] == head;
    SplicedAt(remote[..], at, head, body);
    FillChunkHeader(local, slot, i, n, offset);
    assert local[at..at + CHUNK_SIZE_BYTES] == local[..][at..at + CHUNK_SIZE_BYTES] == head;
    assert local[at + DATA_OFFSET..at + DATA_OFFSET + n] == local[..][at + DATA_OFFSET..at + DATA_OFFSET + n] == body;
    RdmaWrite(local, remote, slot, n);
    assert remote[at..] == remote[..][at..];
    assert HoldsChunk(remote[at..], i, n, offset, body);
    code, fields, data := ReadChunk(remote, slot);
  }

  lemma LowByte(v: nat, w: nat)
    requires w > 0
    ensures Le(v, w)[0] as nat == v % 256
  {
  }

  /** Memory that was never written fails the header check. */
  lemma ZeroedIsInvalid(slot: Slot)
    ensures Validate(ChunkView(Zeros(TOTAL)[Base(slot)..])) == -1
  {
    hide ChunkView, VersionThere, Le;
    var s := Zeros(TOTAL)[Base(slot)..];
    AcceptedIff(s);
    LowByte(MAGIC, 4);
    assert s[..4][0] == 0;
  }

  // ---------------------------------------------------------------- names

  function Cut(name: seq<byte>): seq<byte> {
    if |name| < MAX_FILENAME_LEN then name else name[..MAX_FILENAME_LEN - 1]
  }

  /** strncpy of at most 255 bytes into a zeroed field of 256. */
  function NameField(name: seq<byte>): (f: seq<byte>)
    ensures |f| == MAX_FILENAME_LEN
  {
    Cut(name) + Zeros(MAX_FILENAME_LEN - |Cut(name)|)
  }

  lemma {:induction false} BeforeNulStops(name: seq<byte>, rest: seq<byte>)
    requires 0 !in name && rest != [] && rest[0] == 0
    ensures BeforeNul(name + rest) == name
  {
    if name == [] {
      assert name + rest == rest;
    } else {
      assert (name + rest)[1..] == name[1..] + rest;
      BeforeNulStops(name[1..], rest);
    }
  }

  /** The receiver reads back the name cut to 255 bytes: the whole name exactly if it
      is shorter than the field. */
  lemma NameRoundTrip(name: seq<byte>)
    requires 0 !in name
    ensures BeforeNul(NameField(name)) == Cut(name)
    ensures BeforeNul(NameField(name)) == name <==> |name| < MAX_FILENAME_LEN
  {
    BeforeNulStops(Cut(name), Zeros(MAX_FILENAME_LEN - |Cut(name)|));
  }
}
