/** The bytes of every command, as the sender stores them in a slot and as the receiver
    takes them for a packet. */
module Wire {
  import opened Packets
  import opened Paths
  import opened FileSystem
  import opened Layout

  // ---------------------------------------------------------------- the receiver's reading

  /** A slot whose header is refused, with the verdict; one with a command the receiver
      passes over; or one that holds a packet. */
  datatype Reading = Refused(code: int) | PassedOver(cmd: byte) | Taken(pkt: Packet)

  lemma {:induction false} BeforeNulClean(f: seq<byte>)
    ensures 0 !in BeforeNul(f)
  {
    if f != [] && f[0] != 0 { BeforeNulClean(f[1..]); }
  }

  /** A C string in memory. */
  function CStringAt(s: seq<byte>): CString {
    BeforeNulClean(s);
    CleanText(BeforeNul(s));
    Text(BeforeNul(s))
  }

  lemma CleanText(b: seq<byte>)
    requires 0 !in b
    ensures '\0' !in Text(b)
  {
    forall k | 0 <= k < |b| ensures Text(b)[k] != '\0' {
      assert b[k] in b;
    }
  }

  /** What the receive loop makes of the memory from the start of a slot: the header check,
      the dispatch on the sixth byte, and the fields each command reads. */
  function Read(s: seq<byte>): Reading
    requires |s| >= 300
  {
    if s[..4] != [0x52, 0x50, 0x43, 0x53] then Refused(-1)
    else if s[4] != 1 then Refused(-2)
    else if s[5] == 1 then
      Taken(FileMeta(CStringAt(s[16..]), FromLe(s[272..280]), if s[284] == 2 then Symlink else Regular,
        FromLe(s[288..292])))
    else if s[5] == 2 then
      var n := FromLe(s[20..24]);
      Taken(FileData(FromLe(s[16..20]), n, FromLe(s[24..32]), if 36 + n <= |s| then s[36..36 + n] else s[36..]))
    else if s[5] == 3 then Taken(DirEnter(CStringAt(s[16..])))
    else if s[5] == 4 then Taken(DirLeave)
    else if s[5] == 5 then Taken(TransferEnd)
    else PassedOver(s[5])
  }

  // ---------------------------------------------------------------- the sender's bytes

  /** A name as the bytes of a C string. */
  predicate ByteName(name: string, b: seq<byte>) { 0 !in b && Text(b) == name }

  function KindByte(kind: FileKind): byte { if kind.Symlink? then 2 else 0 }

  /** scp_file_meta_t: header, name, size, mode, type, reserved, chunks, mtime. */
  function MetaBytes(b: seq<byte>, size: nat, mode: nat, kind: FileKind, chunks: nat): (s: seq<byte>)
    ensures |s| == 300
  {
    HeaderBytes(CMD_FILE_META, 284)
    + (NameField(b) + (Le(size, 8) + (Le(mode, 4) + ([KindByte(kind)] + (Zeros(3) + (Le(chunks, 4) + Zeros(8)))))))
  }

  /** scp_dir_info_t: header, name, and two fields that stay zero. */
  function EnterBytes(b: seq<byte>): (s: seq<byte>)
    ensures |s| == 280
  {
    HeaderBytes(CMD_DIR_ENTER, 264) + (NameField(b) + Zeros(8))
  }

  function LeaveBytes(): (s: seq<byte>)
    ensures |s| == 16
  {
    HeaderBytes(CMD_DIR_LEAVE, 0)
  }

  /** scp_transfer_end_t: the header, and fields that stay zero. */
  function EndBytes(): (s: seq<byte>)
    ensures |s| == 36
  {
    HeaderBytes(CMD_TRANSFER_END, 20) + Zeros(20)
  }

  lemma LeOne(v: nat)
    requires v < 256
    ensures Le(v, 1) == [v as byte]
  {
    assert Le(v / 256, 0) == [];
  }

  lemma LeTwo()
    ensures Le(0, 2) == [0, 0] && Le(0, 4) == [0, 0, 0, 0]
  {
    LeZero(2);
    LeZero(4);
    assert Zeros(2) == [0, 0] && Zeros(4) == [0, 0, 0, 0];
  }

  lemma MagicBytes()
    ensures Le(MAGIC, 4) == [0x52, 0x50, 0x43, 0x53] && Le(VERSION, 1) == [1]
  {
    assert Le(0x5343_5052, 4) == [0x52] + Le(0x53_4350, 3);
    assert Le(0x53_4350, 3) == [0x50] + Le(0x5343, 2);
    assert Le(0x5343, 2) == [0x43] + Le(0x53, 1);
    LeOne(0x53);
    LeOne(1);
  }

  /** The sixteen bytes of a packet header. */
  lemma HeaderIs(cmd: nat, payload: nat)
    requires cmd < 256
    ensures HeaderBytes(cmd, payload) ==
      [0x52, 0x50, 0x43, 0x53, 1, cmd as byte, 0, 0] + Le(payload, 4) + [0, 0, 0, 0]
  {
    hide Le;
    HeaderParts(cmd, payload);
    MagicBytes();
    LeOne(cmd);
    LeTwo();
  }

  lemma HeaderParts(cmd: nat, payload: nat)
    ensures HeaderBytes(cmd, payload) ==
      Le(MAGIC, 4) + (Le(VERSION, 1) + (Le(cmd, 1) + (Le(0, 2) + (Le(payload, 4) + Le(0, 4)))))
  {
    hide Le;
    Sizes();
    assert HEADER[1..] == [1, 1, 2, 4, 4] && HEADER[1..][1..] == [1, 2, 4, 4] && HEADER[1..][1..][1..] == [2, 4, 4];
    PackStep(HEADER, HeaderFields(cmd, payload));
    PackStep([1, 1, 2, 4, 4], [VERSION, cmd, 0, payload, 0]);
    PackStep([1, 2, 4, 4], [cmd, 0, payload, 0]);
    PackStep([2, 4, 4], [0, payload, 0]);
    PackStep([4, 4], [payload, 0]);
    PackOne(4, 0);
    hide Pack;
    assert HeaderFields(cmd, payload)[1..] == [VERSION, cmd, 0, payload, 0];
    assert [VERSION, cmd, 0, payload, 0][1..] == [cmd, 0, payload, 0] && [cmd, 0, payload, 0][1..] == [0, payload, 0];
    assert [0, payload, 0][1..] == [payload, 0] && [payload, 0][1..] == [0];
    assert [1, 1, 2, 4, 4][1..] == [1, 2, 4, 4] && [1, 2, 4, 4][1..] == [2, 4, 4];
    assert [2, 4, 4][1..] == [4, 4] && [4, 4][1..] == [4];
  }

  lemma PackStep(ws: seq<nat>, vs: seq<nat>)
    requires |ws| == |vs| > 0
    ensures Pack(ws, vs) == Le(vs[0], ws[0]) + Pack(ws[1..], vs[1..])
  {
  }

  /** Memory that starts with a header of ours is accepted, and its sixth byte is the
      command. */
  lemma HeaderRead(cmd: nat, payload: nat, rest: seq<byte>)
    requires cmd < 256
    ensures var s := HeaderBytes(cmd, payload) + rest;
      s[..4] == [0x52, 0x50, 0x43, 0x53] && s[4] == 1 && s[5] == cmd as byte && s[16..] == rest
  {
    hide Le;
    HeaderIs(cmd, payload);
  }

  lemma NameRead(name: string, b: seq<byte>, rest: seq<byte>)
    requires ByteName(name, b)
    ensures CStringAt(NameField(b) + rest) == Clip(name, 256)
  {
    var c := Layout.Cut(b);
    var pad := Zeros(MAX_FILENAME_LEN - |c|);
    assert NameField(b) + rest == c + (pad + rest);
    BeforeNulStops(c, pad + rest);
    assert Text(c) == Clip(Text(b), 256);
  }

  /** FILE_META is taken for what the sender meant. */
  lemma MetaRead(name: CString, b: seq<byte>, size: nat, mode: nat, kind: FileKind, chunks: nat, rest: seq<byte>)
    requires ByteName(name, b) && size < 0x1_0000_0000_0000_0000 && mode < 0x1_0000_0000 && chunks < 0x1_0000_0000
    ensures Read(MetaBytes(b, size, mode, kind, chunks) + rest) == Taken(FileMeta(Clip(name, 256), size, kind, chunks))
  {
    hide Le, FromLe, NameField, HeaderBytes, CStringAt, ByteName, MetaTail, MetaBytes;
    MetaPlaces(b, size, mode, kind, chunks, rest);
    NameRead(name, b, MetaTail(size, mode, kind, chunks) + rest);
    Powers();
    FromLeLe(size, 8);
    FromLeLe(chunks, 4);
  }

  /** What follows the name in a FILE_META. */
  function MetaTail(size: nat, mode: nat, kind: FileKind, chunks: nat): (s: seq<byte>)
    ensures |s| == 28
  {
    Le(size, 8) + (Le(mode, 4) + ([KindByte(kind)] + (Zeros(3) + (Le(chunks, 4) + Zeros(8)))))
  }

  lemma MetaPlaces(b: seq<byte>, size: nat, mode: nat, kind: FileKind, chunks: nat, rest: seq<byte>)
    ensures var s := MetaBytes(b, size, mode, kind, chunks) + rest;
      && s[..4] == [0x52, 0x50, 0x43, 0x53] && s[4] == 1 && s[5] == 1
      && s[16..] == NameField(b) + (MetaTail(size, mode, kind, chunks) + rest)
      && s[272..280] == Le(size, 8) && s[284] == KindByte(kind) && s[288..292] == Le(chunks, 4)
  {
    hide NameField, HeaderBytes, MetaTail, MetaBytes, Le, KindByte;
    var tail, head := MetaTail(size, mode, kind, chunks), HeaderBytes(CMD_FILE_META, 284);
    var body := NameField(b) + (tail + rest);
    MetaSplit(b, size, mode, kind, chunks);
    Regroup(head, NameField(b), tail, rest);
    HeaderRead(CMD_FILE_META, 284, body);
    BehindHeader(head, body);
    BehindName(NameField(b), tail + rest);
    TailPlaces(size, mode, kind, chunks, rest);
  }

  lemma Regroup(a: seq<byte>, b: seq<byte>, c: seq<byte>, d: seq<byte>)
    ensures (a + (b + c)) + d == a + (b + (c + d))
  {
  }

  lemma BehindHeader(head: seq<byte>, body: seq<byte>)
    requires |head| == 16 && |body| >= 276
    ensures (head + body)[272..280] == body[256..264] && (head + body)[284] == body[268]
    ensures (head + body)[288..292] == body[272..276]
  {
  }

  lemma MetaSplit(b: seq<byte>, size: nat, mode: nat, kind: FileKind, chunks: nat)
    ensures MetaBytes(b, size, mode, kind, chunks) ==
      HeaderBytes(CMD_FILE_META, 284) + (NameField(b) + MetaTail(size, mode, kind, chunks))
  {
  }

  lemma BehindName(name: seq<byte>, t: seq<byte>)
    requires |name| == 256 && |t| >= 28
    ensures (name + t)[256..264] == t[..8] && (name + t)[268] == t[12] && (name + t)[272..276] == t[16..20]
  {
  }

  lemma TailPlaces(size: nat, mode: nat, kind: FileKind, chunks: nat, rest: seq<byte>)
    ensures var t := MetaTail(size, mode, kind, chunks) + rest;
      t[..8] == Le(size, 8) && t[12] == KindByte(kind) && t[16..20] == Le(chunks, 4)
  {
    hide Le, Zeros;
    ZerosLength();
    var t4 := Le(chunks, 4) + Zeros(8);
    var t3 := [KindByte(kind)] + (Zeros(3) + t4);
    var tail := Le(size, 8) + (Le(mode, 4) + t3);
    assert tail[16..20] == t3[4..8] == t4[..4];
    assert (tail + rest)[16..20] == tail[16..20];
  }

  lemma ZerosLength()
    ensures |Zeros(3)| == 3 && |Zeros(8)| == 8 && |Zeros(20)| == 20
  {
  }

  /** A chunk header with the data behind it is taken for that chunk. */
  lemma ChunkRead(i: nat, offset: nat, data: seq<byte>, rest: seq<byte>)
    requires i < 0x1_0000_0000 && |data| <= CHUNK_SIZE && offset < 0x1_0000_0000_0000_0000
    requires 36 + |data| + |rest| >= 300
    ensures Read(ChunkBytes(i, |data|, offset) + data + rest) == Taken(FileData(i, |data|, offset, data))
  {
    hide Le, FromLe, ChunkBytes, HeaderBytes;
    ChunkPlaces(i, |data|, offset, data + rest);
    var s := ChunkBytes(i, |data|, offset) + data + rest;
    assert s == ChunkBytes(i, |data|, offset) + (data + rest);
    Powers();
    FromLeLe(i, 4);
    FromLeLe(|data|, 4);
    FromLeLe(offset, 8);
    assert s[36..36 + |data|] == data;
  }

  lemma ChunkParts(i: nat, n: nat, offset: nat)
    ensures ChunkBytes(i, n, offset) ==
      HeaderBytes(CMD_FILE_DATA, n + 20) + (Le(i, 4) + (Le(n, 4) + (Le(offset, 8) + Le(0, 4))))
  {
    Sizes();
    hide Le;
    var h := HeaderFields(CMD_FILE_DATA, n + 20);
    assert CHUNK == HEADER + [4, 4, 8, 4] && ChunkFields(i, n, offset) == h + [i, n, offset, 0];
    PackAppend(HEADER, h, [4, 4, 8, 4], [i, n, offset, 0]);
    PackStep([4, 4, 8, 4], [i, n, offset, 0]);
    PackStep([4, 8, 4], [n, offset, 0]);
    PackStep([8, 4], [offset, 0]);
    PackOne(4, 0);
    hide Pack;
    assert [4, 4, 8, 4][1..] == [4, 8, 4] && [4, 8, 4][1..] == [8, 4] && [8, 4][1..] == [4];
    assert [i, n, offset, 0][1..] == [n, offset, 0] && [n, offset, 0][1..] == [offset, 0] && [offset, 0][1..] == [0];
  }

  lemma ChunkPlaces(i: nat, n: nat, offset: nat, rest: seq<byte>)
    ensures var s := ChunkBytes(i, n, offset) + rest;
      && s[..4] == [0x52, 0x50, 0x43, 0x53] && s[4] == 1 && s[5] == 2
      && s[16..20] == Le(i, 4) && s[20..24] == Le(n, 4) && s[24..32] == Le(offset, 8) && s[36..] == rest
  {
    hide Le, ChunkBytes, HeaderBytes;
    ChunkParts(i, n, offset);
    var tail := Le(i, 4) + (Le(n, 4) + (Le(offset, 8) + Le(0, 4)));
    var s := ChunkBytes(i, n, offset) + rest;
    HeaderRead(CMD_FILE_DATA, n + 20, tail + rest);
    assert s == HeaderBytes(CMD_FILE_DATA, n + 20) + (tail + rest);
    assert s[16..20] == (tail + rest)[..4] && s[20..24] == (tail + rest)[4..8];
    assert s[24..32] == (tail + rest)[8..16] && s[36..] == (tail + rest)[20..];
  }

  /** DIR_ENTER is taken for what the sender meant. */
  lemma EnterRead(name: CString, b: seq<byte>, rest: seq<byte>)
    requires ByteName(name, b) && |rest| >= 20
    ensures Read(EnterBytes(b) + rest) == Taken(DirEnter(Clip(name, 256)))
  {
    hide Le, NameField, HeaderBytes, CStringAt, ByteName;
    HeaderRead(CMD_DIR_ENTER, 264, NameField(b) + Zeros(8) + rest);
    assert EnterBytes(b) + rest == HeaderBytes(CMD_DIR_ENTER, 264) + (NameField(b) + Zeros(8) + rest);
    NameRead(name, b, Zeros(8) + rest);
    assert NameField(b) + Zeros(8) + rest == NameField(b) + (Zeros(8) + rest);
  }

  /** DIR_LEAVE and TRANSFER_END are recognized by the header alone, whatever lies behind it. */
  lemma LeaveRead(rest: seq<byte>)
    requires |rest| >= 284
    ensures Read(LeaveBytes() + rest) == Taken(DirLeave)
  {
    hide HeaderBytes;
    HeaderRead(CMD_DIR_LEAVE, 0, rest);
  }

  lemma EndRead(rest: seq<byte>)
    requires |rest| >= 264
    ensures Read(EndBytes() + rest) == Taken(TransferEnd)
  {
    hide HeaderBytes, Zeros;
    ZerosLength();
    HeaderRead(CMD_TRANSFER_END, 20, Zeros(20) + rest);
    assert EndBytes() + rest == HeaderBytes(CMD_TRANSFER_END, 20) + (Zeros(20) + rest);
  }

  /** The verdict is that of scp_validate_header. */
  lemma RefusedIff(s: seq<byte>)
    requires |s| >= 300
    ensures Validate(ChunkView(s)) == if Read(s).Refused? then Read(s).code else 0
  {
    hide ChunkView, Le, CStringAt, FromLe;
    AcceptedIff(s);
    MagicBytes();
    assert s[4..5] == [s[4]];
  }

  // ---------------------------------------------------------------- filling in and writing

  /** Storing `c` right behind `a` in a structure that is zero from there on. */
  lemma StoreNext(s: seq<byte>, a: seq<byte>, m: nat, c: seq<byte>)
    requires |c| <= m && |a| + m <= |s|
    ensures |Zeros(m)| == m && |Zeros(m - |c|)| == m - |c|
    ensures Splice(Splice(s, 0, a + Zeros(m)), |a|, c) == Splice(s, 0, (a + c) + Zeros(m - |c|))
  {
  }

  /** Leaving the next `k` bytes zero. */
  lemma LeaveZero(a: seq<byte>, m: nat, k: nat)
    requires k <= m
    ensures |Zeros(k)| == k && a + Zeros(m) == (a + Zeros(k)) + Zeros(m - k)
  {
  }

  /** A structure of `n` bytes at the start of slot 0, zeroed and with its header. */
  method StartControl(buf: array<byte>, cmd: nat, payload: nat, n: nat)
    requires buf.Length == TOTAL && HEADER_SIZE <= n <= 300
    modifies buf
    ensures |Zeros(n - 16)| == n - 16
    ensures buf[..] == Splice(old(buf[..]), 0, HeaderBytes(cmd, payload) + Zeros(n - 16))
  {
    hide Splice, HeaderBytes;
    ghost var s := buf[..];
    ZerosSize(n);
    ZerosSize(n - 16);
    Copy(buf, 0, Zeros(n));
    InitPacketHeader(buf, 0, cmd, payload);
    SpliceOver(s, 0, Zeros(n), HeaderBytes(cmd, payload));
    ZerosDrop(16, n - 16);
  }

  lemma ZerosSize(n: nat)
    ensures |Zeros(n)| == n
  {
  }

  /** strncpy of a name into the field behind the header. */
  method StoreName(buf: array<byte>, b: seq<byte>, ghost s: seq<byte>, ghost head: seq<byte>, ghost m: nat)
    requires buf.Length == |s| == TOTAL && |head| == 16 && 256 <= m <= 284 && |Zeros(m)| == m
    requires buf[..] == Splice(s, 0, head + Zeros(m))
    modifies buf
    ensures |Zeros(m - 256)| == m - 256 && buf[..] == Splice(s, 0, (head + NameField(b)) + Zeros(m - 256))
  {
    hide Splice;
    var c := Layout.Cut(b);
    Copy(buf, 16, c);
    StoreNext(s, head, m, c);
    LeaveZero(head + c, m - |c|, 256 - |c|);
    ZerosSize(m - 256);
    assert (head + c) + Zeros(256 - |c|) == head + NameField(b);
  }

  /** The metadata packet of scp_send_file and scp_send_symlink. */
  method FillFileMeta(buf: array<byte>, b: seq<byte>, size: nat, mode: nat, kind: FileKind, chunks: nat)
    requires buf.Length == TOTAL
    modifies buf
    ensures buf[..] == Splice(old(buf[..]), 0, MetaBytes(b, size, mode, kind, chunks))
  {
    hide Splice, HeaderBytes, NameField, Le, Zeros;
    ghost var s := buf[..];
    StartControl(buf, CMD_FILE_META, 284, 300);
    ghost var head := HeaderBytes(CMD_FILE_META, 284);
    StoreName(buf, b, s, head, 284);
    ghost var a := head + NameField(b);
    Copy(buf, 272, Le(size, 8));
    StoreNext(s, a, 28, Le(size, 8));
    Copy(buf, 280, Le(mode, 4));
    StoreNext(s, a + Le(size, 8), 20, Le(mode, 4));
    Copy(buf, 284, [KindByte(kind)]);
    StoreNext(s, a + Le(size, 8) + Le(mode, 4), 16, [KindByte(kind)]);
    ghost var d := a + Le(size, 8) + Le(mode, 4) + [KindByte(kind)];
    LeaveZero(d, 15, 3);
    Copy(buf, 288, Le(chunks, 4));
    StoreNext(s, d + Zeros(3), 12, Le(chunks, 4));
    assert d + Zeros(3) + Le(chunks, 4) + Zeros(8) == MetaBytes(b, size, mode, kind, chunks);
  }

  /** The DIR_ENTER packet of scp_send_directory. */
  method FillDirEnter(buf: array<byte>, b: seq<byte>)
    requires buf.Length == TOTAL
    modifies buf
    ensures buf[..] == Splice(old(buf[..]), 0, EnterBytes(b))
  {
    hide Splice, HeaderBytes, NameField;
    ghost var s := buf[..];
    StartControl(buf, CMD_DIR_ENTER, 264, 280);
    StoreName(buf, b, s, HeaderBytes(CMD_DIR_ENTER, 264), 264);
    assert (HeaderBytes(CMD_DIR_ENTER, 264) + NameField(b)) + Zeros(8) == EnterBytes(b);
  }

  /** The write of a control packet: one element, from the start of slot 0. */
  method WriteControl(local: array<byte>, remote: array<byte>, n: nat)
    requires local.Length == remote.Length == TOTAL && local != remote && n <= TOTAL
    modifies remote
    ensures remote[..] == Splice(old(remote[..]), 0, local[..n])
  {
    Copy(remote, 0, local[..n]);
  }

  lemma WrittenAtStart(s: seq<byte>, t: seq<byte>, bytes: seq<byte>)
    requires |s| == |t| == TOTAL >= |bytes|
    ensures Splice(s, 0, bytes)[..|bytes|] == bytes
    ensures Splice(t, 0, bytes) == bytes + t[|bytes|..]
  {
  }

  /** A file's metadata through slot 0: the receiver takes it for a FILE_META with the name
      cut to 255 characters, and with size, kind and number of chunks as they were. */
  method MetaThroughSlot(local: array<byte>, remote: array<byte>, name: CString, b: seq<byte>, size: nat, mode: nat,
                         kind: FileKind, chunks: nat)
    returns (r: Reading)
    requires local.Length == remote.Length == TOTAL && local != remote && ByteName(name, b)
    requires size < 0x1_0000_0000_0000_0000 && mode < 0x1_0000_0000 && chunks < 0x1_0000_0000
    modifies local, remote
    ensures r == Taken(FileMeta(Clip(name, 256), size, kind, chunks))
    ensures forall k :: 300 <= k < TOTAL ==> local[k] == old(local[k]) && remote[k] == old(remote[k])
  {
    hide Splice, MetaBytes, Read, ByteName;
    ghost var bytes := MetaBytes(b, size, mode, kind, chunks);
    WrittenAtStart(local[..], remote[..], bytes);
    OnlyAtStart(local[..], bytes);
    OnlyAtStart(remote[..], bytes);
    MetaRead(name, b, size, mode, kind, chunks, remote[..][300..]);
    FillFileMeta(local, b, size, mode, kind, chunks);
    assert local[..300] == local[..][..300];
    WriteControl(local, remote, 300);
    r := Read(remote[..]);
  }

  /** The target of a link, behind a chunk header at the start of slot 0, written as one
      element. */
  method LinkDataThroughSlot(local: array<byte>, remote: array<byte>, target: CBytes) returns (r: Reading)
    requires local.Length == remote.Length == TOTAL && local != remote && |target| < 4096
    modifies local, remote
    ensures r == Taken(FileData(0, |target|, 0, target))
    ensures forall k :: 36 + |target| <= k < TOTAL ==> local[k] == old(local[k]) && remote[k] == old(remote[k])
  {
    hide Splice, Read, ChunkBytes;
    ghost var head := ChunkBytes(0, |target|, 0);
    WrittenAtStart(local[..], remote[..], head + target);
    OnlyAtStart(local[..], head + target);
    OnlyAtStart(remote[..], head + target);
    SpliceJoin(local[..], 0, head, target);
    ChunkRead(0, 0, target, remote[..][36 + |target|..]);
    FillChunkHeader(local, 0, 0, |target|, 0);
    Copy(local, 36, target);
    assert local[..36 + |target|] == local[..][..36 + |target|];
    WriteControl(local, remote, 36 + |target|);
    r := Read(remote[..]);
  }

  /** Entering a directory, likewise. */
  method EnterThroughSlot(local: array<byte>, remote: array<byte>, name: CString, b: seq<byte>) returns (r: Reading)
    requires local.Length == remote.Length == TOTAL && local != remote && ByteName(name, b)
    modifies local, remote
    ensures r == Taken(DirEnter(Clip(name, 256)))
    ensures forall k :: 280 <= k < TOTAL ==> local[k] == old(local[k]) && remote[k] == old(remote[k])
  {
    hide Splice, EnterBytes, Read, ByteName;
    ghost var bytes := EnterBytes(b);
    WrittenAtStart(local[..], remote[..], bytes);
    OnlyAtStart(local[..], bytes);
    OnlyAtStart(remote[..], bytes);
    EnterRead(name, b, remote[..][280..]);
    FillDirEnter(local, b);
    assert local[..280] == local[..][..280];
    WriteControl(local, remote, 280);
    r := Read(remote[..]);
  }

  /** Leaving a directory: only the header is filled in and written, over whatever either
      side has in the slot. */
  method LeaveThroughSlot(local: array<byte>, remote: array<byte>) returns (r: Reading)
    requires local.Length == remote.Length == TOTAL && local != remote
    modifies local, remote
    ensures r == Taken(DirLeave)
    ensures forall k :: 16 <= k < TOTAL ==> local[k] == old(local[k]) && remote[k] == old(remote[k])
  {
    hide Splice, Read, HeaderBytes;
    ghost var bytes := LeaveBytes();
    WrittenAtStart(local[..], remote[..], bytes);
    OnlyAtStart(local[..], bytes);
    OnlyAtStart(remote[..], bytes);
    LeaveRead(remote[..][16..]);
    InitPacketHeader(local, 0, CMD_DIR_LEAVE, 0);
    assert local[..16] == local[..][..16];
    WriteControl(local, remote, 16);
    r := Read(remote[..]);
  }

  /** The end of the transfer. */
  method EndThroughSlot(local: array<byte>, remote: array<byte>) returns (r: Reading)
    requires local.Length == remote.Length == TOTAL && local != remote
    modifies local, remote
    ensures r == Taken(TransferEnd)
    ensures forall k :: 36 <= k < TOTAL ==> local[k] == old(local[k]) && remote[k] == old(remote[k])
  {
    hide Splice, Read, HeaderBytes, EndBytes;
    ghost var bytes := EndBytes();
    WrittenAtStart(local[..], remote[..], bytes);
    OnlyAtStart(local[..], bytes);
    OnlyAtStart(remote[..], bytes);
    EndRead(remote[..][36..]);
    EndIs();
    StartControl(local, CMD_TRANSFER_END, 20, 36);
    assert local[..36] == local[..][..36];
    WriteControl(local, remote, 36);
    r := Read(remote[..]);
  }

  lemma EndIs()
    ensures HeaderBytes(CMD_TRANSFER_END, 20) + Zeros(36 - 16) == EndBytes()
  {
  }

  lemma OnlyAtStart(s: seq<byte>, bytes: seq<byte>)
    requires |bytes| <= |s|
    ensures forall k :: |bytes| <= k < |s| ==> Splice(s, 0, bytes)[k] == s[k]
  {
  }

  /** A chunk through its slot, taken for the packet the chunk loop means. */
  method ChunkTakenThroughSlot(local: array<byte>, remote: array<byte>, slot: Slot, i: nat, n: nat, offset: nat)
    returns (r: Reading)
    requires local.Length == remote.Length == TOTAL && local != remote
    requires i < 0x1_0000_0000 && n <= CHUNK_SIZE && offset < 0x1_0000_0000_0000_0000
    modifies local, remote
    ensures r == Taken(FileData(i, n, offset, old(local[Base(slot) + 4096..Base(slot) + 4096 + n])))
    ensures forall k :: 0 <= k < TOTAL && !(Base(slot) <= k < Base(slot) + COMBINED_CHUNK_SIZE) ==>
      local[k] == old(local[k]) && remote[k] == old(remote[k])
  {
    hide Splice, Base, Read, ChunkBytes;
    ghost var data := local[Base(slot) + DATA_OFFSET..Base(slot) + DATA_OFFSET + n];
    var _, _, _ := ChunkThroughSlot(local, remote, slot, i, n, offset);
    ghost var rest := remote[Base(slot)..][36 + n..];
    assert remote[Base(slot)..] == ChunkBytes(i, n, offset) + data + rest;
    ChunkRead(i, offset, data, rest);
    r := Read(remote[Base(slot)..]);
  }
}
