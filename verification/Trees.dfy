/** A directory tree, the packets the sender compiles it to, and the round trip:
    interpreting those packets rebuilds the tree. */
module Trees {
  import opened Packets
  import opened Paths
  import opened FileSystem
  import opened Chunks
  import opened Interpreter
  import opened LinkFree
  import opened Output

  /** What stat or lstat reports, with the pread results a file will see. `Gone` is an
      entry whose stat call fails. */
  datatype Tree =
    | File(content: seq<byte>, results: seq<int>)
    | Link(target: CBytes)
    | Dir(entries: seq<Entry>)
    | Gone

  datatype Entry = Entry(name: CString, node: Tree)

  /** Entries the directory loop passes over. */
  predicate Skipped(e: Entry, recursive: bool) {
    e.name == "." || e.name == ".." || e.node.Gone? || (e.node.Dir? && !recursive)
  }

  function Join(dir: CString, name: CString): CString { dir + "/" + name }

  function SubPath(remote: CString, name: CString): CString {
    Clip(Join(remote, name), MAX_PATH_LEN)
  }

  function Meta(remote: CString, size: nat, kind: FileKind, chunks: nat): Packet {
    FileMeta(Clip(remote, MAX_FILENAME_LEN), size, kind, chunks)
  }

  /** The packets of scp_send_file, scp_send_symlink and scp_send_directory. */
  function Compile(t: Tree, remote: CString, recursive: bool): seq<Packet>
    decreases t, 0
  {
    match t
    case File(content, results) =>
      [Meta(remote, |content|, Regular, TotalChunks(|content|))] + ChunkPackets(content, results, 0, 0)
    case Link(full) =>
      var target := Take(full, MAX_PATH_LEN - 1);
      [Meta(remote, |target|, Symlink, 1), FileData(0, |target|, 0, target)]
    case Dir(entries) =>
      [DirEnter(Clip(remote, MAX_FILENAME_LEN))] + CompileAll(entries, remote, recursive) + [DirLeave]
    case Gone => []
  }

  function CompileAll(es: seq<Entry>, remote: CString, recursive: bool): seq<Packet>
    decreases es, 1
  {
    if es == [] then []
    else
      (if Skipped(es[0], recursive) then [] else Compile(es[0].node, SubPath(remote, es[0].name), recursive))
      + CompileAll(es[1..], remote, recursive)
  }

  /** What comes first and last, in numbers: a file is announced with its size and the
      number of its 16 MiB chunks, modulo 2^32; a link with the length of its target, at most
      4095, and one chunk; names are cut to 255 characters. */
  lemma Announcements(t: Tree, remote: CString, recursive: bool)
    ensures var ps, name := Compile(t, remote, recursive), Clip(remote, 256);
      match t
      case File(content, _) =>
        var chunks := (|content| + 0xFF_FFFF) / 0x100_0000 % 0x1_0000_0000;
        |ps| >= 1 && ps[0] == FileMeta(name, |content|, Regular, chunks)
      case Link(target) =>
        var n := Min(|target|, 4095);
        ps == [FileMeta(name, n, Symlink, 1), FileData(0, n, 0, target[..n])]
      case Dir(_) => |ps| >= 2 && ps[0] == DirEnter(name) && ps[|ps| - 1] == DirLeave
      case Gone => ps == []
  {
    hide ChunkPackets, CompileAll;
    if t.Link? { assert Take(t.target, 4095) == t.target[..Min(|t.target|, 4095)]; }
  }

  // ---------------------------------------------------------------- what should arrive

  /** The part of the receiver's file system a tree should occupy: every file holds
      what its reads delivered. */
  function Image(t: Tree, at: Loc, recursive: bool): Fs
    decreases t, 0
  {
    match t
    case File(content, results) => map[at := FileNode(content[..Final(|content|, results, 0, 0)])]
    case Link(target) => map[at := LinkNode(target)]
    case Dir(entries) => map[at := DirNode] + ImageAll(entries, at, recursive)
    case Gone => map[]
  }

  function ImageAll(es: seq<Entry>, at: Loc, recursive: bool): Fs
    decreases es, 1
  {
    if es == [] then map[]
    else
      (if Skipped(es[0], recursive) then map[] else Image(es[0].node, at + [es[0].name], recursive))
      + ImageAll(es[1..], at, recursive)
  }

  /** Entry names are distinct path components, link targets are what readlink can
      return, and every remote path sent fits into a packet. */
  predicate Sendable(t: Tree, remote: CString, recursive: bool)
    decreases t, 0
  {
    && |remote| < MAX_FILENAME_LEN
    && match t
       case File(_, _) => true
       case Link(target) => 0 < |target| < MAX_PATH_LEN
       case Dir(entries) => SendableAll(entries, remote, recursive)
       case Gone => true
  }

  predicate SendableAll(es: seq<Entry>, remote: CString, recursive: bool)
    decreases es, 1
  {
    es != [] ==>
      && (!Skipped(es[0], recursive) ==>
            && Name(es[0].name)
            && Sendable(es[0].node, Join(remote, es[0].name), recursive)
            && (forall k :: 1 <= k < |es| ==> es[k].name != es[0].name))
      && SendableAll(es[1..], remote, recursive)
  }

  predicate Fresh(fs: Fs, at: Loc) {
    forall k :: k in fs ==> !(at <= k)
  }

  lemma {:induction false} ImageBelow(t: Tree, at: Loc, recursive: bool)
    ensures forall k :: k in Image(t, at, recursive) ==> at <= k
    decreases t, 0
  {
    if t.Dir? { ImageAllBelow(t.entries, at, recursive); }
  }

  /** Everything an entry list occupies lies below one of its names. */
  lemma {:induction false} ImageAllBelow(es: seq<Entry>, at: Loc, recursive: bool)
    ensures forall k :: k in ImageAll(es, at, recursive) ==>
      at < k && exists i :: 0 <= i < |es| && es[i].name == k[|at|]
    decreases es, 1
  {
    if es != [] {
      ImageAllBelow(es[1..], at, recursive);
      if !Skipped(es[0], recursive) { ImageBelow(es[0].node, at + [es[0].name], recursive); }
      forall k | k in ImageAll(es, at, recursive)
        ensures at < k && exists i :: 0 <= i < |es| && es[i].name == k[|at|]
      {
        if k in ImageAll(es[1..], at, recursive) {
          var i :| 0 <= i < |es[1..]| && es[1..][i].name == k[|at|];
          assert es[i + 1].name == k[|at|];
        } else {
          assert k in Image(es[0].node, at + [es[0].name], recursive);
          assert (at + [es[0].name])[|at|] == es[0].name == k[|at|];
          assert at == k[..|at|];
        }
      }
    }
  }

  // ---------------------------------------------------------------- one file, one link

  lemma AppendAtEnd(data: seq<byte>, bytes: seq<byte>)
    ensures WriteAt(data, |data|, bytes) == data + bytes
  {
  }

  /** The data packets of a file, written one after the other into the open file,
      leave it equal to what was read. */
  lemma {:induction false} ChunksWrite(base: string, x: Ctx, content: seq<byte>, results: seq<int>, i: nat, offset: nat)
    requires offset <= |content| && x.kind.Regular? && x.fd.Some?
    requires x.fd.value in x.fs && x.fs[x.fd.value] == FileNode(content[..offset])
    ensures InterpAll(base, x, ChunkPackets(content, results, i, offset)) ==
      x.(fs := x.fs[x.fd.value := FileNode(content[..Final(|content|, results, i, offset)])])
    decreases TotalChunks(|content|) - i
  {
    hide TotalChunks, ChunkLen, Interp;
    var ps := ChunkPackets(content, results, i, offset);
    if ps == [] {
      assert x.fs[x.fd.value := x.fs[x.fd.value]] == x.fs;
    } else {
      var n := ChunkLen(|content|, results, i, offset);
      OneChunk(base, x, content, i, offset, n);
      var x' := x.(fs := x.fs[x.fd.value := FileNode(content[..offset + n])]);
      ChunksWrite(base, x', content, results, i + 1, offset + n);
      assert ps[1..] == ChunkPackets(content, results, i + 1, offset + n);
    }
  }

  lemma OneChunk(base: string, x: Ctx, content: seq<byte>, i: nat, offset: nat, n: nat)
    requires offset + n <= |content| && x.kind.Regular? && x.fd.Some?
    requires x.fd.value in x.fs && x.fs[x.fd.value] == FileNode(content[..offset])
    ensures Interp(base, x, FileData(i, n, offset, content[offset..offset + n])) ==
      x.(fs := x.fs[x.fd.value := FileNode(content[..offset + n])])
  {
    hide WriteAt;
    var bytes := content[offset..offset + n];
    AppendAtEnd(content[..offset], bytes);
    assert content[..offset] + bytes == content[..offset + n];
    assert Take(bytes, n) == bytes;
  }

  // ---------------------------------------------------------------- the round trip

  /** A file or link needs a proper name to land under. */
  predicate Placed(t: Tree, remote: CString) {
    t.Dir? || Name(LastSegment(remote))
  }

  /** The components of the path a remote name is given at the receiver. */
  function PathOf(base: string, remote: string): seq<string> { Parts(base) + Parts(remote) }

  /** Room at the end of a path: it leads to a new name in an existing directory once
      the missing directories on the way are made. */
  ghost predicate Room(fs: Fs, cs: seq<string>) {
    && WellFormed(fs) && cs != [] && Norm(cs) != []
    && Reaches(MkdirAll(fs, Front(cs)), cs) && Fresh(MkdirAll(fs, Front(cs)), Norm(cs))
  }

  /** A directory may also be there already, as long as the names of its entries are
      free. */
  ghost predicate OpenDir(fs: Fs, cs: seq<string>, es: seq<Entry>, recursive: bool) {
    && WellFormed(fs) && IsDirAt(MkdirAll(fs, cs), cs)
    && NamesFree(MkdirAll(fs, cs), Norm(cs), es, recursive)
  }

  ghost predicate Ready(fs: Fs, cs: seq<string>, t: Tree, recursive: bool) {
    if t.Dir? then OpenDir(fs, cs, t.entries, recursive) else Room(fs, cs)
  }

  /** What lies in the tree's place is of its kind: a file may replace a file, a link
      anything but a directory, and a directory may be there. */
  predicate Takes(fs: Fs, at: Loc, t: Tree, recursive: bool)
    decreases t, 0
  {
    match t
    case File(_, _) => !IsDir(fs, at) && !IsLink(fs, at)
    case Link(_) => !IsDir(fs, at)
    case Dir(es) => (at !in fs || IsDir(fs, at)) && TakesAll(fs, at, es, recursive)
    case Gone => true
  }

  predicate TakesAll(fs: Fs, at: Loc, es: seq<Entry>, recursive: bool)
    decreases es, 1
  {
    es != [] ==>
      && (!Skipped(es[0], recursive) ==> Takes(fs, at + [es[0].name], es[0].node, recursive))
      && TakesAll(fs, at, es[1..], recursive)
  }

  /** The path leads, once the directories on its way are made, to a place that takes the
      tree. */
  ghost predicate Welcome(fs: Fs, cs: seq<string>, t: Tree, recursive: bool) {
    if t.Dir? then
      WellFormed(fs) && IsDirAt(MkdirAll(fs, cs), cs) && TakesAll(MkdirAll(fs, cs), Norm(cs), t.entries, recursive)
    else
      Approached(fs, cs) && Takes(MkdirAll(fs, Front(cs)), Norm(cs), t, recursive)
  }

  /** A place where nothing is takes any tree. */
  lemma {:induction false} FreshTakes(fs: Fs, at: Loc, t: Tree, recursive: bool)
    requires Fresh(fs, at) && at != []
    ensures Takes(fs, at, t, recursive)
    decreases t, 0
  {
    assert at <= at;
    if t.Dir? {
      forall i | 0 <= i < |t.entries| ensures Fresh(fs, at + [t.entries[i].name]) {
        FreshBelow(fs, at, t.entries[i].name);
      }
      FreeTakes(fs, at, t.entries, recursive);
    }
  }

  lemma FreshBelow(fs: Fs, at: Loc, n: string)
    requires Fresh(fs, at)
    ensures Fresh(fs, at + [n])
  {
    forall k | k in fs ensures !(at + [n] <= k) { assert at + [n] <= k ==> at <= k; }
  }

  lemma {:induction false} FreeTakes(fs: Fs, at: Loc, es: seq<Entry>, recursive: bool)
    requires NamesFree(fs, at, es, recursive)
    ensures TakesAll(fs, at, es, recursive)
    decreases es, 1
  {
    hide Fresh;
    if es != [] {
      assert forall i :: 0 <= i < |es[1..]| ==> es[1..][i] == es[i + 1];
      FreeTakes(fs, at, es[1..], recursive);
      if !Skipped(es[0], recursive) { FreshTakes(fs, at + [es[0].name], es[0].node, recursive); }
    }
  }

  lemma ReadyWelcome(fs: Fs, cs: seq<string>, t: Tree, recursive: bool)
    requires Ready(fs, cs, t, recursive)
    ensures Welcome(fs, cs, t, recursive)
  {
    hide WellFormed, Norm, Reaches, MkdirAll, Fresh, NamesFree, Takes, TakesAll;
    if t.Dir? {
      FreeTakes(MkdirAll(fs, cs), Norm(cs), t.entries, recursive);
    } else {
      FreshTakes(MkdirAll(fs, Front(cs)), Norm(cs), t, recursive);
    }
  }

  /** `fs` with the directories of the path `cs` made and the tree put at its end. The root
      directory is there by itself. */
  function Put(fs: Fs, cs: seq<string>, t: Tree, recursive: bool): Fs {
    if t.Dir? then MkdirAll(fs, cs) + ImageAll(t.entries, Norm(cs), recursive)
    else if cs == [] then fs
    else MkdirAll(fs, Front(cs)) + Image(t, Norm(cs), recursive)
  }

  /** What a path of proper names needs: nothing there, and directories above. */
  lemma PlainRoom(fs: Fs, cs: seq<string>)
    requires WellFormed(fs) && cs != [] && (forall i :: 0 <= i < |cs| ==> Name(cs[i]))
    requires Fresh(fs, cs) && forall j :: 0 < j < |cs| && cs[..j] in fs ==> fs[cs[..j]].DirNode?
    ensures Room(fs, cs) && Norm(cs) == cs
  {
    hide WellFormed, Reaches;
    NormsOfNames(cs);
    var ds := Front(cs);
    forall j | 0 < j <= |ds| && Norm(ds[..j]) in fs ensures fs[Norm(ds[..j])].DirNode? {
      assert ds[..j] == cs[..j];
    }
    MkdirAllMakes(fs, ds);
    MkdirAllKeeps(fs, ds);
    IsDirReaches(MkdirAll(fs, ds), cs);
    forall k | k in MkdirAll(fs, ds) ensures !(cs <= k) {
      if k !in fs { OnWayShort(cs, k); }
    }
  }

  lemma NormsOfNames(cs: seq<string>)
    requires forall i :: 0 <= i < |cs| ==> Name(cs[i])
    ensures forall j :: 0 <= j <= |cs| ==> Norm(cs[..j]) == cs[..j]
    ensures Norm(cs) == cs
  {
    forall j | 0 <= j <= |cs| ensures Norm(cs[..j]) == cs[..j] {
      NormNames([], cs[..j]);
      assert [] + cs[..j] == cs[..j];
    }
    assert cs[..|cs|] == cs;
  }

  lemma IsDirReaches(fs: Fs, cs: seq<string>)
    requires cs != [] && IsDirAt(fs, Front(cs))
    ensures Reaches(fs, cs)
  {
  }

  lemma OnWayShort(cs: seq<string>, k: Loc)
    requires cs != [] && OnWay(Front(cs), k) && forall j :: 0 <= j <= |cs| ==> Norm(cs[..j]) == cs[..j]
    ensures |k| < |cs|
  {
    var j :| 0 < j <= |Front(cs)| && k == Norm(Front(cs)[..j]);
    assert Front(cs)[..j] == cs[..j];
  }

  /** After making the directories above it, the place is still free and has a parent. */
  lemma RoomMade(fs: Fs, cs: seq<string>)
    requires Room(fs, cs)
    ensures var fs1, at := MkdirAll(fs, Front(cs)), Norm(cs);
      && WellFormed(fs1) && Kept(fs, fs1) && !Leads(fs1, cs) && !Leads(fs, cs)
      && IsDir(fs1, Parent(at)) && MkdirAll(fs, cs) == fs1[at := DirNode]
  {
    hide WellFormed, Norm, Reaches, Leads;
    var fs1, at := MkdirAll(fs, Front(cs)), Norm(cs);
    MkdirAllKeeps(fs, Front(cs));
    FreshMissing(fs1, cs);
    KeptMissing(fs, fs1, cs);
    NewPlace(fs1, cs);
    MkdirAtOutcome(fs1, cs);
  }

  /** Where there is room, no link lies in the way. */
  lemma RoomIsDirect(fs: Fs, cs: seq<string>)
    requires Room(fs, cs)
    ensures Direct(fs, cs)
  {
    hide WellFormed, Norm, Reaches, Direct, MkdirAll, Kept, OnWay;
    var fs1 := MkdirAll(fs, Front(cs));
    MkdirAllKeeps(fs, Front(cs));
    FreshMissing(fs1, cs);
    ReachesFront(fs1, cs);
    DirsAreDirect(fs1, Front(cs));
    DirectSnoc(fs1, cs);
    KeptLinks(fs, fs1);
    DirectStill(fs1, fs, cs);
  }

  lemma FreshMissing(fs: Fs, cs: seq<string>)
    requires Norm(cs) != [] && Fresh(fs, Norm(cs))
    ensures !Leads(fs, cs) && Norm(cs) !in fs
  {
    assert Norm(cs) <= Norm(cs);
  }

  lemma KeptMissing(fs: Fs, fs': Fs, cs: seq<string>)
    requires Kept(fs, fs') && !Leads(fs', cs)
    ensures !Leads(fs, cs)
  {
    if Leads(fs, cs) {
      KeptDirs(fs, fs');
      ReachesStill(fs, fs', cs);
    }
  }

  /** Where there is room, any tree can be put. */
  lemma RoomReady(fs: Fs, cs: seq<string>, t: Tree, recursive: bool)
    requires Room(fs, cs)
    ensures Ready(fs, cs, t, recursive)
  {
    hide WellFormed, Norm, Reaches, MkdirAll, Fresh, NamesFree;
    if t.Dir? {
      var fs1, at := MkdirAll(fs, Front(cs)), Norm(cs);
      RoomMade(fs, cs);
      FreshMissing(fs1, cs);
      FreshInside(fs1, at);
      BelowFree(fs1[at := DirNode], at, t.entries, recursive);
      KeptPut(fs1, at, DirNode);
      KeptDirs(fs1, fs1[at := DirNode]);
      ReachesStill(fs1, fs1[at := DirNode], cs);
    }
  }

  /** In a directory just made, every name is still free. */
  lemma FreshInside(fs: Fs, at: Loc)
    requires Fresh(fs, at)
    ensures forall n: string :: Fresh(fs[at := DirNode], at + [n])
  {
  }

  lemma BelowFree(fs: Fs, at: Loc, es: seq<Entry>, recursive: bool)
    requires forall n: string :: Fresh(fs, at + [n])
    ensures NamesFree(fs, at, es, recursive)
  {
  }

  lemma KeptPut(fs: Fs, at: Loc, n: Node)
    requires at !in fs
    ensures Kept(fs, fs[at := n])
  {
  }

  /** The path a file or link packet names, and the directory part of it. */
  lemma TargetPath(base: string, remote: CString)
    requires |base| + MAX_FILENAME_LEN < MAX_PATH_LEN && |remote| < MAX_FILENAME_LEN && Name(LastSegment(remote))
    ensures var path := Target(base, remote);
      var cs := PathOf(base, remote);
      && Parts(path) == cs && cs != [] && !Trailing(path)
      && LastSlash(path) >= 0 && Above(path) == Front(cs)
  {
    hide Parts;
    var path := Target(base, remote);
    TargetParts(base, remote);
    StripLengths(base, remote);
    assert path == StripTrailing(base) + "/" + StripLeading(remote);
    LastSegmentJoin(StripTrailing(base), StripLeading(remote));
    LastSegmentStrip(remote);
    assert path[|StripTrailing(base)|] == '/';
    NamedParts(path);
  }

  /** The directories above are made, and what the path then ends at can be reached. */
  ghost predicate Approached(fs: Fs, cs: seq<string>) {
    WellFormed(fs) && cs != [] && Reaches(MkdirAll(fs, Front(cs)), cs)
  }

  lemma FrontMade(fs: Fs, cs: seq<string>)
    requires Approached(fs, cs)
    ensures MakeDirs(fs, Front(cs)) == MkdirAll(fs, Front(cs)) && Direct(fs, Front(cs))
    ensures WellFormed(MkdirAll(fs, Front(cs))) && Kept(fs, MkdirAll(fs, Front(cs)))
  {
    hide WellFormed, Norm, Reaches, Direct, MkdirAll, MakeDirs, Kept, OnWay;
    ReachesFront(MkdirAll(fs, Front(cs)), cs);
    MadeWasDirect(fs, Front(cs));
    MakeDirsDirect(fs, Front(cs));
    MkdirAllKeeps(fs, Front(cs));
  }

  /** FILE_META of a file where no directory and no link lies: whatever was open before and
      whatever the file held, afterwards exactly this file is open, and empty. */
  lemma FileMetaStep(base: string, x: Ctx, remote: CString, size: nat, chunks: nat)
    requires |remote| < MAX_FILENAME_LEN && Name(LastSegment(remote)) && |base| + MAX_FILENAME_LEN < MAX_PATH_LEN
    requires var cs := PathOf(base, remote);
      var fs1 := MkdirAll(x.fs, Front(cs));
      Approached(x.fs, cs) && !IsDir(fs1, Norm(cs)) && !IsLink(fs1, Norm(cs))
    ensures var cs := PathOf(base, remote);
      Interp(base, x, Meta(remote, size, Regular, chunks)) ==
        Ctx(MkdirAll(x.fs, Front(cs))[Norm(cs) := FileNode([])], Some(Norm(cs)), Target(base, remote), Regular)
  {
    hide WellFormed, MkdirAll, Parts, Target, Norm, Reaches, PathOf, Trailing, Name, Interp, Direct, Above, LastSegment;
    var cs := PathOf(base, remote);
    TargetPath(base, remote);
    FrontMade(x.fs, cs);
    NotDirBefore(x.fs, MkdirAll(x.fs, Front(cs)), Norm(cs));
    DirectSnoc(x.fs, cs);
    InterpIsDirect(base, x, Meta(remote, size, Regular, chunks));
  }

  lemma NotDirBefore(fs: Fs, fs': Fs, l: Loc)
    requires Kept(fs, fs')
    ensures IsDir(fs, l) ==> IsDir(fs', l)
    ensures IsLink(fs, l) ==> IsLink(fs', l)
  {
  }

  /** FILE_META of a link: the directories above are made, and nothing is open. */
  lemma LinkMetaStep(base: string, x: Ctx, remote: CString, size: nat, chunks: nat)
    requires |remote| < MAX_FILENAME_LEN && Name(LastSegment(remote)) && |base| + MAX_FILENAME_LEN < MAX_PATH_LEN
    requires Approached(x.fs, PathOf(base, remote))
    ensures var path := Target(base, remote);
      && Parts(path) == PathOf(base, remote) && !Trailing(path)
      && Interp(base, x, Meta(remote, size, Symlink, chunks)) ==
           Ctx(MkdirAll(x.fs, Front(PathOf(base, remote))), None, path, Symlink)
  {
    hide WellFormed, MkdirAll, Parts, Target, Norm, Reaches, PathOf, Trailing, Name, Direct, Above, LastSegment,
      MakeDirs, Finds;
    var cs := PathOf(base, remote);
    TargetPath(base, remote);
    FrontMade(x.fs, cs);
    if FindsDir(x.fs, cs) {
      FoundFront(x.fs, cs);
      MakeDirsIdempotent(x.fs, Front(cs));
    }
  }

  /** A file's packets leave it with exactly the bytes that were read; what the interpreter
      did before and what the file held does not matter. */
  lemma RebuildFile(base: string, x: Ctx, t: Tree, remote: CString, recursive: bool)
    requires t.File? && Placed(t, remote) && |remote| < MAX_FILENAME_LEN
    requires |base| + MAX_FILENAME_LEN < MAX_PATH_LEN
    requires Welcome(x.fs, PathOf(base, remote), t, recursive)
    ensures InterpAll(base, x, Compile(t, remote, recursive)).fs == Put(x.fs, PathOf(base, remote), t, recursive)
  {
    hide WellFormed, MkdirAll, Parts, Target, Interp, ChunkPackets, Final, Norm, PathOf, Reaches, LastSegment, Name;
    var size := |t.content|;
    var meta := Meta(remote, size, Regular, TotalChunks(size));
    var chunks := ChunkPackets(t.content, t.results, 0, 0);
    FileMetaStep(base, x, remote, size, TotalChunks(size));
    InterpAppend(base, x, [meta], chunks);
    InterpOne(base, x, meta);
    assert t.content[..0] == [];
    ChunksWrite(base, Interp(base, x, meta), t.content, t.results, 0, 0);
  }

  /** A link's packets leave it with its target, whatever file or link was there. */
  lemma RebuildLink(base: string, x: Ctx, t: Tree, remote: CString, recursive: bool)
    requires t.Link? && Placed(t, remote) && Sendable(t, remote, recursive)
    requires |base| + MAX_FILENAME_LEN < MAX_PATH_LEN
    requires Welcome(x.fs, PathOf(base, remote), t, recursive)
    ensures InterpAll(base, x, Compile(t, remote, recursive)).fs == Put(x.fs, PathOf(base, remote), t, recursive)
  {
    hide WellFormed, MkdirAll, Parts, Target, Interp, Sendable, Norm, PathOf, Reaches, LastSegment, Name, Trailing;
    var cs := PathOf(base, remote);
    var target := t.target;
    LinkBounds(t, remote, recursive);
    var meta, data := Meta(remote, |target|, Symlink, 1), FileData(0, |target|, 0, target);
    LinkMetaStep(base, x, remote, |target|, 1);
    LinkStep(base, Interp(base, x, meta), cs, target);
    InterpAppend(base, x, [meta], [data]);
    InterpOne(base, x, meta);
    InterpOne(base, Interp(base, x, meta), data);
    assert [meta] + [data] == [meta, data];
  }

  lemma LinkBounds(t: Tree, remote: CString, recursive: bool)
    requires t.Link? && Sendable(t, remote, recursive)
    ensures 0 < |t.target| < MAX_PATH_LEN && |remote| < MAX_FILENAME_LEN
    ensures Take(t.target, MAX_PATH_LEN - 1) == t.target
  {
  }

  /** The data packet of a link puts it at the path the meta packet named. */
  lemma LinkStep(base: string, x: Ctx, cs: seq<string>, target: CBytes)
    requires x.kind.Symlink? && Parts(x.path) == cs && !Trailing(x.path) && 0 < |target| < MAX_PATH_LEN
    requires cs != [] && !IsDir(x.fs, Norm(cs)) && Reaches(x.fs, cs)
    ensures Interp(base, x, FileData(0, |target|, 0, target)).fs == x.fs[Norm(cs) := LinkNode(target)]
  {
    hide Parts, Norm, Reaches, Trailing, Lands, Direct;
    ReachesFront(x.fs, cs);
    DirsAreDirect(x.fs, Front(cs));
    LandsDirect(x.fs, cs);
    WholeLink(target);
  }

  /** DIR_ENTER makes the directory and everything above it. */
  lemma EnterStep(base: string, x: Ctx, remote: CString)
    requires |remote| < MAX_FILENAME_LEN && |base| + MAX_FILENAME_LEN < MAX_PATH_LEN && WellFormed(x.fs)
    requires IsDirAt(MkdirAll(x.fs, PathOf(base, remote)), PathOf(base, remote))
    ensures var fs1 := MkdirAll(x.fs, PathOf(base, remote));
      Interp(base, x, DirEnter(Clip(remote, MAX_FILENAME_LEN))).fs == fs1 && WellFormed(fs1)
  {
    hide MkdirAll, Parts, WellFormed, Target, Norm, Reaches, Interp, Direct;
    var cs := PathOf(base, remote);
    TargetParts(base, remote);
    MadeWasDirect(x.fs, cs);
    InterpIsDirect(base, x, DirEnter(Clip(remote, MAX_FILENAME_LEN)));
    MkdirAllKeeps(x.fs, cs);
  }

  lemma RoomSound(fs: Fs, cs: seq<string>)
    requires Room(fs, cs)
    ensures cs != [] && Norm(cs) != [] && WellFormed(fs)
    ensures Reaches(MkdirAll(fs, Front(cs)), cs) && Fresh(MkdirAll(fs, Front(cs)), Norm(cs))
  {
  }

  /** The round trip for one tree, at any path that takes it and from any state of the
      interpreter. */
  lemma {:induction false} Rebuild(base: string, x: Ctx, t: Tree, remote: CString, recursive: bool)
    requires Sendable(t, remote, recursive) && Placed(t, remote) && !t.Gone?
    requires |base| + MAX_FILENAME_LEN < MAX_PATH_LEN
    requires Welcome(x.fs, PathOf(base, remote), t, recursive)
    ensures InterpAll(base, x, Compile(t, remote, recursive)).fs == Put(x.fs, PathOf(base, remote), t, recursive)
    decreases t, 0
  {
    hide MkdirAll, Parts, WellFormed, Target, Skipped, LastSlash, Interp, InterpAll, IsDir, IsDirAt, Norm, PathOf,
      Approached, Takes, TakesAll;
    match t
    case File(_, _) => RebuildFile(base, x, t, remote, recursive);
    case Link(_) => RebuildLink(base, x, t, remote, recursive);
    case Dir(es) =>
      var enter := DirEnter(Clip(remote, MAX_FILENAME_LEN));
      EnterStep(base, x, remote);
      RebuildAll(base, Interp(base, x, enter), es, remote, recursive);
      Bracketed(base, x, enter, CompileAll(es, remote, recursive));
  }

  /** DIR_LEAVE closes what is open and changes nothing else. */
  lemma Bracketed(base: string, x: Ctx, enter: Packet, body: seq<Packet>)
    ensures InterpAll(base, x, [enter] + body + [DirLeave]).fs == InterpAll(base, Interp(base, x, enter), body).fs
  {
    hide Interp, InterpAll;
    InterpAppend(base, x, [enter] + body, [DirLeave]);
    InterpAppend(base, x, [enter], body);
    InterpOne(base, x, enter);
    LeaveStep(base, InterpAll(base, Interp(base, x, enter), body));
  }

  lemma LeaveStep(base: string, x: Ctx)
    ensures InterpAll(base, x, [DirLeave]).fs == x.fs
  {
  }

  lemma PutPlus(fs: Fs, at: Loc, n: Node, more: Fs)
    ensures fs[at := n] + more == fs + (map[at := n] + more)
  {
  }

  lemma {:induction false} RebuildAll(base: string, x: Ctx, es: seq<Entry>, remote: CString, recursive: bool)
    requires SendableAll(es, remote, recursive) && |remote| < MAX_FILENAME_LEN
    requires |base| + MAX_FILENAME_LEN < MAX_PATH_LEN && WellFormed(x.fs)
    requires IsDirAt(x.fs, PathOf(base, remote)) && TakesAll(x.fs, Norm(PathOf(base, remote)), es, recursive)
    ensures InterpAll(base, x, CompileAll(es, remote, recursive)).fs ==
      x.fs + ImageAll(es, Norm(PathOf(base, remote)), recursive)
    decreases es, 1
  {
    hide Parts, WellFormed, LastSlash, Interp, MkdirAll, Image, Compile, Sendable, Name, Norm, PathOf, Reaches, Takes,
      Join, Welcome, Put;
    var cs := PathOf(base, remote);
    var at := Norm(cs);
    if es == [] {
    } else if Skipped(es[0], recursive) {
      assert CompileAll(es, remote, recursive) == CompileAll(es[1..], remote, recursive);
      assert ImageAll(es, at, recursive) == ImageAll(es[1..], at, recursive);
      RebuildAll(base, x, es[1..], remote, recursive);
    } else {
      hide Skipped;
      var e, sub := es[0], SubPath(remote, es[0].name);
      FirstSendable(es, remote, recursive);
      DistinctFirst(es, remote, recursive);
      EntryWelcome(base, x.fs, remote, e, recursive);
      Rebuild(base, x, e.node, sub, recursive);
      var first := Compile(e.node, sub, recursive);
      InterpAppend(base, x, first, CompileAll(es[1..], remote, recursive));
      StreamKeepsDirs(base, x, first);
      var x1 := InterpAll(base, x, first);
      ReachesStill(x.fs, x1.fs, cs);
      StillDir(x.fs, x1.fs, at);
      OthersTaken(x.fs, at, es, recursive);
      RebuildAll(base, x1, es[1..], remote, recursive);
      ImageAllCons(x.fs, es, at, recursive);
    }
  }

  /** What a place takes depends only on what lies there and below. */
  lemma {:induction false} TakesSame(fs: Fs, fs': Fs, at: Loc, t: Tree, recursive: bool)
    requires Takes(fs, at, t, recursive) && forall l :: at <= l ==> Same(fs, fs', l)
    ensures Takes(fs', at, t, recursive)
    decreases t, 0
  {
    assert at <= at && Same(fs, fs', at);
    if t.Dir? { TakesAllSame(fs, fs', at, t.entries, recursive); }
  }

  lemma {:induction false} TakesAllSame(fs: Fs, fs': Fs, at: Loc, es: seq<Entry>, recursive: bool)
    requires TakesAll(fs, at, es, recursive)
    requires forall l :: at < l ==> Same(fs, fs', l)
    ensures TakesAll(fs', at, es, recursive)
    decreases es, 1
  {
    if es != [] {
      TakesAllSame(fs, fs', at, es[1..], recursive);
      if !Skipped(es[0], recursive) {
        var k := at + [es[0].name];
        assert Same(fs, fs', k) by { assert at < k; }
        forall l | k <= l ensures Same(fs, fs', l) { assert at < l; }
        TakesSame(fs, fs', at + [es[0].name], es[0].node, recursive);
      }
    }
  }

  /** Putting one entry leaves the places of the others as they are. */
  lemma OthersTaken(fs: Fs, at: Loc, es: seq<Entry>, recursive: bool)
    requires es != [] && TakesAll(fs, at, es, recursive) && forall k :: 1 <= k < |es| ==> es[k].name != es[0].name
    ensures TakesAll(fs + Image(es[0].node, at + [es[0].name], recursive), at, es[1..], recursive)
  {
    hide Image, Takes;
    ImageBelow(es[0].node, at + [es[0].name], recursive);
    BesideTaken(fs, Image(es[0].node, at + [es[0].name], recursive), at, es[0].name, es[1..], recursive);
  }

  lemma {:induction false} BesideTaken(fs: Fs, more: Fs, at: Loc, name: string, es: seq<Entry>, recursive: bool)
    requires TakesAll(fs, at, es, recursive) && (forall k :: k in more ==> at + [name] <= k)
    requires forall k :: 0 <= k < |es| ==> es[k].name != name
    ensures TakesAll(fs + more, at, es, recursive)
    decreases es
  {
    hide Takes;
    if es != [] {
      BesideTaken(fs, more, at, name, es[1..], recursive);
      if !Skipped(es[0], recursive) {
        var k := at + [es[0].name];
        forall l | k <= l ensures Same(fs, fs + more, l) {
          assert l[|at|] == k[|at|] == es[0].name && (at + [name])[|at|] == name;
        }
        TakesSame(fs, fs + more, k, es[0].node, recursive);
      }
    }
  }

  /** In a directory that is there, an entry is taken at its path if it is at its place. */
  lemma EntryWelcome(base: string, fs: Fs, remote: CString, e: Entry, recursive: bool)
    requires WellFormed(fs) && Name(e.name) && |Join(remote, e.name)| < MAX_FILENAME_LEN && !e.node.Gone?
    requires var cs := PathOf(base, remote); IsDirAt(fs, cs) && Takes(fs, Norm(cs) + [e.name], e.node, recursive)
    ensures var cs, sub := PathOf(base, remote), SubPath(remote, e.name);
      && sub == Join(remote, e.name) && LastSegment(sub) == e.name
      && Welcome(fs, PathOf(base, sub), e.node, recursive)
      && Put(fs, PathOf(base, sub), e.node, recursive) == fs + Image(e.node, Norm(cs) + [e.name], recursive)
  {
    hide Parts, WellFormed, MkdirAll, Name, LastSlash, LastSegment, Norm, Reaches, Image, Takes, Welcome, Put;
    EntryPath(remote, e.name);
    var cs := PathOf(base, remote);
    assert Parts(base) + (Parts(remote) + [e.name]) == cs + [e.name];
    NormSnoc(cs, e.name);
    EnterName(Norm(cs), e.name);
    assert Front(cs + [e.name]) == cs;
    MkdirAllIdempotent(fs, cs);
    IsDirReaches(fs, cs + [e.name]);
    if e.node.Dir? { DirWelcome(fs, cs + [e.name], e.node, recursive); }
    else { LeafWelcome(fs, cs + [e.name], e.node, recursive); }
  }

  lemma LeafWelcome(fs: Fs, cs: seq<string>, t: Tree, recursive: bool)
    requires WellFormed(fs) && cs != [] && MkdirAll(fs, Front(cs)) == fs && Reaches(fs, cs) && !t.Dir?
    requires Takes(fs, Norm(cs), t, recursive)
    ensures Welcome(fs, cs, t, recursive) && Put(fs, cs, t, recursive) == fs + Image(t, Norm(cs), recursive)
  {
    hide WellFormed, Norm, Reaches, MkdirAll, Image, Takes;
  }

  lemma DirWelcome(fs: Fs, cs: seq<string>, t: Tree, recursive: bool)
    requires WellFormed(fs) && cs != [] && MkdirAll(fs, Front(cs)) == fs && Reaches(fs, cs) && t.Dir?
    requires Norm(cs) != [] && Takes(fs, Norm(cs), t, recursive)
    ensures Welcome(fs, cs, t, recursive) && Put(fs, cs, t, recursive) == fs + Image(t, Norm(cs), recursive)
  {
    hide WellFormed, Norm, Reaches, TakesAll, MkdirAt;
    var at := Norm(cs);
    MkdirAtOutcome(fs, cs);
    MkdirAtKeeps(fs, cs);
    TakesAllSame(fs, fs[at := DirNode], at, t.entries, recursive);
    PutPlus(fs, at, DirNode, ImageAll(t.entries, at, recursive));
    assert at in fs ==> fs[at := DirNode] == fs;
  }

  /** Every entry that will be sent has its name free in the directory. */
  ghost predicate NamesFree(fs: Fs, at: Loc, es: seq<Entry>, recursive: bool) {
    forall i :: 0 <= i < |es| && !Skipped(es[i], recursive) ==> Fresh(fs, at + [es[i].name])
  }

  lemma FirstSendable(es: seq<Entry>, remote: CString, recursive: bool)
    requires es != [] && !Skipped(es[0], recursive) && SendableAll(es, remote, recursive)
    ensures Name(es[0].name) && !es[0].node.Gone? && |Join(remote, es[0].name)| < MAX_FILENAME_LEN
    ensures Sendable(es[0].node, Join(remote, es[0].name), recursive)
    ensures SendableAll(es[1..], remote, recursive)
  {
  }

  lemma ImageAllCons(fs: Fs, es: seq<Entry>, at: Loc, recursive: bool)
    requires es != [] && !Skipped(es[0], recursive)
    ensures fs + ImageAll(es, at, recursive) ==
      fs + Image(es[0].node, at + [es[0].name], recursive) + ImageAll(es[1..], at, recursive)
  {
    hide Image, Skipped;
  }

  lemma EntryPath(remote: CString, name: CString)
    requires Name(name)
    ensures Parts(Join(remote, name)) == Parts(remote) + [name] && LastSegment(Join(remote, name)) == name
  {
    hide Parts, LastSlash, LastSegment;
    PartsJoin(remote, name);
    PartsName(name);
    LastSegmentJoin(remote, name);
    LastSegmentName(name);
  }

  lemma RoomInside(fs: Fs, cs: seq<string>, name: string)
    requires WellFormed(fs) && Name(name) && IsDirAt(fs, cs) && Fresh(fs, Norm(cs) + [name])
    ensures Norm(cs + [name]) == Norm(cs) + [name]
    ensures Room(fs, cs + [name]) && Front(cs + [name]) == cs && MkdirAll(fs, cs) == fs
  {
    hide WellFormed, Norm, MkdirAll;
    NormSnoc(cs, name);
    EnterName(Norm(cs), name);
    assert Front(cs + [name]) == cs;
    MkdirAllIdempotent(fs, cs);
  }

  lemma DistinctFirst(es: seq<Entry>, remote: CString, recursive: bool)
    requires es != [] && !Skipped(es[0], recursive) && SendableAll(es, remote, recursive)
    ensures forall k :: 1 <= k < |es| ==> es[k].name != es[0].name
  {
  }

  // ---------------------------------------------------------------- whole transfers

  /** The round trip: from any interpreter state, a whole transfer rebuilds the tree
      where its path leads and leaves everything else alone. */
  lemma TreeRoundTrip(base: string, x: Ctx, t: Tree, remote: CString, recursive: bool)
    requires Sendable(t, remote, recursive) && Placed(t, remote) && !t.Gone?
    requires |base| + MAX_FILENAME_LEN < MAX_PATH_LEN
    requires Welcome(x.fs, PathOf(base, remote), t, recursive)
    ensures var out := InterpAll(base, x, Compile(t, remote, recursive) + [TransferEnd]).fs;
      && out == Put(x.fs, PathOf(base, remote), t, recursive)
      && (Ready(x.fs, PathOf(base, remote), t, recursive) ==> Kept(x.fs, out))
  {
    hide Parts, Compile, InterpAll, MkdirAll, Sendable, Placed, PathOf, Norm, WellFormed, Ready, Welcome, Put, Kept;
    var cs := PathOf(base, remote);
    var ps := Compile(t, remote, recursive);
    Rebuild(base, x, t, remote, recursive);
    InterpAppend(base, x, ps, [TransferEnd]);
    InterpOne(base, InterpAll(base, x, ps), TransferEnd);
    if Ready(x.fs, cs, t, recursive) { ImageKeeps(x.fs, cs, t, recursive); }
  }

  /** Where a tree can be put, its image changes nothing that is there. */
  lemma ImageKeeps(fs: Fs, cs: seq<string>, t: Tree, recursive: bool)
    requires Ready(fs, cs, t, recursive)
    ensures Kept(fs, Put(fs, cs, t, recursive))
  {
    hide Norm, Reaches, MkdirAll, WellFormed;
    ReadyWellFormed(fs, cs, t, recursive);
    if t.Dir? {
      MkdirAllKeeps(fs, cs);
      ImageAllFree(MkdirAll(fs, cs), Norm(cs), t.entries, recursive);
    } else {
      MkdirAllKeeps(fs, Front(cs));
      ImageBelow(t, Norm(cs), recursive);
    }
  }

  lemma ReadyWellFormed(fs: Fs, cs: seq<string>, t: Tree, recursive: bool)
    requires Ready(fs, cs, t, recursive)
    ensures WellFormed(fs)
  {
  }

  /** The entries that are sent occupy only free places. */
  lemma {:induction false} ImageAllFree(fs: Fs, at: Loc, es: seq<Entry>, recursive: bool)
    requires NamesFree(fs, at, es, recursive)
    ensures forall k :: k in ImageAll(es, at, recursive) ==> k !in fs
    decreases es
  {
    hide Image;
    if es != [] {
      ImageAllFree(fs, at, es[1..], recursive);
      if !Skipped(es[0], recursive) { ImageBelow(es[0].node, at + [es[0].name], recursive); }
    }
  }

  /** A tree whose files all arrived in full. */
  function Exact(t: Tree, at: Loc, recursive: bool): Fs
    decreases t, 0
  {
    match t
    case File(content, _) => map[at := FileNode(content)]
    case Link(target) => map[at := LinkNode(target)]
    case Dir(entries) => map[at := DirNode] + ExactAll(entries, at, recursive)
    case Gone => map[]
  }

  function ExactAll(es: seq<Entry>, at: Loc, recursive: bool): Fs
    decreases es, 1
  {
    if es == [] then map[]
    else
      (if Skipped(es[0], recursive) then map[] else Exact(es[0].node, at + [es[0].name], recursive))
      + ExactAll(es[1..], at, recursive)
  }

  /** Every read delivers what was asked for, and chunk counts fit into 32 bits. */
  ghost predicate FullReads(t: Tree)
    decreases t, 0
  {
    match t
    case File(content, results) =>
      |content| <= 0xFFFF_FFFF * CHUNK_SIZE && AtLeast(|content|, results, CHUNK_SIZE)
    case Dir(entries) => forall e :: e in entries ==> FullReads(e.node)
    case _ => true
  }

  /** `Put` for a tree whose files all arrived in full. */
  function PutExact(fs: Fs, cs: seq<string>, t: Tree, recursive: bool): Fs {
    if t.Dir? then MkdirAll(fs, cs) + ExactAll(t.entries, Norm(cs), recursive)
    else if cs == [] then fs
    else MkdirAll(fs, Front(cs)) + Exact(t, Norm(cs), recursive)
  }

  lemma FullPut(fs: Fs, cs: seq<string>, t: Tree, recursive: bool)
    requires FullReads(t)
    ensures Put(fs, cs, t, recursive) == PutExact(fs, cs, t, recursive)
  {
    hide MkdirAll, Norm, Image, Exact;
    if t.Dir? {
      FullReadsAreExactAll(t.entries, Norm(cs), recursive);
    } else {
      FullReadsAreExact(t, Norm(cs), recursive);
    }
  }

  /** With full reads the image is the source tree itself. */
  lemma {:induction false} FullReadsAreExact(t: Tree, at: Loc, recursive: bool)
    requires FullReads(t)
    ensures Image(t, at, recursive) == Exact(t, at, recursive)
    decreases t, 0
  {
    match t
    case File(content, results) =>
      FullReadsComplete(|content|);
      assert content[..|content|] == content;
    case Link(_) =>
    case Gone =>
    case Dir(es) => FullReadsAreExactAll(es, at, recursive);
  }

  lemma {:induction false} FullReadsAreExactAll(es: seq<Entry>, at: Loc, recursive: bool)
    requires forall e :: e in es ==> FullReads(e.node)
    ensures ImageAll(es, at, recursive) == ExactAll(es, at, recursive)
    decreases es, 1
  {
    if es != [] {
      assert es[0] in es && forall e :: e in es[1..] ==> e in es;
      FullReadsAreExact(es[0].node, at + [es[0].name], recursive);
      FullReadsAreExactAll(es[1..], at, recursive);
    }
  }

  // ---------------------------------------------------------------- bracketing

  /** The directory depth after a packet stream, or -1 once it has left more
      directories than it entered. */
  function Depth(ps: seq<Packet>, d: int): (r: int)
    requires d >= -1
    ensures r >= -1
    decreases |ps|
  {
    if ps == [] || d < 0 then d
    else Depth(ps[1..], if ps[0].DirEnter? then d + 1 else if ps[0].DirLeave? then d - 1 else d)
  }

  lemma {:induction false} DepthAppend(ps: seq<Packet>, qs: seq<Packet>, d: int)
    requires d >= -1
    ensures Depth(ps + qs, d) == Depth(qs, Depth(ps, d))
    decreases |ps|
  {
    if ps == [] {
      assert ps + qs == qs;
    } else if d >= 0 {
      assert (ps + qs)[1..] == ps[1..] + qs;
      DepthAppend(ps[1..], qs, if ps[0].DirEnter? then d + 1 else if ps[0].DirLeave? then d - 1 else d);
    }
  }

  lemma {:induction false} DepthOfData(ps: seq<Packet>, d: nat)
    requires forall p :: p in ps ==> p.FileData?
    ensures Depth(ps, d) == d
  {
    if ps != [] {
      assert ps[0] in ps;
      DepthOfData(ps[1..], d);
    }
  }

  /** Every directory that is entered is left again, in nested order. */
  lemma {:induction false} Balanced(t: Tree, remote: CString, recursive: bool, d: nat)
    ensures Depth(Compile(t, remote, recursive), d) == d
    decreases t, 0
  {
    match t
    case File(content, results) =>
      ChunksAreGapFree(content, results, 0, 0);
      DepthOfData(ChunkPackets(content, results, 0, 0), d);
      DepthAppend([Meta(remote, |content|, Regular, TotalChunks(|content|))], ChunkPackets(content, results, 0, 0), d);
    case Link(full) =>
      var target := Take(full, MAX_PATH_LEN - 1);
      DepthAppend([Meta(remote, |target|, Symlink, 1)], [FileData(0, |target|, 0, target)], d);
      assert Compile(t, remote, recursive) == [Meta(remote, |target|, Symlink, 1)] + [FileData(0, |target|, 0, target)];
    case Gone =>
    case Dir(es) =>
      var enter, body := DirEnter(Clip(remote, MAX_FILENAME_LEN)), CompileAll(es, remote, recursive);
      BalancedAll(es, remote, recursive, d + 1);
      DepthAppend([enter] + body, [DirLeave], d);
      DepthAppend([enter], body, d);
  }

  lemma {:induction false} BalancedAll(es: seq<Entry>, remote: CString, recursive: bool, d: nat)
    ensures Depth(CompileAll(es, remote, recursive), d) == d
    decreases es, 1
  {
    if es != [] {
      var first := if Skipped(es[0], recursive) then []
                   else Compile(es[0].node, SubPath(remote, es[0].name), recursive);
      if !Skipped(es[0], recursive) { Balanced(es[0].node, SubPath(remote, es[0].name), recursive, d); }
      BalancedAll(es[1..], remote, recursive, d);
      DepthAppend(first, CompileAll(es[1..], remote, recursive), d);
    }
  }
}
