/** What a transfer does to what is there already: wherever the path leads, through links
    or not. */
module Overwrite {
  import opened Packets
  import opened Paths
  import opened FileSystem
  import opened Chunks
  import opened Interpreter
  import opened LinkFree
  import opened Output
  import opened Trees
  import opened Footprint

  // ---------------------------------------------------------------- one file, one link

  /** Resolution never ends at a link. */
  lemma {:induction false} WalkNoLink(fs: Fs, l: Loc, cs: seq<string>, n: nat)
    requires !IsLink(fs, l) && Walk(fs, l, cs, n).Some?
    ensures !IsLink(fs, Walk(fs, l, cs, n).value)
    decreases n, |cs|
  {
    hide Follow, Text, Absolute, Enter;
    if cs != [] {
      var k := Enter(l, cs[0]);
      if !IsLink(fs, k) {
        WalkNoLink(fs, k, cs[1..], n);
      } else {
        var from: Loc := if Absolute(Text(fs[k].target)) then [] else l;
        DirNoLink(fs, l);
        WalkNoLink(fs, from, Follow(fs[k].target) + cs[1..], n - 1);
      }
    }
  }

  lemma DirNoLink(fs: Fs, l: Loc)
    ensures IsDir(fs, l) ==> !IsLink(fs, l)
    ensures !IsLink(fs, [])
  {
  }

  /** Without a slash at its end a path has its directory part before its last component. */
  lemma AboveFront(path: string)
    requires Parts(path) != [] && !Trailing(path)
    ensures Above(path) == Front(Parts(path))
  {
    hide Parts, LastSlash, Above;
    AbovePrefix(path);
    NotTrailing(path);
  }

  /** Where a path ends at something, nothing has to be made above it. */
  lemma NothingToMake(fs: Fs, path: string)
    requires WellFormed(fs) && Parts(path) != [] && !Trailing(path)
    requires Finds(fs, Parts(path)).Some? || Lands(fs, Parts(path)).Some?
    ensures MakeParents(fs, path) == fs
  {
    hide WellFormed, Parts, Walk, Above, MakeDirs, Trailing;
    AboveFront(path);
    if Finds(fs, Parts(path)).Some? { FoundFront(fs, Parts(path)); } else { LandsFront(fs, Parts(path)); }
    MakeDirsIdempotent(fs, Front(Parts(path)));
  }

  /** The packets of a file, at any path whatever and whatever was open before. If a
      directory is there, nothing changes. Otherwise the directories above are made; if the
      path then leads to a file or to a new name in a directory, that place ends up with
      exactly what the reads delivered, whatever it held; if it leads nowhere, or asks for a
      directory, no file is made. Nothing else changes. */
  lemma FileAnywhere(base: string, x: Ctx, content: seq<byte>, results: seq<int>, remote: CString, recursive: bool)
    ensures var path := Target(base, Clip(remote, 256));
      var out := InterpAll(base, x, Compile(File(content, results), remote, recursive)).fs;
      var fs1 := MakeDirs(x.fs, Above(path));
      var at := Finds(fs1, Parts(path));
      if FindsDir(x.fs, Parts(path)) then out == x.fs
      else if Trailing(path) || at.None? || IsDir(fs1, at.value) then out == fs1
      else out == fs1[at.value := FileNode(content[..Final(|content|, results, 0, 0)])]
  {
    hide Parts, Target, Walk, Above, Trailing, ChunkPackets, Final, MakeDirs, InterpAll, TotalChunks;
    var path := Target(base, Clip(remote, 256));
    var meta, chunks := Meta(remote, |content|, Regular, TotalChunks(|content|)), ChunkPackets(content, results, 0, 0);
    var x1 := Interp(base, x, meta);
    InterpAppend(base, x, [meta], chunks);
    InterpOne(base, x, meta);
    ChunksAreGapFree(content, results, 0, 0);
    if x1.fd.None? {
      DataIgnored(base, x1, chunks);
    } else {
      assert content[..0] == [];
      ChunksWrite(base, x1, content, results, 0, 0);
    }
    OpensAtEnd(x.fs, path);
  }

  /** open fails exactly if the path leads nowhere, to a directory, or asks for one. */
  lemma OpensAtEnd(fs: Fs, path: string)
    ensures var fs1 := MakeParents(fs, path);
      var at := Finds(fs1, Parts(path));
      Create(fs1, path) ==
        if Trailing(path) || at.None? || IsDir(fs1, at.value) then (fs1, None)
        else (fs1[at.value := FileNode([])], Some(at.value))
  {
    hide Parts, Walk, Trailing, MakeParents;
    var fs1 := MakeParents(fs, path);
    if Finds(fs1, Parts(path)).Some? {
      DirNoLink(fs1, []);
      WalkNoLink(fs1, [], Parts(path), MAX_LINKS);
    }
  }

  /** Sent to a path that leads to something, or to a new name in a directory, a file
      leaves a directory alone and replaces anything else. */
  lemma FileOver(base: string, x: Ctx, content: seq<byte>, results: seq<int>, remote: CString, recursive: bool)
    requires var path := Target(base, Clip(remote, 256));
      WellFormed(x.fs) && Finds(x.fs, Parts(path)).Some? && !Trailing(path)
    ensures var c := Finds(x.fs, Parts(Target(base, Clip(remote, 256)))).value;
      InterpAll(base, x, Compile(File(content, results), remote, recursive)).fs ==
        if IsDir(x.fs, c) then x.fs else x.fs[c := FileNode(content[..Final(|content|, results, 0, 0)])]
  {
    hide WellFormed, Parts, Target, Walk, Above, Trailing, Compile, Final, MakeDirs, InterpAll;
    var path := Target(base, Clip(remote, 256));
    FileAnywhere(base, x, content, results, remote, recursive);
    if !IsDir(x.fs, Finds(x.fs, Parts(path)).value) {
      EndsSomewhere(x.fs, Parts(path));
      NothingToMake(x.fs, path);
    }
  }

  lemma EndsSomewhere(fs: Fs, cs: seq<string>)
    requires Finds(fs, cs).Some? && !IsDir(fs, Finds(fs, cs).value)
    ensures cs != []
  {
  }

  /** With nothing open, file data has nowhere to go. */
  lemma {:induction false} DataIgnored(base: string, x: Ctx, ps: seq<Packet>)
    requires x.kind.Regular? && x.fd.None? && forall p :: p in ps ==> p.FileData?
    ensures InterpAll(base, x, ps) == x
    decreases |ps|
  {
    if ps != [] {
      assert ps[0] in ps;
      DataIgnored(base, x, ps[1..]);
    }
  }

  /** FILE_DATA of a file, whatever length it claims: in the open file exactly the stretch of
      so many of the bytes from the offset on is written, zeros fill a gap before it, and
      nothing else changes; with nothing open nothing does. */
  lemma DataOver(base: string, x: Ctx, index: nat, length: nat, offset: nat, bytes: seq<byte>) returns (now: seq<byte>)
    requires x.kind.Regular? && (x.fd.Some? ==> x.fd.value in x.fs && x.fs[x.fd.value].FileNode?)
    ensures Interp(base, x, FileData(index, length, offset, bytes)) ==
      if x.fd.Some? then x.(fs := x.fs[x.fd.value := FileNode(now)]) else x
    ensures x.fd.Some? ==>
      var was, n := x.fs[x.fd.value].data, Min(length, |bytes|);
      && |now| == (if n > 0 && offset + n > |was| then offset + n else |was|)
      && forall k :: 0 <= k < |now| ==>
           now[k] == if offset <= k < offset + n then bytes[k - offset] else if k < |was| then was[k] else 0
  {
    hide WriteAt;
    now := [];
    if x.fd.Some? {
      now := WriteAt(x.fs[x.fd.value].data, offset, Take(bytes, length));
      WriteAtIs(x.fs[x.fd.value].data, offset, Take(bytes, length));
    }
  }

  /** FILE_DATA of a link, whatever length it claims: what its path names, not what that
      leads to, is replaced by a link to the first bytes, at most 4095 and up to a NUL; a
      directory is left alone, and symlink makes nothing of an empty target. */
  lemma LinkData(base: string, x: Ctx, index: nat, length: nat, offset: nat, bytes: seq<byte>)
    requires x.kind.Symlink?
    ensures var at := Lands(x.fs, Parts(x.path));
      var text := BeforeNul(bytes[..Min(|bytes|, Min(length, 4095))]);
      var out := Interp(base, x, FileData(index, length, offset, bytes)).fs;
      if Trailing(x.path) || at.None? || IsDir(x.fs, at.value) then out == x.fs
      else if text == [] then out == x.fs - {at.value}
      else out == x.fs[at.value := LinkNode(text)]
  {
    hide Lands, Parts, BeforeNul;
    assert Take(bytes, LinkLength(length)) == bytes[..Min(|bytes|, Min(length, 4095))];
  }

  /** The two packets of a link, at any path whatever: the directories above are made
      unless a directory is there; then what the path names, be it a file, a link or
      nothing, is a link to the target's first 4095 bytes, and nothing else changes. A
      directory is left alone; an empty target leaves nothing. */
  lemma LinkAnywhere(base: string, x: Ctx, full: CBytes, remote: CString, recursive: bool)
    ensures var path := Target(base, Clip(remote, 256));
      var target := full[..Min(|full|, 4095)];
      var out := InterpAll(base, x, Compile(Link(full), remote, recursive)).fs;
      var fs1 := if FindsDir(x.fs, Parts(path)) then x.fs else MakeDirs(x.fs, Above(path));
      var at := Lands(fs1, Parts(path));
      if Trailing(path) || at.None? || IsDir(fs1, at.value) then out == fs1
      else if target == [] then out == fs1 - {at.value}
      else out == fs1[at.value := LinkNode(target)]
  {
    hide Parts, Target, Above, Trailing, MakeDirs, InterpAll, Lands, Finds, BeforeNul;
    var path := Target(base, Clip(remote, 256));
    var target := full[..Min(|full|, 4095)];
    var meta, data := Meta(remote, |target|, Symlink, 1), FileData(0, |target|, 0, target);
    var x1 := Interp(base, x, meta);
    assert x1.path == path && x1.kind.Symlink?;
    LinkData(base, x1, 0, |target|, 0, target);
    BeforeNulAll(target);
    assert target[..|target|] == target;
    assert Take(full, 4095) == target;
    InterpAppend(base, x, [meta], [data]);
    InterpOne(base, x, meta);
    InterpOne(base, x1, data);
    assert [meta] + [data] == [meta, data];
  }

  /** Sent to a path whose last component lies in a directory, a link leaves a directory
      alone and replaces a file or another link. */
  lemma LinkOver(base: string, x: Ctx, target: CBytes, remote: CString, recursive: bool)
    requires 0 < |target| < 4096 && WellFormed(x.fs)
    requires var path := Target(base, Clip(remote, 256));
      Parts(path) != [] && Lands(x.fs, Parts(path)).Some? && !Trailing(path)
    ensures var c := Lands(x.fs, Parts(Target(base, Clip(remote, 256)))).value;
      InterpAll(base, x, Compile(Link(target), remote, recursive)).fs ==
        if IsDir(x.fs, c) then x.fs else x.fs[c := LinkNode(target)]
  {
    hide WellFormed, Parts, Target, Above, Trailing, MakeDirs, InterpAll, Lands, Finds, Compile;
    LinkAnywhere(base, x, target, remote, recursive);
    NothingToMake(x.fs, Target(base, Clip(remote, 256)));
    assert target[..|target|] == target;
  }

  /** Entering a directory that is there changes nothing. */
  lemma EnterOver(base: string, x: Ctx, name: CString)
    requires WellFormed(x.fs) && There(x.fs, Parts(Target(base, name)))
    ensures Interp(base, x, DirEnter(name)) == x.(path := Target(base, name))
  {
    hide WellFormed, Parts, Target, MakeDirs, Lands;
    MakeDirsIdempotent(x.fs, Parts(Target(base, name)));
  }

  /** DIR_LEAVE and TRANSFER_END close what is open and change no file. */
  lemma LeaveCloses(base: string, x: Ctx, p: Packet)
    requires p.DirLeave? || p.TransferEnd?
    ensures Interp(base, x, p).fs == x.fs && Interp(base, x, p).fd.None?
  {
  }

  // ---------------------------------------------------------------- the same tree again

  /** Where a tree has been put, it can be put again. */
  lemma {:induction false} ImageTakes(fs: Fs, at: Loc, t: Tree, remote: CString, recursive: bool)
    requires Sendable(t, remote, recursive) && !t.Gone? && at != []
    ensures Takes(fs + Image(t, at, recursive), at, t, recursive)
    decreases t, 0
  {
    hide Final, Skipped;
    if t.Dir? {
      ImageAllBelow(t.entries, at, recursive);
      ImageAllTakes(fs + map[at := DirNode], at, t.entries, remote, recursive);
      PlusPlus(fs, map[at := DirNode], ImageAll(t.entries, at, recursive));
    }
  }

  lemma PlusPlus(a: Fs, b: Fs, c: Fs)
    ensures a + (b + c) == (a + b) + c
  {
  }

  lemma {:induction false} ImageAllTakes(fs: Fs, at: Loc, es: seq<Entry>, remote: CString, recursive: bool)
    requires SendableAll(es, remote, recursive)
    ensures TakesAll(fs + ImageAll(es, at, recursive), at, es, recursive)
    decreases es, 1
  {
    hide Skipped, Image, Takes, Sendable, Join, Name;
    if es != [] {
      if Skipped(es[0], recursive) {
        ImageAllTakes(fs, at, es[1..], remote, recursive);
        assert ImageAll(es, at, recursive) == ImageAll(es[1..], at, recursive);
      } else {
        FirstSendable(es, remote, recursive);
        DistinctFirst(es, remote, recursive);
        var first := Image(es[0].node, at + [es[0].name], recursive);
        ImageAllTakes(fs + first, at, es[1..], remote, recursive);
        ImageAllCons(fs, es, at, recursive);
        ImageTakes(fs, at + [es[0].name], es[0].node, Join(remote, es[0].name), recursive);
        RestBeside(fs + first, at, es, recursive);
      }
    }
  }

  /** The other entries lie beside the first. */
  lemma RestBeside(fs: Fs, at: Loc, es: seq<Entry>, recursive: bool)
    requires es != [] && Takes(fs, at + [es[0].name], es[0].node, recursive)
    requires forall k :: 1 <= k < |es| ==> es[k].name != es[0].name
    ensures Takes(fs + ImageAll(es[1..], at, recursive), at + [es[0].name], es[0].node, recursive)
  {
    hide Takes, Image, ImageAll;
    var k := at + [es[0].name];
    ImageAllBelow(es[1..], at, recursive);
    forall l | k <= l ensures Same(fs, fs + ImageAll(es[1..], at, recursive), l) {
      assert l[|at|] == k[|at|] == es[0].name;
    }
    TakesSame(fs, fs + ImageAll(es[1..], at, recursive), k, es[0].node, recursive);
  }

  /** A second transfer of the same tree to the same path finds everything as it should be
      and changes nothing. */
  lemma TransferAgain(base: string, x: Ctx, y: Ctx, t: Tree, remote: CString, recursive: bool)
    requires Sendable(t, remote, recursive) && Placed(t, remote) && !t.Gone?
    requires |base| + MAX_FILENAME_LEN < MAX_PATH_LEN && Welcome(x.fs, PathOf(base, remote), t, recursive)
    requires y.fs == InterpAll(base, x, Compile(t, remote, recursive) + [TransferEnd]).fs
    ensures InterpAll(base, y, Compile(t, remote, recursive) + [TransferEnd]).fs == y.fs
  {
    hide Sendable, Placed, InterpAll, Compile, PathOf, Put, Welcome;
    var cs := PathOf(base, remote);
    TreeRoundTrip(base, x, t, remote, recursive);
    StreamKeepsDirsFrom(base, x, t, remote, recursive);
    PutAgain(x.fs, cs, t, remote, recursive);
    TreeRoundTrip(base, y, t, remote, recursive);
  }

  lemma StreamKeepsDirsFrom(base: string, x: Ctx, t: Tree, remote: CString, recursive: bool)
    requires Welcome(x.fs, PathOf(base, remote), t, recursive)
    ensures WellFormed(InterpAll(base, x, Compile(t, remote, recursive) + [TransferEnd]).fs)
  {
    hide WellFormed, Norm, Reaches, MkdirAll, Takes, TakesAll, PathOf, Compile, InterpAll;
    StreamKeepsDirs(base, x, Compile(t, remote, recursive) + [TransferEnd]);
  }

  /** Where a tree is taken, its image replaces no directory by anything else. */
  lemma {:induction false} ImageOverDirs(fs: Fs, at: Loc, t: Tree, recursive: bool)
    requires Takes(fs, at, t, recursive)
    ensures forall l :: l in Image(t, at, recursive) && l in fs && fs[l].DirNode? ==>
      Image(t, at, recursive)[l].DirNode?
    decreases t, 0
  {
    hide Final;
    if t.Dir? { ImageAllOverDirs(fs, at, t.entries, recursive); }
  }

  lemma {:induction false} ImageAllOverDirs(fs: Fs, at: Loc, es: seq<Entry>, recursive: bool)
    requires TakesAll(fs, at, es, recursive)
    ensures forall l :: l in ImageAll(es, at, recursive) && l in fs && fs[l].DirNode? ==>
      ImageAll(es, at, recursive)[l].DirNode?
    decreases es, 1
  {
    hide Skipped, Image, Takes;
    if es != [] {
      ImageAllOverDirs(fs, at, es[1..], recursive);
      if !Skipped(es[0], recursive) { ImageOverDirs(fs, at + [es[0].name], es[0].node, recursive); }
    }
  }

  /** What changes no directory into anything else leaves the way open. */
  lemma WayStays(fs: Fs, more: Fs, cs: seq<string>)
    requires IsDirAt(fs, cs) && WellFormed(fs + more)
    requires forall l :: l in more && l in fs && fs[l].DirNode? ==> more[l].DirNode?
    ensures IsDirAt(fs + more, cs) && MkdirAll(fs + more, cs) == fs + more && DirsKept(fs, fs + more)
  {
    hide WellFormed, Norm, Reaches, MkdirAll;
    assert DirsKept(fs, fs + more);
    ReachesStill(fs, fs + more, cs);
    StillDir(fs, fs + more, Norm(cs));
    MkdirAllIdempotent(fs + more, cs);
  }

  lemma PlusTwice(a: Fs, b: Fs)
    ensures (a + b) + b == a + b
  {
  }

  lemma PutAgain(fs: Fs, cs: seq<string>, t: Tree, remote: CString, recursive: bool)
    requires Welcome(fs, cs, t, recursive) && Sendable(t, remote, recursive) && !t.Gone?
    requires WellFormed(Put(fs, cs, t, recursive))
    ensures var out := Put(fs, cs, t, recursive);
      Welcome(out, cs, t, recursive) && Put(out, cs, t, recursive) == out
  {
    hide WellFormed, Norm, Reaches, MkdirAll, Takes, TakesAll, Image, ImageAll, IsDirAt, Sendable;
    if t.Dir? {
      var fs1, more := MkdirAll(fs, cs), ImageAll(t.entries, Norm(cs), recursive);
      DirOpens(t, remote, recursive);
      ImageAllTakes(fs1, Norm(cs), t.entries, remote, recursive);
      ImageAllOverDirs(fs1, Norm(cs), t.entries, recursive);
      WayStays(fs1, more, cs);
      PlusTwice(fs1, more);
    } else {
      var fs1, more := MkdirAll(fs, Front(cs)), Image(t, Norm(cs), recursive);
      ReachesFront(fs1, cs);
      LeafPlace(fs1, Norm(cs), t, recursive);
      ImageTakes(fs1, Norm(cs), t, remote, recursive);
      ImageOverDirs(fs1, Norm(cs), t, recursive);
      WayStays(fs1, more, Front(cs));
      ReachesStill(fs1, fs1 + more, cs);
      PlusTwice(fs1, more);
    }
  }

  lemma LeafPlace(fs: Fs, at: Loc, t: Tree, recursive: bool)
    requires Takes(fs, at, t, recursive) && !t.Dir? && !t.Gone?
    ensures at != []
  {
  }

  lemma DirOpens(t: Tree, remote: CString, recursive: bool)
    requires t.Dir? && Sendable(t, remote, recursive)
    ensures SendableAll(t.entries, remote, recursive)
  {
  }
}
