/** What the packets of a stream can change at the receiver, and what they cannot. */
module Footprint {
  import opened Packets
  import opened Paths
  import opened FileSystem
  import opened Chunks
  import opened Interpreter
  import opened LinkFree
  import opened Output
  import opened Trees
  import opened Links

  /** The places packet `p` can change when the current path and file kind are `path`
      and `kind`; a FILE_DATA also writes into the file that is open. */
  predicate May(base: string, path: string, kind: FileKind, p: Packet, l: Loc) {
    match p
    case FileMeta(name, _, k, _) =>
      var t := Target(base, name);
      OnWay(Above(t), l) || (k.Regular? && !Trailing(t) && l == Norm(Parts(t)))
    case FileData(_, _, _, _) => kind.Symlink? && !Trailing(path) && l == Norm(Parts(path))
    case DirEnter(name) => OnWay(Parts(Target(base, name)), l)
    case _ => false
  }

  lemma OnWayLonger(a: seq<string>, b: seq<string>, l: Loc)
    requires a <= b && OnWay(a, l)
    ensures OnWay(b, l)
  {
    var j :| 0 < j <= |a| && l == Norm(a[..j]);
    assert a[..j] == b[..j];
  }

  lemma EmptyNorm(cs: seq<string>)
    ensures cs == [] ==> Norm(cs) == []
  {
  }

  lemma MkdirAllSame(fs: Fs, cs: seq<string>, l: Loc)
    requires WellFormed(fs) && !Same(fs, MkdirAll(fs, cs), l)
    ensures OnWay(cs, l) && l !in fs
  {
    hide WellFormed, OnWay;
    MkdirAllKeeps(fs, cs);
  }

  /** A packet changes nothing else, and nothing that is a directory. */
  lemma OnlyMay(base: string, x: Ctx, p: Packet, l: Loc)
    requires WellFormed(x.fs) && Free(base, x, p) && !Same(x.fs, Interp(base, x, p).fs, l)
    ensures May(base, x.path, x.kind, p, l) || (p.FileData? && x.kind.Regular? && x.fd == Some(l))
    ensures !IsDir(x.fs, l)
  {
    hide WellFormed, MkdirAll, Parts, Target, Reaches, OnWay, Norm, WriteAt, Take, Interp, Above, Free;
    InterpIsDirect(base, x, p);
    match p
    case FileMeta(name, _, kind, _) =>
      var t := Target(base, name);
      MkdirAllKeeps(x.fs, Above(t));
      if !Same(x.fs, MkdirAll(x.fs, Above(t)), l) {
        MkdirAllSame(x.fs, Above(t), l);
        NotRoot(MkdirAll(x.fs, Above(t)), l);
      }
    case FileData(_, _, _, _) =>
      if l in x.fs { NotRoot(x.fs, l); }
    case DirEnter(name) =>
      MkdirAllSame(x.fs, Parts(Target(base, name)), l);
      MkdirAllKeeps(x.fs, Parts(Target(base, name)));
      NotRoot(MkdirAll(x.fs, Parts(Target(base, name))), l);
    case _ => SameFiles(base, x, p);
  }

  // ---------------------------------------------------------------- names cut on the way

  /** Every packet that carries a name carries this one. */
  predicate NamesOnly(ps: seq<Packet>, q: string) {
    forall p :: p in ps ==> (p.FileMeta? ==> p.name == q) && (p.DirEnter? ==> p.dirName == q)
  }

  lemma ChunksUnnamed(content: seq<byte>, results: seq<int>, q: string)
    ensures NamesOnly(ChunkPackets(content, results, 0, 0), q)
  {
    ChunksAreGapFree(content, results, 0, 0);
  }

  lemma SubPathCut(remote: CString, name: CString)
    requires |remote| >= MAX_FILENAME_LEN
    ensures Clip(SubPath(remote, name), MAX_FILENAME_LEN) == Clip(remote, MAX_FILENAME_LEN)
    ensures |SubPath(remote, name)| >= MAX_FILENAME_LEN
  {
  }

  /** Below a name that is too long, everything is sent under the same cut name. */
  lemma {:induction false} LongNames(t: Tree, remote: CString, recursive: bool)
    requires |remote| >= MAX_FILENAME_LEN
    ensures NamesOnly(Compile(t, remote, recursive), Clip(remote, MAX_FILENAME_LEN))
    decreases t, 0
  {
    match t
    case File(content, results) => ChunksUnnamed(content, results, Clip(remote, MAX_FILENAME_LEN));
    case Link(_) =>
    case Dir(es) => LongNamesAll(es, remote, recursive);
    case Gone =>
  }

  lemma {:induction false} LongNamesAll(es: seq<Entry>, remote: CString, recursive: bool)
    requires |remote| >= MAX_FILENAME_LEN
    ensures NamesOnly(CompileAll(es, remote, recursive), Clip(remote, MAX_FILENAME_LEN))
    decreases es, 1
  {
    if es != [] {
      LongNamesAll(es[1..], remote, recursive);
      if !Skipped(es[0], recursive) {
        SubPathCut(remote, es[0].name);
        LongNames(es[0].node, SubPath(remote, es[0].name), recursive);
      }
    }
  }

  predicate Named(p: Packet) { p.FileMeta? || p.DirEnter? }

  /** No name in the stream leads through or to the place `l`. */
  predicate Off(base: string, ps: seq<Packet>, l: Loc) {
    forall p :: p in ps ==>
      && (p.FileMeta? ==> !OnWay(Parts(Target(base, p.name)), l))
      && (p.DirEnter? ==> !OnWay(Parts(Target(base, p.dirName)), l))
  }

  /** A stream makes nothing at a place none of its names leads through or to. */
  lemma {:induction false} StaysMissing(base: string, x: Ctx, ps: seq<Packet>, l: Loc, links: set<Loc>)
    requires WellFormed(x.fs) && Off(base, ps, l) && LinksIn(x.fs, links) && Clear(base, x.path, x.kind, links, ps)
    requires (ps != [] && Named(ps[0])) || (x.kind.Symlink? ==> !OnWay(Parts(x.path), l))
    requires l !in x.fs && l != []
    ensures l !in InterpAll(base, x, ps).fs
    decreases |ps|
  {
    hide WellFormed, Interp, OnWay, Target, LinksIn, Clean, NextPath, NextKind, Linked, Free, Parts;
    if ps != [] {
      var p, x' := ps[0], Interp(base, x, ps[0]);
      assert p in ps && forall r :: r in ps[1..] ==> r in ps;
      CleanFree(base, x, p, links);
      StepMissing(base, x, p, l);
      InterpWellFormed(base, x, p);
      PathCarries(base, x, p, l);
      LinksStep(base, x, p, links);
      NextIs(base, x, p);
      StaysMissing(base, x', ps[1..], l, Linked(x.path, x.kind, p, links));
    }
  }

  lemma PathCarries(base: string, x: Ctx, p: Packet, l: Loc)
    requires Off(base, [p], l) && (Named(p) || (x.kind.Symlink? ==> !OnWay(Parts(x.path), l)))
    ensures var x' := Interp(base, x, p); x'.kind.Symlink? ==> !OnWay(Parts(x'.path), l)
  {
    hide Target, Parts, OnWay, Interp;
    assert p in [p];
    NextIs(base, x, p);
  }

  lemma StepMissing(base: string, x: Ctx, p: Packet, l: Loc)
    requires WellFormed(x.fs) && Free(base, x, p) && Off(base, [p], l) && l !in x.fs && l != []
    requires Named(p) || (x.kind.Symlink? ==> !OnWay(Parts(x.path), l))
    ensures l !in Interp(base, x, p).fs
  {
    hide WellFormed, Interp, Free, Target, Parts, OnWay, Above, Norm;
    assert p in [p];
    if l in Interp(base, x, p).fs {
      OnlyMay(base, x, p, l);
      if p.FileMeta? {
        MayAbove(Target(base, p.name), l);
      } else if p.FileData? && x.kind.Regular? {
        DataMakesNothing(base, x, p);
      } else if p.FileData? {
        MayAbove(x.path, l);
      }
    }
  }

  lemma DataMakesNothing(base: string, x: Ctx, p: Packet)
    requires p.FileData? && x.kind.Regular?
    ensures Interp(base, x, p).fs.Keys == x.fs.Keys
  {
  }

  lemma MayAbove(t: string, l: Loc)
    requires l != [] && (OnWay(Above(t), l) || l == Norm(Parts(t)))
    ensures OnWay(Parts(t), l)
  {
    hide OnWay, Parts, Above, Norm;
    if OnWay(Above(t), l) {
      AbovePrefix(t);
      OnWayLonger(Above(t), Parts(t), l);
    } else {
      EmptyNorm(Parts(t));
      OnWayEnd(Parts(t));
    }
  }

  lemma CutPrefix(a: seq<string>, c: seq<string>, cs: seq<string>)
    requires Cut(c, cs)
    ensures Cut(a + c, a + cs)
  {
    if c == [] {
      assert a + c == a;
      if a != [] { assert Front(a) <= a + cs; }
    } else {
      assert Front(a + c) == a + Front(c) && Last(a + c) == Last(c);
      assert (a + cs)[|a + c| - 1] == cs[|c| - 1];
    }
  }

  lemma CutPath(base: string, remote: string, q: string)
    requires q <= remote
    ensures Cut(PathOf(base, q), PathOf(base, remote))
  {
    hide Parts, Cut;
    CutParts(q, remote);
    CutPrefix(Parts(base), Parts(q), Parts(remote));
  }

  /** A shorter path makes only what the longer one makes. */
  lemma {:induction false} PrefixMakesLess(fs: Fs, c: seq<string>, d: seq<string>)
    requires WellFormed(fs) && c <= d
    ensures Kept(MkdirAll(fs, c), MkdirAll(fs, d))
    decreases |d|
  {
    hide WellFormed, MkdirAt, Kept;
    if c == d {
      KeptSame(MkdirAll(fs, c));
    } else {
      assert c <= Front(d);
      PrefixMakesLess(fs, c, Front(d));
      MkdirAllKeeps(fs, Front(d));
      MkdirAtKeeps(MkdirAll(fs, Front(d)), d);
      KeptTrans(MkdirAll(fs, c), MkdirAll(fs, Front(d)), MkdirAll(fs, d));
    }
  }

  /** If a longer path ends up resolving past `c`, then `c` alone becomes a directory. */
  lemma PrefixIsMade(fs: Fs, c: seq<string>, d: seq<string>)
    requires WellFormed(fs) && c <= d && IsDirAt(MkdirAll(fs, d), c)
    ensures IsDirAt(MkdirAll(fs, c), c)
  {
    hide WellFormed, Norm, Reaches;
    if c == [] {
      EmptyPath(fs);
    } else {
      if !Reaches(MkdirAll(fs, Front(c)), c) {
        MkdirAllStops(fs, c, d);
        assert false;
      }
      MkdirAllKeeps(fs, Front(c));
      MkdirAtKeeps(MkdirAll(fs, Front(c)), c);
      PrefixMakesLess(fs, c, d);
    }
  }

  lemma EmptyPath(fs: Fs)
    ensures IsDirAt(fs, []) && MkdirAll(fs, []) == fs && Norm([]) == []
  {
  }

  /** Where a path has room, every proper part of its way is a directory by then. */
  lemma RoomWay(fs: Fs, cs: seq<string>, j: nat)
    requires Room(fs, cs) && j < |cs|
    ensures IsDirAt(MkdirAll(fs, Front(cs)), cs[..j]) && Norm(cs[..j]) != Norm(cs)
  {
    hide WellFormed, Norm, Reaches, MkdirAll;
    RoomMade(fs, cs);
    ReachesPrefix(MkdirAll(fs, Front(cs)), cs, j);
    FreshMissing(MkdirAll(fs, Front(cs)), cs);
  }

  lemma OnWayCut(fs: Fs, c: seq<string>, cs: seq<string>)
    requires Room(fs, cs) && Cut(c, cs) && OnWay(c, Norm(cs))
    ensures Norm(c) == Norm(cs)
  {
    hide Room, Norm;
    var j :| 0 < j <= |c| && Norm(cs) == Norm(c[..j]);
    if j < |c| {
      assert c[..j] == cs[..j];
      RoomWay(fs, cs, j);
    } else {
      assert c[..j] == c;
    }
  }

  /** If the cut path happens to lead to the same place, there is room for it too. */
  lemma CutRoom(fs: Fs, c: seq<string>, cs: seq<string>)
    requires Room(fs, cs) && Cut(c, cs) && Norm(c) == Norm(cs)
    ensures Room(fs, c)
  {
    hide WellFormed, Norm, Reaches;
    RoomSound(fs, cs);
    EmptyNorm(c);
    var d := Front(c);
    assert d == cs[..|c| - 1] && d <= Front(cs);
    RoomWay(fs, cs, |c| - 1);
    PrefixIsMade(fs, d, Front(cs));
    IsDirReaches(MkdirAll(fs, d), c);
    PrefixMakesLess(fs, d, Front(cs));
  }

  lemma TrailingAbove(t: string)
    requires Trailing(t)
    ensures t[LastSlash(t) + 1..] == ""
  {
  }

  lemma NotTrailing(t: string)
    requires !Trailing(t)
    ensures t != "" ==> t[LastSlash(t) + 1..] != ""
    ensures t == "" ==> Parts(t) == []
  {
  }

  lemma MetaTrailing(base: string, x: Ctx, q: CString, size: nat, kind: FileKind, chunks: nat)
    requires var t := Target(base, q);
      && WellFormed(x.fs) && Direct(x.fs, Parts(t)) && Trailing(t) && Parts(t) == Above(t)
      && !IsDirAt(x.fs, Parts(t)) && IsDir(MkdirAll(x.fs, Parts(t)), Norm(Parts(t)))
    ensures var x' := Interp(base, x, FileMeta(q, size, kind, chunks));
      x'.kind == kind && IsDir(x'.fs, Norm(Parts(Target(base, q))))
  {
    hide MkdirAll, Parts, Target, Norm, Reaches, WellFormed, Direct, Interp, Above;
    InterpIsDirect(base, x, FileMeta(q, size, kind, chunks));
  }

  lemma MetaNamed(base: string, x: Ctx, q: CString, size: nat, kind: FileKind, chunks: nat)
    requires var t := Target(base, q);
      && WellFormed(x.fs) && Direct(x.fs, Parts(t))
      && !Trailing(t) && Parts(t) != [] && Above(t) == Front(Parts(t)) && !IsDirAt(x.fs, Parts(t))
      && Norm(Parts(t)) != [] && Norm(Parts(t)) !in MkdirAll(x.fs, Front(Parts(t)))
      && Reaches(MkdirAll(x.fs, Front(Parts(t))), Parts(t))
    ensures var cs, x' := Parts(Target(base, q)), Interp(base, x, FileMeta(q, size, kind, chunks));
      x'.kind == kind
      && if kind.Regular? then Norm(cs) in x'.fs else x'.path == Target(base, q) && x'.fs == MkdirAll(x.fs, Front(cs))
  {
    hide MkdirAll, Parts, Target, Norm, Reaches, WellFormed, Direct, Interp, Above;
    InterpIsDirect(base, x, FileMeta(q, size, kind, chunks));
  }

  lemma RoomMissing(fs: Fs, cs: seq<string>)
    requires Room(fs, cs)
    ensures Norm(cs) !in fs
  {
    hide WellFormed, Norm, Reaches;
    MkdirAllKeeps(fs, Front(cs));
    FreshMissing(MkdirAll(fs, Front(cs)), cs);
  }

  lemma FirstNamed(t: Tree, remote: CString, recursive: bool)
    requires !t.Gone?
    ensures Compile(t, remote, recursive) != [] && Named(Compile(t, remote, recursive)[0])
  {
  }
}
