/** Paths on whose way no link lies, as the simple reading of them has it: each component
    is a name in the directory before it, and ".." goes back one. On such paths the
    receiver's commands do what this simple reading says. */
module LinkFree {
  import opened Packets
  import opened Paths
  import opened FileSystem
  import opened Interpreter

  /** Path resolution gets to the last component: each place on the way is a directory. */
  predicate Reaches(fs: Fs, cs: seq<string>) {
    cs == [] || (Reaches(fs, Front(cs)) && IsDir(fs, Norm(Front(cs))))
  }

  /** The path names something that exists, or a directory. */
  predicate Leads(fs: Fs, cs: seq<string>) { Reaches(fs, cs) && (Norm(cs) == [] || Norm(cs) in fs) }

  predicate IsDirAt(fs: Fs, cs: seq<string>) { Reaches(fs, cs) && IsDir(fs, Norm(cs)) }

  /** mkdir on the path with the components `cs`. */
  function MkdirAt(fs: Fs, cs: seq<string>): (Fs, Errno) {
    if Reaches(fs, cs) then Mkdir(fs, Norm(cs)) else (fs, NoParent)
  }

  /** What creating a path with all its ancestors means: each missing prefix is
      made, in order, as long as the one before it is a directory. */
  function MkdirAll(fs: Fs, cs: seq<string>): Fs {
    if cs == [] then fs else MkdirAt(MkdirAll(fs, Front(cs)), cs).0
  }

  lemma {:induction false} ReachesStill(fs: Fs, fs': Fs, cs: seq<string>)
    requires DirsKept(fs, fs') && Reaches(fs, cs)
    ensures Reaches(fs', cs)
  {
    if cs != [] { ReachesStill(fs, fs', Front(cs)); }
  }

  lemma ReachesFront(fs: Fs, cs: seq<string>)
    requires Reaches(fs, cs) && cs != []
    ensures IsDirAt(fs, Front(cs))
  {
  }

  lemma {:induction false} ReachesPrefix(fs: Fs, cs: seq<string>, j: nat)
    requires Reaches(fs, cs) && j < |cs|
    ensures IsDirAt(fs, cs[..j])
    decreases |cs|
  {
    if j < |cs| - 1 {
      ReachesPrefix(fs, Front(cs), j);
      assert Front(cs)[..j] == cs[..j];
    } else {
      assert Front(cs) == cs[..j];
    }
  }

  /** A path that resolves up to its last component names an existing place, or a new
      name in an existing directory. */
  lemma NewPlace(fs: Fs, cs: seq<string>)
    requires WellFormed(fs) && Reaches(fs, cs) && !Leads(fs, cs)
    ensures cs != [] && Norm(cs) == Norm(Front(cs)) + [Last(cs)] && Parent(Norm(cs)) == Norm(Front(cs))
    ensures IsDir(fs, Norm(Front(cs)))
  {
    UpIsDir(fs, Norm(Front(cs)));
  }

  /** mkdir fails exactly if the path does not resolve up to its last component. */
  lemma MkdirAtOutcome(fs: Fs, cs: seq<string>)
    requires WellFormed(fs)
    ensures if Reaches(fs, cs) then MkdirAt(fs, cs).1 != NoParent else MkdirAt(fs, cs) == (fs, NoParent)
    ensures Leads(fs, cs) ==> MkdirAt(fs, cs) == (fs, Exists)
    ensures Reaches(fs, cs) && !Leads(fs, cs) ==> MkdirAt(fs, cs) == (fs[Norm(cs) := DirNode], Ok)
  {
    hide WellFormed;
    if Reaches(fs, cs) && !Leads(fs, cs) { NewPlace(fs, cs); }
  }

  lemma MkdirAtKeeps(fs: Fs, cs: seq<string>)
    requires WellFormed(fs)
    ensures var fs' := MkdirAt(fs, cs).0;
      && WellFormed(fs') && Kept(fs, fs')
      && (forall k :: k in fs' && k !in fs ==> k == Norm(cs) && cs != [] && fs'[k].DirNode?)
      && (Reaches(fs, cs) ==> Leads(fs', cs))
  {
    hide WellFormed, Kept, Norm, Reaches;
    MkdirAtOutcome(fs, cs);
    KeptSame(fs);
    if Reaches(fs, cs) && !Leads(fs, cs) {
      NewPlace(fs, cs);
      PutDir(fs, Norm(cs));
      KeptDirs(fs, fs[Norm(cs) := DirNode]);
      ReachesStill(fs, fs[Norm(cs) := DirNode], cs);
    }
  }

  /** `l` is one of the places the path `cs` passes or ends at. */
  predicate OnWay(cs: seq<string>, l: Loc) { exists j | 0 < j <= |cs| :: l == Norm(cs[..j]) }

  lemma OnWayInit(cs: seq<string>, l: Loc)
    requires cs != [] && OnWay(Front(cs), l)
    ensures OnWay(cs, l)
  {
    var j :| 0 < j <= |Front(cs)| && l == Norm(Front(cs)[..j]);
    assert Front(cs)[..j] == cs[..j];
  }

  lemma OnWayEnd(cs: seq<string>)
    requires cs != []
    ensures OnWay(cs, Norm(cs))
  {
    assert cs[..|cs|] == cs;
  }

  /** Making directories keeps what exists and adds only directories on the way. */
  lemma {:induction false} MkdirAllKeeps(fs: Fs, cs: seq<string>)
    requires WellFormed(fs)
    ensures WellFormed(MkdirAll(fs, cs)) && Kept(fs, MkdirAll(fs, cs))
    ensures forall k :: k in MkdirAll(fs, cs) && k !in fs ==> OnWay(cs, k) && MkdirAll(fs, cs)[k].DirNode?
  {
    hide WellFormed, MkdirAt, Norm, OnWay, Leads, Reaches;
    if cs == [] {
      KeptSame(fs);
    } else {
      var fs1, fs2 := MkdirAll(fs, Front(cs)), MkdirAll(fs, cs);
      MkdirAllKeeps(fs, Front(cs));
      MkdirAtKeeps(fs1, cs);
      KeptTrans(fs, fs1, fs2);
      OnWayEnd(cs);
      forall k | k in fs2 && k !in fs ensures OnWay(cs, k) && fs2[k].DirNode? {
        if k in fs1 { OnWayInit(cs, k); }
      }
    }
  }

  /** If whatever exists on the way is a directory, the path ends up as one. */
  lemma {:induction false} MkdirAllMakes(fs: Fs, cs: seq<string>)
    requires WellFormed(fs) && forall j :: 0 < j <= |cs| && Norm(cs[..j]) in fs ==> fs[Norm(cs[..j])].DirNode?
    ensures IsDirAt(MkdirAll(fs, cs), cs)
  {
    hide WellFormed, MkdirAt, OnWay;
    if cs != [] {
      var ds := Front(cs);
      forall j | 0 < j <= |ds| && Norm(ds[..j]) in fs ensures fs[Norm(ds[..j])].DirNode? {
        assert ds[..j] == cs[..j];
      }
      MkdirAllMakes(fs, ds);
      MkdirAllKeeps(fs, ds);
      assert cs[..|cs|] == cs;
      MadeIsDir(MkdirAll(fs, ds), fs, cs);
    }
  }

  lemma MadeIsDir(fs1: Fs, fs: Fs, cs: seq<string>)
    requires WellFormed(fs1) && Kept(fs, fs1) && Reaches(fs1, cs)
    requires forall k :: k in fs1 && k !in fs ==> fs1[k].DirNode?
    requires Norm(cs) in fs ==> fs[Norm(cs)].DirNode?
    ensures IsDirAt(MkdirAt(fs1, cs).0, cs)
  {
    hide WellFormed, Norm, Reaches;
    MkdirAtOutcome(fs1, cs);
    MkdirAtKeeps(fs1, cs);
  }

  lemma {:induction false} MkdirAllIdempotent(fs: Fs, cs: seq<string>)
    requires WellFormed(fs) && Leads(fs, cs)
    ensures MkdirAll(fs, cs) == fs
  {
    if cs != [] {
      MkdirAllIdempotent(fs, Front(cs));
      MkdirAtOutcome(fs, cs);
    }
  }

  /** Once a prefix cannot be made, nothing below it can. */
  lemma {:induction false} MkdirAllStops(fs: Fs, c: seq<string>, d: seq<string>)
    requires c != [] && c <= d && !Reaches(MkdirAll(fs, Front(c)), c)
    ensures MkdirAll(fs, d) == MkdirAll(fs, Front(c)) && !Reaches(MkdirAll(fs, d), d)
    decreases |d|
  {
    if d != c {
      assert c <= Front(d);
      MkdirAllStops(fs, c, Front(d));
    }
  }

  // ---------------------------------------------------------------- no links on the way

  /** No place the path passes or ends at is a link. */
  predicate Direct(fs: Fs, cs: seq<string>) { forall j | 0 < j <= |cs| :: !IsLink(fs, Norm(cs[..j])) }

  lemma DirectPrefix(fs: Fs, cs: seq<string>, n: nat)
    requires Direct(fs, cs) && n <= |cs|
    ensures Direct(fs, cs[..n])
  {
    hide Norm, IsLink;
    forall j | 0 < j <= |cs[..n]| ensures !IsLink(fs, Norm(cs[..n][..j])) {
      assert cs[..n][..j] == cs[..j];
    }
  }

  lemma DirectEnd(fs: Fs, cs: seq<string>)
    requires Direct(fs, cs) && cs != []
    ensures !IsLink(fs, Norm(cs)) && Direct(fs, Front(cs))
  {
    hide Norm, IsLink;
    DirectPrefix(fs, cs, |cs| - 1);
    assert cs[..|cs|] == cs;
  }

  lemma StillDir(fs: Fs, fs': Fs, l: Loc)
    requires DirsKept(fs, fs') && IsDir(fs, l)
    ensures IsDir(fs', l)
  {
  }

  lemma WayIsDir(fs: Fs, cs: seq<string>, j: nat)
    requires IsDirAt(fs, cs) && j <= |cs|
    ensures IsDir(fs, Norm(cs[..j]))
  {
    hide Norm, Reaches;
    if j < |cs| { ReachesPrefix(fs, cs, j); } else { assert cs[..j] == cs; }
  }

  /** If no link is new, none is new on the way. */
  lemma DirectStill(fs: Fs, fs': Fs, cs: seq<string>)
    requires Direct(fs, cs) && forall l :: IsLink(fs', l) ==> IsLink(fs, l)
    ensures Direct(fs', cs)
  {
    hide Norm, IsLink;
  }

  lemma KeptLinks(fs: Fs, fs': Fs)
    requires Kept(fs, fs')
    ensures forall l :: IsLink(fs, l) ==> IsLink(fs', l)
  {
  }

  /** A path whose whole way is made of directories has no link on it. */
  lemma DirsAreDirect(fs: Fs, cs: seq<string>)
    requires IsDirAt(fs, cs)
    ensures Direct(fs, cs)
  {
    hide Norm, Reaches;
    forall j | 0 < j <= |cs| ensures !IsLink(fs, Norm(cs[..j])) {
      if j < |cs| { ReachesPrefix(fs, cs, j); } else { assert cs[..j] == cs; }
    }
  }

  lemma DirectSnoc(fs: Fs, cs: seq<string>)
    requires cs != [] && Direct(fs, Front(cs)) && !IsLink(fs, Norm(cs))
    ensures Direct(fs, cs)
  {
    hide Norm, IsLink;
    forall j | 0 < j <= |cs| ensures !IsLink(fs, Norm(cs[..j])) {
      if j < |cs| { assert Front(cs)[..j] == cs[..j]; } else { assert cs[..j] == cs; }
    }
  }

  /** A path that making directories turns into a directory had no link on it before. */
  lemma MadeWasDirect(fs: Fs, cs: seq<string>)
    requires WellFormed(fs) && IsDirAt(MkdirAll(fs, cs), cs)
    ensures Direct(fs, cs)
  {
    hide WellFormed, Kept, OnWay, IsDirAt, MkdirAll, IsLink, Direct;
    DirsAreDirect(MkdirAll(fs, cs), cs);
    MkdirAllKeeps(fs, cs);
    KeptLinks(fs, MkdirAll(fs, cs));
    DirectStill(MkdirAll(fs, cs), fs, cs);
  }

  /** On a direct path resolution, following links, is the simple reading. */
  lemma {:induction false} FindsDirect(fs: Fs, cs: seq<string>, n: nat)
    requires Direct(fs, cs)
    ensures Walk(fs, [], cs, n) == if Reaches(fs, cs) then Some(Norm(cs)) else None
    decreases |cs|
  {
    hide Walk, IsLink, Enter, Direct;
    if cs == [] {
      NothingWalks(fs, n);
    } else {
      DirectEnd(fs, cs);
      FindsDirect(fs, Front(cs), n);
      FrontLast(cs);
      var m := WalkSnoc(fs, [], Front(cs), Last(cs), n);
      WalkOne(fs, Norm(Front(cs)), Last(cs), m);
    }
  }

  lemma NothingWalks(fs: Fs, n: nat)
    ensures Walk(fs, [], [], n) == Some([]) && Norm([]) == []
  {
  }

  lemma LandsDirect(fs: Fs, cs: seq<string>)
    requires cs != [] ==> Direct(fs, Front(cs))
    ensures Lands(fs, cs) == if Reaches(fs, cs) then Some(Norm(cs)) else None
  {
    hide Walk, Direct, Enter;
    if cs != [] { FindsDirect(fs, Front(cs), MAX_LINKS); }
  }

  lemma MakeDirDirect(fs: Fs, cs: seq<string>)
    requires cs != [] ==> Direct(fs, Front(cs))
    ensures MakeDir(fs, cs) == MkdirAt(fs, cs)
  {
    hide Lands, Direct, Norm, Reaches;
    LandsDirect(fs, cs);
  }

  lemma {:induction false} MakeDirsDirect(fs: Fs, cs: seq<string>)
    requires WellFormed(fs) && Direct(fs, cs)
    ensures MakeDirs(fs, cs) == MkdirAll(fs, cs) && Direct(MkdirAll(fs, cs), cs)
    decreases |cs|
  {
    hide WellFormed, Direct, MakeDir, MkdirAt, IsLink;
    if cs != [] {
      DirectEnd(fs, cs);
      MakeDirsDirect(fs, Front(cs));
      MakeDirDirect(MkdirAll(fs, Front(cs)), cs);
    }
    AllNoLinks(fs, cs);
    DirectStill(fs, MkdirAll(fs, cs), cs);
  }

  /** Making directories makes no links. */
  lemma AllNoLinks(fs: Fs, cs: seq<string>)
    requires WellFormed(fs)
    ensures forall l :: IsLink(MkdirAll(fs, cs), l) ==> IsLink(fs, l)
  {
    hide WellFormed, OnWay;
    MkdirAllKeeps(fs, cs);
  }

  // ---------------------------------------------------------------- the commands on direct paths

  function DirectCreate(fs: Fs, path: string): (Fs, Option<Loc>) {
    if Trailing(path) || !Reaches(fs, Parts(path)) then (fs, None) else OpenAt(fs, Norm(Parts(path)))
  }

  function DirectRelink(fs: Fs, path: string, target: seq<byte>): Fs {
    if Trailing(path) || !Reaches(fs, Parts(path)) then fs else LinkAt(fs, Norm(Parts(path)), target)
  }

  function DirectMeta(base: string, x: Ctx, name: string, kind: FileKind): Ctx {
    var path := Target(base, name);
    if IsDirAt(x.fs, Parts(path)) then
      Ctx(x.fs, None, path, kind)
    else
      var fs1 := MkdirAll(x.fs, Above(path));
      if kind.Symlink? then Ctx(fs1, None, path, kind)
      else
        var (fs2, fd) := DirectCreate(fs1, path);
        Ctx(fs2, fd, path, kind)
  }

  function DirectInterp(base: string, x: Ctx, p: Packet): Ctx {
    match p
    case FileMeta(name, _, kind, _) => DirectMeta(base, x, name, kind)
    case FileData(_, length, offset, bytes) =>
      if x.kind.Symlink? then x.(fs := DirectRelink(x.fs, x.path, LinkText(length, bytes)))
      else OnData(x, length, offset, bytes)
    case DirEnter(name) =>
      var path := Target(base, name);
      x.(fs := MkdirAll(x.fs, Parts(path)), path := path)
    case _ => Interp(base, x, p)
  }

  /** No link lies where packet `p` makes the interpreter look. */
  predicate Free(base: string, x: Ctx, p: Packet) {
    match p
    case FileMeta(name, _, _, _) => Direct(x.fs, Parts(Target(base, name)))
    case FileData(_, _, _, _) =>
      x.kind.Symlink? && Parts(x.path) != [] ==> Direct(x.fs, Front(Parts(x.path)))
    case DirEnter(name) => Direct(x.fs, Parts(Target(base, name)))
    case _ => true
  }

  lemma AboveDirect(fs: Fs, path: string)
    requires Direct(fs, Parts(path))
    ensures Direct(fs, Above(path))
  {
    hide Parts, Direct, LastSlash, Above;
    AbovePrefix(path);
    DirectPrefix(fs, Parts(path), |Above(path)|);
    assert Parts(path)[..|Above(path)|] == Above(path);
  }

  lemma FindsDirDirect(fs: Fs, cs: seq<string>)
    requires Direct(fs, cs)
    ensures FindsDir(fs, cs) <==> IsDirAt(fs, cs)
  {
    hide Walk, Direct, Norm, Reaches;
    FindsDirect(fs, cs, MAX_LINKS);
  }

  lemma CreateIsDirect(fs: Fs, path: string)
    requires Direct(fs, Parts(path))
    ensures Create(fs, path) == DirectCreate(fs, path)
  {
    hide Walk, Direct, Norm, Reaches, Parts, OpenAt;
    FindsDirect(fs, Parts(path), MAX_LINKS);
  }

  lemma MetaIsDirect(base: string, x: Ctx, name: string, kind: FileKind)
    requires WellFormed(x.fs) && Direct(x.fs, Parts(Target(base, name)))
    ensures OnMeta(base, x, name, kind) == DirectMeta(base, x, name, kind)
  {
    hide WellFormed, Direct, Parts, Target, Above, Create, DirectCreate, MakeDirs, MkdirAll, FindsDir, IsDirAt, IsLink;
    var path := Target(base, name);
    FindsDirDirect(x.fs, Parts(path));
    AboveDirect(x.fs, path);
    MakeDirsDirect(x.fs, Above(path));
    AllNoLinks(x.fs, Above(path));
    DirectStill(x.fs, MkdirAll(x.fs, Above(path)), Parts(path));
    CreateIsDirect(MkdirAll(x.fs, Above(path)), path);
  }

  /** Where no link lies in the way, the interpreter does what the simple reading of its
      paths says. */
  lemma InterpIsDirect(base: string, x: Ctx, p: Packet)
    requires WellFormed(x.fs) && Free(base, x, p)
    ensures Interp(base, x, p) == DirectInterp(base, x, p)
  {
    hide WellFormed, Direct, Parts, Target, OnMeta, DirectMeta, MakeDirs, MkdirAll, Lands, LinkAt, Norm, Reaches;
    match p
    case FileMeta(name, _, kind, _) => MetaIsDirect(base, x, name, kind);
    case FileData(_, _, _, _) =>
      if x.kind.Symlink? { LandsDirect(x.fs, Parts(x.path)); }
    case DirEnter(name) => MakeDirsDirect(x.fs, Parts(Target(base, name)));
    case _ =>
  }
}
