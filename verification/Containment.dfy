/** When the receiver changes something outside its output directory: names may hold ".."
    and are joined to the output directory as they are, and links are followed. */
module Containment {
  import opened Packets
  import opened Paths
  import opened FileSystem
  import opened Chunks
  import opened Interpreter
  import opened LinkFree
  import opened Output
  import opened Trees
  import opened Links
  import opened Footprint

  // ---------------------------------------------------------------- what stays inside

  function Root(base: string): Loc { Norm(Parts(base)) }

  /** The directories the path of the output directory itself passes and ends at; they
      are there before the first packet. */
  function Dirs(base: string): Fs { MkdirAll(map[], Parts(base)) }

  /** A place inside the output directory, or a directory that is there anyway. */
  predicate Stays(base: string, l: Loc) { Root(base) <= l || IsDir(Dirs(base), l) }

  predicate AllStay(base: string, cs: seq<string>) { forall j | 0 < j <= |cs| :: Stays(base, Norm(cs[..j])) }

  /** What packet `p` may make or replace, with the current path and kind as given,
      stays inside. */
  predicate Tame(base: string, path: string, kind: FileKind, p: Packet) {
    match p
    case FileMeta(name, _, k, _) =>
      var t := Target(base, name);
      AllStay(base, Above(t)) && (k.Regular? && !Trailing(t) ==> Stays(base, Norm(Parts(t))))
    case FileData(_, _, _, _) => kind.Symlink? && !Trailing(path) ==> Stays(base, Norm(Parts(path)))
    case DirEnter(name) => AllStay(base, Parts(Target(base, name)))
    case _ => true
  }

  /** Every packet of a stream is tame when its turn comes. This looks at the packets
      only. */
  predicate TameAll(base: string, path: string, kind: FileKind, ps: seq<Packet>)
    decreases |ps|
  {
    ps != [] ==>
      Tame(base, path, kind, ps[0]) && TameAll(base, NextPath(base, path, ps[0]), NextKind(kind, ps[0]), ps[1..])
  }

  /** A receiver before the first packet: nothing open, and the output directory there. */
  predicate Start(base: string, x: Ctx) {
    x.path == "" && x.kind.Regular? && x.fd.None? && WellFormed(x.fs) && IsDirAt(x.fs, Parts(base))
  }

  /** Nothing outside the output directory differs. */
  ghost predicate Outside(base: string, fs: Fs, fs': Fs) { forall l :: !(Root(base) <= l) ==> Same(fs, fs', l) }

  /** At no moment of a stream has anything outside the output directory changed. */
  ghost predicate Contained(base: string, x: Ctx, ps: seq<Packet>) {
    forall n | 0 <= n <= |ps| :: Outside(base, x.fs, InterpAll(base, x, ps[..n]).fs)
  }

  // ---------------------------------------------------------------- tame streams stay inside

  lemma DirsMade(base: string)
    ensures WellFormed(Dirs(base)) && IsDirAt(Dirs(base), Parts(base)) && LinksIn(Dirs(base), {})
    ensures forall l :: l in Dirs(base) ==> OnWay(Parts(base), l) && Dirs(base)[l].DirNode?
  {
    hide Parts, Norm, MkdirAll, Reaches, OnWay;
    MkdirAllKeeps(map[], Parts(base));
    MkdirAllMakes(map[], Parts(base));
    LinksStill(map[], Parts(base), {});
  }

  /** The directories of the output path are directories of the receiver. */
  lemma DirsThere(base: string, fs: Fs, l: Loc)
    requires IsDirAt(fs, Parts(base)) && IsDir(Dirs(base), l)
    ensures IsDir(fs, l)
  {
    hide Parts, Norm, Reaches, Dirs;
    var cs := Parts(base);
    DirsMade(base);
    if l != [] {
      var j :| 0 < j <= |cs| && l == Norm(cs[..j]);
      if j < |cs| { ReachesPrefix(fs, cs, j); } else { assert cs[..j] == cs; }
    }
  }

  /** What holds between packets: the output directory is there, and an open file is
      inside it. */
  predicate Held(base: string, x: Ctx) {
    WellFormed(x.fs) && IsDirAt(x.fs, Parts(base)) && (x.fd.Some? ==> Root(base) <= x.fd.value)
  }

  lemma TameMay(base: string, path: string, kind: FileKind, p: Packet, l: Loc)
    requires Tame(base, path, kind, p) && May(base, path, kind, p, l)
    ensures Stays(base, l)
  {
    hide Stays, Norm, Parts, Target, Above;
  }

  lemma OpensMay(base: string, x: Ctx, p: Packet)
    requires WellFormed(x.fs) && Free(base, x, p)
    ensures var fd := Interp(base, x, p).fd;
      fd.None? || fd == x.fd || (May(base, x.path, x.kind, p, fd.value) && fd.value in Interp(base, x, p).fs
        && Interp(base, x, p).fs[fd.value].FileNode?)
  {
    hide Norm, Parts, Target, MkdirAll, Reaches, Above, OnWay, Interp, Free, WellFormed;
    InterpIsDirect(base, x, p);
    if !p.FileMeta? && !p.FileData? && !p.DirEnter? { OthersOpen(base, x, p); }
  }

  lemma OthersOpen(base: string, x: Ctx, p: Packet)
    requires !p.FileMeta? && !p.FileData? && !p.DirEnter?
    ensures Interp(base, x, p).fd.None? || Interp(base, x, p).fd == x.fd
  {
  }

  lemma TameStep(base: string, x: Ctx, p: Packet)
    requires Held(base, x) && Tame(base, x.path, x.kind, p) && Free(base, x, p)
    ensures Outside(base, x.fs, Interp(base, x, p).fs) && Held(base, Interp(base, x, p))
  {
    hide WellFormed, Interp, Tame, May, Norm, Parts, Reaches, Dirs, Same, Free;
    var x' := Interp(base, x, p);
    forall l | !(Root(base) <= l) ensures Same(x.fs, x'.fs, l) {
      if !Same(x.fs, x'.fs, l) {
        OnlyMay(base, x, p, l);
        if May(base, x.path, x.kind, p, l) {
          TameMay(base, x.path, x.kind, p, l);
          DirsThere(base, x.fs, l);
        }
      }
    }
    InterpKeepsDirs(base, x, p);
    ReachesStill(x.fs, x'.fs, Parts(base));
    OpensMay(base, x, p);
    if x'.fd.Some? && x'.fd != x.fd {
      TameMay(base, x.path, x.kind, p, x'.fd.value);
      FileIsNoDir(x'.fs, x'.fd.value);
      if IsDir(Dirs(base), x'.fd.value) { DirsThere(base, x'.fs, x'.fd.value); }
    }
  }

  lemma FileIsNoDir(fs: Fs, l: Loc)
    requires WellFormed(fs) && l in fs && fs[l].FileNode?
    ensures !IsDir(fs, l)
  {
  }

  lemma OutsideTrans(base: string, a: Fs, b: Fs, c: Fs)
    requires Outside(base, a, b) && Outside(base, b, c)
    ensures Outside(base, a, c)
  {
    forall l | !(Root(base) <= l) ensures Same(a, c, l) {
      assert Same(a, b, l) && Same(b, c, l);
    }
  }

  lemma OutsideSelf(base: string, fs: Fs)
    ensures Outside(base, fs, fs)
  {
  }

  lemma {:induction false} TameStays(base: string, x: Ctx, links: set<Loc>, ps: seq<Packet>)
    requires Held(base, x) && TameAll(base, x.path, x.kind, ps)
    requires LinksIn(x.fs, links) && Clear(base, x.path, x.kind, links, ps)
    ensures Outside(base, x.fs, InterpAll(base, x, ps).fs) && Held(base, InterpAll(base, x, ps))
    decreases |ps|
  {
    hide Held, Tame, Interp, Root, Same, Clean, LinksIn, Linked, NextPath, NextKind, Free;
    OutsideSelf(base, x.fs);
    if ps != [] {
      HeldWellFormed(base, x);
      CleanFree(base, x, ps[0], links);
      TameStep(base, x, ps[0]);
      LinksStep(base, x, ps[0], links);
      NextIs(base, x, ps[0]);
      TameStays(base, Interp(base, x, ps[0]), Linked(x.path, x.kind, ps[0], links), ps[1..]);
      OutsideTrans(base, x.fs, Interp(base, x, ps[0]).fs, InterpAll(base, x, ps).fs);
    }
  }

  lemma HeldWellFormed(base: string, x: Ctx)
    requires Held(base, x)
    ensures WellFormed(x.fs)
  {
  }

  lemma {:induction false} ClearPrefix(base: string, path: string, kind: FileKind, links: set<Loc>, ps: seq<Packet>,
                                       n: nat)
    requires Clear(base, path, kind, links, ps) && n <= |ps|
    ensures Clear(base, path, kind, links, ps[..n])
    decreases n
  {
    hide Clean, NextPath, NextKind, Linked;
    if n > 0 {
      assert ps[..n][1..] == ps[1..][..n - 1];
      ClearPrefix(base, NextPath(base, path, ps[0]), NextKind(kind, ps[0]), Linked(path, kind, ps[0], links), ps[1..],
        n - 1);
    }
  }

  lemma {:induction false} TamePrefix(base: string, path: string, kind: FileKind, ps: seq<Packet>, n: nat)
    requires TameAll(base, path, kind, ps) && n <= |ps|
    ensures TameAll(base, path, kind, ps[..n])
    decreases n
  {
    hide Tame, NextPath;
    if n > 0 {
      assert ps[..n][1..] == ps[1..][..n - 1];
      TamePrefix(base, NextPath(base, path, ps[0]), NextKind(kind, ps[0]), ps[1..], n - 1);
    }
  }

  /** Tame streams write nothing outside, at no moment and from no start. */
  lemma TameContained(base: string, x: Ctx, links: set<Loc>, ps: seq<Packet>)
    requires Start(base, x) && LinksIn(x.fs, links)
    requires TameAll(base, "", Regular, ps) && Clear(base, "", Regular, links, ps)
    ensures Contained(base, x, ps)
  {
    hide TameAll, Outside, InterpAll, WellFormed, IsDirAt, Clear, LinksIn;
    forall n | 0 <= n <= |ps| ensures Outside(base, x.fs, InterpAll(base, x, ps[..n]).fs) {
      TamePrefix(base, "", Regular, ps, n);
      ClearPrefix(base, "", Regular, links, ps, n);
      TameStays(base, x, links, ps[..n]);
    }
  }

  // ---------------------------------------------------------------- other streams do not

  /** The first packet that is not tame. */
  lemma {:induction false} FirstWild(base: string, path: string, kind: FileKind, ps: seq<Packet>) returns (n: nat)
    requires !TameAll(base, path, kind, ps)
    ensures n < |ps| && TameAll(base, path, kind, ps[..n])
    ensures !Tame(base, PathAfter(base, path, ps[..n]), KindAfter(kind, ps[..n]), ps[n])
    decreases |ps|
  {
    hide Tame, NextPath;
    if !Tame(base, path, kind, ps[0]) {
      n := 0;
    } else {
      var m := FirstWild(base, NextPath(base, path, ps[0]), NextKind(kind, ps[0]), ps[1..]);
      n := m + 1;
      assert ps[..n][1..] == ps[1..][..m] && ps[..n][0] == ps[0];
    }
  }

  /** The directories above the current path have been judged with the packet that
      named it. */
  lemma {:induction false} AfterAboveStays(base: string, path: string, kind: FileKind, ps: seq<Packet>)
    requires TameAll(base, path, kind, ps) && AllStay(base, Above(path))
    ensures AllStay(base, Above(PathAfter(base, path, ps)))
    decreases |ps|
  {
    hide Stays, Above, Norm, Target;
    if ps != [] {
      if ps[0].DirEnter? { AboveStays(base, Target(base, ps[0].dirName)); }
      AfterAboveStays(base, NextPath(base, path, ps[0]), NextKind(kind, ps[0]), ps[1..]);
    }
  }

  lemma AboveStays(base: string, t: string)
    requires AllStay(base, Parts(t))
    ensures AllStay(base, Above(t))
  {
    hide Stays, Norm, Parts;
    AbovePrefix(t);
    StayPrefix(base, Parts(t), |Above(t)|);
    assert Parts(t)[..|Above(t)|] == Above(t);
  }

  lemma StayPrefix(base: string, cs: seq<string>, n: nat)
    requires AllStay(base, cs) && n <= |cs|
    ensures AllStay(base, cs[..n])
  {
    hide Stays, Norm;
    forall j | 0 < j <= |cs[..n]| ensures Stays(base, Norm(cs[..n][..j])) {
      assert cs[..n][..j] == cs[..j];
    }
  }

  /** The first place on the way that is neither inside nor there anyway. */
  lemma {:induction false} FirstOut(base: string, cs: seq<string>) returns (j: nat)
    requires !AllStay(base, cs)
    ensures 0 < j <= |cs| && !Stays(base, Norm(cs[..j])) && AllStay(base, cs[..j - 1])
    decreases |cs|
  {
    hide Stays, Norm;
    if cs != [] && !AllStay(base, Front(cs)) {
      j := FirstOut(base, Front(cs));
      assert Front(cs)[..j] == cs[..j] && Front(cs)[..j - 1] == cs[..j - 1];
    } else {
      j := |cs|;
      var k :| 0 < k <= |cs| && !Stays(base, Norm(cs[..k]));
      if k < |cs| {
        assert Front(cs)[..k] == cs[..k];
      }
    }
  }

  /** A receiver that has, besides its output directory, the directories on a way that
      stays inside. */
  function Prepared(base: string, cs: seq<string>): Fs { MkdirAll(Dirs(base), cs) }

  lemma PreparedDirs(base: string, cs: seq<string>)
    requires AllStay(base, cs)
    ensures WellFormed(Prepared(base, cs)) && IsDirAt(Prepared(base, cs), cs) && LinksIn(Prepared(base, cs), {})
    ensures IsDirAt(Prepared(base, cs), Parts(base))
    ensures forall l :: !Stays(base, l) ==> l !in Prepared(base, cs) && l != []
  {
    hide WellFormed, Parts, Norm, Reaches, OnWay, Dirs, MkdirAll;
    DirsMade(base);
    LinksStill(Dirs(base), cs, {});
    MkdirAllKeeps(Dirs(base), cs);
    MkdirAllMakes(Dirs(base), cs);
    KeptDirs(Dirs(base), Prepared(base, cs));
    ReachesStill(Dirs(base), Prepared(base, cs), Parts(base));
    forall l | !Stays(base, l) ensures l !in Prepared(base, cs) && l != [] {
      if l in Prepared(base, cs) && l !in Dirs(base) { OnWayStays(base, cs, l); }
    }
  }

  lemma OnWayStays(base: string, cs: seq<string>, l: Loc)
    requires AllStay(base, cs) && OnWay(cs, l)
    ensures Stays(base, l)
  {
    hide Stays, Norm;
    var j :| 0 < j <= |cs| && l == Norm(cs[..j]);
  }

  /** Making a path makes the first missing place on its way. */
  lemma MakesMissing(fs: Fs, cs: seq<string>, j: nat)
    requires WellFormed(fs) && 0 < j <= |cs| && IsDirAt(fs, cs[..j - 1]) && Norm(cs[..j]) !in fs && Norm(cs[..j]) != []
    ensures Norm(cs[..j]) in MkdirAll(fs, cs)
  {
    hide WellFormed, Norm, Reaches;
    var c := cs[..j];
    assert Front(c) == cs[..j - 1];
    MkdirAllIdempotent(fs, Front(c));
    IsDirReaches(fs, c);
    MkdirAtOutcome(fs, c);
    PrefixMakesLess(fs, c, cs);
  }

  /** The state before packet `n`, if all packets before it are tame. */
  lemma Before(base: string, x: Ctx, ps: seq<Packet>, n: nat)
    requires Start(base, x) && LinksIn(x.fs, {}) && n < |ps|
    requires TameAll(base, "", Regular, ps[..n]) && Clear(base, "", Regular, {}, ps)
    ensures var x' := InterpAll(base, x, ps[..n]);
      && Free(base, x', ps[n])
      && Outside(base, x.fs, x'.fs) && DirsKept(x.fs, x'.fs) && WellFormed(x'.fs)
      && x'.path == PathAfter(base, "", ps[..n]) && x'.kind == KindAfter(Regular, ps[..n])
      && InterpAll(base, x, ps[..n + 1]) == Interp(base, x', ps[n])
  {
    hide TameAll, Outside, InterpAll, WellFormed, IsDirAt, Interp, Root, Clear, LinksIn, Free;
    ClearPrefix(base, "", Regular, {}, ps, n);
    ClearFree(base, x, {}, ps, n);
    TameStays(base, x, {}, ps[..n]);
    StreamKeepsDirs(base, x, ps[..n]);
    AfterIs(base, x, ps[..n]);
    assert ps[..n + 1] == ps[..n] + [ps[n]];
    InterpAppend(base, x, ps[..n], [ps[n]]);
    InterpOne(base, InterpAll(base, x, ps[..n]), ps[n]);
  }

  lemma ContainedAt(base: string, x: Ctx, ps: seq<Packet>, n: nat)
    requires Contained(base, x, ps) && n <= |ps|
    ensures Outside(base, x.fs, InterpAll(base, x, ps[..n]).fs)
  {
    hide Outside, InterpAll;
  }

  /** If a place outside differs after packet `n`, the stream is not contained. */
  lemma ChangedOutside(base: string, x: Ctx, ps: seq<Packet>, n: nat, bad: Loc)
    requires n < |ps| && !(Root(base) <= bad) && !Same(x.fs, InterpAll(base, x, ps[..n + 1]).fs, bad)
    ensures !Contained(base, x, ps)
  {
    hide Same, InterpAll, Root, Contained;
    if Contained(base, x, ps) { ContainedAt(base, x, ps, n + 1); }
  }

  function At(fs: Fs): Ctx { Ctx(fs, None, "", Regular) }

  /** A packet that makes directories makes the first missing one on its way. */
  lemma MakesOut(base: string, x: Ctx, p: Packet, cs: seq<string>, j: nat)
    requires WellFormed(x.fs) && Free(base, x, p) && 0 < j <= |cs| && IsDirAt(x.fs, cs[..j - 1])
    requires Norm(cs[..j]) !in x.fs && Norm(cs[..j]) != []
    requires (p.DirEnter? && cs == Parts(Target(base, p.dirName))) || (p.FileMeta? && cs == Above(Target(base, p.name)))
    ensures Norm(cs[..j]) in Interp(base, x, p).fs
  {
    hide WellFormed, Norm, Reaches, Parts, Target, MkdirAll, Above, Interp, Free;
    MakesMissing(x.fs, cs, j);
    InterpIsDirect(base, x, p);
    if p.FileMeta? {
      var t := Target(base, p.name);
      AbovePrefix(t);
      assert cs[..j] == Parts(t)[..j];
      if IsDirAt(x.fs, Parts(t)) { WayIsDir(x.fs, Parts(t), j); }
    }
  }

  /** Case one: packet `n` makes a directory outside. */
  lemma OutByMkdir(base: string, ps: seq<Packet>, n: nat, cs: seq<string>) returns (x: Ctx)
    requires n < |ps| && Clear(base, "", Regular, {}, ps) && TameAll(base, "", Regular, ps[..n]) && !AllStay(base, cs)
    requires var p := ps[n];
      (p.DirEnter? && cs == Parts(Target(base, p.dirName))) || (p.FileMeta? && cs == Above(Target(base, p.name)))
    ensures Start(base, x) && LinksIn(x.fs, {}) && !Contained(base, x, ps)
  {
    hide WellFormed, Clear, Free, LinksIn, Norm, Reaches, Parts, Target, TameAll, Above, InterpAll, Interp,
      Contained, Prepared, AllStay, Dirs, PathAfter, KindAfter;
    var j := FirstOut(base, cs);
    var bad := Norm(cs[..j]);
    PreparedDirs(base, cs[..j - 1]);
    x := At(Prepared(base, cs[..j - 1]));
    Before(base, x, ps, n);
    var x1 := InterpAll(base, x, ps[..n]);
    assert Same(x.fs, x1.fs, bad);
    ReachesStill(x.fs, x1.fs, cs[..j - 1]);
    MakesOut(base, x1, ps[n], cs, j);
    ChangedOutside(base, x, ps, n, bad);
  }

  /** Directories above stay inside, the last component leads out: it is a proper new
      name right after the last slash. */
  lemma LastOut(base: string, t: string)
    requires AllStay(base, Above(t)) && !Trailing(t) && !Stays(base, Norm(Parts(t)))
    ensures Parts(t) != [] && Above(t) == Front(Parts(t)) && AllStay(base, Front(Parts(t)))
  {
    hide Stays, Norm, Parts, LastSlash, AllStay;
    EmptyNorm(Parts(t));
    EmptyStays(base);
    AbovePrefix(t);
    NotTrailing(t);
  }

  lemma EmptyStays(base: string)
    ensures Stays(base, [])
  {
  }

  /** Case two: packet `n` opens a file outside. */
  lemma OutByOpen(base: string, ps: seq<Packet>, n: nat) returns (x: Ctx)
    requires n < |ps| && Clear(base, "", Regular, {}, ps) && TameAll(base, "", Regular, ps[..n])
    requires ps[n].FileMeta? && ps[n].kind.Regular?
    requires var t := Target(base, ps[n].name);
      AllStay(base, Above(t)) && !Trailing(t) && !Stays(base, Norm(Parts(t)))
    ensures Start(base, x) && LinksIn(x.fs, {}) && !Contained(base, x, ps)
  {
    hide WellFormed, Clear, Direct, LinksIn, Norm, Reaches, Parts, Target, TameAll, Above, InterpAll, Interp,
      Contained, Prepared, AllStay, Dirs, PathAfter, KindAfter, MkdirAll, Trailing;
    var p, t := ps[n], Target(base, ps[n].name);
    LastOut(base, t);
    var cs, bad := Parts(t), Norm(Parts(t));
    PreparedDirs(base, Front(cs));
    x := At(Prepared(base, Front(cs)));
    Before(base, x, ps, n);
    var x1 := InterpAll(base, x, ps[..n]);
    assert Same(x.fs, x1.fs, bad);
    ReachesStill(x.fs, x1.fs, Front(cs));
    MkdirAllIdempotent(x1.fs, Front(cs));
    IsDirReaches(x1.fs, cs);
    MetaNamed(base, x1, p.name, p.size, p.kind, p.chunks);
    ChangedOutside(base, x, ps, n, bad);
  }

  /** A link packet replaces a file. */
  lemma LinkReplaces(base: string, x: Ctx, p: Packet)
    requires WellFormed(x.fs) && Free(base, x, p) && p.FileData? && x.kind.Symlink?
    requires !Trailing(x.path) && Reaches(x.fs, Parts(x.path))
    requires var l := Norm(Parts(x.path)); l != [] && l in x.fs && x.fs[l].FileNode?
    ensures !Same(x.fs, Interp(base, x, p).fs, Norm(Parts(x.path)))
  {
    hide Norm, Reaches, Parts, Trailing, WellFormed, Free, Interp;
    InterpIsDirect(base, x, p);
  }

  /** Case three: packet `n` replaces a file outside by a link. */
  lemma OutByLink(base: string, ps: seq<Packet>, n: nat) returns (x: Ctx)
    requires n < |ps| && Clear(base, "", Regular, {}, ps) && TameAll(base, "", Regular, ps[..n])
    requires ps[n].FileData? && KindAfter(Regular, ps[..n]).Symlink?
    requires var t := PathAfter(base, "", ps[..n]);
      !Trailing(t) && !Stays(base, Norm(Parts(t)))
    ensures Start(base, x) && LinksIn(x.fs, {}) && !Contained(base, x, ps)
  {
    hide WellFormed, Clear, Free, LinksIn, Norm, Reaches, Parts, TameAll, Above, InterpAll, Interp, Contained,
      Prepared, AllStay, Dirs, PathAfter, KindAfter, MkdirAll, Trailing, Root;
    var t := PathAfter(base, "", ps[..n]);
    NothingAboveStays(base);
    AfterAboveStays(base, "", Regular, ps[..n]);
    LastOut(base, t);
    var cs, bad := Parts(t), Norm(Parts(t));
    PreparedDirs(base, Front(cs));
    var fs0 := Prepared(base, Front(cs));
    x := At(fs0[bad := FileNode([])]);
    WithFile(base, fs0, cs);
    Before(base, x, ps, n);
    var x1 := InterpAll(base, x, ps[..n]);
    StaysRoot(base, bad);
    assert Same(x.fs, x1.fs, bad);
    ReachesStill(x.fs, x1.fs, cs);
    LinkReplaces(base, x1, ps[n]);
    ChangedOutside(base, x, ps, n, bad);
  }

  lemma StaysRoot(base: string, l: Loc)
    requires !Stays(base, l)
    ensures !(Root(base) <= l)
  {
  }

  lemma NothingAboveStays(base: string)
    ensures AllStay(base, Above(""))
  {
  }

  lemma NewFile(fs: Fs, l: Loc)
    requires WellFormed(fs) && l !in fs && l != [] && IsDir(fs, Parent(l))
    ensures WellFormed(fs[l := FileNode([])]) && DirsKept(fs, fs[l := FileNode([])])
  {
    hide WellFormed, DirsKept, Kept;
    PutNode(fs, l, FileNode([]));
    KeptPut(fs, l, FileNode([]));
    KeptDirs(fs, fs[l := FileNode([])]);
  }

  /** Putting a file at a new place keeps directories and paths. */
  lemma WithFile(base: string, fs: Fs, cs: seq<string>)
    requires WellFormed(fs) && cs != [] && IsDirAt(fs, Front(cs)) && Norm(cs) !in fs && Norm(cs) != []
    requires IsDirAt(fs, Parts(base)) && LinksIn(fs, {})
    ensures var fs' := fs[Norm(cs) := FileNode([])];
      WellFormed(fs') && LinksIn(fs', {}) && IsDirAt(fs', Parts(base)) && Reaches(fs', cs)
  {
    hide WellFormed, Norm, Reaches, Parts, DirsKept, Front, Parent;
    IsDirReaches(fs, cs);
    NewPlace(fs, cs);
    NewFile(fs, Norm(cs));
    PutLinks(fs, Norm(cs), FileNode([]), {});
    var fs' := fs[Norm(cs) := FileNode([])];
    ReachesStill(fs, fs', cs);
    ReachesStill(fs, fs', Parts(base));
    StillDir(fs, fs', Norm(Parts(base)));
  }

  /** For every packet stream that is not tame some receiver, without any link, is written
      to outside its output directory. */
  lemma WildLeadsOut(base: string, ps: seq<Packet>) returns (x: Ctx)
    requires !TameAll(base, "", Regular, ps) && Clear(base, "", Regular, {}, ps)
    ensures Start(base, x) && LinksIn(x.fs, {}) && !Contained(base, x, ps)
  {
    hide TameAll, AllStay, Contained, Above, Parts, Target, Stays, Norm, Start, PathAfter, KindAfter, Clear, LinksIn;
    var n := FirstWild(base, "", Regular, ps);
    match ps[n]
    case DirEnter(name) => x := OutByMkdir(base, ps, n, Parts(Target(base, name)));
    case FileMeta(name, _, _, _) =>
      if !AllStay(base, Above(Target(base, name))) {
        x := OutByMkdir(base, ps, n, Above(Target(base, name)));
      } else {
        x := OutByOpen(base, ps, n);
      }
    case FileData(_, _, _, _) => x := OutByLink(base, ps, n);
    case _ =>
  }

  /** Exactly when a packet stream changes nothing outside the output directory, at any
      moment and on any receiver that has its links at `links`: when every packet is tame.
      The stream must not go through these links nor through its own. */
  lemma ContainedIff(base: string, links: set<Loc>, ps: seq<Packet>)
    requires Clear(base, "", Regular, links, ps)
    ensures (forall x :: Start(base, x) && LinksIn(x.fs, links) ==> Contained(base, x, ps)) <==>
      TameAll(base, "", Regular, ps)
  {
    hide TameAll, Contained, Start, Clear, LinksIn;
    if TameAll(base, "", Regular, ps) {
      forall x | Start(base, x) && LinksIn(x.fs, links) ensures Contained(base, x, ps) {
        TameContained(base, x, links, ps);
      }
    } else {
      ClearLess(base, "", Regular, {}, links, ps);
      var x := WildLeadsOut(base, ps);
      LinksMore(x.fs, {}, links);
    }
  }

  // ---------------------------------------------------------------- sessions

  /** No component but possibly the last is "..": what is left of a path without ".."
      after cutting. */
  predicate AlmostPlain(cs: seq<string>) { cs != [] ==> Plain(Front(cs)) }

  lemma UpStays(base: string, l: Loc)
    requires Root(base) <= l
    ensures Stays(base, Up(l))
  {
    hide Parts, Norm, Reaches, Dirs, WellFormed;
    if l == Root(base) {
      DirsMade(base);
      UpIsDir(Dirs(base), l);
    }
  }

  lemma PlainStays(base: string, c: seq<string>)
    requires AlmostPlain(c)
    ensures AllStay(base, Parts(base) + c)
  {
    hide Norm, Parts, Stays;
    var b := Parts(base);
    forall j | 0 < j <= |b + c| ensures Stays(base, Norm((b + c)[..j])) {
      if j <= |b| {
        assert (b + c)[..j] == b[..j];
        BaseStays(base, j);
      } else {
        assert (b + c)[..j] == b + c[..j - |b|];
        TailStays(base, c, j - |b|);
      }
    }
  }

  lemma BaseStays(base: string, j: nat)
    requires j <= |Parts(base)|
    ensures Stays(base, Norm(Parts(base)[..j]))
  {
    hide Norm, Parts, Dirs, Reaches;
    DirsMade(base);
    WayIsDir(Dirs(base), Parts(base), j);
  }

  lemma TailStays(base: string, c: seq<string>, k: nat)
    requires AlmostPlain(c) && 0 < k <= |c|
    ensures Stays(base, Norm(Parts(base) + c[..k]))
  {
    hide Norm, Parts, Dirs;
    var b, d := Parts(base), c[..k - 1];
    assert d == Front(c)[..k - 1];
    PlainDescends(b, d);
    assert b + c[..k] == (b + d) + [c[k - 1]];
    NormSnoc(b + d, c[k - 1]);
    UpStays(base, Norm(b + d));
  }

  predicate ModestName(name: string) { |name| < MAX_FILENAME_LEN && AlmostPlain(Parts(name)) }

  predicate Modest(ps: seq<Packet>) {
    forall p :: p in ps ==> (p.FileMeta? ==> ModestName(p.name)) && (p.DirEnter? ==> ModestName(p.dirName))
  }

  lemma ModestStays(base: string, name: string)
    requires |base| + MAX_FILENAME_LEN < MAX_PATH_LEN && ModestName(name)
    ensures AllStay(base, Parts(Target(base, name)))
  {
    hide Parts, AllStay, AlmostPlain;
    TargetParts(base, name);
    PlainStays(base, Parts(name));
  }

  lemma EndStays(base: string, cs: seq<string>)
    requires AllStay(base, cs)
    ensures Stays(base, Norm(cs))
  {
    hide Norm, Stays;
    EmptyNorm(cs);
    EmptyStays(base);
    assert cs[..|cs|] == cs;
  }

  lemma {:induction false} ModestTame(base: string, path: string, kind: FileKind, ps: seq<Packet>)
    requires |base| + MAX_FILENAME_LEN < MAX_PATH_LEN && Modest(ps) && AllStay(base, Parts(path))
    ensures TameAll(base, path, kind, ps)
    decreases |ps|
  {
    hide Parts, AllStay, Above, Stays, Norm, Target, ModestName;
    if ps != [] {
      var p := ps[0];
      assert p in ps && forall r :: r in ps[1..] ==> r in ps;
      EndStays(base, Parts(path));
      if p.FileMeta? {
        ModestStays(base, p.name);
        AboveStays(base, Target(base, p.name));
        EndStays(base, Parts(Target(base, p.name)));
      } else if p.DirEnter? {
        ModestStays(base, p.dirName);
      }
      ModestTame(base, NextPath(base, path, p), NextKind(kind, p), ps[1..]);
    }
  }

  /** Every entry that is sent has a proper name. */
  predicate ProperNames(t: Tree, recursive: bool)
    decreases t, 0
  {
    t.Dir? ==> ProperEntries(t.entries, recursive)
  }

  predicate ProperEntries(es: seq<Entry>, recursive: bool)
    decreases es, 1
  {
    es != [] ==>
      && (!Skipped(es[0], recursive) ==> Name(es[0].name) && ProperNames(es[0].node, recursive))
      && ProperEntries(es[1..], recursive)
  }

  /** A remote path without "..", or what counts of one that is too long. */
  predicate ModestRemote(remote: string) {
    if |remote| < MAX_FILENAME_LEN then Plain(Parts(remote))
    else AlmostPlain(Parts(Clip(remote, MAX_FILENAME_LEN)))
  }

  lemma PlainAlmost(cs: seq<string>)
    requires Plain(cs)
    ensures AlmostPlain(cs)
  {
  }

  lemma CutPlain(a: seq<string>, b: seq<string>)
    requires Cut(a, b) && Plain(b)
    ensures AlmostPlain(a)
  {
    if a != [] {
      forall i | 0 <= i < |Front(a)| ensures Front(a)[i] != ".." { assert Front(a)[i] == b[i]; }
    }
  }

  lemma RemoteModest(remote: string)
    requires ModestRemote(remote)
    ensures ModestName(Clip(remote, MAX_FILENAME_LEN))
  {
    hide Parts, Plain, AlmostPlain;
    if |remote| < MAX_FILENAME_LEN { PlainAlmost(Parts(remote)); }
  }

  lemma SubModest(remote: CString, name: CString)
    requires ModestRemote(remote) && Name(name)
    ensures ModestRemote(SubPath(remote, name))
  {
    hide Parts, AlmostPlain, Cut, Plain;
    if |remote| < MAX_FILENAME_LEN {
      var whole, sub := Join(remote, name), SubPath(remote, name);
      EntryPath(remote, name);
      PlainMore(Parts(remote), name);
      CutParts(Clip(sub, MAX_FILENAME_LEN), whole);
      CutPlain(Parts(Clip(sub, MAX_FILENAME_LEN)), Parts(whole));
    } else {
      SubPathCut(remote, name);
    }
  }

  lemma {:induction false} CompileModest(t: Tree, remote: CString, recursive: bool)
    requires ProperNames(t, recursive) && ModestRemote(remote)
    ensures Modest(Compile(t, remote, recursive))
    decreases t, 0
  {
    hide ModestName, ModestRemote;
    RemoteModest(remote);
    match t
    case File(content, results) => ChunksAreGapFree(content, results, 0, 0);
    case Link(_) =>
    case Dir(es) => EntriesModest(es, remote, recursive);
    case Gone =>
  }

  lemma {:induction false} EntriesModest(es: seq<Entry>, remote: CString, recursive: bool)
    requires ProperEntries(es, recursive) && ModestRemote(remote)
    ensures Modest(CompileAll(es, remote, recursive))
    decreases es, 1
  {
    hide ModestName, ModestRemote, Name;
    if es != [] {
      EntriesModest(es[1..], remote, recursive);
      if !Skipped(es[0], recursive) {
        SubModest(remote, es[0].name);
        CompileModest(es[0].node, SubPath(remote, es[0].name), recursive);
      }
    }
  }

  /** The places of the links a receiver has. */
  function LinksOf(fs: Fs): set<Loc> { set l | l in fs && fs[l].LinkNode? }

  /** Sessions that never send the receiver through a link: either none is sent and the
      output directory holds none; or the names sent all fit, the output path does not go
      through the place of the tree and back out of it, and the receiver has no link
      inside the output directory, or at least none above, at or below that place. */
  predicate SafeLinks(base: string, fs: Fs, t: Tree, remote: CString, recursive: bool) {
    || (Linkless(t, recursive) && NoneInside(base, fs))
    || (Sendable(t, remote, recursive) && (Plain(Parts(base)) || Ahead(base, Norm(PathOf(base, remote))))
        && (NoneInside(base, fs) || Apart(LinksOf(fs), Norm(PathOf(base, remote)))))
  }

  predicate NoneInside(base: string, fs: Fs) { forall l :: l in LinksOf(fs) ==> !(Root(base) <= l) }

  /** With no link inside the output directory, none lies in the way of any place in it. */
  lemma NoneInsideApart(base: string, fs: Fs, remote: CString)
    requires WellFormed(fs) && IsDirAt(fs, Parts(base)) && NoneInside(base, fs) && Plain(Parts(remote))
    ensures Apart(LinksOf(fs), Norm(PathOf(base, remote)))
  {
    hide Norm, Parts, WellFormed, Reaches;
    var root, at := Root(base), Norm(PathOf(base, remote));
    PlainDescends(Parts(base), Parts(remote));
    forall l | l in LinksOf(fs) ensures !(l <= at) && !(at <= l) {
      if l <= at {
        assert l <= root || root <= l;
        AboveIsDir(fs, root, l);
        LinkIsNoDir(fs, l);
      }
    }
  }

  /** The output path, which is there, goes through no link. */
  lemma BaseAvoids(base: string, fs: Fs)
    requires WellFormed(fs) && IsDirAt(fs, Parts(base))
    ensures Avoids(Parts(base), LinksOf(fs))
  {
    hide Norm, Parts, WellFormed, Reaches, LinksOf;
    forall j | 0 < j <= |Parts(base)| ensures Norm(Parts(base)[..j]) !in LinksOf(fs) {
      WayIsDir(fs, Parts(base), j);
      if Norm(Parts(base)[..j]) in LinksOf(fs) { LinkIsNoDir(fs, Norm(Parts(base)[..j])); }
    }
  }

  lemma LinkIsNoDir(fs: Fs, l: Loc)
    requires WellFormed(fs) && l in LinksOf(fs)
    ensures !IsDir(fs, l)
  {
  }

  /** Ways that stay inside meet no link if there is none inside. */
  lemma StaysAvoids(base: string, fs: Fs, cs: seq<string>)
    requires WellFormed(fs) && IsDirAt(fs, Parts(base)) && NoneInside(base, fs) && AllStay(base, cs)
    ensures Avoids(cs, LinksOf(fs))
  {
    hide Norm, Parts, WellFormed, Reaches, Dirs, LinksOf;
    forall j | 0 < j <= |cs| ensures Norm(cs[..j]) !in LinksOf(fs) {
      var l := Norm(cs[..j]);
      if l in LinksOf(fs) {
        DirsThere(base, fs, l);
        LinkIsNoDir(fs, l);
      }
    }
  }

  /** A stream without links whose names are modest meets no link. */
  lemma {:induction false} ModestClear(base: string, fs: Fs, path: string, ps: seq<Packet>)
    requires |base| + MAX_FILENAME_LEN < MAX_PATH_LEN && Modest(ps) && NoSymlinks(ps)
    requires WellFormed(fs) && IsDirAt(fs, Parts(base)) && NoneInside(base, fs)
    ensures Clear(base, path, Regular, LinksOf(fs), ps)
    decreases |ps|
  {
    hide Parts, AllStay, Avoids, WellFormed, IsDirAt, NoneInside, LinksOf, Target, ModestName, Norm;
    if ps != [] {
      var p := ps[0];
      assert p in ps && forall r :: r in ps[1..] ==> r in ps;
      if p.FileMeta? {
        ModestStays(base, p.name);
        StaysAvoids(base, fs, Parts(Target(base, p.name)));
      } else if p.DirEnter? {
        ModestStays(base, p.dirName);
        StaysAvoids(base, fs, Parts(Target(base, p.dirName)));
      }
      ModestClear(base, fs, NextPath(base, path, p), ps[1..]);
    }
  }

  lemma SessionModest(t: Tree, remote: CString, recursive: bool)
    requires ProperNames(t, recursive) && Plain(Parts(remote))
    ensures Modest(Compile(t, remote, recursive) + [TransferEnd])
  {
    hide Plain, Parts, AlmostPlain;
    if |remote| >= MAX_FILENAME_LEN {
      CutParts(Clip(remote, MAX_FILENAME_LEN), remote);
      CutPlain(Parts(Clip(remote, MAX_FILENAME_LEN)), Parts(remote));
    }
    CompileModest(t, remote, recursive);
    ModestSnoc(Compile(t, remote, recursive));
  }

  lemma SessionClear(base: string, fs: Fs, t: Tree, remote: CString, recursive: bool)
    requires |base| + MAX_FILENAME_LEN < MAX_PATH_LEN && WellFormed(fs) && IsDirAt(fs, Parts(base))
    requires ProperNames(t, recursive) && Plain(Parts(remote)) && SafeLinks(base, fs, t, remote, recursive)
    ensures Clear(base, "", Regular, LinksOf(fs), Compile(t, remote, recursive) + [TransferEnd])
  {
    hide Clear, LinkedAll, Parts, Linkless, Sendable, Norm, ProperNames, WellFormed, IsDirAt, NoneInside, LinksOf,
      Apart, Modest, Ahead, Plain, Avoids;
    var ps := Compile(t, remote, recursive);
    if Linkless(t, recursive) && NoneInside(base, fs) {
      LinklessPackets(t, remote, recursive);
      SessionModest(t, remote, recursive);
      ModestClear(base, fs, "", ps + [TransferEnd]);
    } else {
      if NoneInside(base, fs) { NoneInsideApart(base, fs, remote); }
      BaseAvoids(base, fs);
      SendableClear(base, "", Regular, LinksOf(fs), t, remote, recursive);
      EndClear(base, PathAfter(base, "", ps), KindAfter(Regular, ps), LinkedAll(base, "", Regular, LinksOf(fs), ps));
      ClearAppend(base, "", Regular, LinksOf(fs), ps, [TransferEnd]);
    }
  }

  /** A session whose remote path has no ".." stays inside the output directory, for
      every tree and every receiver whose links it does not meet, even where names are
      cut. */
  lemma SessionContained(base: string, x: Ctx, t: Tree, remote: CString, recursive: bool)
    requires Start(base, x) && |base| + MAX_FILENAME_LEN < MAX_PATH_LEN
    requires ProperNames(t, recursive) && Plain(Parts(remote)) && SafeLinks(base, x.fs, t, remote, recursive)
    ensures Contained(base, x, Compile(t, remote, recursive) + [TransferEnd])
  {
    hide WellFormed, IsDirAt, Contained, TameAll, Plain, Parts, Modest, Clear, SafeLinks, ProperNames, LinksIn, LinksOf;
    var ps := Compile(t, remote, recursive) + [TransferEnd];
    SessionModest(t, remote, recursive);
    NoPath(base);
    ModestTame(base, "", Regular, ps);
    SessionClear(base, x.fs, t, remote, recursive);
    LinksOfAll(x.fs);
    ContainedIff(base, LinksOf(x.fs), ps);
  }

  lemma LinksOfAll(fs: Fs)
    ensures LinksIn(fs, LinksOf(fs))
  {
  }

  lemma ModestSnoc(ps: seq<Packet>)
    requires Modest(ps)
    ensures Modest(ps + [TransferEnd])
  {
    hide ModestName;
  }

  lemma NoPath(base: string)
    ensures AllStay(base, Parts(""))
  {
  }

  // ---------------------------------------------------------------- out by ".."

  /** The output directory is right below the root, the remote path is "..", and one
      file next to the output directory is called `n`. */
  predicate Beside(base: string, up: CString, d: string, n: string) {
    && Parts(base) == [d] && Parts(up) == [".."] && Name(d) && Name(n)
    && |base| + MAX_FILENAME_LEN < MAX_PATH_LEN && |up| + 1 + |n| < MAX_FILENAME_LEN
  }

  lemma BesidePlaces(d: string, n: string)
    requires Name(d) && Name(n)
    ensures Norm([d]) == [d] && Norm([d, ".."]) == [] && Norm([d, "..", n]) == [n]
  {
    hide Norm, Name, Enter;
    EmptyNorm([]);
    NormSnoc([], d);
    NormSnoc([d], "..");
    NormSnoc([d, ".."], n);
    EnterName([], d);
    EnterName([], n);
    UpFrom(d);
    assert [] + [d] == [d] && [d] + [".."] == [d, ".."] && [d, ".."] + [n] == [d, "..", n] && [] + [n] == [n];
  }

  lemma UpFrom(d: string)
    ensures Enter([d], "..") == []
  {
  }

  lemma BesideReaches(fs: Fs, d: string, n: string)
    requires Name(d) && Name(n) && IsDirAt(fs, [d])
    ensures IsDirAt(fs, [d, ".."]) && Reaches(fs, [d, "..", n])
  {
    hide Norm, Reaches, Name;
    BesidePlaces(d, n);
    assert Front([d, ".."]) == [d] && Front([d, "..", n]) == [d, ".."];
    IsDirReaches(fs, [d, ".."]);
    IsDirReaches(fs, [d, "..", n]);
  }

  lemma BesidePaths(base: string, up: CString, d: string, n: CString)
    requires Beside(base, up, d, n)
    ensures Parts(Target(base, up)) == [d, ".."] && Parts(Target(base, up + "/" + n)) == [d, "..", n]
    ensures Above(Target(base, up + "/" + n)) == [d, ".."] && !Trailing(Target(base, up + "/" + n))
  {
    hide Parts, LastSlash, Target, Name, LastSegment, Trailing;
    var path := Join(up, n);
    TargetParts(base, up);
    EntryPath(up, n);
    TargetPath(base, path);
    assert [d] + [".."] == [d, ".."] && [".."] + [n] == ["..", n] && [d] + ["..", n] == [d, "..", n];
    assert Front([d, "..", n]) == [d, ".."];
  }

  lemma BesideEnter(base: string, up: CString, d: string, n: CString, x: Ctx)
    requires Beside(base, up, d, n) && WellFormed(x.fs) && IsDirAt(x.fs, [d])
    ensures Interp(base, x, DirEnter(up)).fs == x.fs
  {
    hide Parts, Target, Norm, Reaches, MkdirAll, Name, WellFormed, Interp, Direct;
    BesidePaths(base, up, d, n);
    BesideReaches(x.fs, d, n);
    DirsAreDirect(x.fs, [d, ".."]);
    InterpIsDirect(base, x, DirEnter(up));
    MkdirAllIdempotent(x.fs, [d, ".."]);
  }

  lemma BesideMeta(base: string, up: CString, d: string, n: CString, x: Ctx, size: nat, chunks: nat)
    requires Beside(base, up, d, n) && WellFormed(x.fs) && IsDirAt(x.fs, [d])
    requires [n] in x.fs && x.fs[[n]].FileNode?
    ensures var x' := Interp(base, x, FileMeta(up + "/" + n, size, Regular, chunks));
      x'.fs == x.fs[[n] := FileNode([])] && x'.fd == Some([n]) && x'.kind.Regular?
  {
    hide Parts, Target, Norm, Reaches, MkdirAll, Above, Name, WellFormed, Interp, Direct;
    var meta := FileMeta(up + "/" + n, size, Regular, chunks);
    BesidePaths(base, up, d, n);
    BesidePlaces(d, n);
    BesideReaches(x.fs, d, n);
    DirsAreDirect(x.fs, [d, ".."]);
    assert Front([d, "..", n]) == [d, ".."];
    DirectSnoc(x.fs, [d, "..", n]);
    InterpIsDirect(base, x, meta);
    MkdirAllIdempotent(x.fs, [d, ".."]);
  }

  function OneFile(n: CString, content: seq<byte>, results: seq<int>): Tree {
    Dir([Entry(n, File(content, results))])
  }

  lemma OneFilePackets(up: CString, n: CString, content: seq<byte>, results: seq<int>)
    requires |up| + 1 + |n| < MAX_FILENAME_LEN && Name(n)
    ensures Compile(OneFile(n, content, results), up, true) ==
      [DirEnter(up)] + ([FileMeta(up + "/" + n, |content|, Regular, TotalChunks(|content|))]
        + (ChunkPackets(content, results, 0, 0) + [DirLeave]))
  {
    hide ChunkPackets, TotalChunks, Name;
    var e := Entry(n, File(content, results));
    assert !Skipped(e, true) && [e][1..] == [] by { ProperIsKept(e); }
    assert SubPath(up, n) == up + "/" + n;
    assert CompileAll([e], up, true) == Compile(e.node, up + "/" + n, true);
  }

  lemma ProperIsKept(e: Entry)
    requires Name(e.name) && e.node.File?
    ensures !Skipped(e, true)
  {
  }

  /** Sending a directory under the remote path ".." overwrites the file `n` next to the
      output directory by the file `n` of that directory, and touches nothing else. */
  lemma DotDotLeadsOut(base: string, up: CString, d: string, n: CString, x: Ctx, content: seq<byte>, results: seq<int>)
    requires Beside(base, up, d, n) && Start(base, x) && [n] in x.fs && x.fs[[n]].FileNode?
    ensures var sent := FileNode(content[..Final(|content|, results, 0, 0)]);
      var ps := Compile(OneFile(n, content, results), up, true) + [TransferEnd];
      && InterpAll(base, x, ps).fs == x.fs[[n] := sent]
      && (x.fs[[n]] != sent ==> !Contained(base, x, ps))
  {
    hide Interp, Compile, Parts, Norm, Reaches, Contained, InterpAll, ChunkPackets, Final, WellFormed, Name, Root;
    var enter, meta := DirEnter(up), FileMeta(up + "/" + n, |content|, Regular, TotalChunks(|content|));
    var chunks, rest := ChunkPackets(content, results, 0, 0), [DirLeave] + [TransferEnd];
    var ps := Compile(OneFile(n, content, results), up, true) + [TransferEnd];
    OneFilePackets(up, n, content, results);
    assert ps == [enter] + ([meta] + (chunks + rest));
    var x1 := Interp(base, x, enter);
    var x2 := Interp(base, x1, meta);
    BesideEnter(base, up, d, n, x);
    BesideMeta(base, up, d, n, x1, |content|, TotalChunks(|content|));
    StreamCons(base, x, enter, [meta] + (chunks + rest));
    StreamCons(base, x1, meta, chunks + rest);
    InterpAppend(base, x2, chunks, rest);
    assert content[..0] == [];
    ChunksWrite(base, x2, content, results, 0, 0);
    EndsSame(base, InterpAll(base, x2, chunks));
    var out := InterpAll(base, x, ps).fs;
    assert out == x.fs[[n] := FileNode(content[..Final(|content|, results, 0, 0)])];
    if out[[n]] != x.fs[[n]] {
      BesideOutside(base, d, n, x.fs);
      assert ps[..|ps| - 1 + 1] == ps;
      ChangedOutside(base, x, ps, |ps| - 1, [n]);
    }
  }

  lemma StreamCons(base: string, x: Ctx, p: Packet, ps: seq<Packet>)
    ensures InterpAll(base, x, [p] + ps) == InterpAll(base, Interp(base, x, p), ps)
  {
    hide Interp;
  }

  lemma EndsSame(base: string, x: Ctx)
    ensures InterpAll(base, x, [DirLeave] + [TransferEnd]).fs == x.fs
  {
    StreamCons(base, x, DirLeave, [TransferEnd]);
    InterpOne(base, Interp(base, x, DirLeave), TransferEnd);
  }

  lemma BesideOutside(base: string, d: string, n: string, fs: Fs)
    requires Parts(base) == [d] && Name(d) && Name(n) && IsDirAt(fs, [d]) && [n] in fs && fs[[n]].FileNode?
    ensures !(Root(base) <= [n])
  {
    hide Parts, Norm, Reaches, Name;
    BesidePlaces(d, n);
    assert [d] <= [n] ==> [d] == [n];
  }

  /** A file system with one directory and one file. */
  function Two(d: string, n: string, bytes: seq<byte>): Fs { map[[d] := DirNode, [n] := FileNode(bytes)] }

  lemma TwoStart(base: string, d: string, n: string, bytes: seq<byte>)
    requires Name(d) && Name(n) && d != n && Parts(base) == [d]
    ensures Start(base, At(Two(d, n, bytes)))
  {
    hide Parts, Norm, Reaches, Name;
    BesidePlaces(d, n);
    TwoDirs(d, n, bytes);
    IsDirReaches(Two(d, n, bytes), [d]);
  }

  lemma TwoDirs(d: string, n: string, bytes: seq<byte>)
    requires d != n
    ensures WellFormed(Two(d, n, bytes)) && IsDir(Two(d, n, bytes), [d]) && IsDirAt(Two(d, n, bytes), Front([d]))
  {
    assert [d][0] != [n][0];
    assert Front([d]) == [];
  }

  /** The command line turns `..` into the remote path "/..". With the output directory
      /out, the file /x next to it is overwritten. */
  lemma ParentAsSource(was: seq<byte>)
    requires was != [1]
    ensures var x, t := At(Two("out", "x", was)), OneFile("x", [1], []);
      var ps := Compile(t, "/..", true) + [TransferEnd];
      && Start("/out", x) && InterpAll("/out", x, ps).fs == Two("out", "x", [1])
      && !Contained("/out", x, ps)
  {
    hide Compile, InterpAll, Contained, Final, Parts, Start;
    ParentParts();
    ParentRead();
    var x := At(Two("out", "x", was));
    assert |"out"| != |"x"|;
    TwoStart("/out", "out", "x", was);
    TwoPut("out", "x", was, [1]);
    DotDotLeadsOut("/out", "/..", "out", "x", x, [1], []);
  }

  lemma TwoPut(d: string, n: string, a: seq<byte>, b: seq<byte>)
    requires d != n
    ensures [n] in Two(d, n, a) && Two(d, n, a)[[n]] == FileNode(a)
    ensures Two(d, n, a)[[n] := FileNode(b)] == Two(d, n, b)
  {
    assert [d][0] != [n][0];
  }

  lemma ParentParts()
    ensures Parts("/out") == ["out"] && Parts("/..") == [".."]
  {
    hide Parts;
    PartsJoin("", "out");
    PartsJoin("", "..");
    PartsPlain("");
    PartsPlain("out");
    PartsPlain("..");
    assert "/out" == "" + "/" + "out" && "/.." == "" + "/" + "..";
  }

  lemma ParentRead()
    ensures [1 as byte][..Final(1, [], 0, 0)] == [1]
  {
    assert ChunkLen(1, [], 0, 0) == 1 && TotalChunks(1) == 1;
    assert Final(1, [], 0, 0) == Final(1, [], 1, 1) == 1;
  }

  // ---------------------------------------------------------------- out through a link

  const SLASH: seq<byte> := [47]

  lemma SlashFollow()
    ensures Absolute(Text(SLASH)) && Follow(SLASH) == ["."]
  {
    assert Text(SLASH) == "/";
    assert "/"[..0] == "" && Parts("/") == [];
  }

  /** A link to the root directory leads to the file next to the output directory. */
  lemma ThroughLink(fs: Fs, d: string, l: string, n: string)
    requires Name(d) && Name(l) && Name(n) && IsDir(fs, [d]) && !IsLink(fs, [n])
    requires [d, l] in fs && fs[[d, l]] == LinkNode(SLASH)
    ensures Finds(fs, [d, l, n]) == Some([n])
  {
    hide Follow, Text, Absolute, Name;
    SlashFollow();
    EnterName([], d);
    EnterName([d], l);
    EnterName([], n);
    assert [] + [d] == [d] && [d] + [l] == [d, l] && [] + [n] == [n];
    assert [d, l, n][1..] == [l, n] && [l, n][1..] == [n] && ["."] + [n] == [".", n] && [".", n][1..] == [n];
    assert [n][1..] == [];
    assert Walk(fs, [], [n], MAX_LINKS - 1) == Some([n]);
    assert Walk(fs, [], [".", n], MAX_LINKS - 1) == Some([n]);
    assert Walk(fs, [d], [l, n], MAX_LINKS) == Some([n]);
  }

  lemma LinkIsThere(fs: Fs, d: string, l: string)
    requires Name(d) && Name(l) && IsDirAt(fs, [d]) && [d, l] in fs
    ensures There(fs, [d, l])
  {
    hide Norm, Reaches, Walk, Name, Direct;
    BesidePlaces(d, l);
    NormSnoc([d], l);
    EnterName([d], l);
    assert [d] + [l] == [d, l] && Front([d, l]) == [d];
    DirsAreDirect(fs, [d]);
    LandsDirect(fs, [d, l]);
    IsDirReaches(fs, [d, l]);
  }

  /** The link is made inside the output directory. */
  lemma MakesLink(base: string, d: string, l: CString, x: Ctx)
    requires Parts(base) == [d] && Name(d) && Name(l) && |base| + MAX_FILENAME_LEN < MAX_PATH_LEN
    requires |l| < MAX_FILENAME_LEN && WellFormed(x.fs) && IsDirAt(x.fs, [d]) && Fresh(x.fs, [d, l])
    ensures var x1 := Interp(base, x, FileMeta(l, 1, Symlink, 1));
      Interp(base, x1, FileData(0, 1, 0, SLASH)).fs == x.fs[[d, l] := LinkNode(SLASH)]
  {
    hide WellFormed, Norm, Reaches, Name, Interp, MkdirAll, Parts, LastSegment, Trailing, Fresh;
    PartsName(l);
    NoSlashIn(l);
    LastSegmentName(l);
    BesidePlaces(d, l);
    assert [d] + [l] == [d, l];
    RoomInside(x.fs, [d], l);
    LinkMetaStep(base, x, l, 1, 1);
    RoomSound(x.fs, [d, l]);
    LinkStep(base, Interp(base, x, FileMeta(l, 1, Symlink, 1)), [d, l], SLASH);
  }

  lemma NoSlashIn(name: string)
    requires Name(name)
    ensures '/' !in name
  {
  }

  lemma OpensThrough(base: string, d: string, l: CString, n: CString, x: Ctx)
    requires Parts(base) == [d] && Name(d) && Name(l) && Name(n) && |base| + MAX_FILENAME_LEN < MAX_PATH_LEN
    requires |l| + 1 + |n| < MAX_FILENAME_LEN && WellFormed(x.fs) && IsDirAt(x.fs, [d])
    requires [d, l] in x.fs && x.fs[[d, l]] == LinkNode(SLASH) && [n] in x.fs && x.fs[[n]].FileNode?
    ensures Interp(base, x, FileMeta(l + "/" + n, 0, Regular, 0)).fs == x.fs[[n] := FileNode([])]
  {
    hide WellFormed, Norm, Reaches, Name, MakeDirs, Parts, LastSegment, LastSlash, Trailing, Target, Walk, Above, Lands;
    var path := Join(l, n);
    EntryPath(l, n);
    PartsName(l);
    TargetPath(base, path);
    BesidePlaces(d, n);
    assert [d] + ([l] + [n]) == [d, l, n] && Front([d, l, n]) == [d, l];
    LinkIsThere(x.fs, d, l);
    MakeDirsIdempotent(x.fs, [d, l]);
    ThroughLink(x.fs, d, l, n);
  }

  function LinkThenFile(l: CString, n: CString): seq<Packet> {
    [FileMeta(l, 1, Symlink, 1), FileData(0, 1, 0, SLASH), FileMeta(l + "/" + n, 0, Regular, 0)]
  }

  /** Tame names are not enough once links are sent: a link to the root directory, and then
      a file below the link, empty the file `n` next to the output directory. */
  lemma LinkLeadsOut(base: string, d: string, l: CString, n: CString, x: Ctx)
    requires Parts(base) == [d] && Name(d) && Name(l) && Name(n) && |base| + MAX_FILENAME_LEN < MAX_PATH_LEN
    requires |l| + 1 + |n| < MAX_FILENAME_LEN && Start(base, x) && Fresh(x.fs, [d, l])
    requires [n] in x.fs && x.fs[[n]].FileNode? && x.fs[[n]] != FileNode([])
    ensures var ps := LinkThenFile(l, n);
      && TameAll(base, "", Regular, ps)
      && InterpAll(base, x, ps).fs == x.fs[[d, l] := LinkNode(SLASH)][[n] := FileNode([])]
      && !Contained(base, x, ps)
  {
    hide Interp, Parts, Norm, Reaches, Contained, InterpAll, WellFormed, Name, Root, TameAll, Fresh, LinksIn;
    var meta, data, file := FileMeta(l, 1, Symlink, 1), FileData(0, 1, 0, SLASH), FileMeta(l + "/" + n, 0, Regular, 0);
    var ps := LinkThenFile(l, n);
    var x1 := Interp(base, x, meta);
    var x2 := Interp(base, x1, data);
    MakesLink(base, d, l, x);
    InterpWellFormed(base, x, meta);
    InterpWellFormed(base, x1, data);
    NotFresh(x.fs, [d, l]);
    PutKeepsDirs(x.fs, [d, l], LinkNode(SLASH));
    ReachesStill(x.fs, x2.fs, [d]);
    StillDir(x.fs, x2.fs, Norm([d]));
    OpensThrough(base, d, l, n, x2);
    StreamCons(base, x, meta, [data] + [file]);
    StreamCons(base, x1, data, [file]);
    InterpOne(base, x2, file);
    assert ps == [meta] + ([data] + [file]) && ps[..2 + 1] == ps;
    LinkStreamTame(base, d, l, n);
    BesideOutside(base, d, n, x.fs);
    ChangedOutside(base, x, ps, 2, [n]);
  }

  lemma NotFresh(fs: Fs, l: Loc)
    requires Fresh(fs, l)
    ensures l !in fs
  {
  }

  lemma LinkStreamTame(base: string, d: string, l: CString, n: CString)
    requires Name(l) && Name(n) && |base| + MAX_FILENAME_LEN < MAX_PATH_LEN && |l| + 1 + |n| < MAX_FILENAME_LEN
    ensures TameAll(base, "", Regular, LinkThenFile(l, n))
  {
    hide Parts, Name, TameAll, AllStay, LastSegment, AlmostPlain;
    PartsName(l);
    EntryPath(l, n);
    NamePlain(l);
    NamePlain(n);
    PlainAlmost([l]);
    assert [l] + [n] == [l, n];
    PlainAlmost([l, n]);
    NoPath(base);
    assert l + "/" + n == Join(l, n);
    ModestTame(base, "", Regular, LinkThenFile(l, n));
  }

  lemma NamePlain(name: string)
    requires Name(name)
    ensures name != ".."
  {
  }
}
