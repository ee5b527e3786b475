/** Where a packet stream puts links, and which streams never send the receiver through
    a link they have made. */
module Links {
  import opened Packets
  import opened Paths
  import opened FileSystem
  import opened Chunks
  import opened Interpreter
  import opened LinkFree
  import opened Output
  import opened Trees

  lemma SameFiles(base: string, x: Ctx, p: Packet)
    requires !p.FileMeta? && !p.FileData? && !p.DirEnter?
    ensures Interp(base, x, p).fs == x.fs
  {
  }

  /** The current path and kind after a packet: they do not depend on the files. */
  function NextPath(base: string, path: string, p: Packet): string {
    match p
    case FileMeta(name, _, _, _) => Target(base, name)
    case DirEnter(name) => Target(base, name)
    case _ => path
  }

  function NextKind(kind: FileKind, p: Packet): FileKind { if p.FileMeta? then p.kind else kind }

  lemma NextIs(base: string, x: Ctx, p: Packet)
    ensures Interp(base, x, p).path == NextPath(base, x.path, p) && Interp(base, x, p).kind == NextKind(x.kind, p)
  {
    hide Norm, Parts, Target, MkdirAll, Reaches, LastSlash;
  }

  predicate Avoids(cs: seq<string>, links: set<Loc>) { forall j | 0 < j <= |cs| :: Norm(cs[..j]) !in links }

  /** The way of the path that packet `p` makes the receiver look up is free of these links. */
  predicate Clean(base: string, path: string, kind: FileKind, p: Packet, links: set<Loc>) {
    match p
    case FileMeta(name, _, _, _) => Avoids(Parts(Target(base, name)), links)
    case FileData(_, _, _, _) => kind.Symlink? && Parts(path) != [] ==> Avoids(Front(Parts(path)), links)
    case DirEnter(name) => Avoids(Parts(Target(base, name)), links)
    case _ => true
  }

  /** The places where the stream may have put a link, after one more packet. */
  function Linked(path: string, kind: FileKind, p: Packet, links: set<Loc>): set<Loc> {
    if p.FileData? && kind.Symlink? then links + {Norm(Parts(path))} else links
  }

  /** No name of the stream leads through or to a place where the stream itself may have
      put a link. This looks at the packets only. */
  predicate Clear(base: string, path: string, kind: FileKind, links: set<Loc>, ps: seq<Packet>)
    decreases |ps|
  {
    ps != [] ==>
      && Clean(base, path, kind, ps[0], links)
      && Clear(base, NextPath(base, path, ps[0]), NextKind(kind, ps[0]), Linked(path, kind, ps[0], links), ps[1..])
  }

  ghost predicate LinksIn(fs: Fs, links: set<Loc>) { forall l :: IsLink(fs, l) ==> l in links }

  lemma LinksMore(fs: Fs, a: set<Loc>, b: set<Loc>)
    requires LinksIn(fs, a) && a <= b
    ensures LinksIn(fs, b)
  {
  }

  lemma AvoidsLess(cs: seq<string>, a: set<Loc>, b: set<Loc>)
    requires a <= b && Avoids(cs, b)
    ensures Avoids(cs, a)
  {
    hide Norm;
  }

  /** What is clear of some links is clear of fewer. */
  lemma {:induction false} ClearLess(base: string, path: string, kind: FileKind, a: set<Loc>, b: set<Loc>,
                                     ps: seq<Packet>)
    requires a <= b && Clear(base, path, kind, b, ps)
    ensures Clear(base, path, kind, a, ps)
    decreases |ps|
  {
    hide Avoids, NextPath, NextKind, Parts, Norm, Target;
    if ps != [] {
      match ps[0] {
        case FileMeta(name, _, _, _) => AvoidsLess(Parts(Target(base, name)), a, b);
        case FileData(_, _, _, _) =>
          if kind.Symlink? && Parts(path) != [] { AvoidsLess(Front(Parts(path)), a, b); }
        case DirEnter(name) => AvoidsLess(Parts(Target(base, name)), a, b);
        case _ =>
      }
      ClearLess(base, NextPath(base, path, ps[0]), NextKind(kind, ps[0]), Linked(path, kind, ps[0], a),
        Linked(path, kind, ps[0], b), ps[1..]);
    }
  }

  lemma AvoidsDirect(fs: Fs, cs: seq<string>, links: set<Loc>)
    requires LinksIn(fs, links) && Avoids(cs, links)
    ensures Direct(fs, cs)
  {
    hide Norm, IsLink;
  }

  lemma CleanFree(base: string, x: Ctx, p: Packet, links: set<Loc>)
    requires LinksIn(x.fs, links) && Clean(base, x.path, x.kind, p, links)
    ensures Free(base, x, p)
  {
    hide LinksIn, Avoids, Direct, Parts, Target;
    match p
    case FileMeta(name, _, _, _) => AvoidsDirect(x.fs, Parts(Target(base, name)), links);
    case FileData(_, _, _, _) =>
      if x.kind.Symlink? && Parts(x.path) != [] { AvoidsDirect(x.fs, Front(Parts(x.path)), links); }
    case DirEnter(name) => AvoidsDirect(x.fs, Parts(Target(base, name)), links);
    case _ =>
  }

  lemma LinksStill(fs: Fs, cs: seq<string>, links: set<Loc>)
    requires WellFormed(fs) && LinksIn(fs, links)
    ensures LinksIn(MkdirAll(fs, cs), links)
  {
    hide WellFormed, MkdirAll, IsLink;
    AllNoLinks(fs, cs);
  }

  lemma PutLinks(fs: Fs, l: Loc, n: Node, links: set<Loc>)
    requires LinksIn(fs, links)
    ensures !n.LinkNode? ==> LinksIn(fs[l := n], links)
    ensures LinksIn(fs[l := n], links + {l}) && LinksIn(fs - {l}, links + {l}) && LinksIn(fs, links + {l})
  {
  }

  /** A packet puts a link at most where the path says. */
  lemma LinksStep(base: string, x: Ctx, p: Packet, links: set<Loc>)
    requires WellFormed(x.fs) && LinksIn(x.fs, links) && Clean(base, x.path, x.kind, p, links)
    ensures LinksIn(Interp(base, x, p).fs, Linked(x.path, x.kind, p, links))
  {
    hide WellFormed, LinksIn, MkdirAll, Parts, Target, Reaches, Norm, WriteAt, Take, Interp, Above, Clean, Free;
    CleanFree(base, x, p, links);
    InterpIsDirect(base, x, p);
    match p
    case FileMeta(name, _, kind, _) =>
      var t := Target(base, name);
      var fs1 := MkdirAll(x.fs, Above(t));
      LinksStill(x.fs, Above(t), links);
      PutLinks(fs1, Norm(Parts(t)), FileNode([]), links);
    case FileData(_, length, offset, bytes) =>
      if x.kind.Symlink? {
        PutLinks(x.fs, Norm(Parts(x.path)), LinkNode(LinkText(length, bytes)), links);
      } else if x.fd.Some? && x.fd.value in x.fs && x.fs[x.fd.value].FileNode? {
        PutLinks(x.fs, x.fd.value, FileNode(WriteAt(x.fs[x.fd.value].data, offset, Take(bytes, length))), links);
      }
    case DirEnter(name) => LinksStill(x.fs, Parts(Target(base, name)), links);
    case _ => SameFiles(base, x, p);
  }

  /** At no moment of a clear stream does a link lie in the way of a packet. */
  lemma {:induction false} ClearFree(base: string, x: Ctx, links: set<Loc>, ps: seq<Packet>, n: nat)
    requires WellFormed(x.fs) && LinksIn(x.fs, links) && Clear(base, x.path, x.kind, links, ps) && n < |ps|
    ensures Free(base, InterpAll(base, x, ps[..n]), ps[n])
    decreases n
  {
    hide WellFormed, LinksIn, Clean, Interp, NextPath, NextKind, Linked, Free;
    if n == 0 {
      CleanFree(base, x, ps[0], links);
      assert ps[..0] == [];
    } else {
      InterpWellFormed(base, x, ps[0]);
      LinksStep(base, x, ps[0], links);
      NextIs(base, x, ps[0]);
      ClearFree(base, Interp(base, x, ps[0]), Linked(x.path, x.kind, ps[0], links), ps[1..], n - 1);
      assert ps[..n][1..] == ps[1..][..n - 1] && ps[..n][0] == ps[0];
    }
  }

  predicate NoSymlinks(ps: seq<Packet>) { forall p :: p in ps ==> (p.FileMeta? ==> p.kind.Regular?) }

  /** A stream that carries no links is clear. */
  lemma {:induction false} NoSymlinksClear(base: string, path: string, kind: FileKind, ps: seq<Packet>)
    requires NoSymlinks(ps) && (kind.Regular? || (ps != [] && ps[0].FileMeta?))
    ensures Clear(base, path, kind, {}, ps)
    decreases |ps|
  {
    hide Parts, Norm, Target;
    if ps != [] {
      assert ps[0] in ps && forall p :: p in ps[1..] ==> p in ps;
      NoSymlinksClear(base, NextPath(base, path, ps[0]), NextKind(kind, ps[0]), ps[1..]);
    }
  }

  /** No link is sent. */
  predicate Linkless(t: Tree, recursive: bool)
    decreases t, 0
  {
    !t.Link? && (t.Dir? ==> LinklessAll(t.entries, recursive))
  }

  predicate LinklessAll(es: seq<Entry>, recursive: bool)
    decreases es, 1
  {
    es != [] ==> (Skipped(es[0], recursive) || Linkless(es[0].node, recursive)) && LinklessAll(es[1..], recursive)
  }

  lemma {:induction false} LinklessPackets(t: Tree, remote: CString, recursive: bool)
    requires Linkless(t, recursive)
    ensures NoSymlinks(Compile(t, remote, recursive))
    decreases t, 0
  {
    match t
    case File(content, results) => ChunksAreGapFree(content, results, 0, 0);
    case Dir(es) => LinklessPacketsAll(es, remote, recursive);
    case Gone =>
  }

  lemma {:induction false} LinklessPacketsAll(es: seq<Entry>, remote: CString, recursive: bool)
    requires LinklessAll(es, recursive)
    ensures NoSymlinks(CompileAll(es, remote, recursive))
    decreases es, 1
  {
    hide Skipped;
    if es != [] {
      LinklessPacketsAll(es[1..], remote, recursive);
      if !Skipped(es[0], recursive) { LinklessPackets(es[0].node, SubPath(remote, es[0].name), recursive); }
    }
  }

  lemma TreeClear(base: string, path: string, kind: FileKind, t: Tree, remote: CString, recursive: bool)
    requires !t.Gone? && (t.Dir? ==> kind.Regular? && Linkless(t, recursive))
    ensures Clear(base, path, kind, {}, Compile(t, remote, recursive))
  {
    if t.Link? {
      LinkClear(base, path, kind, t.target, remote, recursive);
    } else {
      LinklessPackets(t, remote, recursive);
      assert t.File? ==> Compile(t, remote, recursive)[0].FileMeta?;
      NoSymlinksClear(base, path, kind, Compile(t, remote, recursive));
    }
  }

  lemma LinkClear(base: string, path: string, kind: FileKind, full: CBytes, remote: CString, recursive: bool)
    ensures Clear(base, path, kind, {}, Compile(Link(full), remote, recursive))
  {
    hide Parts, Norm, Target, Take;
    var target := Take(full, MAX_PATH_LEN - 1);
    var meta, data := Meta(remote, |target|, Symlink, 1), FileData(0, |target|, 0, target);
    assert [meta, data][1..] == [data] && [data][1..] == [];
    assert Clear(base, Target(base, meta.name), Symlink, {}, [data]);
    assert Compile(Link(full), remote, recursive) == [meta, data];
  }

  // ---------------------------------------------------------------- trees with links

  function PathAfter(base: string, path: string, ps: seq<Packet>): string
    decreases |ps|
  {
    if ps == [] then path else PathAfter(base, NextPath(base, path, ps[0]), ps[1..])
  }

  function KindAfter(kind: FileKind, ps: seq<Packet>): FileKind
    decreases |ps|
  {
    if ps == [] then kind else KindAfter(NextKind(kind, ps[0]), ps[1..])
  }

  lemma {:induction false} AfterIs(base: string, x: Ctx, ps: seq<Packet>)
    ensures InterpAll(base, x, ps).path == PathAfter(base, x.path, ps)
    ensures InterpAll(base, x, ps).kind == KindAfter(x.kind, ps)
    decreases |ps|
  {
    hide Interp, NextPath;
    if ps != [] {
      NextIs(base, x, ps[0]);
      AfterIs(base, Interp(base, x, ps[0]), ps[1..]);
    }
  }

  function LinkedAll(base: string, path: string, kind: FileKind, links: set<Loc>, ps: seq<Packet>): set<Loc>
    decreases |ps|
  {
    if ps == [] then links
    else LinkedAll(base, NextPath(base, path, ps[0]), NextKind(kind, ps[0]), Linked(path, kind, ps[0], links), ps[1..])
  }

  lemma {:induction false} ClearAppend(base: string, path: string, kind: FileKind, links: set<Loc>, ps: seq<Packet>,
                                       qs: seq<Packet>)
    requires Clear(base, path, kind, links, ps)
    requires Clear(base, PathAfter(base, path, ps), KindAfter(kind, ps), LinkedAll(base, path, kind, links, ps), qs)
    ensures Clear(base, path, kind, links, ps + qs)
    ensures LinkedAll(base, path, kind, links, ps + qs) ==
      LinkedAll(base, PathAfter(base, path, ps), KindAfter(kind, ps), LinkedAll(base, path, kind, links, ps), qs)
    decreases |ps|
  {
    hide Clean, NextPath, NextKind, Linked;
    if ps == [] {
      assert ps + qs == qs;
    } else {
      assert (ps + qs)[1..] == ps[1..] + qs;
      ClearAppend(base, NextPath(base, path, ps[0]), NextKind(kind, ps[0]), Linked(path, kind, ps[0], links), ps[1..],
        qs);
    }
  }

  /** No link lies above, at or below this place. */
  predicate Apart(links: set<Loc>, at: Loc) { forall k :: k in links ==> !(k <= at) && !(at <= k) }

  /** What is new lies at or below this place. */
  predicate GrownAt(links: set<Loc>, links': set<Loc>, at: Loc) { forall k :: k in links' ==> k in links || at <= k }

  lemma GrownInside(links: set<Loc>, links': set<Loc>, at: Loc, below: Loc)
    requires GrownAt(links, links', below) && at <= below
    ensures GrownAt(links, links', at)
  {
  }

  lemma GrownOn(a: set<Loc>, b: set<Loc>, c: set<Loc>, at: Loc)
    requires GrownAt(a, b, at) && GrownAt(b, c, at)
    ensures GrownAt(a, c, at)
  {
  }

  lemma ApartAvoids(cs: seq<string>, links: set<Loc>)
    requires Plain(cs) && Apart(links, Norm(cs))
    ensures Avoids(cs, links)
  {
    hide Norm;
    forall j | 0 < j <= |cs| ensures Norm(cs[..j]) !in links {
      PlainDescends(cs[..j], cs[j..]);
      assert cs[..j] + cs[j..] == cs;
    }
  }

  /** No place of the output path lies at or below `at`. */
  predicate Ahead(base: string, at: Loc) { forall j | 0 < j <= |Parts(base)| :: !(at <= Norm(Parts(base)[..j])) }

  /** What is put at or below `at` does not get into the way of the output path. */
  predicate Kempt(base: string, links: set<Loc>, at: Loc) {
    Plain(Parts(base)) || (Ahead(base, at) && Avoids(Parts(base), links))
  }

  lemma KemptBelow(base: string, links: set<Loc>, at: Loc, below: Loc)
    requires Kempt(base, links, at) && at <= below
    ensures Kempt(base, links, below)
  {
    hide Parts, Norm, Plain, Avoids;
  }

  lemma KemptStill(base: string, links: set<Loc>, links': set<Loc>, at: Loc)
    requires Kempt(base, links, at) && GrownAt(links, links', at)
    ensures Kempt(base, links', at)
  {
    hide Parts, Norm, Plain;
  }

  lemma PathAvoids(base: string, remote: string, links: set<Loc>)
    requires Plain(Parts(remote))
    requires Apart(links, Norm(PathOf(base, remote))) && Kempt(base, links, Norm(PathOf(base, remote)))
    ensures Avoids(PathOf(base, remote), links)
  {
    hide Parts, Norm, Ahead;
    var b, r := Parts(base), Parts(remote);
    if Plain(b) {
      ApartAvoids(b + r, links);
    } else {
      forall j | 0 < j <= |b + r| ensures Norm((b + r)[..j]) !in links {
        if j <= |b| {
          assert (b + r)[..j] == b[..j];
        } else {
          PlainDescends((b + r)[..j], (b + r)[j..]);
          assert (b + r)[..j] + (b + r)[j..] == b + r;
        }
      }
    }
  }

  lemma AvoidsFront(cs: seq<string>, links: set<Loc>)
    requires Avoids(cs, links) && cs != []
    ensures Avoids(Front(cs), links)
  {
    hide Norm;
    forall j | 0 < j <= |Front(cs)| ensures Norm(Front(cs)[..j]) !in links {
      assert Front(cs)[..j] == cs[..j];
    }
  }

  lemma ApartBelow(links: set<Loc>, at: Loc, name: string)
    requires Apart(links, at)
    ensures Apart(links, at + [name])
  {
    forall k | k in links ensures !(k <= at + [name]) && !(at + [name] <= k) {
      assert at + [name] <= k ==> at <= k;
      assert k <= at + [name] ==> k <= at || k == at + [name];
    }
  }

  /** Links below one name are apart from every other name beside it. */
  lemma ApartBeside(links: set<Loc>, links': set<Loc>, at: Loc, name: string, other: string)
    requires Apart(links, at + [other]) && GrownAt(links, links', at + [name]) && name != other
    ensures Apart(links', at + [other])
  {
    forall k | k in links' ensures !(k <= at + [other]) && !(at + [other] <= k) {
      if k !in links { assert k[|at|] == name; }
    }
  }

  /** One packet that looks up a path apart from all links. */
  lemma CleanAt(base: string, path: string, kind: FileKind, p: Packet, remote: CString, links: set<Loc>)
    requires |remote| < MAX_FILENAME_LEN && |base| + MAX_FILENAME_LEN < MAX_PATH_LEN
    requires Plain(Parts(remote))
    requires Apart(links, Norm(PathOf(base, remote))) && Kempt(base, links, Norm(PathOf(base, remote)))
    requires p == DirEnter(remote) || (p.FileMeta? && p.name == remote)
    ensures Clean(base, path, kind, p, links) && NextPath(base, path, p) == Target(base, remote)
    ensures Parts(Target(base, remote)) == PathOf(base, remote) && Avoids(PathOf(base, remote), links)
  {
    hide Parts, Target, Norm, Avoids, Apart, Kempt, Plain;
    PathOfTarget(base, remote);
    PathAvoids(base, remote, links);
  }

  lemma {:induction false} DataClear(base: string, path: string, links: set<Loc>, ps: seq<Packet>)
    requires forall p :: p in ps ==> p.FileData?
    ensures Clear(base, path, Regular, links, ps) && LinkedAll(base, path, Regular, links, ps) == links
    decreases |ps|
  {
    if ps != [] {
      assert ps[0] in ps;
      DataClear(base, path, links, ps[1..]);
    }
  }

  lemma ClearCons(base: string, path: string, kind: FileKind, links: set<Loc>, p: Packet, ps: seq<Packet>)
    requires Clean(base, path, kind, p, links)
    requires Clear(base, NextPath(base, path, p), NextKind(kind, p), Linked(path, kind, p, links), ps)
    ensures Clear(base, path, kind, links, [p] + ps)
    ensures LinkedAll(base, path, kind, links, [p] + ps) ==
      LinkedAll(base, NextPath(base, path, p), NextKind(kind, p), Linked(path, kind, p, links), ps)
  {
    hide Clean, NextPath, NextKind, Linked;
    assert ([p] + ps)[1..] == ps;
  }

  /** The packets of a tree whose names fit, sent to a path without "..", are clear, and
      the links they make lie in the tree's place. */
  lemma {:induction false} SendableClear(base: string, path: string, kind: FileKind, links: set<Loc>, t: Tree,
                                         remote: CString, recursive: bool)
    requires Sendable(t, remote, recursive) && |base| + MAX_FILENAME_LEN < MAX_PATH_LEN
    requires Plain(Parts(remote))
    requires Apart(links, Norm(PathOf(base, remote))) && Kempt(base, links, Norm(PathOf(base, remote)))
    ensures Clear(base, path, kind, links, Compile(t, remote, recursive))
    ensures GrownAt(links, LinkedAll(base, path, kind, links, Compile(t, remote, recursive)),
      Norm(PathOf(base, remote)))
    decreases t, 0
  {
    hide Clear, LinkedAll, PathOf, Norm, Plain, Apart, Kempt;
    match t
    case File(content, results) => FileClear(base, path, kind, links, content, results, remote, recursive);
    case Link(target) => LinkSendClear(base, path, kind, links, target, remote, recursive);
    case Dir(es) =>
      hide Compile;
      EntriesApart(links, Norm(PathOf(base, remote)), es);
      SendableClearAll(base, Target(base, remote), kind, links, es, remote, recursive);
      DirClear(base, path, kind, links, es, remote, recursive);
    case Gone => NothingClear(base, path, kind, links);
  }

  lemma NothingClear(base: string, path: string, kind: FileKind, links: set<Loc>)
    ensures Clear(base, path, kind, links, []) && LinkedAll(base, path, kind, links, []) == links
  {
  }

  lemma FileClear(base: string, path: string, kind: FileKind, links: set<Loc>, content: seq<byte>, results: seq<int>,
                  remote: CString, recursive: bool)
    requires |remote| < MAX_FILENAME_LEN && |base| + MAX_FILENAME_LEN < MAX_PATH_LEN
    requires Plain(Parts(remote))
    requires Apart(links, Norm(PathOf(base, remote))) && Kempt(base, links, Norm(PathOf(base, remote)))
    ensures var ps := Compile(File(content, results), remote, recursive);
      Clear(base, path, kind, links, ps) && LinkedAll(base, path, kind, links, ps) == links
  {
    hide Clear, LinkedAll, PathOf, Norm, Plain, Apart, Kempt, Clean, NextPath, ChunkPackets, TotalChunks;
    var meta := Meta(remote, |content|, Regular, TotalChunks(|content|));
    ChunksAreGapFree(content, results, 0, 0);
    DataClear(base, NextPath(base, path, meta), links, ChunkPackets(content, results, 0, 0));
    CleanAt(base, path, kind, meta, remote, links);
    ClearCons(base, path, kind, links, meta, ChunkPackets(content, results, 0, 0));
  }

  lemma LinkSendClear(base: string, path: string, kind: FileKind, links: set<Loc>, target: CBytes, remote: CString,
                      recursive: bool)
    requires |remote| < MAX_FILENAME_LEN && |base| + MAX_FILENAME_LEN < MAX_PATH_LEN
    requires Plain(Parts(remote))
    requires Apart(links, Norm(PathOf(base, remote))) && Kempt(base, links, Norm(PathOf(base, remote)))
    ensures var ps := Compile(Link(target), remote, recursive);
      && Clear(base, path, kind, links, ps)
      && LinkedAll(base, path, kind, links, ps) == links + {Norm(PathOf(base, remote))}
  {
    hide Clear, LinkedAll, PathOf, Norm, Plain, Apart, Kempt, Clean, NextPath, Parts, Target, Avoids, Take;
    var cut := Take(target, MAX_PATH_LEN - 1);
    var meta, data := Meta(remote, |cut|, Symlink, 1), FileData(0, |cut|, 0, cut);
    CleanAt(base, path, kind, meta, remote, links);
    DataClean(base, Target(base, remote), data, links);
    NothingClear(base, NextPath(base, Target(base, remote), data), Symlink, links + {Norm(PathOf(base, remote))});
    ClearCons(base, Target(base, remote), Symlink, links, data, []);
    ClearCons(base, path, kind, links, meta, [data] + []);
    assert [meta] + ([data] + []) == [meta, data];
  }

  lemma DataClean(base: string, path: string, p: Packet, links: set<Loc>)
    requires p.FileData? && Avoids(Parts(path), links)
    ensures Clean(base, path, Symlink, p, links)
  {
    hide Parts, Avoids;
    if Parts(path) != [] { AvoidsFront(Parts(path), links); }
  }

  lemma DirClear(base: string, path: string, kind: FileKind, links: set<Loc>, es: seq<Entry>, remote: CString,
                 recursive: bool)
    requires |remote| < MAX_FILENAME_LEN && |base| + MAX_FILENAME_LEN < MAX_PATH_LEN
    requires Plain(Parts(remote))
    requires Apart(links, Norm(PathOf(base, remote))) && Kempt(base, links, Norm(PathOf(base, remote)))
    requires Clear(base, Target(base, remote), kind, links, CompileAll(es, remote, recursive))
    ensures Clear(base, path, kind, links, Compile(Dir(es), remote, recursive))
    ensures LinkedAll(base, path, kind, links, Compile(Dir(es), remote, recursive)) ==
      LinkedAll(base, Target(base, remote), kind, links, CompileAll(es, remote, recursive))
  {
    hide Clear, LinkedAll, PathOf, Norm, Plain, Apart, Kempt, Clean, NextPath, CompileAll, Target, Parts;
    var body := CompileAll(es, remote, recursive);
    LeaveClear(base, PathAfter(base, Target(base, remote), body), KindAfter(kind, body),
      LinkedAll(base, Target(base, remote), kind, links, body));
    ClearAppend(base, Target(base, remote), kind, links, body, [DirLeave]);
    CleanAt(base, path, kind, DirEnter(remote), remote, links);
    ClearCons(base, path, kind, links, DirEnter(remote), body + [DirLeave]);
    assert [DirEnter(remote)] + (body + [DirLeave]) == [DirEnter(remote)] + body + [DirLeave];
  }

  lemma EndClear(base: string, path: string, kind: FileKind, links: set<Loc>)
    ensures Clear(base, path, kind, links, [TransferEnd])
  {
    assert [TransferEnd][1..] == [];
  }

  lemma LeaveClear(base: string, path: string, kind: FileKind, links: set<Loc>)
    ensures Clear(base, path, kind, links, [DirLeave]) && LinkedAll(base, path, kind, links, [DirLeave]) == links
  {
    assert [DirLeave][1..] == [];
  }

  /** The links so far are apart from every entry that is still to be sent. */
  predicate AllApart(links: set<Loc>, at: Loc, es: seq<Entry>) {
    forall i :: 0 <= i < |es| ==> Apart(links, at + [es[i].name])
  }

  lemma EntriesApart(links: set<Loc>, at: Loc, es: seq<Entry>)
    requires Apart(links, at)
    ensures AllApart(links, at, es)
  {
    hide Apart;
    forall i | 0 <= i < |es| ensures Apart(links, at + [es[i].name]) {
      ApartBelow(links, at, es[i].name);
    }
  }

  lemma RestApart(links: set<Loc>, links': set<Loc>, at: Loc, es: seq<Entry>)
    requires es != [] && AllApart(links, at, es) && GrownAt(links, links', at + [es[0].name])
    requires forall k :: 1 <= k < |es| ==> es[k].name != es[0].name
    ensures AllApart(links', at, es[1..])
  {
    hide Apart, GrownAt;
    forall i | 0 <= i < |es[1..]| ensures Apart(links', at + [es[1..][i].name]) {
      assert es[1..][i] == es[i + 1];
      ApartBeside(links, links', at, es[0].name, es[i + 1].name);
    }
  }

  lemma SkipApart(links: set<Loc>, at: Loc, es: seq<Entry>)
    requires es != [] && AllApart(links, at, es)
    ensures AllApart(links, at, es[1..])
  {
  }

  lemma {:induction false} SendableClearAll(base: string, path: string, kind: FileKind, links: set<Loc>, es: seq<Entry>,
                                            remote: CString, recursive: bool)
    requires SendableAll(es, remote, recursive) && |remote| < MAX_FILENAME_LEN
    requires |base| + MAX_FILENAME_LEN < MAX_PATH_LEN && Plain(Parts(remote))
    requires AllApart(links, Norm(PathOf(base, remote)), es) && Kempt(base, links, Norm(PathOf(base, remote)))
    ensures var ps := CompileAll(es, remote, recursive);
      && Clear(base, path, kind, links, ps)
      && GrownAt(links, LinkedAll(base, path, kind, links, ps), Norm(PathOf(base, remote)))
    decreases es, 1
  {
    hide Clear, LinkedAll, PathOf, Norm, Plain, Compile, Sendable, Skipped, AllApart, Apart, Name, Join, GrownAt,
      Kempt;
    var at := Norm(PathOf(base, remote));
    if es == [] {
      NothingClear(base, path, kind, links);
      GrownNone(links, at);
    } else if Skipped(es[0], recursive) {
      SkipApart(links, at, es);
      SendableClearAll(base, path, kind, links, es[1..], remote, recursive);
      assert CompileAll(es, remote, recursive) == CompileAll(es[1..], remote, recursive);
    } else {
      var e, sub := es[0], SubPath(remote, es[0].name);
      FirstSendable(es, remote, recursive);
      DistinctFirst(es, remote, recursive);
      EntryPlace(base, remote, e.name);
      FirstApart(links, at, es);
      KemptBelow(base, links, at, at + [e.name]);
      SendableClear(base, path, kind, links, e.node, sub, recursive);
      var first := Compile(e.node, sub, recursive);
      var links1 := LinkedAll(base, path, kind, links, first);
      RestApart(links, links1, at, es);
      GrownInside(links, links1, at, at + [e.name]);
      KemptStill(base, links, links1, at);
      SendableClearAll(base, PathAfter(base, path, first), KindAfter(kind, first), links1, es[1..], remote, recursive);
      ClearAppend(base, path, kind, links, first, CompileAll(es[1..], remote, recursive));
      GrownOn(links, links1, LinkedAll(base, path, kind, links, CompileAll(es, remote, recursive)), at);
    }
  }

  lemma GrownNone(links: set<Loc>, at: Loc)
    ensures GrownAt(links, links, at)
  {
  }

  lemma FirstApart(links: set<Loc>, at: Loc, es: seq<Entry>)
    requires es != [] && AllApart(links, at, es)
    ensures Apart(links, at + [es[0].name])
  {
  }

  lemma EntryPlace(base: string, remote: CString, name: CString)
    requires Name(name) && Plain(Parts(remote)) && |Join(remote, name)| < MAX_FILENAME_LEN
    ensures var sub := SubPath(remote, name);
      && sub == Join(remote, name) && Plain(Parts(sub))
      && Norm(PathOf(base, sub)) == Norm(PathOf(base, remote)) + [name]
  {
    hide Parts, Norm, Name, LastSegment;
    EntryPath(remote, name);
    var cs := PathOf(base, remote);
    assert Parts(base) + (Parts(remote) + [name]) == cs + [name];
    NormSnoc(cs, name);
    EnterName(Norm(cs), name);
    PlainMore(Parts(remote), name);
  }

  lemma PathOfTarget(base: string, q: string)
    requires |q| < MAX_FILENAME_LEN && |base| + MAX_FILENAME_LEN < MAX_PATH_LEN
    ensures Parts(Target(base, q)) == PathOf(base, q)
  {
    TargetParts(base, q);
  }

  lemma PlainMore(cs: seq<string>, name: string)
    requires Plain(cs) && Name(name)
    ensures Plain(cs + [name])
  {
  }
}
