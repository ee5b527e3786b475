/** When a tree arrives where it should, although names are cut on the way and links are
    followed. */
module Arrival {
  import opened Packets
  import opened Paths
  import opened FileSystem
  import opened Chunks
  import opened Interpreter
  import opened LinkFree
  import opened Output
  import opened Trees
  import opened Links
  import opened Footprint

  // ---------------------------------------------------------------- how long the names of a tree are

  /** Entry names are distinct path components and link targets what readlink returns. */
  predicate Readable(t: Tree, recursive: bool)
    decreases t, 0
  {
    (t.Link? ==> 0 < |t.target| < MAX_PATH_LEN) && (t.Dir? ==> ReadableAll(t.entries, recursive))
  }

  predicate ReadableAll(es: seq<Entry>, recursive: bool)
    decreases es, 1
  {
    es != [] ==>
      && (!Skipped(es[0], recursive) ==>
            && Name(es[0].name) && Readable(es[0].node, recursive)
            && forall k :: 1 <= k < |es| ==> es[k].name != es[0].name)
      && ReadableAll(es[1..], recursive)
  }

  /** Every remote path sent is shorter than the name field. */
  predicate Fits(t: Tree, remote: CString, recursive: bool)
    decreases t, 0
  {
    |remote| < MAX_FILENAME_LEN && (t.Dir? ==> FitsAll(t.entries, remote, recursive))
  }

  predicate FitsAll(es: seq<Entry>, remote: CString, recursive: bool)
    decreases es, 1
  {
    es != [] ==>
      && (!Skipped(es[0], recursive) ==> Fits(es[0].node, Join(remote, es[0].name), recursive))
      && FitsAll(es[1..], remote, recursive)
  }

  lemma {:induction false} SendableIff(t: Tree, remote: CString, recursive: bool)
    ensures Sendable(t, remote, recursive) <==> Readable(t, recursive) && Fits(t, remote, recursive)
    decreases t, 0
  {
    if t.Dir? { SendableAllIff(t.entries, remote, recursive); }
  }

  lemma {:induction false} SendableAllIff(es: seq<Entry>, remote: CString, recursive: bool)
    ensures SendableAll(es, remote, recursive) <==> ReadableAll(es, recursive) && FitsAll(es, remote, recursive)
    decreases es, 1
  {
    hide Skipped, Name, Join;
    if es != [] {
      SendableIff(es[0].node, Join(remote, es[0].name), recursive);
      SendableAllIff(es[1..], remote, recursive);
    }
  }

  /** The characters of a path, a slash with each component. */
  function Span(cs: seq<string>): nat {
    if cs == [] then 0 else Span(Front(cs)) + 1 + |Last(cs)|
  }

  lemma SpanNone()
    ensures Span([]) == 0
  {
  }

  lemma SpanSnoc(cs: seq<string>, c: string)
    ensures Span(cs + [c]) == Span(cs) + 1 + |c|
  {
    assert Front(cs + [c]) == cs;
  }

  lemma {:induction false} SpanAppend(a: seq<string>, b: seq<string>)
    ensures Span(a + b) == Span(a) + Span(b)
    decreases |b|
  {
    hide Span;
    if b == [] {
      SpanNone();
      assert a + b == a;
    } else {
      SpanAppend(a, Front(b));
      FrontLast(b);
      SpanSnoc(Front(b), Last(b));
      assert a + b == (a + Front(b)) + [Last(b)];
      SpanSnoc(a + Front(b), Last(b));
    }
  }

  /** A path leads no further than it is long, whatever its components. */
  lemma {:induction false} NormSpan(a: seq<string>, b: seq<string>)
    ensures Span(Norm(a + b)) <= Span(Norm(a)) + Span(b)
    decreases |b|
  {
    hide Norm, Enter;
    if b == [] {
      assert a + b == a;
    } else {
      NormSpan(a, Front(b));
      assert a + b == (a + Front(b)) + [Last(b)];
      NormSnoc(a + Front(b), Last(b));
      EnterSpan(Norm(a + Front(b)), Last(b));
    }
  }

  lemma EnterSpan(l: Loc, c: string)
    ensures Span(Enter(l, c)) <= Span(l) + 1 + |c|
  {
    SpanSnoc(l, c);
  }

  lemma {:induction false} ScanSpan(w: string)
    ensures Span(Scan(w).0) + |Scan(w).1| <= |w|
  {
    if w != "" {
      var w', ch := w[..|w| - 1], w[|w| - 1];
      ScanSpan(w');
      ComponentSpan(Scan(w').0, Scan(w').1);
    }
  }

  lemma ComponentSpan(done: seq<string>, cur: string)
    ensures Span(done + Component(cur)) <= Span(done) + 1 + |cur|
  {
    if cur == "" {
      assert done + Component(cur) == done;
    } else {
      SpanSnoc(done, cur);
    }
  }

  lemma PartsSpan(w: string)
    ensures Span(Parts(w)) <= |w| + 1
  {
    ScanSpan(w);
    ComponentSpan(Scan(w).0, Scan(w).1);
  }

  // ---------------------------------------------------------------- what is sent below a path

  /** A name in a packet that is the remote path or continues it. */
  predicate Under(remote: string, name: string) {
    |name| < MAX_FILENAME_LEN && (name == remote || remote + "/" <= name)
  }

  predicate AllUnder(ps: seq<Packet>, remote: string) {
    forall p :: p in ps ==> (p.FileMeta? ==> Under(remote, p.name)) && (p.DirEnter? ==> Under(remote, p.dirName))
  }

  lemma UnderSub(remote: CString, name: CString, q: string)
    requires |remote| < MAX_FILENAME_LEN
    requires if |Join(remote, name)| < MAX_FILENAME_LEN then Under(Join(remote, name), q)
      else q == Clip(Join(remote, name), MAX_FILENAME_LEN)
    ensures Under(remote, q)
  {
    var sub := Join(remote, name);
    assert remote + "/" <= sub && remote + "/" <= sub + "/";
    if |sub| >= MAX_FILENAME_LEN {
      assert q == sub[..MAX_FILENAME_LEN - 1];
      if |remote| == MAX_FILENAME_LEN - 1 { assert q == remote; }
    }
  }

  lemma {:induction false} CompileUnder(t: Tree, remote: CString, recursive: bool)
    requires |remote| < MAX_FILENAME_LEN
    ensures AllUnder(Compile(t, remote, recursive), remote)
    decreases t, 0
  {
    match t
    case File(content, results) => ChunksAreGapFree(content, results, 0, 0);
    case Link(_) =>
    case Dir(es) => CompileAllUnder(es, remote, recursive);
    case Gone =>
  }

  lemma {:induction false} CompileAllUnder(es: seq<Entry>, remote: CString, recursive: bool)
    requires |remote| < MAX_FILENAME_LEN
    ensures AllUnder(CompileAll(es, remote, recursive), remote)
    decreases es, 1
  {
    hide Skipped, Under, Join, Compile;
    if es != [] {
      CompileAllUnder(es[1..], remote, recursive);
      if !Skipped(es[0], recursive) { EntryUnder(es[0], remote, recursive); }
    }
  }

  lemma {:induction false} EntryUnder(e: Entry, remote: CString, recursive: bool)
    requires |remote| < MAX_FILENAME_LEN
    ensures AllUnder(Compile(e.node, SubPath(remote, e.name), recursive), remote)
    decreases e, 2
  {
    hide Under, Compile;
    var sub := SubPath(remote, e.name);
    var ps := Compile(e.node, sub, recursive);
    SubPathLength(remote, e.name);
    if |sub| < MAX_FILENAME_LEN {
      CompileUnder(e.node, sub, recursive);
      forall q | Under(sub, q) ensures Under(remote, q) { UnderSub(remote, e.name, q); }
    } else {
      LongNames(e.node, sub, recursive);
      UnderSub(remote, e.name, Clip(sub, MAX_FILENAME_LEN));
    }
  }

  lemma SubPathLength(remote: CString, name: CString)
    requires |remote| < MAX_FILENAME_LEN
    ensures var sub, whole := SubPath(remote, name), Join(remote, name);
      && (|sub| < MAX_FILENAME_LEN <==> |whole| < MAX_FILENAME_LEN)
      && (|sub| < MAX_FILENAME_LEN ==> sub == whole)
      && Clip(sub, MAX_FILENAME_LEN) == Clip(whole, MAX_FILENAME_LEN)
  {
  }

  /** A name that continues the remote path and fits never leads to or through a place so
      deep that its path does not fit. */
  lemma UnderOff(base: string, remote: string, name: string, ns: seq<string>)
    requires Under(remote, name) && |base| + MAX_FILENAME_LEN < MAX_PATH_LEN
    requires |remote| + Span(ns) >= MAX_FILENAME_LEN
    requires !OnWay(PathOf(base, remote), Norm(PathOf(base, remote)) + ns)
    ensures !OnWay(Parts(Target(base, name)), Norm(PathOf(base, remote)) + ns)
  {
    hide Parts, Norm, Target, Span;
    PathOfTarget(base, name);
    var cs, l := PathOf(base, remote), Norm(PathOf(base, remote)) + ns;
    if name != remote {
      var w := name[|remote| + 1..];
      assert name == remote + "/" + w;
      PartsJoin(remote, w);
      assert PathOf(base, name) == cs + Parts(w);
      forall j | 0 < j <= |cs + Parts(w)| ensures l != Norm((cs + Parts(w))[..j]) {
        if j <= |cs| {
          assert (cs + Parts(w))[..j] == cs[..j];
        } else {
          assert (cs + Parts(w))[..j] == cs + Parts(w)[..j - |cs|];
          PartsSpan(w);
          TooDeep(cs, Parts(w), j - |cs|, ns);
        }
      }
    }
  }

  lemma TooDeep(cs: seq<string>, c: seq<string>, i: nat, ns: seq<string>)
    requires i <= |c| && Span(c) < Span(ns)
    ensures Norm(cs + c[..i]) != Norm(cs) + ns
  {
    hide Norm;
    NormSpan(cs, c[..i]);
    SpanAppend(c[..i], c[i..]);
    assert c[..i] + c[i..] == c;
    SpanAppend(Norm(cs), ns);
  }

  /** Below a directory whose entries are free, nothing is there yet and nothing is on the
      way to it. */
  lemma OpenOff(fs: Fs, cs: seq<string>, es: seq<Entry>, recursive: bool, i: nat, ns: seq<string>)
    requires OpenDir(fs, cs, es, recursive) && i < |es| && !Skipped(es[i], recursive) && ns != [] && ns[0] == es[i].name
    ensures Norm(cs) + ns !in fs && !OnWay(cs, Norm(cs) + ns)
  {
    hide WellFormed, Norm, Reaches, MkdirAll, Skipped;
    var fs1, l := MkdirAll(fs, cs), Norm(cs) + ns;
    MkdirAllKeeps(fs, cs);
    assert Norm(cs) + [es[i].name] <= l;
    if OnWay(cs, l) {
      var j :| 0 < j <= |cs| && l == Norm(cs[..j]);
      WayIsDir(fs1, cs, j);
    }
  }

  /** An entry whose path does not fit. */
  lemma {:induction false} Unfit(es: seq<Entry>, remote: CString, at: Loc, recursive: bool)
    returns (i: nat, ns: seq<string>)
    requires !FitsAll(es, remote, recursive)
    ensures i < |es| && !Skipped(es[i], recursive) && ns != [] && ns[0] == es[i].name
    ensures |remote| + Span(ns) >= MAX_FILENAME_LEN && at + ns in ImageAll(es, at, recursive)
    decreases es
  {
    hide Skipped;
    var e := es[0];
    if Skipped(e, recursive) || Fits(e.node, Join(remote, e.name), recursive) {
      i, ns := Unfit(es[1..], remote, at, recursive);
      i := i + 1;
    } else {
      i := 0;
      SpanSnoc([], e.name);
      assert [] + [e.name] == [e.name];
      SentIsThere(e, recursive);
      RootImaged(e.node, at + [e.name], recursive);
      if |Join(remote, e.name)| >= MAX_FILENAME_LEN {
        ns := [e.name];
      } else {
        var k, ms := Unfit(e.node.entries, Join(remote, e.name), at + [e.name], recursive);
        ns := [e.name] + ms;
        SpanAppend([e.name], ms);
        assert at + ns == (at + [e.name]) + ms;
      }
    }
  }

  lemma SentIsThere(e: Entry, recursive: bool)
    requires !Skipped(e, recursive)
    ensures !e.node.Gone?
  {
  }

  lemma RootImaged(t: Tree, at: Loc, recursive: bool)
    requires !t.Gone?
    ensures at in Image(t, at, recursive)
  {
  }

  // ---------------------------------------------------------------- when a tree arrives

  /** The tree is at its place: every entry is there with what was read of it. */
  predicate Arrived(fs: Fs, t: Tree, at: Loc, recursive: bool) {
    var im := Image(t, at, recursive);
    forall k :: k in im && k != [] ==> k in fs && fs[k] == im[k]
  }

  /** Cutting names at 255 characters does no harm: the remote path still leads to the same
      place, not with a slash at its end for a file or link, and the paths of all entries
      fit. This looks at names only. */
  predicate Intact(base: string, t: Tree, remote: CString, recursive: bool) {
    var q := Clip(remote, MAX_FILENAME_LEN);
    && Norm(PathOf(base, q)) == Norm(PathOf(base, remote))
    && (!t.Dir? ==> !Trailing(Target(base, q)))
    && (t.Dir? ==> FitsAll(t.entries, remote, recursive))
  }

  /** What `Put` puts is there. */
  lemma PutArrived(fs: Fs, cs: seq<string>, t: Tree, recursive: bool)
    requires Ready(fs, cs, t, recursive)
    ensures Arrived(Put(fs, cs, t, recursive), t, Norm(cs), recursive)
  {
    hide WellFormed, Norm, Reaches, MkdirAll, Fresh, NamesFree;
    if t.Dir? { ImageAllBelow(t.entries, Norm(cs), recursive); }
  }

  /** Room and no slash at the end: the path ends in a proper name. */
  lemma LastIsName(base: string, fs: Fs, q: CString)
    requires |q| < MAX_FILENAME_LEN && |base| + MAX_FILENAME_LEN < MAX_PATH_LEN
    requires Room(fs, PathOf(base, q)) && !Trailing(Target(base, q))
    ensures Name(LastSegment(q))
  {
    hide WellFormed, Norm, MkdirAll, Parts, Target, Reaches, LastSlash, LastSegment;
    var cs, t := PathOf(base, q), Target(base, q);
    PathOfTarget(base, q);
    RoomSound(fs, cs);
    TargetSegment(base, q);
    NotTrailing(t);
    AbovePrefix(t);
    RoomLast(fs, cs);
    SegmentIsLast(t);
    SegmentClean(q);
  }

  lemma TargetSegment(base: string, q: CString)
    requires |q| < MAX_FILENAME_LEN && |base| + MAX_FILENAME_LEN < MAX_PATH_LEN
    ensures LastSegment(Target(base, q)) == LastSegment(q) && Target(base, q) != ""
  {
    hide LastSlash, LastSegment;
    StripLengths(base, q);
    LastSegmentJoin(StripTrailing(base), StripLeading(q));
    LastSegmentStrip(q);
  }

  lemma SegmentIsLast(t: string)
    requires t[LastSlash(t) + 1..] != "" && Parts(t) == Above(t) + Component(t[LastSlash(t) + 1..])
    ensures Parts(t) != [] && Last(Parts(t)) == LastSegment(t)
  {
    hide Parts, LastSlash, Above;
  }

  lemma SegmentClean(q: CString)
    ensures '/' !in LastSegment(q) && '\0' !in LastSegment(q)
  {
  }

  /** A path with room does not end in "." or "..". */
  lemma RoomLast(fs: Fs, cs: seq<string>)
    requires Room(fs, cs)
    ensures cs != [] && Last(cs) != "" && Last(cs) != "." && Last(cs) != ".."
  {
    hide WellFormed, Reaches, MkdirAll, Leads, Kept;
    RoomMade(fs, cs);
    NewPlace(MkdirAll(fs, Front(cs)), cs);
    NormSnoc(Front(cs), Last(cs));
    FrontLast(cs);
    EnterGrows(Norm(Front(cs)), Last(cs));
  }

  lemma EnterGrows(l: Loc, c: string)
    requires Enter(l, c) == l + [c]
    ensures c != "" && c != "." && c != ".."
  {
  }

  /** A name that is too long, with nothing sent below it, is as good as its first 255
      characters. */
  lemma CutCompile(t: Tree, remote: CString, recursive: bool)
    requires |remote| >= MAX_FILENAME_LEN && (t.Dir? ==> FitsAll(t.entries, remote, recursive))
    ensures var q := Clip(remote, MAX_FILENAME_LEN);
      Compile(t, remote, recursive) == Compile(t, q, recursive) && Fits(t, q, recursive)
  {
    hide ChunkPackets, Take;
    if t.Dir? { NoneSent(t.entries, remote, Clip(remote, MAX_FILENAME_LEN), recursive); }
  }

  lemma {:induction false} NoneSent(es: seq<Entry>, remote: CString, q: CString, recursive: bool)
    requires |remote| >= MAX_FILENAME_LEN && FitsAll(es, remote, recursive)
    ensures CompileAll(es, remote, recursive) == [] == CompileAll(es, q, recursive) && FitsAll(es, q, recursive)
    decreases es
  {
    hide Skipped;
    if es != [] { NoneSent(es[1..], remote, q, recursive); }
  }

  /** If cutting does no harm, the tree arrives. */
  lemma IntactArrives(base: string, x: Ctx, t: Tree, remote: CString, recursive: bool)
    requires Readable(t, recursive) && !t.Gone? && |base| + MAX_FILENAME_LEN < MAX_PATH_LEN
    requires Lodged(x.fs, base, t, remote, recursive) && Intact(base, t, remote, recursive)
    ensures Arrived(InterpAll(base, x, Compile(t, remote, recursive)).fs, t, Norm(PathOf(base, remote)), recursive)
    ensures |remote| < MAX_FILENAME_LEN ==>
      InterpAll(base, x, Compile(t, remote, recursive)).fs == Put(x.fs, PathOf(base, remote), t, recursive)
  {
    hide Readable, Norm, PathOf, Compile, InterpAll, Put, Ready, Room, Arrived, Trailing, Target, Cut, LastSegment;
    var q := Clip(remote, MAX_FILENAME_LEN);
    if |remote| >= MAX_FILENAME_LEN {
      CutCompile(t, remote, recursive);
      CutPath(base, remote, q);
      CutRoom(x.fs, PathOf(base, q), PathOf(base, remote));
      RoomReady(x.fs, PathOf(base, q), t, recursive);
    }
    SendableIff(t, q, recursive);
    if !t.Dir? {
      ReadyRoom(x.fs, PathOf(base, q), t, recursive);
      LastIsName(base, x.fs, q);
    }
    ReadyWelcome(x.fs, PathOf(base, q), t, recursive);
    Rebuild(base, x, t, q, recursive);
    PutArrived(x.fs, PathOf(base, q), t, recursive);
  }

  lemma ReadyRoom(fs: Fs, cs: seq<string>, t: Tree, recursive: bool)
    requires Ready(fs, cs, t, recursive) && !t.Dir?
    ensures Room(fs, cs)
  {
  }

  /** The tree can be put where its path leads; a path that is too long needs a place of
      its own. */
  ghost predicate Lodged(fs: Fs, base: string, t: Tree, remote: CString, recursive: bool) {
    if |remote| < MAX_FILENAME_LEN then Ready(fs, PathOf(base, remote), t, recursive)
    else Room(fs, PathOf(base, remote))
  }

  lemma NamesOff(base: string, ps: seq<Packet>, q: string, l: Loc)
    requires NamesOnly(ps, q) && !OnWay(Parts(Target(base, q)), l)
    ensures Off(base, ps, l)
  {
    hide OnWay, Parts, Target;
  }

  lemma UnderAllOff(base: string, ps: seq<Packet>, remote: string, ns: seq<string>)
    requires AllUnder(ps, remote) && |base| + MAX_FILENAME_LEN < MAX_PATH_LEN
    requires |remote| + Span(ns) >= MAX_FILENAME_LEN
    requires !OnWay(PathOf(base, remote), Norm(PathOf(base, remote)) + ns)
    ensures Off(base, ps, Norm(PathOf(base, remote)) + ns)
  {
    hide OnWay, Parts, Target, Under, PathOf, Norm, Span;
    var l := Norm(PathOf(base, remote)) + ns;
    forall p | p in ps
      ensures p.FileMeta? ==> !OnWay(Parts(Target(base, p.name)), l)
      ensures p.DirEnter? ==> !OnWay(Parts(Target(base, p.dirName)), l)
    {
      if p.FileMeta? { UnderOff(base, remote, p.name, ns); }
      if p.DirEnter? { UnderOff(base, remote, p.dirName, ns); }
    }
  }

  /** Below a path with room nothing is there and nothing on its way. */
  lemma RoomOff(fs: Fs, cs: seq<string>, ns: seq<string>)
    requires Room(fs, cs) && ns != []
    ensures Norm(cs) + ns !in fs && !OnWay(cs, Norm(cs) + ns)
  {
    hide WellFormed, Norm, Reaches, MkdirAll;
    var fs1, l := MkdirAll(fs, Front(cs)), Norm(cs) + ns;
    RoomMade(fs, cs);
    assert cs[..|cs|] == cs;
    if OnWay(cs, l) {
      var j :| 0 < j <= |cs| && l == Norm(cs[..j]);
      if j < |cs| { RoomWay(fs, cs, j); }
    }
  }

  /** The cut path leads elsewhere: nothing comes to the place. */
  lemma CutLoses(base: string, x: Ctx, t: Tree, remote: CString, recursive: bool, links: set<Loc>)
    requires !t.Gone? && |base| + MAX_FILENAME_LEN < MAX_PATH_LEN && |remote| >= MAX_FILENAME_LEN
    requires Room(x.fs, PathOf(base, remote))
    requires LinksIn(x.fs, links) && Clear(base, x.path, x.kind, links, Compile(t, remote, recursive))
    requires Norm(PathOf(base, Clip(remote, MAX_FILENAME_LEN))) != Norm(PathOf(base, remote))
    ensures !Arrived(InterpAll(base, x, Compile(t, remote, recursive)).fs, t, Norm(PathOf(base, remote)), recursive)
  {
    hide WellFormed, Room, Norm, InterpAll, Compile, PathOf, Cut, OnWay, Clear, LinksIn, Image, Parts, Target;
    var q := Clip(remote, MAX_FILENAME_LEN);
    var cs, cq := PathOf(base, remote), PathOf(base, q);
    CutPath(base, remote, q);
    RoomSound(x.fs, cs);
    RoomMissing(x.fs, cs);
    LongNames(t, remote, recursive);
    FirstNamed(t, remote, recursive);
    PathOfTarget(base, q);
    if OnWay(cq, Norm(cs)) { OnWayCut(x.fs, cq, cs); }
    NamesOff(base, Compile(t, remote, recursive), q, Norm(cs));
    StaysMissing(base, x, Compile(t, remote, recursive), Norm(cs), links);
    RootImaged(t, Norm(cs), recursive);
  }

  /** A slash at the end of the name of a file or link makes a directory of it. */
  lemma SlashLoses(base: string, x: Ctx, t: Tree, remote: CString, recursive: bool)
    requires (t.File? || t.Link?) && |base| + MAX_FILENAME_LEN < MAX_PATH_LEN
    requires var q := Clip(remote, MAX_FILENAME_LEN); Room(x.fs, PathOf(base, q)) && Trailing(Target(base, q))
    ensures !Arrived(InterpAll(base, x, Compile(t, remote, recursive)).fs, t,
      Norm(PathOf(base, Clip(remote, MAX_FILENAME_LEN))), recursive)
  {
    hide WellFormed, Room, Norm, InterpAll, PathOf, Interp, ChunkPackets, Trailing, Target, TotalChunks, Parts, Take;
    var q := Clip(remote, MAX_FILENAME_LEN);
    var ps := Compile(t, remote, recursive);
    RoomSound(x.fs, PathOf(base, q));
    MetaMakesDir(base, x, q, ps[0]);
    InterpAppend(base, x, [ps[0]], ps[1..]);
    InterpOne(base, x, ps[0]);
    assert [ps[0]] + ps[1..] == ps;
    InterpWellFormed(base, x, ps[0]);
    StreamKeepsDirs(base, Interp(base, x, ps[0]), ps[1..]);
  }

  lemma MetaMakesDir(base: string, x: Ctx, q: CString, p: Packet)
    requires |q| < MAX_FILENAME_LEN && |base| + MAX_FILENAME_LEN < MAX_PATH_LEN && Room(x.fs, PathOf(base, q))
    requires p.FileMeta? && p.name == q && Trailing(Target(base, q))
    ensures IsDir(Interp(base, x, p).fs, Norm(PathOf(base, q)))
  {
    hide WellFormed, MkdirAll, Parts, Target, Norm, Reaches, Fresh, Interp, Direct, Trailing;
    var cs, t := PathOf(base, q), Target(base, q);
    PathOfTarget(base, q);
    RoomIsDirect(x.fs, cs);
    RoomMade(x.fs, cs);
    AbovePrefix(t);
    TrailingAbove(t);
    MetaTrailing(base, x, q, p.size, p.kind, p.chunks);
  }

  /** An entry whose path does not fit is missing. */
  lemma UnfitLoses(base: string, x: Ctx, t: Tree, remote: CString, recursive: bool, links: set<Loc>)
    requires t.Dir? && |base| + MAX_FILENAME_LEN < MAX_PATH_LEN && !FitsAll(t.entries, remote, recursive)
    requires Lodged(x.fs, base, t, remote, recursive)
    requires |remote| >= MAX_FILENAME_LEN ==>
      Norm(PathOf(base, Clip(remote, MAX_FILENAME_LEN))) == Norm(PathOf(base, remote))
    requires LinksIn(x.fs, links) && Clear(base, x.path, x.kind, links, Compile(t, remote, recursive))
    ensures !Arrived(InterpAll(base, x, Compile(t, remote, recursive)).fs, t, Norm(PathOf(base, remote)), recursive)
  {
    hide WellFormed, Room, Norm, InterpAll, Compile, PathOf, Cut, OnWay, Clear, LinksIn, Parts, Target, Span, ImageAll,
      NamesFree, MkdirAll;
    var cs := PathOf(base, remote);
    var i, ns := Unfit(t.entries, remote, Norm(cs), recursive);
    var l := Norm(cs) + ns;
    FirstNamed(t, remote, recursive);
    if |remote| < MAX_FILENAME_LEN {
      ReadyWellFormed(x.fs, cs, t, recursive);
      OpenOff(x.fs, cs, t.entries, recursive, i, ns);
      CompileUnder(t, remote, recursive);
      UnderAllOff(base, Compile(t, remote, recursive), remote, ns);
      StaysMissing(base, x, Compile(t, remote, recursive), l, links);
    } else {
      var q := Clip(remote, MAX_FILENAME_LEN);
      CutPath(base, remote, q);
      CutRoom(x.fs, PathOf(base, q), cs);
      RoomSound(x.fs, cs);
      RoomOff(x.fs, PathOf(base, q), ns);
      LongNames(t, remote, recursive);
      PathOfTarget(base, q);
      NamesOff(base, Compile(t, remote, recursive), q, l);
      StaysMissing(base, x, Compile(t, remote, recursive), l, links);
    }
  }

  /** Exactly when a tree arrives as it is where its remote path leads: when cutting its
      names does no harm. The stream must not go through links, be they there or its own. */
  lemma ArrivesIff(base: string, x: Ctx, t: Tree, remote: CString, recursive: bool, links: set<Loc>)
    requires Readable(t, recursive) && !t.Gone? && |base| + MAX_FILENAME_LEN < MAX_PATH_LEN
    requires Lodged(x.fs, base, t, remote, recursive)
    requires LinksIn(x.fs, links) && Clear(base, x.path, x.kind, links, Compile(t, remote, recursive))
    ensures Arrived(InterpAll(base, x, Compile(t, remote, recursive)).fs, t, Norm(PathOf(base, remote)), recursive)
      <==> Intact(base, t, remote, recursive)
  {
    hide Readable, Norm, PathOf, Compile, InterpAll, Ready, Room, Arrived, Trailing, Target, Cut, Clear, LinksIn;
    var q := Clip(remote, MAX_FILENAME_LEN);
    if Intact(base, t, remote, recursive) {
      IntactArrives(base, x, t, remote, recursive);
    } else if Norm(PathOf(base, q)) != Norm(PathOf(base, remote)) {
      CutLoses(base, x, t, remote, recursive, links);
    } else if t.Dir? {
      UnfitLoses(base, x, t, remote, recursive, links);
    } else {
      if |remote| >= MAX_FILENAME_LEN {
        CutPath(base, remote, q);
        CutRoom(x.fs, PathOf(base, q), PathOf(base, remote));
      } else {
        ReadyRoom(x.fs, PathOf(base, q), t, recursive);
      }
      SlashLoses(base, x, t, remote, recursive);
    }
  }

  /** For a remote path without ".." that ends in a proper name: if all paths fit. */
  lemma IntactIff(base: string, t: Tree, remote: CString, recursive: bool)
    requires Plain(Parts(remote)) && Name(LastSegment(remote)) && |base| + MAX_FILENAME_LEN < MAX_PATH_LEN
    ensures Intact(base, t, remote, recursive) <==> Fits(t, remote, recursive)
  {
    hide Parts, Norm, LastSlash, LastSegment, Name, Trailing, Target, Above;
    if |remote| >= MAX_FILENAME_LEN {
      CutMisses(Parts(base), remote, Clip(remote, MAX_FILENAME_LEN));
    } else {
      TargetPath(base, remote);
    }
  }

  /** The whole outcome, for such a path: the tree is rebuilt, and nothing else changed,
      exactly if every remote path sent fits. */
  lemma RebuildIff(base: string, x: Ctx, t: Tree, remote: CString, recursive: bool, links: set<Loc>)
    requires Readable(t, recursive) && !t.Gone? && |base| + MAX_FILENAME_LEN < MAX_PATH_LEN
    requires Plain(Parts(remote)) && Name(LastSegment(remote)) && Lodged(x.fs, base, t, remote, recursive)
    requires LinksIn(x.fs, links) && Clear(base, x.path, x.kind, links, Compile(t, remote, recursive))
    ensures InterpAll(base, x, Compile(t, remote, recursive)).fs == Put(x.fs, PathOf(base, remote), t, recursive) <==>
      Sendable(t, remote, recursive)
  {
    hide Readable, Norm, PathOf, Compile, InterpAll, Ready, Room, Arrived, Clear, LinksIn, Plain, Name, LastSegment,
      Intact, Put, Sendable;
    IntactIff(base, t, remote, recursive);
    SendableIff(t, remote, recursive);
    ArrivesIff(base, x, t, remote, recursive, links);
    if Fits(t, remote, recursive) {
      IntactArrives(base, x, t, remote, recursive);
    } else {
      LodgedReady(x.fs, base, t, remote, recursive);
      PutArrived(x.fs, PathOf(base, remote), t, recursive);
    }
  }

  lemma LodgedReady(fs: Fs, base: string, t: Tree, remote: CString, recursive: bool)
    requires Lodged(fs, base, t, remote, recursive)
    ensures Ready(fs, PathOf(base, remote), t, recursive)
  {
    hide Room, Ready, PathOf;
    if |remote| >= MAX_FILENAME_LEN { RoomReady(fs, PathOf(base, remote), t, recursive); }
  }

  /** The same for a receiver without links and a tree without links, or a single link. */
  lemma LinklessRebuildIff(base: string, x: Ctx, t: Tree, remote: CString, recursive: bool)
    requires Readable(t, recursive) && !t.Gone? && |base| + MAX_FILENAME_LEN < MAX_PATH_LEN
    requires Plain(Parts(remote)) && Name(LastSegment(remote)) && Lodged(x.fs, base, t, remote, recursive)
    requires LinksIn(x.fs, {}) && (t.Dir? ==> x.kind.Regular? && Linkless(t, recursive))
    ensures InterpAll(base, x, Compile(t, remote, recursive)).fs == Put(x.fs, PathOf(base, remote), t, recursive) <==>
      Sendable(t, remote, recursive)
  {
    hide Readable, PathOf, Compile, InterpAll, Lodged, LinksIn, Plain, Name, LastSegment, Put, Sendable, Linkless,
      Clear;
    TreeClear(base, x.path, x.kind, t, remote, recursive);
    RebuildIff(base, x, t, remote, recursive, {});
  }

  // ---------------------------------------------------------------- a name that does not fit, through a link

  lemma {:induction false} WalkDirs(fs: Fs, a: seq<string>, b: seq<string>, n: nat)
    requires WellFormed(fs) && IsDirAt(fs, a)
    ensures Walk(fs, [], a + b, n) == Walk(fs, Norm(a), b, n)
    decreases |a|
  {
    hide WellFormed, Norm, Reaches, Walk, Enter;
    if a == [] {
      EmptyNorm(a);
      assert a + b == b;
    } else {
      ReachesFront(fs, a);
      FrontLast(a);
      NormSnoc(Front(a), Last(a));
      WalkDirs(fs, Front(a), [Last(a)] + b, n);
      assert Front(a) + ([Last(a)] + b) == a + b;
      WalkInto(fs, Norm(Front(a)), Last(a), b, n);
    }
  }

  lemma WalkInto(fs: Fs, l: Loc, c: string, b: seq<string>, n: nat)
    requires WellFormed(fs) && IsDir(fs, l) && IsDir(fs, Enter(l, c))
    ensures Walk(fs, l, [c] + b, n) == Walk(fs, Enter(l, c), b, n)
  {
    hide WellFormed, Follow;
    assert ([c] + b)[1..] == b;
  }

  lemma FollowName(target: CBytes, n: string)
    requires Text(target) == n && Name(n)
    ensures Follow(target) == [n] && !Absolute(n)
  {
    hide Parts, Text;
    PartsName(n);
    NameEnds(n);
  }

  lemma NameEnds(n: string)
    requires Name(n)
    ensures !Absolute(n) && !Trailing(n)
  {
    assert forall i :: 0 <= i < |n| ==> n[i] in n;
  }

  /** A link in a directory leads to a name beside it. */
  lemma WalkBeside(fs: Fs, at: Loc, c: string, n: string, target: CBytes)
    requires IsDir(fs, at) && Name(c) && Name(n) && Text(target) == n
    requires at + [c] in fs && fs[at + [c]] == LinkNode(target) && at + [n] !in fs
    ensures Walk(fs, at, [c], MAX_LINKS) == Some(at + [n])
  {
    hide Text, Follow, Absolute, Name;
    FollowName(target, n);
    EnterName(at, c);
    EnterName(at, n);
    WalkOne(fs, at, n, MAX_LINKS - 1);
    assert [c][1..] == [] && [n] + [] == [n];
  }

  /** The path of an entry leads to its name in the directory, where there is room. */
  lemma EntryRoom(base: string, fs: Fs, remote: CString, name: CString)
    requires WellFormed(fs) && Name(name) && |Join(remote, name)| < MAX_FILENAME_LEN
    requires var cs := PathOf(base, remote);
      IsDirAt(fs, cs) && Fresh(fs, Norm(cs) + [name])
    ensures var cs := PathOf(base, remote);
      var sub := SubPath(remote, name);
      && sub == Join(remote, name) && LastSegment(sub) == name
      && PathOf(base, sub) == cs + [name] && Norm(cs + [name]) == Norm(cs) + [name]
      && Room(fs, cs + [name]) && Front(cs + [name]) == cs && MkdirAll(fs, cs) == fs
  {
    hide Parts, WellFormed, Fresh, Room, MkdirAll, Name, LastSlash, LastSegment, Norm, IsDirAt;
    EntryPath(remote, name);
    var cs := PathOf(base, remote);
    assert Parts(base) + (Parts(remote) + [name]) == cs + [name];
    RoomInside(fs, cs, name);
  }

  /** FILE_META under the cut name opens the file the link leads to. */
  lemma MetaBeside(base: string, x: Ctx, remote: CString, c: CString, n: string, target: CBytes, size: nat,
                   chunks: nat)
    requires |base| + MAX_FILENAME_LEN < MAX_PATH_LEN && |Join(remote, c)| < MAX_FILENAME_LEN && Name(c) && Name(n)
    requires WellFormed(x.fs) && IsDirAt(x.fs, PathOf(base, remote)) && Text(target) == n
    requires var at := Norm(PathOf(base, remote));
      at + [c] in x.fs && x.fs[at + [c]] == LinkNode(target) && at + [n] !in x.fs
    ensures var at, x' := Norm(PathOf(base, remote)), Interp(base, x, FileMeta(Join(remote, c), size, Regular, chunks));
      x'.fs == x.fs[at + [n] := FileNode([])] && x'.fd == Some(at + [n]) && x'.kind.Regular?
  {
    hide Parts, Norm, Reaches, Walk, Text, Name, WellFormed, MakeDirs, Target, LastSegment, LastSlash, Above, Direct,
      Trailing;
    var cs, path := PathOf(base, remote), Join(remote, c);
    EntryPath(remote, c);
    TargetPath(base, path);
    assert PathOf(base, path) == cs + [c] by { assert Parts(base) + (Parts(remote) + [c]) == cs + [c]; }
    assert Front(cs + [c]) == cs;
    WalkDirs(x.fs, cs, [c], MAX_LINKS);
    WalkBeside(x.fs, Norm(cs), c, n, target);
    DirsAreDirect(x.fs, cs);
    FindsDirect(x.fs, cs, MAX_LINKS);
    FoundThere(x.fs, cs, MAX_LINKS);
    MakeDirsIdempotent(x.fs, cs);
  }

  function LinkAndFile(c: CString, target: CBytes, n: CString, content: seq<byte>, results: seq<int>): seq<Entry> {
    [Entry(c, Link(target)), Entry(n, File(content, results))]
  }

  lemma LinkAndFilePackets(remote: CString, c: CString, target: CBytes, n: CString, content: seq<byte>,
                           results: seq<int>)
    requires Name(c) && Name(n) && c < n && |Join(remote, c)| == MAX_FILENAME_LEN - 1
    ensures CompileAll(LinkAndFile(c, target, n, content, results), remote, true) ==
      Compile(Link(target), Join(remote, c), true)
      + ([FileMeta(Join(remote, c), |content|, Regular, TotalChunks(|content|))] + ChunkPackets(content, results, 0, 0))
  {
    hide Name, ChunkPackets, TotalChunks, Take;
    var e, f := Entry(c, Link(target)), Entry(n, File(content, results));
    var es := LinkAndFile(c, target, n, content, results);
    NameKept(e);
    NameKept(f);
    assert es[1..] == [f] && [f][1..] == [];
    CutToBeside(remote, c, n);
    assert CompileAll([f], remote, true) == Compile(f.node, SubPath(remote, n), true);
  }

  lemma NameKept(e: Entry)
    requires Name(e.name) && (e.node.File? || e.node.Link?)
    ensures !Skipped(e, true)
  {
  }

  lemma CutToBeside(remote: CString, c: CString, n: CString)
    requires c < n && |Join(remote, c)| == MAX_FILENAME_LEN - 1
    ensures SubPath(remote, c) == Join(remote, c)
    ensures Clip(SubPath(remote, n), MAX_FILENAME_LEN) == Join(remote, c)
    ensures |Join(remote, n)| >= MAX_FILENAME_LEN
  {
    assert n[..|c|] == c;
    assert Join(remote, n)[..MAX_FILENAME_LEN - 1] == Join(remote, c);
  }

  /** Why links must be kept out of the way: a file whose path does not fit arrives all the
      same if a link beside it, sent before, carries the cut name and leads to the whole
      one. */
  lemma LinkCarries(base: string, x: Ctx, remote: CString, c: CString, target: CBytes, n: CString,
                    content: seq<byte>, results: seq<int>)
    requires |base| + MAX_FILENAME_LEN < MAX_PATH_LEN && Room(x.fs, PathOf(base, remote))
    requires Name(c) && Name(n) && c < n && |Join(remote, c)| == MAX_FILENAME_LEN - 1
    requires Text(target) == n && 0 < |target| < MAX_PATH_LEN
    ensures var t := Dir(LinkAndFile(c, target, n, content, results));
      && !Fits(t, remote, true)
      && Arrived(InterpAll(base, x, Compile(t, remote, true)).fs, t, Norm(PathOf(base, remote)), true)
  {
    hide Norm, PathOf, Room, InterpAll, Interp, Name, WellFormed, Compile, CompileAll, NamesFree, MkdirAll, Text,
      Reaches, ChunkPackets, Fresh, Final, Image, ImageAll;
    var es := LinkAndFile(c, target, n, content, results);
    var cs, at, enter := PathOf(base, remote), Norm(PathOf(base, remote)), DirEnter(Clip(remote, MAX_FILENAME_LEN));
    var body := CompileAll(es, remote, true);
    TooLong(remote, c, target, n, content, results);
    CutToBeside(remote, c, n);
    RoomReady(x.fs, cs, Dir(es), true);
    EnterStep(base, x, remote);
    var x1 := Interp(base, x, enter);
    CarriesBody(base, x1, remote, c, target, n, content, results);
    Bracketed(base, x, enter, body);
    DirCompile(es, remote);
    CarriesImage(at, c, target, n, content, results);
  }

  lemma DirCompile(es: seq<Entry>, remote: CString)
    ensures Compile(Dir(es), remote, true) ==
      [DirEnter(Clip(remote, MAX_FILENAME_LEN))] + CompileAll(es, remote, true) + [DirLeave]
  {
  }

  lemma TooLong(remote: CString, c: CString, target: CBytes, n: CString, content: seq<byte>, results: seq<int>)
    requires Name(c) && Name(n) && c < n && |Join(remote, c)| == MAX_FILENAME_LEN - 1
    ensures !Fits(Dir(LinkAndFile(c, target, n, content, results)), remote, true)
  {
    hide Name;
    var e, f := Entry(c, Link(target)), Entry(n, File(content, results));
    NameKept(e);
    NameKept(f);
    CutToBeside(remote, c, n);
    assert [e, f][1..] == [f];
    assert !FitsAll([f], remote, true);
  }

  lemma CarriesImage(at: Loc, c: CString, target: CBytes, n: CString, content: seq<byte>, results: seq<int>)
    requires Name(c) && Name(n) && c != n
    ensures Image(Dir(LinkAndFile(c, target, n, content, results)), at, true) ==
      map[at := DirNode, at + [c] := LinkNode(target), at + [n] := FileNode(content[..Final(|content|, results, 0, 0)])]
  {
    hide Name, Final;
    var e, f := Entry(c, Link(target)), Entry(n, File(content, results));
    NameKept(e);
    NameKept(f);
    assert [e, f][1..] == [f] && [f][1..] == [];
    assert (at + [c])[|at|] == c && (at + [n])[|at|] == n && |at + [c]| == |at| + 1;
    assert ImageAll([], at, true) == map[];
    assert ImageAll([f], at, true) == map[at + [n] := FileNode(content[..Final(|content|, results, 0, 0)])];
    assert ImageAll([e, f], at, true) == map[at + [c] := LinkNode(target)] + ImageAll([f], at, true);
  }

  lemma CarriesBody(base: string, x: Ctx, remote: CString, c: CString, target: CBytes, n: CString,
                    content: seq<byte>, results: seq<int>)
    requires |base| + MAX_FILENAME_LEN < MAX_PATH_LEN && Name(c) && Name(n) && c < n
    requires |Join(remote, c)| == MAX_FILENAME_LEN - 1 && Text(target) == n && 0 < |target| < MAX_PATH_LEN
    requires WellFormed(x.fs) && IsDirAt(x.fs, PathOf(base, remote))
    requires NamesFree(x.fs, Norm(PathOf(base, remote)), LinkAndFile(c, target, n, content, results), true)
    ensures var at := Norm(PathOf(base, remote));
      InterpAll(base, x, CompileAll(LinkAndFile(c, target, n, content, results), remote, true)).fs ==
        x.fs[at + [c] := LinkNode(target)][at + [n] := FileNode(content[..Final(|content|, results, 0, 0)])]
  {
    hide Norm, PathOf, InterpAll, Interp, Name, WellFormed, Compile, CompileAll, MkdirAll, Text, Reaches, ChunkPackets,
      Final, Image, Room, LastSegment;
    var at, sub := Norm(PathOf(base, remote)), Join(remote, c);
    var link, chunks := Compile(Link(target), sub, true), ChunkPackets(content, results, 0, 0);
    var meta := FileMeta(sub, |content|, Regular, TotalChunks(|content|));
    BothFree(x.fs, at, c, target, n, content, results);
    LinkAndFilePackets(remote, c, target, n, content, results);
    EntryRoom(base, x.fs, remote, c);
    RoomReady(x.fs, PathOf(base, sub), Link(target), true);
    ReadyWelcome(x.fs, PathOf(base, sub), Link(target), true);
    RebuildLink(base, x, Link(target), sub, true);
    var x1 := InterpAll(base, x, link);
    LinkPut(x.fs, at, c, target);
    StreamKeepsDirs(base, x, link);
    ReachesStill(x.fs, x1.fs, PathOf(base, remote));
    StillDir(x.fs, x1.fs, at);
    MetaBeside(base, x1, remote, c, n, target, |content|, TotalChunks(|content|));
    var x2 := Interp(base, x1, meta);
    InterpAppend(base, x, link, [meta] + chunks);
    InterpAppend(base, x1, [meta], chunks);
    InterpOne(base, x1, meta);
    assert content[..0] == [];
    ChunksWrite(base, x2, content, results, 0, 0);
  }

  lemma LinkPut(fs: Fs, at: Loc, c: string, target: CBytes)
    ensures fs + Image(Link(target), at + [c], true) == fs[at + [c] := LinkNode(target)]
  {
  }

  lemma BothFree(fs: Fs, at: Loc, c: CString, target: CBytes, n: CString, content: seq<byte>, results: seq<int>)
    requires NamesFree(fs, at, LinkAndFile(c, target, n, content, results), true) && Name(c) && Name(n) && c != n
    ensures Fresh(fs, at + [c]) && at + [n] !in fs && at + [n] != at + [c]
  {
    hide Name;
    var es := LinkAndFile(c, target, n, content, results);
    NameKept(es[0]);
    NameKept(es[1]);
    assert Fresh(fs, at + [es[0].name]) && Fresh(fs, at + [es[1].name]);
    assert at + [n] <= at + [n] && (at + [c])[|at|] == c && (at + [n])[|at|] == n;
  }
}
