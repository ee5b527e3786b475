/** The receiver's file system, keyed by place, how paths are resolved in it, and
    scp_mkdir_recursive. */
module FileSystem {
  import opened Packets
  import opened Paths

  datatype Option<T> = None | Some(value: T)

  datatype Node = DirNode | FileNode(data: seq<byte>) | LinkNode(target: seq<byte>)

  type Fs = map<Loc, Node>

  predicate IsDir(fs: Fs, c: Loc) { c == [] || (c in fs && fs[c].DirNode?) }

  function Parent(c: Loc): Loc
    requires c != []
  {
    c[..|c| - 1]
  }

  /** Every entry sits in a directory. */
  predicate WellFormed(fs: Fs) {
    forall c :: c in fs ==> c != [] && IsDir(fs, Parent(c))
  }

  datatype Errno = Ok | Exists | NoParent

  /** The mkdir system call. */
  function Mkdir(fs: Fs, c: Loc): (r: (Fs, Errno)) {
    if c == [] || c in fs then (fs, Exists)
    else if IsDir(fs, Parent(c)) then (fs[c := DirNode], Ok)
    else (fs, NoParent)
  }

  /** Every directory is still one. */
  ghost predicate DirsKept(fs: Fs, fs': Fs) { forall l :: IsDir(fs, l) ==> IsDir(fs', l) }

  /** Nothing is lost or changed. */
  predicate Kept(fs: Fs, fs': Fs) { forall l :: l in fs ==> l in fs' && fs'[l] == fs[l] }

  predicate Same(fs: Fs, fs': Fs, l: Loc) { (l in fs <==> l in fs') && (l in fs ==> fs'[l] == fs[l]) }

  lemma KeptDirs(fs: Fs, fs': Fs)
    requires Kept(fs, fs')
    ensures DirsKept(fs, fs')
  {
  }

  lemma UpIsDir(fs: Fs, l: Loc)
    requires WellFormed(fs) && IsDir(fs, l)
    ensures IsDir(fs, Up(l))
  {
  }

  /** What is above a directory, or above anything that exists, is a directory. */
  lemma {:induction false} AboveIsDir(fs: Fs, l: Loc, k: Loc)
    requires WellFormed(fs) && (l == [] || l in fs) && k <= l && (k != l || IsDir(fs, l))
    ensures IsDir(fs, k)
  {
    if k != l {
      assert k <= Parent(l);
      AboveIsDir(fs, Parent(l), k);
    }
  }

  lemma PutDir(fs: Fs, l: Loc)
    requires WellFormed(fs) && l != [] && l !in fs && IsDir(fs, Parent(l))
    ensures WellFormed(fs[l := DirNode]) && Kept(fs, fs[l := DirNode])
  {
  }

  lemma KeptSame(fs: Fs)
    ensures Kept(fs, fs)
  {
  }

  lemma KeptTrans(a: Fs, b: Fs, c: Fs)
    requires Kept(a, b) && Kept(b, c)
    ensures Kept(a, c)
  {
  }

  predicate IsLink(fs: Fs, l: Loc) { l != [] && l in fs && fs[l].LinkNode? }

  // ---------------------------------------------------------------- following links

  /** The kernel gives up after so many links. */
  const MAX_LINKS: nat := 40

  function Text(bytes: seq<byte>): string {
    seq(|bytes|, i requires 0 <= i < |bytes| => bytes[i] as char)
  }

  /** What a link puts in its own place; a slash at its end asks for a directory. */
  function Follow(target: seq<byte>): seq<string> {
    Parts(Text(target)) + if Trailing(Text(target)) then ["."] else []
  }

  predicate Absolute(path: string) { path != "" && path[0] == '/' }

  /** Path resolution from the directory `l`, following every link on the way and at
      the end, at most `n` of them. The last component need not exist. */
  function Walk(fs: Fs, l: Loc, cs: seq<string>, n: nat): Option<Loc>
    decreases n, |cs|
  {
    if cs == [] then Some(l)
    else if !IsDir(fs, l) then None
    else
      var k := Enter(l, cs[0]);
      if !IsLink(fs, k) then Walk(fs, k, cs[1..], n)
      else if n == 0 then None
      else Walk(fs, if Absolute(Text(fs[k].target)) then [] else l, Follow(fs[k].target) + cs[1..], n - 1)
  }

  /** What stat and open find at a path: the end is followed too. */
  function Finds(fs: Fs, cs: seq<string>): Option<Loc> { Walk(fs, [], cs, MAX_LINKS) }

  /** The place mkdir, unlink and symlink mean: the end is not followed. */
  function Lands(fs: Fs, cs: seq<string>): Option<Loc> {
    if cs == [] then Some([])
    else
      match Walk(fs, [], Front(cs), MAX_LINKS)
      case Some(d) => if IsDir(fs, d) then Some(Enter(d, Last(cs))) else None
      case None => None
  }

  /** The path names something that exists. */
  predicate There(fs: Fs, cs: seq<string>) {
    Lands(fs, cs).Some? && (Lands(fs, cs).value == [] || Lands(fs, cs).value in fs)
  }

  /** mkdir on the path with the components `cs`. */
  function MakeDir(fs: Fs, cs: seq<string>): (Fs, Errno) {
    if Lands(fs, cs).Some? then Mkdir(fs, Lands(fs, cs).value) else (fs, NoParent)
  }

  /** What creating a path with all its ancestors means: each missing prefix is
      made, in order, as long as the one before it leads to a directory. */
  function MakeDirs(fs: Fs, cs: seq<string>): Fs {
    if cs == [] then fs else MakeDir(MakeDirs(fs, Front(cs)), cs).0
  }

  /** Resolving one more component. */
  lemma {:induction false} WalkSnoc(fs: Fs, l: Loc, cs: seq<string>, c: string, n: nat) returns (m: nat)
    ensures Walk(fs, l, cs + [c], n) ==
      if Walk(fs, l, cs, n).Some? then Walk(fs, Walk(fs, l, cs, n).value, [c], m) else None
    decreases n, |cs|
  {
    hide Follow, Text, Absolute;
    m := n;
    if cs == [] {
      assert cs + [c] == [c];
    } else if IsDir(fs, l) {
      var k := Enter(l, cs[0]);
      assert (cs + [c])[1..] == cs[1..] + [c];
      if !IsLink(fs, k) {
        m := WalkSnoc(fs, k, cs[1..], c, n);
      } else if n > 0 {
        var t := Follow(fs[k].target);
        assert t + (cs[1..] + [c]) == (t + cs[1..]) + [c];
        m := WalkSnoc(fs, if Absolute(Text(fs[k].target)) then [] else l, t + cs[1..], c, n - 1);
      }
    }
  }

  /** A single component, looked up in a directory. */
  lemma WalkOne(fs: Fs, d: Loc, c: string, n: nat)
    ensures !IsDir(fs, d) ==> Walk(fs, d, [c], n).None?
    ensures IsDir(fs, d) && !IsLink(fs, Enter(d, c)) ==> Walk(fs, d, [c], n) == Some(Enter(d, c))
  {
    hide Follow, Text, Absolute;
    assert [c][1..] == [];
  }

  lemma FrontLast(cs: seq<string>)
    requires cs != []
    ensures Front(cs) + [Last(cs)] == cs
  {
  }

  /** What resolves to a directory exists without the last link being followed. */
  lemma FoundThere(fs: Fs, cs: seq<string>, n: nat)
    requires n == MAX_LINKS && Walk(fs, [], cs, n).Some? && IsDir(fs, Walk(fs, [], cs, n).value)
    ensures There(fs, cs)
  {
    hide Walk, Enter;
    if cs != [] {
      FrontLast(cs);
      var m := WalkSnoc(fs, [], Front(cs), Last(cs), n);
      WalkOne(fs, Walk(fs, [], Front(cs), n).value, Last(cs), m);
    }
  }

  lemma LandsFront(fs: Fs, cs: seq<string>)
    requires Lands(fs, cs).Some? && cs != []
    ensures There(fs, Front(cs))
  {
    hide Walk, Enter;
    FoundThere(fs, Front(cs), MAX_LINKS);
  }

  /** Where resolution ends, the directory before the last component exists. */
  lemma FoundFront(fs: Fs, cs: seq<string>)
    requires Finds(fs, cs).Some? && cs != []
    ensures There(fs, Front(cs))
  {
    hide Walk, Enter;
    FrontLast(cs);
    var m := WalkSnoc(fs, [], Front(cs), Last(cs), MAX_LINKS);
    if Walk(fs, [], Front(cs), MAX_LINKS).Some? {
      WalkOne(fs, Walk(fs, [], Front(cs), MAX_LINKS).value, Last(cs), m);
    }
    FoundThere(fs, Front(cs), MAX_LINKS);
  }

  /** A path that lands nowhere does not either if it is made longer. */
  lemma LandsNowhere(fs: Fs, cs: seq<string>, d: seq<string>)
    requires Lands(fs, cs).None? && d != [] && Front(d) == cs
    ensures Lands(fs, d).None?
  {
    hide Walk, Enter;
    FrontLast(cs);
    var m := WalkSnoc(fs, [], Front(cs), Last(cs), MAX_LINKS);
    if Walk(fs, [], Front(cs), MAX_LINKS).Some? {
      WalkOne(fs, Walk(fs, [], Front(cs), MAX_LINKS).value, Last(cs), m);
    }
  }

  predicate Names(l: Loc) { forall i :: 0 <= i < |l| ==> Name(l[i]) }

  /** Down a chain of directories each name leads to the next. */
  lemma {:induction false} WalkDown(fs: Fs, d: Loc, k: nat, cs: seq<string>, n: nat)
    requires WellFormed(fs) && IsDir(fs, d) && Names(d) && k <= |d|
    ensures Walk(fs, d[..k], d[k..] + cs, n) == Walk(fs, d, cs, n)
    decreases |d| - k
  {
    hide WellFormed, Follow, Text, Absolute;
    if k == |d| {
      assert d[..k] == d && d[k..] + cs == cs;
    } else {
      AboveIsDir(fs, d, d[..k]);
      AboveIsDir(fs, d, d[..k + 1]);
      var rest := d[k..] + cs;
      assert rest[0] == d[k] && rest[1..] == d[k + 1..] + cs && d[..k] + [d[k]] == d[..k + 1];
      WalkDown(fs, d, k + 1, cs, n);
    }
  }

  /** A name in a directory, or the root itself, resolves to its place. */
  lemma WalkToPlace(fs: Fs, l: Loc, c: string, n: nat)
    requires WellFormed(fs) && IsDir(fs, l) && Name(c) && !IsLink(fs, l + [c])
    ensures Walk(fs, l, [c], n) == Some(l + [c])
  {
    hide WellFormed, Follow, Text, Absolute;
    WalkOne(fs, l, c, n);
  }

  lemma NoParts(p: string)
    ensures p == "" ==> Parts(p) == []
  {
  }

  /** What a path finds that ends at a link: a target that begins with a slash is looked up
      from the root, any other from the directory the link lies in. `over` are the
      directories the target passes. */
  lemma LinkLeads(fs: Fs, d: Loc, name: string, over: Loc, last: string, target: seq<byte>)
    requires WellFormed(fs) && IsDir(fs, d) && Names(d) && Name(name) && Names(over) && Name(last)
    requires d + [name] in fs && fs[d + [name]] == LinkNode(target)
    requires Parts(Text(target)) == over + [last] && !Trailing(Text(target))
    ensures Text(target)[0] == '/' && IsDir(fs, over) && !IsLink(fs, over + [last]) ==>
      Finds(fs, d + [name]) == Some(over + [last])
    ensures Text(target)[0] != '/' && IsDir(fs, d + over) && !IsLink(fs, d + over + [last]) ==>
      Finds(fs, d + [name]) == Some(d + over + [last])
  {
    assert Text(target) != "" by { NoParts(Text(target)); }
    hide WellFormed, Parts, Text, Trailing;
    WalkDown(fs, d, 0, [name], MAX_LINKS);
    assert d[..0] == [] && d[0..] == d;
    assert [name][1..] == [] && (over + [last]) + [] == over + [last];
    if Text(target)[0] == '/' {
      if IsDir(fs, over) && !IsLink(fs, over + [last]) {
        WalkDown(fs, over, 0, [last], MAX_LINKS - 1);
        assert over[..0] == [] && over[0..] == over;
        WalkToPlace(fs, over, last, MAX_LINKS - 1);
      }
    } else if IsDir(fs, d + over) && !IsLink(fs, d + over + [last]) {
      WalkDown(fs, d + over, |d|, [last], MAX_LINKS - 1);
      assert (d + over)[..|d|] == d && (d + over)[|d|..] == over;
      WalkToPlace(fs, d + over, last, MAX_LINKS - 1);
    }
  }

  /** New entries do not change what resolved before. */
  lemma {:induction false} WalkKept(fs: Fs, fs': Fs, l: Loc, cs: seq<string>, n: nat)
    requires Kept(fs, fs') && Walk(fs, l, cs, n).Some?
    requires Walk(fs, l, cs, n).value == [] || Walk(fs, l, cs, n).value in fs
    ensures Walk(fs', l, cs, n) == Walk(fs, l, cs, n)
    decreases n, |cs|
  {
    hide Follow, Text, Absolute, Enter;
    if cs != [] {
      var k := Enter(l, cs[0]);
      if !IsLink(fs, k) {
        WalkKept(fs, fs', k, cs[1..], n);
      } else {
        WalkKept(fs, fs', if Absolute(Text(fs[k].target)) then [] else l, Follow(fs[k].target) + cs[1..], n - 1);
      }
    }
  }

  lemma LandsKept(fs: Fs, fs': Fs, cs: seq<string>)
    requires Kept(fs, fs') && Lands(fs, cs).Some?
    ensures Lands(fs', cs) == Lands(fs, cs)
  {
    hide Walk, Enter;
    if cs != [] { WalkKept(fs, fs', [], Front(cs), MAX_LINKS); }
  }

  /** A path that lands somewhere names what exists, or a new name in a directory. */
  lemma LandsPlace(fs: Fs, cs: seq<string>)
    requires WellFormed(fs) && Lands(fs, cs).Some? && !There(fs, cs)
    ensures Lands(fs, cs).value != [] && IsDir(fs, Parent(Lands(fs, cs).value))
  {
    hide Walk, WellFormed;
    var d := Walk(fs, [], Front(cs), MAX_LINKS).value;
    UpIsDir(fs, d);
  }

  /** What a path resolves to exists, or is a new name in a directory. */
  lemma {:induction false} WalkPlace(fs: Fs, l: Loc, cs: seq<string>, n: nat)
    requires WellFormed(fs) && (l == [] || l in fs || IsDir(fs, Up(l))) && Walk(fs, l, cs, n).Some?
    ensures var k := Walk(fs, l, cs, n).value; k == [] || k in fs || IsDir(fs, Up(k))
    decreases n, |cs|
  {
    hide WellFormed, Follow, Text, Absolute;
    if cs != [] {
      var k := Enter(l, cs[0]);
      UpIsDir(fs, l);
      if !IsLink(fs, k) {
        WalkPlace(fs, k, cs[1..], n);
      } else {
        WalkPlace(fs, if Absolute(Text(fs[k].target)) then [] else l, Follow(fs[k].target) + cs[1..], n - 1);
      }
    }
  }

  // ---------------------------------------------------------------- making directories

  /** mkdir fails exactly if the path does not resolve up to its last component. */
  lemma MakeDirOutcome(fs: Fs, cs: seq<string>)
    requires WellFormed(fs)
    ensures There(fs, cs) ==> MakeDir(fs, cs) == (fs, Exists)
    ensures Lands(fs, cs).Some? && !There(fs, cs) ==> MakeDir(fs, cs) == (fs[Lands(fs, cs).value := DirNode], Ok)
    ensures Lands(fs, cs).None? ==> MakeDir(fs, cs) == (fs, NoParent)
  {
    hide WellFormed, Lands;
    if Lands(fs, cs).Some? && !There(fs, cs) { LandsPlace(fs, cs); }
  }

  /** Nothing is lost, and what is new is a directory. */
  ghost predicate Grown(fs: Fs, fs': Fs) {
    Kept(fs, fs') && forall k :: k in fs' && k !in fs ==> fs'[k].DirNode?
  }

  lemma GrownSame(fs: Fs)
    ensures Grown(fs, fs)
  {
  }

  lemma GrownTrans(a: Fs, b: Fs, c: Fs)
    requires Grown(a, b) && Grown(b, c)
    ensures Grown(a, c)
  {
  }

  lemma GrownPut(fs: Fs, l: Loc)
    requires l !in fs
    ensures Grown(fs, fs[l := DirNode])
  {
  }

  lemma MakeDirKeeps(fs: Fs, cs: seq<string>)
    requires WellFormed(fs)
    ensures WellFormed(MakeDir(fs, cs).0) && Grown(fs, MakeDir(fs, cs).0)
    ensures Lands(fs, cs).Some? ==> There(MakeDir(fs, cs).0, cs)
  {
    hide WellFormed, Lands, Grown;
    MakeDirOutcome(fs, cs);
    GrownSame(fs);
    if Lands(fs, cs).Some? && !There(fs, cs) {
      var l := Lands(fs, cs).value;
      LandsPlace(fs, cs);
      PutDir(fs, l);
      GrownPut(fs, l);
      LandsKept(fs, fs[l := DirNode], cs);
    }
  }

  /** Making a path keeps what exists and adds only directories. */
  lemma {:induction false} MakeDirsKeeps(fs: Fs, cs: seq<string>)
    requires WellFormed(fs)
    ensures WellFormed(MakeDirs(fs, cs)) && Grown(fs, MakeDirs(fs, cs))
  {
    hide WellFormed, MakeDir, Grown;
    if cs == [] {
      GrownSame(fs);
    } else {
      MakeDirsKeeps(fs, Front(cs));
      MakeDirKeeps(MakeDirs(fs, Front(cs)), cs);
      GrownTrans(fs, MakeDirs(fs, Front(cs)), MakeDirs(fs, cs));
    }
  }

  lemma {:induction false} MakeDirsIdempotent(fs: Fs, cs: seq<string>)
    requires WellFormed(fs) && There(fs, cs)
    ensures MakeDirs(fs, cs) == fs
  {
    hide WellFormed, Lands;
    if cs != [] {
      LandsFront(fs, cs);
      MakeDirsIdempotent(fs, Front(cs));
      MakeDirOutcome(fs, cs);
    }
  }

  /** Once a prefix cannot be made, nothing below it can. */
  lemma {:induction false} MakeDirsStops(fs: Fs, c: seq<string>, d: seq<string>)
    requires c != [] && c <= d && Lands(MakeDirs(fs, Front(c)), c).None?
    ensures MakeDirs(fs, d) == MakeDirs(fs, Front(c)) && Lands(MakeDirs(fs, d), d).None?
    decreases |d|
  {
    hide Lands;
    if d != c {
      assert c <= Front(d);
      MakeDirsStops(fs, c, Front(d));
      LandsNowhere(MakeDirs(fs, Front(c)), Front(d), d);
    }
  }

  // ---------------------------------------------------------------- scp_mkdir_recursive

  /** The C string in a buffer: what precedes the first NUL. */
  function CStr(b: seq<char>): string {
    if b == [] || b[0] == '\0' then "" else [b[0]] + CStr(b[1..])
  }

  lemma {:induction false} CStrAt(b: seq<char>, n: nat)
    requires n < |b| && b[n] == '\0' && forall k :: 0 <= k < n ==> b[k] != '\0'
    ensures CStr(b) == b[..n]
  {
    if n > 0 {
      CStrAt(b[1..], n - 1);
      assert b[..n] == [b[0]] + b[1..][..n - 1];
    }
  }

  /** One mkdir on the path read so far extends the chain by at most one level. */
  lemma MkdirStep(fs: Fs, done: seq<string>, cur: string)
    requires WellFormed(fs) && There(MakeDirs(fs, done), done)
    ensures var c := done + Component(cur);
      var made := MakeDir(MakeDirs(fs, done), c);
      && MakeDirs(fs, c) == made.0
      && (made.1 == NoParent ==> made.0 == MakeDirs(fs, done) && c != [] && Front(c) == done && Lands(made.0, c).None?)
      && (made.1 != NoParent <==> There(made.0, c))
  {
    hide WellFormed, Lands;
    var c := done + Component(cur);
    MakeDirsKeeps(fs, done);
    MakeDirOutcome(MakeDirs(fs, done), c);
    MakeDirKeeps(MakeDirs(fs, done), c);
    if Component(cur) == [] {
      assert c == done;
    } else {
      assert Front(c) == done;
    }
  }

  /** When the first, direct mkdir succeeds or finds the path, that is already all. */
  lemma DirectMkdir(fs: Fs, cs: seq<string>)
    requires WellFormed(fs) && MakeDir(fs, cs).1 != NoParent
    ensures MakeDirs(fs, cs) == MakeDir(fs, cs).0 && There(MakeDirs(fs, cs), cs)
  {
    hide WellFormed;
    MakeDirOutcome(fs, cs);
    MakeDirKeeps(fs, cs);
    if cs != [] {
      LandsFront(fs, cs);
      MakeDirsIdempotent(fs, Front(cs));
    }
  }

  /** The mkdir call on a path string; an empty string names nothing. */
  function MkdirPath(fs: Fs, p: string): (Fs, Errno) {
    if p == "" then (fs, NoParent) else MakeDir(fs, Parts(p))
  }

  /** The buffer holds the C string `p`, padded with NULs. */
  ghost predicate Holds(tmp: array<char>, p: string)
    reads tmp
  {
    && |p| < tmp.Length && '\0' !in p
    && forall k :: 0 <= k < tmp.Length ==> tmp[k] == if k < |p| then p[k] else '\0'
  }

  lemma HoldsPrefix(b: seq<char>, p: string, i: nat)
    requires |p| < |b| && '\0' !in p && i <= |p|
    requires forall k :: 0 <= k < |b| ==> b[k] == if k == i then '\0' else if k < |p| then p[k] else '\0'
    ensures CStr(b) == p[..i]
  {
    forall k | 0 <= k < i ensures b[k] != '\0' {
      assert p[k] in p;
    }
    CStrAt(b, i);
    assert b[..i] == p[..i];
  }

  /** mkdir on the path cut at the slash at `i`, then the slash is put back. */
  method MkdirCut(tmp: array<char>, ghost p: string, i: nat, fs: Fs) returns (made: (Fs, Errno))
    requires Holds(tmp, p) && i < |p| && p[i] == '/'
    modifies tmp
    ensures Holds(tmp, p)
    ensures made == MkdirPath(fs, p[..i])
  {
    tmp[i] := '\0';
    HoldsPrefix(tmp[..], p, i);
    made := MkdirPath(fs, CStr(tmp[..]));
    tmp[i] := '/';
  }

  /** Copy the path into the buffer and drop one trailing slash. */
  method LoadPath(path: string) returns (tmp: array<char>, ghost p: string)
    requires path != "" && '\0' !in path && |path| < MAX_PATH_LEN
    ensures fresh(tmp) && tmp.Length == MAX_PATH_LEN && Holds(tmp, p) && Parts(p) == Parts(path)
  {
    tmp := new char[MAX_PATH_LEN](k requires k >= 0 => if k < |path| then path[k] else '\0');
    p := path;
    if tmp[|path| - 1] == '/' {
      tmp[|path| - 1] := '\0';
      p := path[..|path| - 1];
      assert path == p + "/" + "";
      PartsJoin(p, "");
    }
  }

  method MkdirWhole(tmp: array<char>, ghost p: string, fs: Fs) returns (made: (Fs, Errno))
    requires Holds(tmp, p)
    ensures made == MkdirPath(fs, p)
  {
    HoldsPrefix(tmp[..], p, |p|);
    assert p[..|p|] == p;
    made := MkdirPath(fs, CStr(tmp[..]));
  }

  /** One turn of the loop at a slash: either the next level is there now, or
      nothing more can ever be made. */
  lemma SlashStep(fs: Fs, p: string, i: nat)
    requires WellFormed(fs) && i < |p| && p[i] == '/' && i > 0
    requires There(MakeDirs(fs, Scan(p[..i]).0), Scan(p[..i]).0)
    ensures var made := MkdirPath(MakeDirs(fs, Scan(p[..i]).0), p[..i]);
      && (made.1 == NoParent ==> made.0 == MakeDirs(fs, Parts(p)) && Parts(p) != [] && !There(made.0, Parts(p)))
      && (made.1 != NoParent ==>
            made.0 == MakeDirs(fs, Scan(p[..i + 1]).0) && There(made.0, Scan(p[..i + 1]).0))
  {
    hide MakeDirs, MakeDir, WellFormed, Lands;
    ScanGrows(p, i);
    MkdirStep(fs, Scan(p[..i]).0, Scan(p[..i]).1);
    if MkdirPath(MakeDirs(fs, Scan(p[..i]).0), p[..i]).1 == NoParent {
      ScanPrefix(p, i + 1);
      MakeDirsStops(fs, Parts(p[..i]), Parts(p));
    }
  }

  /** scp_mkdir_recursive: the path buffer is cut at each slash, used, and restored;
      the outcome is that of making every missing prefix. */
  method MkdirRecursive(path: string, fs: Fs) returns (ok: bool, fs': Fs)
    requires path != "" && '\0' !in path && |path| < MAX_PATH_LEN && WellFormed(fs)
    ensures fs' == MakeDirs(fs, Parts(path))
    ensures ok ==> There(fs', Parts(path))
    ensures Parts(path) != [] && There(fs', Parts(path)) ==> ok
  {
    hide MakeDir, MakeDirs, WellFormed, CStr, Scan, Parts, There;
    var tmp, p := LoadPath(path);
    fs' := fs;
    var direct := MkdirWhole(tmp, p, fs);
    if direct.1 != NoParent {
      DirectMkdir(fs, Parts(p));
      return true, direct.0;
    }
    var i := 1;
    FirstScan(fs, p);
    while tmp[i] != '\0'
      invariant Holds(tmp, p) && 1 <= i
      invariant p == "" ==> i == 1 && fs' == fs
      invariant p != "" ==> i <= |p| && fs' == MakeDirs(fs, Scan(p[..i]).0)
      invariant p != "" ==> There(fs', Scan(p[..i]).0)
      decreases |p| - i
    {
      if tmp[i] == '/' {
        SlashStep(fs, p, i);
        var made := MkdirCut(tmp, p, i, fs');
        fs' := made.0;
        if made.1 == NoParent { return false, fs'; }
      } else {
        ScanGrows(p, i);
      }
      i := i + 1;
    }
    var last := MkdirWhole(tmp, p, fs');
    if p != "" {
      assert p[..i] == p;
      LastStep(fs, p);
    }
    ok, fs' := last.1 != NoParent, last.0;
  }

  lemma LastStep(fs: Fs, p: string)
    requires WellFormed(fs) && p != "" && There(MakeDirs(fs, Scan(p).0), Scan(p).0)
    ensures var last := MkdirPath(MakeDirs(fs, Scan(p).0), p);
      && last.0 == MakeDirs(fs, Parts(p))
      && (last.1 != NoParent <==> There(last.0, Parts(p)))
  {
    hide MakeDirs, MakeDir, WellFormed, Lands;
    MkdirStep(fs, Scan(p).0, Scan(p).1);
    MakeDirsKeeps(fs, Scan(p).0);
    MakeDirOutcome(MakeDirs(fs, Scan(p).0), Parts(p));
  }

  /** Nothing is made for the first character, and nothing at all for "". */
  lemma FirstScan(fs: Fs, p: string)
    ensures p != "" ==> Scan(p[..1]).0 == []
    ensures MakeDirs(fs, []) == fs && Parts("") == [] && There(fs, [])
  {
  }
}
