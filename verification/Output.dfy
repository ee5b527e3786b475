/** The receiver's half of the interpreter in its own form: the local variables of
    scp_receiver_run that the commands update, and the code of each command. */
module Output {
  import opened Packets
  import opened Paths
  import opened FileSystem
  import opened Interpreter

  /** Interpreting a packet keeps every entry inside a directory. */
  lemma InterpWellFormed(base: string, x: Ctx, p: Packet)
    requires WellFormed(x.fs)
    ensures WellFormed(Interp(base, x, p).fs)
  {
    hide Parts, Target, MakeDirs, Above, WellFormed, Create, Relink, Grown, Finds;
    match p
    case FileMeta(name, _, kind, _) =>
      var path := Target(base, name);
      MakeDirsKeeps(x.fs, Above(path));
      CreateWellFormed(MakeDirs(x.fs, Above(path)), path);
    case FileData(_, length, offset, bytes) =>
      RelinkWellFormed(x.fs, x.path, LinkText(length, bytes));
      if x.fd.Some? && x.fd.value in x.fs && x.fs[x.fd.value].FileNode? {
        RewriteWellFormed(x.fs, x.fd.value, WriteAt(x.fs[x.fd.value].data, offset, Take(bytes, length)));
      }
    case DirEnter(name) => MakeDirsKeeps(x.fs, Parts(Target(base, name)));
    case _ =>
  }

  /** Anything but a directory may be put into a directory or replace its like. */
  lemma PutNode(fs: Fs, c: Loc, n: Node)
    requires WellFormed(fs) && c != [] && (c in fs || IsDir(fs, Parent(c))) && !IsDir(fs, c)
    ensures WellFormed(fs[c := n]) && WellFormed(fs - {c})
  {
  }

  lemma CreateWellFormed(fs: Fs, path: string)
    requires WellFormed(fs)
    ensures WellFormed(Create(fs, path).0)
  {
    hide WellFormed, Walk, Parts;
    if Create(fs, path).1.Some? {
      WalkPlace(fs, [], Parts(path), MAX_LINKS);
      PutNode(fs, Finds(fs, Parts(path)).value, FileNode([]));
    }
  }

  lemma RewriteWellFormed(fs: Fs, c: Loc, data: seq<byte>)
    requires WellFormed(fs) && c in fs && fs[c].FileNode?
    ensures WellFormed(fs[c := FileNode(data)])
  {
  }

  lemma RelinkWellFormed(fs: Fs, path: string, target: seq<byte>)
    requires WellFormed(fs)
    ensures WellFormed(Relink(fs, path, target))
  {
    hide WellFormed, Lands, Parts;
    var at := Lands(fs, Parts(path));
    if at.Some? && !IsDir(fs, at.value) {
      if !There(fs, Parts(path)) { LandsPlace(fs, Parts(path)); }
      PutNode(fs, at.value, LinkNode(target));
    }
  }

  // ---------------------------------------------------------------- directories stay

  lemma NotRoot(fs: Fs, l: Loc)
    requires WellFormed(fs) && l in fs
    ensures l != []
  {
  }

  lemma InterpKeepsDirs(base: string, x: Ctx, p: Packet)
    requires WellFormed(x.fs)
    ensures DirsKept(x.fs, Interp(base, x, p).fs) && WellFormed(Interp(base, x, p).fs)
  {
    hide WellFormed, MakeDirs, Parts, Target, Above, Finds, Lands, Kept, DirsKept;
    InterpWellFormed(base, x, p);
    DirsKeptSame(x.fs);
    match p
    case FileMeta(name, _, kind, _) =>
      var t := Target(base, name);
      MakeDirsKeeps(x.fs, Above(t));
      KeptDirs(x.fs, MakeDirs(x.fs, Above(t)));
      CreateKeepsDirs(MakeDirs(x.fs, Above(t)), t);
      DirsKeptTrans(x.fs, MakeDirs(x.fs, Above(t)), Create(MakeDirs(x.fs, Above(t)), t).0);
    case FileData(_, length, offset, bytes) =>
      if x.kind.Symlink? {
        RelinkKeepsDirs(x.fs, x.path, LinkText(length, bytes));
      } else if x.fd.Some? && x.fd.value in x.fs && x.fs[x.fd.value].FileNode? {
        NotRoot(x.fs, x.fd.value);
        PutKeepsDirs(x.fs, x.fd.value, FileNode(WriteAt(x.fs[x.fd.value].data, offset, Take(bytes, length))));
      }
    case DirEnter(name) =>
      MakeDirsKeeps(x.fs, Parts(Target(base, name)));
      KeptDirs(x.fs, MakeDirs(x.fs, Parts(Target(base, name))));
    case _ =>
  }

  lemma DirsKeptSame(fs: Fs)
    ensures DirsKept(fs, fs)
  {
  }

  lemma DirsKeptTrans(a: Fs, b: Fs, c: Fs)
    requires DirsKept(a, b) && DirsKept(b, c)
    ensures DirsKept(a, c)
  {
  }

  lemma PutKeepsDirs(fs: Fs, l: Loc, n: Node)
    requires !IsDir(fs, l)
    ensures DirsKept(fs, fs[l := n]) && DirsKept(fs, fs - {l})
  {
  }

  lemma CreateKeepsDirs(fs: Fs, path: string)
    ensures DirsKept(fs, Create(fs, path).0)
  {
    hide DirsKept, Finds, Parts;
    DirsKeptSame(fs);
    var at := Finds(fs, Parts(path));
    if Create(fs, path).1.Some? { PutKeepsDirs(fs, at.value, FileNode([])); }
  }

  lemma RelinkKeepsDirs(fs: Fs, path: string, target: seq<byte>)
    ensures DirsKept(fs, Relink(fs, path, target))
  {
    hide DirsKept, Lands, Parts;
    DirsKeptSame(fs);
    var at := Lands(fs, Parts(path));
    if at.Some? && !IsDir(fs, at.value) { PutKeepsDirs(fs, at.value, LinkNode(target)); }
  }

  /** No packet stream removes a directory. */
  lemma {:induction false} StreamKeepsDirs(base: string, x: Ctx, ps: seq<Packet>)
    requires WellFormed(x.fs)
    ensures DirsKept(x.fs, InterpAll(base, x, ps).fs) && WellFormed(InterpAll(base, x, ps).fs)
    decreases |ps|
  {
    hide WellFormed, Interp;
    if ps != [] {
      InterpKeepsDirs(base, x, ps[0]);
      StreamKeepsDirs(base, Interp(base, x, ps[0]), ps[1..]);
    }
  }

  // ---------------------------------------------------------------- the commands

  class Files {
    // base_dir, current_fd, current_path and meta_type; the file system they act on
    const base: CString
    var currentFd: Option<Loc>
    var currentPath: CString
    var metaType: FileKind
    var fs: Fs

    constructor (base: CString, fs: Fs)
      ensures this.base == base && Here() == Ctx(fs, None, "", Regular)
    {
      this.base := base;
      this.fs := fs;
      currentFd, currentPath, metaType := None, "", Regular;
    }

    function Here(): Ctx
      reads this
    {
      Ctx(fs, currentFd, currentPath, metaType)
    }

    /** base_dir without trailing slashes, a slash, the name without leading ones. */
    method BuildPath(name: CString) returns (path: CString)
      ensures path == Target(base, name)
    {
      hide StripLeading, StripTrailing;
      var i := 0;
      assert name[0..] == name;
      while i < |name| && name[i] == '/'
        invariant i <= |name| && StripLeading(name[i..]) == StripLeading(name)
      {
        StripLeadingFrom(name, i);
        i := i + 1;
      }
      var blen := |base|;
      assert base[..blen] == base;
      while blen > 0 && base[blen - 1] == '/'
        invariant 0 <= blen <= |base| && StripTrailing(base[..blen]) == StripTrailing(base)
      {
        StripTrailingTo(base, blen);
        blen := blen - 1;
      }
      StripLeadingFrom(name, i);
      StripTrailingTo(base, blen);
      path := Clip(base[..blen] + "/" + name[i..], MAX_PATH_LEN);
    }

    /** The path is cut at its last slash for the call and restored afterwards. */
    method MakeParentDirs()
      requires WellFormed(fs) && |currentPath| < MAX_PATH_LEN
      modifies this`fs
      ensures fs == MakeParents(old(fs), currentPath)
    {
      hide MakeDirs, WellFormed;
      var last := LastSlash(currentPath);
      if last > 0 {
        var _, fs1 := MkdirRecursive(currentPath[..last], fs);
        fs := fs1;
      } else {
        NoParents();
      }
    }

    lemma NoParents()
      ensures MakeDirs(fs, Parts("")) == fs && MakeDirs(fs, []) == fs
    {
    }

    method OnFileMeta(name: CString, size: nat, kind: FileKind, chunks: nat)
      requires WellFormed(fs)
      modifies this
      ensures Here() == Interp(base, old(Here()), FileMeta(name, size, kind, chunks))
    {
      hide MakeDirs, WellFormed, Parts, Target, Finds;
      metaType := kind;
      currentPath := BuildPath(name);
      TargetShort(base, name);
      if FindsDir(fs, Parts(currentPath)) {
        currentFd := None;
      } else {
        MakeParentDirs();
        currentFd := None;
        if !metaType.Symlink? {
          var made := Create(fs, currentPath);
          fs, currentFd := made.0, made.1;
        }
      }
    }

    method OnFileData(index: nat, length: nat, offset: nat, bytes: seq<byte>)
      modifies this
      ensures Here() == Interp(base, old(Here()), FileData(index, length, offset, bytes))
    {
      hide Parts, Lands;
      if metaType.Symlink? {
        var len := length;
        if len >= MAX_PATH_LEN { len := MAX_PATH_LEN - 1; }
        var linkTarget := BeforeNul(Take(bytes, len));
        var at := Lands(fs, Parts(currentPath));
        if !Trailing(currentPath) && at.Some? && at.value != [] {
          var c := at.value;
          if c in fs && !fs[c].DirNode? { fs := fs - {c}; }
          if c !in fs && linkTarget != [] { fs := fs[c := LinkNode(linkTarget)]; }
        }
      } else if currentFd.Some? {
        var c := currentFd.value;
        if c in fs && fs[c].FileNode? {
          fs := fs[c := FileNode(WriteAt(fs[c].data, offset, Take(bytes, length)))];
        }
      }
    }

    method OnDirEnter(name: CString)
      requires WellFormed(fs)
      modifies this
      ensures Here() == Interp(base, old(Here()), DirEnter(name))
    {
      hide MakeDirs, WellFormed, Parts, Target;
      currentPath := BuildPath(name);
      TargetShort(base, name);
      var _, fs1 := MkdirRecursive(currentPath, fs);
      fs := fs1;
    }

    /** The command switch of the receive loop. */
    method Execute(p: Packet)
      requires WellFormed(fs)
      modifies this
      ensures Here() == Interp(base, old(Here()), p) && WellFormed(fs)
    {
      hide MakeDirs, WellFormed, Parts, Target, OnMeta, OnData;
      InterpWellFormed(base, Here(), p);
      match p
      case FileMeta(name, size, kind, chunks) => OnFileMeta(name, size, kind, chunks);
      case FileData(index, length, offset, bytes) => OnFileData(index, length, offset, bytes);
      case DirEnter(name) => OnDirEnter(name);
      case DirLeave => currentFd := None;
      case TransferEnd => currentFd := None;
      case Blank =>
    }
  }

  lemma TargetShort(base: string, name: string)
    ensures 0 < |Target(base, name)| < MAX_PATH_LEN
  {
  }
}
