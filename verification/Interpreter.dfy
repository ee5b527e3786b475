/** The receiver's command interpreter as a function from packet to packet: the open
    file, the current path, the static file kind and the file system it builds. */
module Interpreter {
  import opened Packets
  import opened Paths
  import opened FileSystem

  datatype Ctx = Ctx(fs: Fs, fd: Option<Loc>, path: string, kind: FileKind)

  /** lseek and write: a gap before `offset` reads as zeros, but no bytes make no gap. */
  function WriteAt(data: seq<byte>, offset: nat, bytes: seq<byte>): seq<byte> {
    if bytes == [] then data
    else
      var padded := if |data| < offset then data + seq(offset - |data|, _ => 0) else data;
      padded[..offset] + bytes + if offset + |bytes| < |padded| then padded[offset + |bytes|..] else []
  }

  /** Byte by byte: the bytes written, the old ones around them, zeros in a gap. */
  lemma WriteAtIs(data: seq<byte>, offset: nat, bytes: seq<byte>)
    ensures var r := WriteAt(data, offset, bytes);
      && (|r| == if bytes == [] || offset + |bytes| <= |data| then |data| else offset + |bytes|)
      && forall k :: 0 <= k < |r| ==>
           r[k] == if offset <= k < offset + |bytes| then bytes[k - offset] else if k < |data| then data[k] else 0
  {
  }

  function Take(bytes: seq<byte>, n: nat): seq<byte> {
    if n <= |bytes| then bytes[..n] else bytes
  }

  /** Make the directories above `path`. */
  function MakeParents(fs: Fs, path: string): Fs {
    MakeDirs(fs, Above(path))
  }

  /** stat says that there is a directory. */
  predicate FindsDir(fs: Fs, cs: seq<string>) { Finds(fs, cs).Some? && IsDir(fs, Finds(fs, cs).value) }

  /** open with O_CREAT | O_TRUNC. */
  function Create(fs: Fs, path: string): (Fs, Option<Loc>) {
    var at := Finds(fs, Parts(path));
    if Trailing(path) || at.None? then (fs, None) else OpenAt(fs, at.value)
  }

  function OpenAt(fs: Fs, c: Loc): (Fs, Option<Loc>) {
    if c == [] || (c in fs && !fs[c].FileNode?) then (fs, None) else (fs[c := FileNode([])], Some(c))
  }

  /** unlink, then symlink. */
  function Relink(fs: Fs, path: string, target: seq<byte>): Fs {
    var at := Lands(fs, Parts(path));
    if Trailing(path) || at.None? then fs else LinkAt(fs, at.value, target)
  }

  function LinkAt(fs: Fs, c: Loc, target: seq<byte>): Fs {
    if IsDir(fs, c) then fs
    else if target == [] then fs - {c}
    else fs[c := LinkNode(target)]
  }

  function OnMeta(base: string, x: Ctx, name: string, kind: FileKind): Ctx {
    var path := Target(base, name);
    if FindsDir(x.fs, Parts(path)) then
      Ctx(x.fs, None, path, kind)
    else
      var fs1 := MakeParents(x.fs, path);
      if kind.Symlink? then Ctx(fs1, None, path, kind)
      else
        var (fs2, fd) := Create(fs1, path);
        Ctx(fs2, fd, path, kind)
  }

  /** The buffer for a link's target has room for so many bytes. */
  function LinkLength(length: nat): nat { if length >= MAX_PATH_LEN then MAX_PATH_LEN - 1 else length }

  /** What such a buffer holds as a C string. */
  function LinkText(length: nat, bytes: seq<byte>): seq<byte> { BeforeNul(Take(bytes, LinkLength(length))) }

  lemma WholeLink(target: CBytes)
    requires |target| < MAX_PATH_LEN
    ensures LinkText(|target|, target) == target
  {
    BeforeNulAll(target);
    assert Take(target, LinkLength(|target|)) == target;
  }

  function OnData(x: Ctx, length: nat, offset: nat, bytes: seq<byte>): Ctx {
    if x.kind.Symlink? then
      x.(fs := Relink(x.fs, x.path, LinkText(length, bytes)))
    else if x.fd.Some? && x.fd.value in x.fs && x.fs[x.fd.value].FileNode? then
      x.(fs := x.fs[x.fd.value := FileNode(WriteAt(x.fs[x.fd.value].data, offset, Take(bytes, length)))])
    else
      x
  }

  function Interp(base: string, x: Ctx, p: Packet): Ctx {
    match p
    case FileMeta(name, _, kind, _) => OnMeta(base, x, name, kind)
    case FileData(_, length, offset, bytes) => OnData(x, length, offset, bytes)
    case DirEnter(name) =>
      var path := Target(base, name);
      x.(fs := MakeDirs(x.fs, Parts(path)), path := path)
    case DirLeave => x.(fd := None)
    case TransferEnd => x.(fd := None)
    case Blank => x
  }

  function InterpAll(base: string, x: Ctx, ps: seq<Packet>): Ctx
    decreases |ps|
  {
    if ps == [] then x else InterpAll(base, Interp(base, x, ps[0]), ps[1..])
  }

  lemma {:induction false} InterpAppend(base: string, x: Ctx, ps: seq<Packet>, qs: seq<Packet>)
    ensures InterpAll(base, x, ps + qs) == InterpAll(base, InterpAll(base, x, ps), qs)
    decreases |ps|
  {
    if ps == [] {
      assert ps + qs == qs;
    } else {
      assert (ps + qs)[1..] == ps[1..] + qs;
      InterpAppend(base, Interp(base, x, ps[0]), ps[1..], qs);
    }
  }

  lemma InterpOne(base: string, x: Ctx, p: Packet)
    ensures InterpAll(base, x, [p]) == Interp(base, x, p)
  {
  }
}
