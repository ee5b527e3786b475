/** What a copy looks like next to its source, told without the sender's loops: the places
    of a source tree, and which of them the receiver has afterwards. */
module Mirror {
  import opened Packets
  import opened Paths
  import opened FileSystem
  import opened Chunks
  import opened Interpreter
  import opened LinkFree
  import opened Output
  import opened Trees
  import opened Arrival

  // ---------------------------------------------------------------- the source

  /** Below the top of the source tree `t`, the names `ns` lead to `node`. */
  predicate Holds(t: Tree, ns: seq<string>, node: Tree)
    decreases |ns|
  {
    if ns == [] then node == t
    else
      t.Dir? && exists i ::
        0 <= i < |t.entries| && t.entries[i].name == ns[0] && Holds(t.entries[i].node, ns[1..], node)
  }

  /** It is to be copied: no name is "." or "..", its stat call does not fail, and without
      recursion it is the top or an entry of it that is not a directory. */
  predicate Counts(ns: seq<string>, node: Tree, recursive: bool) {
    && (forall i :: 0 <= i < |ns| ==> ns[i] != "." && ns[i] != "..")
    && !node.Gone? && (!recursive ==> ns == [] || (|ns| == 1 && !node.Dir?))
  }

  /** It is at the receiver: a directory, a file with what its reads delivered, or a link
      with its target. */
  predicate Shows(fs: Fs, l: Loc, node: Tree) {
    match node
    case File(content, results) => l in fs && fs[l] == FileNode(content[..Final(|content|, results, 0, 0)])
    case Link(target) => l in fs && fs[l] == LinkNode(target)
    case Dir(_) => IsDir(fs, l)
    case Gone => true
  }

  /** A tree as a file system has it: entry names are distinct, and path components apart
      from "." and ".."; link targets are what readlink returns. */
  predicate Genuine(t: Tree)
    decreases t, 0
  {
    (t.Link? ==> 0 < |t.target| < MAX_PATH_LEN) && (t.Dir? ==> GenuineAll(t.entries))
  }

  predicate GenuineAll(es: seq<Entry>)
    decreases es, 1
  {
    es != [] ==>
      && (es[0].name == "." || es[0].name == ".." || Name(es[0].name))
      && Genuine(es[0].node) && (forall k :: 1 <= k < |es| ==> es[k].name != es[0].name)
      && GenuineAll(es[1..])
  }

  /** The remote paths of all that is to be copied are shorter than the name field. */
  ghost predicate PathsFit(t: Tree, remote: CString, recursive: bool) {
    forall ns, node :: Holds(t, ns, node) && Counts(ns, node, recursive) ==> |remote| + Span(ns) < 256
  }

  lemma {:induction false} GenuineReadable(t: Tree, recursive: bool)
    requires Genuine(t)
    ensures Readable(t, recursive)
    decreases t, 0
  {
    if t.Dir? { GenuineReadableAll(t.entries, recursive); }
  }

  lemma {:induction false} GenuineReadableAll(es: seq<Entry>, recursive: bool)
    requires GenuineAll(es)
    ensures ReadableAll(es, recursive)
    decreases es, 1
  {
    if es != [] {
      GenuineReadable(es[0].node, recursive);
      GenuineReadableAll(es[1..], recursive);
    }
  }

  lemma SkippedIff(e: Entry, recursive: bool)
    ensures Skipped(e, recursive) <==>
      e.name == "." || e.name == ".." || e.node.Gone? || (!recursive && e.node.Dir?)
  {
  }

  /** Going down one name. */
  lemma HoldsBelow(t: Tree, i: nat, ns: seq<string>, node: Tree)
    requires t.Dir? && i < |t.entries| && Holds(t.entries[i].node, ns, node)
    ensures Holds(t, [t.entries[i].name] + ns, node)
  {
    assert ([t.entries[i].name] + ns)[1..] == ns;
  }

  lemma CountsBelow(n: string, ns: seq<string>, node: Tree, recursive: bool)
    requires n != "." && n != ".." && Counts(ns, node, recursive) && (!recursive ==> ns == [] && !node.Dir?)
    ensures Counts([n] + ns, node, recursive)
  {
  }

  lemma {:induction false} PathsFitFits(t: Tree, remote: CString, recursive: bool)
    requires !t.Gone? && PathsFit(t, remote, recursive)
    ensures Fits(t, remote, recursive)
    decreases t, 2
  {
    assert Holds(t, [], t) && Counts([], t, recursive) && Span([]) == 0;
    if t.Dir? { PathsFitAll(t, 0, remote, recursive); }
  }

  lemma {:induction false} PathsFitAll(t: Tree, i: nat, remote: CString, recursive: bool)
    requires t.Dir? && i <= |t.entries| && PathsFit(t, remote, recursive)
    ensures FitsAll(t.entries[i..], remote, recursive)
    decreases t, 1, |t.entries| - i
  {
    hide Skipped, Span, Holds, Counts, Join;
    if i < |t.entries| {
      PathsFitAll(t, i + 1, remote, recursive);
      var e := t.entries[i];
      assert t.entries[i..][1..] == t.entries[i + 1..] && t.entries[i..][0] == e;
      if !Skipped(e, recursive) {
        SkippedIff(e, recursive);
        EntryPathsFit(t, i, remote, recursive);
        PathsFitFits(e.node, Join(remote, e.name), recursive);
      }
    }
  }

  lemma EntryPathsFit(t: Tree, i: nat, remote: CString, recursive: bool)
    requires t.Dir? && i < |t.entries| && PathsFit(t, remote, recursive) && !Skipped(t.entries[i], recursive)
    ensures PathsFit(t.entries[i].node, Join(remote, t.entries[i].name), recursive)
  {
    hide Span, Holds, Skipped;
    var e := t.entries[i];
    SkippedIff(e, recursive);
    forall ns, node | Holds(e.node, ns, node) && Counts(ns, node, recursive)
      ensures |Join(remote, e.name)| + Span(ns) < 256
    {
      if !recursive { LeafHolds(e.node, ns, node); }
      HoldsBelow(t, i, ns, node);
      CountsBelow(e.name, ns, node, recursive);
      SpanAppend([e.name], ns);
      SpanNone();
      SpanSnoc([], e.name);
      assert [] + [e.name] == [e.name];
    }
  }

  lemma LeafHolds(t: Tree, ns: seq<string>, node: Tree)
    requires Holds(t, ns, node) && !t.Dir?
    ensures ns == [] && node == t
  {
  }

  /** Such a tree can be sent. */
  lemma GenuineSendable(t: Tree, remote: CString, recursive: bool)
    requires Genuine(t) && !t.Gone? && PathsFit(t, remote, recursive)
    ensures Sendable(t, remote, recursive)
  {
    hide Genuine, PathsFit, Sendable, Readable, Fits;
    GenuineReadable(t, recursive);
    PathsFitFits(t, remote, recursive);
    SendableIff(t, remote, recursive);
  }

  // ---------------------------------------------------------------- what is put is what counts

  /** Everything that counts is put in its place. */
  lemma {:induction false} CountedIsPut(t: Tree, at: Loc, ns: seq<string>, node: Tree, recursive: bool)
    requires Genuine(t) && Holds(t, ns, node) && Counts(ns, node, recursive)
    ensures at + ns in Image(t, at, recursive) && Shows(Image(t, at, recursive), at + ns, node)
    decreases |ns|
  {
    hide Final, Skipped;
    if ns == [] {
      assert at + ns == at;
      if t.Dir? { ImageAllBelow(t.entries, at, recursive); }
    } else {
      var i :| 0 <= i < |t.entries| && t.entries[i].name == ns[0] && Holds(t.entries[i].node, ns[1..], node);
      var e := t.entries[i];
      SkippedIff(e, recursive);
      if e.node.Gone? || !e.node.Dir? { LeafHolds(e.node, ns[1..], node); }
      GenuineAt(t.entries, i);
      CountedIsPut(e.node, at + [e.name], ns[1..], node, recursive);
      assert at + ns == (at + [e.name]) + ns[1..];
      EntryInImage(t.entries, i, at, at + ns, recursive);
      assert at < at + ns;
    }
  }

  lemma {:induction false} GenuineAt(es: seq<Entry>, i: nat)
    requires GenuineAll(es) && i < |es|
    ensures Genuine(es[i].node)
    decreases i
  {
    if i > 0 { GenuineAt(es[1..], i - 1); }
  }

  /** No other entry covers what an entry puts. */
  lemma {:induction false} EntryInImage(es: seq<Entry>, i: nat, at: Loc, k: Loc, recursive: bool)
    requires GenuineAll(es) && i < |es| && !Skipped(es[i], recursive)
    requires k in Image(es[i].node, at + [es[i].name], recursive)
    ensures k in ImageAll(es, at, recursive)
    ensures ImageAll(es, at, recursive)[k] == Image(es[i].node, at + [es[i].name], recursive)[k]
    decreases i
  {
    hide Image, Skipped;
    ImageBelow(es[i].node, at + [es[i].name], recursive);
    if i > 0 {
      EntryInImage(es[1..], i - 1, at, k, recursive);
    } else {
      ImageAllBelow(es[1..], at, recursive);
      assert (at + [es[0].name])[|at|] == es[0].name == k[|at|];
    }
  }

  /** Only what counts is put anywhere. */
  lemma {:induction false} PutIsCounted(t: Tree, at: Loc, k: Loc, recursive: bool) returns (ns: seq<string>, node: Tree)
    requires k in Image(t, at, recursive)
    ensures Holds(t, ns, node) && Counts(ns, node, recursive) && k == at + ns
    decreases t, 0
  {
    if k == at {
      ns, node := [], t;
    } else {
      var i: nat;
      i, ns, node := PutIsCountedAll(t, 0, at, k, recursive);
    }
  }

  lemma {:induction false} PutIsCountedAll(t: Tree, j: nat, at: Loc, k: Loc, recursive: bool)
    returns (i: nat, ns: seq<string>, node: Tree)
    requires t.Dir? && j <= |t.entries| && k in ImageAll(t.entries[j..], at, recursive)
    ensures Holds(t, ns, node) && Counts(ns, node, recursive) && k == at + ns
    decreases t, 0, |t.entries| - j
  {
    hide Skipped, Image;
    var e := t.entries[j];
    assert t.entries[j..][1..] == t.entries[j + 1..] && t.entries[j..][0] == e;
    if k in ImageAll(t.entries[j + 1..], at, recursive) {
      i, ns, node := PutIsCountedAll(t, j + 1, at, k, recursive);
    } else {
      i := j;
      SkippedIff(e, recursive);
      var ms;
      ms, node := PutIsCounted(e.node, at + [e.name], k, recursive);
      if !recursive { LeafHolds(e.node, ms, node); }
      ns := [e.name] + ms;
      HoldsBelow(t, j, ms, node);
      CountsBelow(e.name, ms, node, recursive);
      assert at + ns == (at + [e.name]) + ms;
    }
  }

  // ---------------------------------------------------------------- the copy

  /** `out` is a copy of the source tree at the place `at`: all that is to be copied is
      there, and everything else is as in `fs`. */
  ghost predicate Mirrors(fs: Fs, out: Fs, t: Tree, at: Loc, recursive: bool) {
    && (forall ns, node :: Holds(t, ns, node) && Counts(ns, node, recursive) ==> Shows(out, at + ns, node))
    && (forall l :: !Same(fs, out, l) ==>
          exists ns, node :: Holds(t, ns, node) && Counts(ns, node, recursive) && l == at + ns)
  }

  /** The directories that are made before the tree is put. */
  function Ground(fs: Fs, cs: seq<string>, t: Tree): Fs {
    if t.Dir? then MkdirAll(fs, cs) else if cs == [] then fs else MkdirAll(fs, Front(cs))
  }

  lemma PutMirrors(fs: Fs, cs: seq<string>, t: Tree, recursive: bool)
    requires Genuine(t) && !t.Gone? && Welcome(fs, cs, t, recursive)
    ensures Mirrors(Ground(fs, cs, t), Put(fs, cs, t, recursive), t, Norm(cs), recursive)
  {
    hide WellFormed, MkdirAll, Norm, Reaches, Holds, Counts, Genuine, Takes, TakesAll;
    var out, at := Put(fs, cs, t, recursive), Norm(cs);
    forall ns, node | Holds(t, ns, node) && Counts(ns, node, recursive) ensures Shows(out, at + ns, node) {
      CountedIsPut(t, at, ns, node, recursive);
      if t.Dir? { PutShows(MkdirAll(fs, cs), t, at, ns, node, recursive); }
    }
    forall l | !Same(Ground(fs, cs, t), out, l)
      ensures exists ns, node :: Holds(t, ns, node) && Counts(ns, node, recursive) && l == at + ns
    {
      assert l in Image(t, at, recursive);
      var ns, node := PutIsCounted(t, at, l, recursive);
    }
  }

  lemma PutShows(fs: Fs, t: Tree, at: Loc, ns: seq<string>, node: Tree, recursive: bool)
    requires t.Dir? && IsDir(fs, at) && at + ns in Image(t, at, recursive)
    requires Shows(Image(t, at, recursive), at + ns, node) && Holds(t, ns, node)
    ensures Shows(fs + ImageAll(t.entries, at, recursive), at + ns, node)
  {
    hide ImageAll, Final;
    ImageAllBelow(t.entries, at, recursive);
    if ns == [] { assert at + ns == at; }
    else { assert at + ns != at by { assert |at + ns| > |at|; } }
  }

  /** A whole transfer, seen from the source: with recursion every place of the tree is at
      the receiver, every subdirectory included; without it exactly the top directory and
      its entries that are no directories; and nothing else has changed but for the
      directories on the way. What the receiver had at the places of files and links does
      not matter. */
  lemma TransferMirrors(base: string, x: Ctx, t: Tree, remote: CString, recursive: bool)
    requires Genuine(t) && !t.Gone? && PathsFit(t, remote, recursive) && Placed(t, remote)
    requires |base| + MAX_FILENAME_LEN < MAX_PATH_LEN && Welcome(x.fs, PathOf(base, remote), t, recursive)
    ensures var cs := PathOf(base, remote);
      Mirrors(Ground(x.fs, cs, t), InterpAll(base, x, Compile(t, remote, recursive) + [TransferEnd]).fs, t, Norm(cs),
        recursive)
  {
    hide Genuine, PathsFit, Placed, Welcome, Mirrors, InterpAll, Compile, PathOf, Put, Norm, Ground, Sendable, Ready;
    GenuineSendable(t, remote, recursive);
    TreeRoundTrip(base, x, t, remote, recursive);
    PutMirrors(x.fs, PathOf(base, remote), t, recursive);
  }

  /** With full reads a file's reads deliver all of it, wherever in the tree it is. */
  lemma {:induction false} FullEverywhere(t: Tree, ns: seq<string>, node: Tree)
    requires FullReads(t) && Holds(t, ns, node) && node.File?
    ensures node.content[..Final(|node.content|, node.results, 0, 0)] == node.content
    decreases |ns|
  {
    if ns == [] {
      FullReadsComplete(|node.content|);
    } else {
      var i :| 0 <= i < |t.entries| && t.entries[i].name == ns[0] && Holds(t.entries[i].node, ns[1..], node);
      assert t.entries[i] in t.entries;
      FullEverywhere(t.entries[i].node, ns[1..], node);
    }
  }
}
