/** Path strings as both programs build them, their components, and the place a
    sequence of components leads to. */
module Paths {
  const MAX_PATH_LEN: nat := 4096

  predicate Name(c: string) { c != "" && c != "." && c != ".." && '/' !in c && '\0' !in c }

  /** snprintf and strncpy keep at most `n - 1` characters. */
  function Clip(p: string, n: nat): (r: string)
    requires n > 0
    ensures r <= p && |r| < n
    ensures |p| < n ==> r == p
    ensures '\0' !in p ==> '\0' !in r
  {
    if |p| < n then p else p[..n - 1]
  }

  /** Empty components, between adjacent slashes, do not count. */
  function Component(c: string): seq<string> {
    if c == "" then [] else [c]
  }

  /** Completed components, and the one being read. */
  function Scan(p: string): (r: (seq<string>, string)) {
    if p == "" then
      ([], "")
    else
      var (done, cur) := Scan(p[..|p| - 1]);
      var ch := p[|p| - 1];
      if ch == '/' then (done + Component(cur), "") else (done, cur + [ch])
  }

  function Parts(p: string): seq<string> {
    var (done, cur) := Scan(p);
    done + Component(cur)
  }

  lemma ScanSnoc(p: string, ch: char)
    ensures Scan(p + [ch]) == (var (done, cur) := Scan(p);
      if ch == '/' then (done + Component(cur), "") else (done, cur + [ch]))
  {
  }

  lemma {:induction false} ScanJoin(a: string, b: string)
    ensures Scan(a + "/" + b) == (Parts(a) + Scan(b).0, Scan(b).1)
  {
    if b == "" {
      assert a + "/" + b == a + ['/'];
      ScanSnoc(a, '/');
      assert Parts(a) + Scan(b).0 == Parts(a);
    } else {
      var b', ch := b[..|b| - 1], b[|b| - 1];
      ScanJoin(a, b');
      assert a + "/" + b == (a + "/" + b') + [ch];
      ScanSnoc(a + "/" + b', ch);
      assert (Parts(a) + Scan(b').0) + Component(Scan(b').1) == Parts(a) + (Scan(b').0 + Component(Scan(b').1));
    }
  }

  /** Joining path strings with a slash joins what they resolve to. */
  lemma PartsJoin(a: string, b: string)
    ensures Parts(a + "/" + b) == Parts(a) + Parts(b)
  {
    ScanJoin(a, b);
  }

  /** No slash after position `i`. */
  predicate PlainAfter(p: string, i: int) {
    forall k :: i < k < |p| && 0 <= k ==> p[k] != '/'
  }

  lemma {:induction false} ScanName(c: string)
    requires PlainAfter(c, -1)
    ensures Scan(c) == ([], c)
  {
    if c != "" {
      ScanName(c[..|c| - 1]);
      assert c == c[..|c| - 1] + [c[|c| - 1]];
    }
  }

  lemma PartsName(c: string)
    requires Name(c)
    ensures Parts(c) == [c]
  {
    assert forall k :: 0 <= k < |c| ==> c[k] in c;
    ScanName(c);
  }

  function StripLeading(p: string): string {
    if p != "" && p[0] == '/' then StripLeading(p[1..]) else p
  }

  function StripTrailing(p: string): string {
    if p != "" && p[|p| - 1] == '/' then StripTrailing(p[..|p| - 1]) else p
  }

  /** Only slashes go, and all of them: `p` from its first other character on. */
  lemma {:induction false} LeadingGone(p: string)
    ensures var r := StripLeading(p);
      && |r| <= |p| && r == p[|p| - |r|..] && (r != "" ==> r[0] != '/')
      && forall k :: 0 <= k < |p| - |r| ==> p[k] == '/'
  {
    if p != "" && p[0] == '/' {
      LeadingGone(p[1..]);
      forall k | 0 <= k < |p| - |StripLeading(p)| ensures p[k] == '/' {
        if k > 0 { assert p[1..][k - 1] == p[k]; }
      }
    }
  }

  /** And `p` up to its last other character. */
  lemma {:induction false} TrailingGone(p: string)
    ensures var r := StripTrailing(p);
      && r <= p && (r != "" ==> r[|r| - 1] != '/')
      && forall k :: |r| <= k < |p| ==> p[k] == '/'
  {
    if p != "" && p[|p| - 1] == '/' { TrailingGone(p[..|p| - 1]); }
  }

  lemma StripLeadingFrom(p: string, i: nat)
    requires i <= |p|
    ensures StripLeading(p[i..]) == if i < |p| && p[i] == '/' then StripLeading(p[i + 1..]) else p[i..]
  {
    if i < |p| { assert p[i..][1..] == p[i + 1..]; }
  }

  lemma StripTrailingTo(p: string, i: nat)
    requires i <= |p|
    ensures StripTrailing(p[..i]) == if i > 0 && p[i - 1] == '/' then StripTrailing(p[..i - 1]) else p[..i]
  {
    if i > 0 { assert p[..i][..i - 1] == p[..i - 1]; }
  }

  lemma {:induction false} StripLeadingKeeps(p: string)
    ensures Parts(StripLeading(p)) == Parts(p)
  {
    if p != "" && p[0] == '/' {
      StripLeadingKeeps(p[1..]);
      assert p == "" + "/" + p[1..];
      PartsJoin("", p[1..]);
    }
  }

  lemma {:induction false} StripTrailingKeeps(p: string)
    ensures Parts(StripTrailing(p)) == Parts(p)
  {
    if p != "" && p[|p| - 1] == '/' {
      StripTrailingKeeps(p[..|p| - 1]);
      assert p == p[..|p| - 1] + "/" + "";
      PartsJoin(p[..|p| - 1], "");
    }
  }

  /** The receiver's target path: output directory without trailing slashes, a
      slash, the received name without leading slashes. */
  function Target(base: string, name: string): string {
    Clip(StripTrailing(base) + "/" + StripLeading(name), MAX_PATH_LEN)
  }

  lemma TargetParts(base: string, name: string)
    requires |base| + 1 + |name| < MAX_PATH_LEN
    ensures Parts(Target(base, name)) == Parts(base) + Parts(name)
  {
    StripLengths(base, name);
    PartsJoin(StripTrailing(base), StripLeading(name));
    StripTrailingKeeps(base);
    StripLeadingKeeps(name);
  }

  lemma {:induction false} StripLengths(a: string, b: string)
    ensures |StripTrailing(a)| <= |a| && |StripLeading(b)| <= |b|
    decreases |a| + |b|
  {
    if a != "" && a[|a| - 1] == '/' { StripLengths(a[..|a| - 1], b); }
    else if b != "" && b[0] == '/' { StripLengths(a, b[1..]); }
  }

  /** What precedes the last slash, as strrchr finds it. */
  function LastSlash(p: string): (i: int)
    ensures -1 <= i < |p|
    ensures i >= 0 ==> p[i] == '/'
    ensures forall k :: i < k < |p| ==> p[k] != '/'
  {
    if p == "" then -1
    else if p[|p| - 1] == '/' then |p| - 1
    else LastSlash(p[..|p| - 1])
  }

  /** The path ends in a slash, so it can only name a directory. */
  predicate Trailing(path: string) { path != "" && path[|path| - 1] == '/' }

  /** The components of the directory part of a path. */
  function Above(path: string): seq<string> {
    if LastSlash(path) < 0 then [] else Parts(path[..LastSlash(path)])
  }

  function LastSegment(p: string): string { p[LastSlash(p) + 1..] }

  lemma {:induction false} LastSlashJoin(a: string, b: string)
    ensures LastSlash(a + "/" + b) == |a| + 1 + LastSlash(b)
    decreases |b|
  {
    if b == "" {
      assert a + "/" + b == a + "/";
    } else {
      var b', ch := b[..|b| - 1], b[|b| - 1];
      assert a + "/" + b == (a + "/" + b') + [ch];
      LastSlashSnoc(a + "/" + b', ch);
      LastSlashSnoc(b', ch);
      assert b == b' + [ch];
      LastSlashJoin(a, b');
    }
  }

  lemma LastSlashSnoc(p: string, ch: char)
    ensures LastSlash(p + [ch]) == if ch == '/' then |p| else LastSlash(p)
  {
    assert (p + [ch])[..|p|] == p;
  }

  lemma LastSegmentJoin(a: string, b: string)
    ensures LastSegment(a + "/" + b) == LastSegment(b)
  {
    hide LastSlash;
    LastSlashJoin(a, b);
    var j := LastSlash(b) + 1;
    assert (a + "/" + b)[|a| + 1 + j..] == b[j..];
  }

  lemma {:induction false} LastSegmentStrip(p: string)
    ensures LastSegment(StripLeading(p)) == LastSegment(p)
  {
    if p != "" && p[0] == '/' {
      LastSegmentStrip(p[1..]);
      assert p == "" + "/" + p[1..];
      LastSegmentJoin("", p[1..]);
    }
  }

  lemma LastSegmentName(p: string)
    requires '/' !in p
    ensures LastSegment(p) == p
  {
  }

  /** Reading one more character leaves the completed components alone, or appends
      at most one. */
  lemma ScanGrows(p: string, i: nat)
    requires i < |p|
    ensures Scan(p[..i]).0 <= Scan(p[..i + 1]).0
    ensures p[i] != '/' ==> Scan(p[..i + 1]).0 == Scan(p[..i]).0
    ensures p[i] == '/' ==> Scan(p[..i + 1]).0 == Scan(p[..i]).0 + Component(Scan(p[..i]).1)
  {
    assert p[..i + 1] == p[..i] + [p[i]];
    ScanSnoc(p[..i], p[i]);
  }

  lemma {:induction false} ScanPrefix(p: string, i: nat)
    requires i <= |p|
    ensures Scan(p[..i]).0 <= Parts(p)
    decreases |p| - i
  {
    if i < |p| {
      ScanGrows(p, i);
      ScanPrefix(p, i + 1);
    } else {
      assert p[..i] == p;
    }
  }

  // ---------------------------------------------------------------- places

  /** A place in the file system: the names on the way down from the root. */
  type Loc = seq<string>

  function Up(l: Loc): Loc { if l == [] then [] else l[..|l| - 1] }

  /** One step of path resolution; the root is its own parent. */
  function Enter(l: Loc, c: string): Loc {
    if c == "" || c == "." then l else if c == ".." then Up(l) else l + [c]
  }

  function Front(cs: seq<string>): seq<string>
    requires cs != []
  {
    cs[..|cs| - 1]
  }

  function Last(cs: seq<string>): string
    requires cs != []
  {
    cs[|cs| - 1]
  }

  /** Where a path leads, if it leads anywhere. */
  function Norm(cs: seq<string>): Loc {
    if cs == [] then [] else Enter(Norm(Front(cs)), Last(cs))
  }

  lemma NormSnoc(cs: seq<string>, c: string)
    ensures Norm(cs + [c]) == Enter(Norm(cs), c)
  {
    assert Front(cs + [c]) == cs;
  }

  /** What comes after depends only on the place reached. */
  lemma {:induction false} NormAppend(a: seq<string>, b: seq<string>, more: seq<string>)
    requires Norm(a) == Norm(b)
    ensures Norm(a + more) == Norm(b + more)
    decreases |more|
  {
    if more == [] {
      assert a + more == a && b + more == b;
    } else {
      NormAppend(a, b, Front(more));
      assert a + more == (a + Front(more)) + [Last(more)] && b + more == (b + Front(more)) + [Last(more)];
      NormSnoc(a + Front(more), Last(more));
      NormSnoc(b + Front(more), Last(more));
    }
  }

  /** "." and an empty component lead nowhere else, ".." undoes one name and stays at the
      root. */
  lemma DotsCancel(cs: seq<string>, n: string, more: seq<string>)
    requires Name(n)
    ensures Norm((cs + ["."]) + more) == Norm((cs + [""]) + more) == Norm(cs + more)
    ensures Norm((cs + [n] + [".."]) + more) == Norm(cs + more)
    ensures Norm([".."] + more) == Norm([] + more)
  {
    hide Norm;
    NormSnoc(cs, ".");
    NormSnoc(cs, "");
    NormSnoc(cs, n);
    NormSnoc(cs + [n], "..");
    NormSnoc([], "..");
    assert [] + [".."] == [".."] && Norm([]) == [] by { NormNone(); }
    assert (Norm(cs) + [n])[..|Norm(cs)|] == Norm(cs);
    NormAppend(cs + ["."], cs, more);
    NormAppend(cs + [""], cs, more);
    NormAppend(cs + [n] + [".."], cs, more);
    NormAppend([".."], [], more);
  }

  lemma NormNone()
    ensures Norm([]) == []
  {
  }

  predicate Plain(cs: seq<string>) { forall i :: 0 <= i < |cs| ==> cs[i] != ".." }

  /** Without ".." a path leads to a place at or below each place on the way. */
  lemma {:induction false} PlainDescends(a: seq<string>, b: seq<string>)
    requires Plain(b)
    ensures Norm(a) <= Norm(a + b)
    decreases |b|
  {
    if b == [] {
      assert a + b == a;
    } else {
      PlainDescends(a, Front(b));
      assert a + b == (a + Front(b)) + [Last(b)];
      NormSnoc(a + Front(b), Last(b));
    }
  }

  /** A path of proper names only leads where it says. */
  lemma {:induction false} NormNames(a: seq<string>, b: seq<string>)
    requires forall i :: 0 <= i < |b| ==> Name(b[i])
    ensures Norm(a + b) == Norm(a) + b
    decreases |b|
  {
    if b == [] {
      assert a + b == a;
    } else {
      NormNames(a, Front(b));
      assert a + b == (a + Front(b)) + [Last(b)];
      NormSnoc(a + Front(b), Last(b));
    }
  }

  // ---------------------------------------------------------------- cut names

  lemma JoinAt(q: string, i: nat)
    requires i < |q| && q[i] == '/'
    ensures q == q[..i] + "/" + q[i + 1..]
  {
  }

  lemma PartsSlash(q: string, i: nat)
    requires i < |q| && q[i] == '/' && PlainAfter(q, i)
    ensures Parts(q) == Parts(q[..i]) + Component(q[i + 1..])
  {
    hide Component;
    PlainRest(q, i);
    PartsPlain(q[i + 1..]);
    JoinAt(q, i);
    PartsJoin(q[..i], q[i + 1..]);
  }

  lemma PlainRest(q: string, i: int)
    requires -1 <= i < |q| && PlainAfter(q, i)
    ensures PlainAfter(q[i + 1..], -1)
  {
  }

  lemma PartsPlain(c: string)
    requires PlainAfter(c, -1)
    ensures Parts(c) == Component(c)
  {
    ScanName(c);
    assert [] + Component(c) == Component(c);
  }

  lemma LastSlashPlain(p: string)
    ensures PlainAfter(p, LastSlash(p))
  {
  }

  /** The directory part is all of the path but what follows the last slash. */
  lemma AbovePrefix(t: string)
    ensures Parts(t) == Above(t) + Component(t[LastSlash(t) + 1..])
  {
    hide Parts, LastSlash, Component, Above;
    if LastSlash(t) >= 0 { AboveSlash(t); } else { AboveNone(t); }
  }

  lemma AboveSlash(t: string)
    requires LastSlash(t) >= 0
    ensures Parts(t) == Above(t) + Component(t[LastSlash(t) + 1..])
  {
    hide Parts, LastSlash, Component, PlainAfter, Above;
    AboveIs(t);
    LastSlashPlain(t);
    PartsSlash(t, LastSlash(t));
  }

  lemma AboveIs(t: string)
    requires LastSlash(t) >= 0
    ensures Above(t) == Parts(t[..LastSlash(t)])
  {
    hide Parts, LastSlash;
  }

  lemma AboveNone(t: string)
    requires LastSlash(t) < 0
    ensures Parts(t) == Above(t) + Component(t[LastSlash(t) + 1..])
  {
    hide Parts, LastSlash, Component, PlainAfter;
    LastSlashPlain(t);
    PartsPlain(t);
    assert LastSlash(t) == -1 && t[0..] == t;
    assert [] + Component(t) == Component(t);
  }

  /** The components `a` are what is left of `b` after cutting off characters at the end:
      all but the last are whole. */
  predicate Cut(a: seq<string>, b: seq<string>) {
    a != [] ==> |a| <= |b| && Front(a) <= b && Last(a) <= b[|a| - 1]
  }

  lemma CutTrans(a: seq<string>, b: seq<string>, c: seq<string>)
    requires Cut(a, b) && Cut(b, c)
    ensures Cut(a, c)
  {
    if a != [] {
      assert |a| < |b| ==> Front(b)[|a| - 1] == c[|a| - 1];
      assert Front(a) <= Front(b);
    }
  }

  lemma CutOne(p: string, ch: char)
    ensures Cut(Parts(p), Parts(p + [ch]))
  {
    ScanSnoc(p, ch);
    var (done, cur) := Scan(p);
    if ch != '/' {
      assert Parts(p + [ch]) == done + [cur + [ch]];
      if cur != "" {
        assert Front(done + [cur]) == done && Last(done + [cur]) == cur;
      } else if done != [] {
        assert Front(done) <= done;
      }
    } else {
      assert Parts(p + [ch]) == Parts(p);
      if Parts(p) != [] { assert Front(Parts(p)) <= Parts(p); }
    }
  }

  lemma {:induction false} CutParts(q: string, p: string)
    requires q <= p
    ensures Cut(Parts(q), Parts(p))
    decreases |p|
  {
    hide Parts;
    if q == p {
      CutSame(Parts(p));
    } else {
      var p' := p[..|p| - 1];
      assert p == p' + [p[|p| - 1]];
      CutOne(p', p[|p| - 1]);
      CutParts(q, p');
      CutTrans(Parts(q), Parts(p'), Parts(p));
    }
  }

  lemma CutSame(cs: seq<string>)
    ensures Cut(cs, cs)
  {
  }

  lemma CutEnter(l: Loc, s: string, c: string)
    requires s <= c && c != ".."
    ensures |Enter(l, s)| <= |Enter(l, c)|
  {
  }

  /** Without ".." a path cut short leads no deeper than the whole one. */
  lemma CutDepth(a: seq<string>, c: seq<string>, cs: seq<string>)
    requires Cut(c, cs) && Plain(cs)
    ensures |Norm(a + c)| <= |Norm(a + cs)|
  {
    hide Norm, Enter;
    if c == [] {
      PlainDescends(a, cs);
      assert a + c == a;
    } else {
      var n := |c| - 1;
      NormAt(a, c, n);
      NormAt(a, cs, n);
      assert c[..n] == cs[..n] && c[..n + 1] == c;
      CutEnter(Norm(a + c[..n]), c[n], cs[n]);
      assert a + cs == (a + cs[..n + 1]) + cs[n + 1..];
      PlainDescends(a + cs[..n + 1], cs[n + 1..]);
    }
  }

  lemma NormAt(a: seq<string>, cs: seq<string>, n: nat)
    requires n < |cs|
    ensures Norm(a + cs[..n + 1]) == Enter(Norm(a + cs[..n]), cs[n])
  {
    hide Norm, Enter;
    assert a + cs[..n + 1] == (a + cs[..n]) + [cs[n]];
    NormSnoc(a + cs[..n], cs[n]);
  }

  /** Without "..", cutting off characters of a proper last name leads elsewhere. */
  lemma CutMisses(a: seq<string>, p: string, q: string)
    requires q < p && Plain(Parts(p)) && Name(LastSegment(p))
    ensures Norm(a + Parts(q)) != Norm(a + Parts(p))
  {
    hide Parts, Norm, LastSlash, LastSegment, Name, Plain, Enter;
    NormNamed(a, p);
    if LastSlash(p) >= |q| {
      CutInDir(a, p, q);
    } else {
      CutInName(a, p, q);
    }
  }

  lemma NormNamed(a: seq<string>, p: string)
    requires Name(LastSegment(p))
    ensures Parts(p) != [] && Norm(a + Parts(p)) == Norm(a + Front(Parts(p))) + [LastSegment(p)]
  {
    hide Parts, Norm, LastSegment, Name, Enter;
    NamedParts(p);
    assert a + Parts(p) == (a + Front(Parts(p))) + [LastSegment(p)];
    NormSnoc(a + Front(Parts(p)), LastSegment(p));
    EnterName(Norm(a + Front(Parts(p))), LastSegment(p));
  }

  lemma CutInDir(a: seq<string>, p: string, q: string)
    requires q < p && Plain(Parts(p)) && Name(LastSegment(p)) && |q| <= LastSlash(p)
    ensures Parts(p) != [] && |Norm(a + Parts(q))| <= |Norm(a + Front(Parts(p)))|
  {
    hide Parts, Norm, LastSegment, Name, Cut;
    NamedParts(p);
    PlainInit(Parts(p));
    CutParts(q, p[..LastSlash(p)]);
    CutDepth(a, Parts(q), Front(Parts(p)));
  }

  lemma CutInName(a: seq<string>, p: string, q: string)
    requires q < p && Name(LastSegment(p)) && LastSlash(p) < |q|
    ensures Parts(p) != [] && Norm(a + Parts(q)) != Norm(a + Front(Parts(p))) + [LastSegment(p)]
  {
    hide Parts, Norm, LastSegment, Name, Component, LastSlash;
    NamedParts(p);
    CutTail(p, q);
    var dir, tail := Front(Parts(p)), q[LastSlash(p) + 1..];
    TailMisses(a + dir, LastSegment(p), tail);
    assert a + (dir + Component(tail)) == (a + dir) + Component(tail);
  }

  lemma EnterName(l: Loc, name: string)
    requires Name(name)
    ensures Enter(l, name) == l + [name]
  {
  }

  lemma TailMisses(dir: seq<string>, name: string, tail: string)
    requires |tail| < |name|
    ensures Norm(dir + Component(tail)) != Norm(dir) + [name]
  {
    if tail == "" {
      assert dir + Component(tail) == dir;
    } else {
      NormSnoc(dir, tail);
      assert (Norm(dir) + [name])[|Norm(dir)|] != tail;
    }
  }

  lemma PlainInit(cs: seq<string>)
    requires cs != [] && Plain(cs)
    ensures Plain(Front(cs))
  {
  }

  /** A proper last name is the last component, below those before the last slash. */
  lemma NamedParts(p: string)
    requires Name(LastSegment(p))
    ensures Parts(p) != [] && Last(Parts(p)) == LastSegment(p)
    ensures LastSlash(p) >= 0 ==> Front(Parts(p)) == Parts(p[..LastSlash(p)])
    ensures LastSlash(p) < 0 ==> Front(Parts(p)) == []
  {
    hide Parts, LastSlash, PlainAfter, Name, Front, Last;
    LastSlashPlain(p);
    if LastSlash(p) >= 0 { NamedAfter(p, LastSlash(p)); } else { NamedAll(p); }
  }

  lemma NamedAfter(p: string, i: nat)
    requires i < |p| && p[i] == '/' && PlainAfter(p, i) && Name(p[i + 1..])
    ensures Parts(p) != [] && Last(Parts(p)) == p[i + 1..] && Front(Parts(p)) == Parts(p[..i])
  {
    hide Parts, PlainAfter, Name, Component;
    PartsSlash(p, i);
    OneComponent(p[i + 1..]);
    LastOfTwo(Parts(p[..i]), p[i + 1..]);
  }

  lemma NamedAll(p: string)
    requires PlainAfter(p, -1) && Name(p[0..])
    ensures Parts(p) != [] && Last(Parts(p)) == p[0..] && Front(Parts(p)) == []
  {
    hide Parts, PlainAfter, Name, Component;
    assert p[0..] == p;
    PartsPlain(p);
    OneComponent(p);
    LastOfTwo([], p);
    assert [] + [p] == [p];
  }

  lemma OneComponent(c: string)
    requires Name(c)
    ensures Component(c) == [c]
  {
  }

  lemma LastOfTwo(a: seq<string>, c: string)
    ensures Front(a + [c]) == a && Last(a + [c]) == c
  {
  }

  /** A cut inside the last name shortens that name only. */
  lemma CutTail(p: string, q: string)
    requires q < p && Name(LastSegment(p)) && LastSlash(p) < |q|
    ensures var i := LastSlash(p);
      Parts(q) == Front(Parts(p)) + Component(q[i + 1..]) && |q[i + 1..]| < |LastSegment(p)|
  {
    hide Parts, LastSlash, Component;
    var i := LastSlash(p);
    NamedParts(p);
    LastSlashPlain(p);
    if i >= 0 {
      assert q[i] == p[i] && PlainAfter(q, i);
      PartsSlash(q, i);
      assert q[..i] == p[..i];
    } else {
      assert PlainAfter(q, -1);
      PartsPlain(q);
      assert q[0..] == q && [] + Component(q) == Component(q);
    }
  }
}
