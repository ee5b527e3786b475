/** A whole session: the sender's program, the network and the receiver's program
    together copy a tree. */
module Session {
  import opened Packets
  import opened Machine
  import opened Invariant
  import opened Safety
  import opened Paths
  import opened FileSystem
  import opened Interpreter
  import opened LinkFree
  import opened Trees
  import opened Mirror
  import opened Progress
  import opened Containment
  import Sender
  import Receiver

  /** What is asked of a session: proper names that fit into packets, and a remote path
      that leads to a place that takes the tree. */
  ghost predicate Copyable(t: Tree, remote: CString, recursive: bool, base: string, fs: Fs) {
    && !t.Gone? && Sendable(t, remote, recursive) && Placed(t, remote)
    && |base| + MAX_FILENAME_LEN < MAX_PATH_LEN
    && Welcome(fs, PathOf(base, remote), t, recursive)
  }

  /** `out` is `fs` with the tree put where its path leads: it mirrors the source, exactly
      if all reads were full, and if nothing lay in its place nothing is lost. */
  ghost predicate Copied(t: Tree, remote: CString, recursive: bool, base: string, fs: Fs, out: Fs) {
    var cs := PathOf(base, remote);
    && out == Put(fs, cs, t, recursive)
    && (Genuine(t) ==> Mirrors(Ground(fs, cs, t), out, t, Norm(cs), recursive))
    && (Ready(fs, cs, t, recursive) ==> Kept(fs, out))
    && (FullReads(t) ==> out == PutExact(fs, cs, t, recursive))
  }

  function SessionPackets(t: Tree, remote: CString, recursive: bool): seq<Packet> {
    Compile(t, remote, recursive) + [TransferEnd]
  }

  /** Interpreting a session's packets copies the tree. */
  lemma PacketsCopy(t: Tree, remote: CString, recursive: bool, base: string, x: Ctx)
    requires Copyable(t, remote, recursive, base, x.fs)
    ensures Copied(t, remote, recursive, base, x.fs, InterpAll(base, x, SessionPackets(t, remote, recursive)).fs)
  {
    hide Compile, InterpAll, Sendable, Placed, Put, PutExact, FullReads, PathOf, Kept, Ready, Welcome, Genuine, Mirrors,
      Ground, Norm;
    TreeRoundTrip(base, x, t, remote, recursive);
    if Genuine(t) { PutMirrors(x.fs, PathOf(base, remote), t, recursive); }
    if FullReads(t) { FullPut(x.fs, PathOf(base, remote), t, recursive); }
  }

  /** At every moment of a session, under every interleaving, what the receiver has
      still to do is to interpret the rest of the session: nothing is lost, doubled
      or reordered, whatever part of it is in flight. */
  lemma SessionSoFar(st: St, t: Tree, remote: CString, recursive: bool, base: string, x: Ctx)
    returns (rest: seq<Packet>)
    requires Reachable(st) && Pkts(st.n.msgs) <= SessionPackets(t, remote, recursive)
    requires Copyable(t, remote, recursive, base, x.fs)
    ensures st.r.interp + rest == SessionPackets(t, remote, recursive)
    ensures Copied(t, remote, recursive, base, x.fs, InterpAll(base, InterpAll(base, x, st.r.interp), rest).fs)
  {
    hide Reached, Compile, InterpAll, Copyable, Copied, Pkts;
    var all := SessionPackets(t, remote, recursive);
    InterpretedIsPrefix(st);
    rest := all[|st.r.interp|..];
    InterpAppend(base, x, st.r.interp, rest);
    PacketsCopy(t, remote, recursive, base, x);
  }

  /** When the sender has drained, or the receiver has met TRANSFER_END, the tree is
      there. */
  lemma SessionDelivers(st: St, t: Tree, remote: CString, recursive: bool, base: string, x: Ctx)
    requires Reachable(st) && (st.s.pc.Idle? || LastIsEnd(st.r.interp))
    requires Pkts(st.n.msgs) == SessionPackets(t, remote, recursive)
    requires Copyable(t, remote, recursive, base, x.fs)
    ensures Copied(t, remote, recursive, base, x.fs, InterpAll(base, x, st.r.interp).fs)
  {
    hide Reached, Compile, InterpAll, Copyable, Copied, Pkts;
    if st.s.pc.Idle? { DrainedMeansAll(st); } else { Receiver.EndMeansAll(st); }
    PacketsCopy(t, remote, recursive, base, x);
  }

  /** The sender's side: when scp_sender_run returns 0, the tree has arrived. */
  method Send(connected: St, found: bool, t: Tree, remote: CString, recursive: bool, ghost base: string, ghost x: Ctx)
    returns (sender: Sender.Context, ret: int)
    requires Init(connected) && Copyable(t, remote, recursive, base, x.fs)
    ensures ret == if found then 0 else -1
    ensures ret == 0 ==> Copied(t, remote, recursive, base, x.fs, InterpAll(base, x, sender.peer.interp).fs)
  {
    hide Init, Copied, Compile, InterpAll;
    sender := new Sender.Context(connected);
    ret := sender.SenderRun(found, t, remote, recursive);
    PacketsCopy(t, remote, recursive, base, x);
  }

  /** A session takes a bounded number of steps, retransmissions aside: the tree says
      how many, whatever the interleaving. */
  lemma SessionIsBounded(st: St, run: seq<Step>, t: Tree, remote: CString, recursive: bool)
    requires Init(st) && IsRun(st, run)
    requires Pkts(Exec(st, run).n.msgs) <= SessionPackets(t, remote, recursive)
    ensures Begins(run) <= MostBegun(SessionPackets(t, remote, recursive))
    ensures Works(run) <= 8 + PACKET_COST * MostBegun(SessionPackets(t, remote, recursive))
  {
    hide IsRun, Exec, Init, Pkts, Compile;
    WorkByPackets(st, run, SessionPackets(t, remote, recursive));
  }

  /** The receiver's side: when scp_receiver_run returns after the packets of a
      session, its files are the copy. The sender may begin whatever a session of this
      tree can make it begin. */
  method Receive(connected: St, base: CString, fs: Fs, t: Tree, remote: CString, recursive: bool)
    returns (receiver: Receiver.Context, done: bool)
    requires Init(connected) && WellFormed(fs) && Copyable(t, remote, recursive, base, fs)
    ensures done ==> receiver.interp == Pkts(receiver.net.msgs) && receiver.pc.Halted?
    ensures Pkts(receiver.net.msgs) == SessionPackets(t, remote, recursive) ==>
      done && Copied(t, remote, recursive, base, fs, receiver.out.fs)
  {
    hide Init, Copied, Compile, InterpAll, WellFormed, Copyable, Pkts, Files;
    receiver := new Receiver.Context(connected, base, fs, MostBegun(SessionPackets(t, remote, recursive)));
    done := receiver.ReceiverRun();
    if Pkts(receiver.net.msgs) == SessionPackets(t, remote, recursive) {
      PacketsCopy(t, remote, recursive, base, Ctx(fs, None, "", Regular));
    }
  }

  /** A session whose remote path has no ".." writes nothing outside the output
      directory, at no moment of any interleaving. */
  lemma SessionStaysInside(st: St, t: Tree, remote: CString, recursive: bool, base: string, x: Ctx)
    requires Reachable(st) && Pkts(st.n.msgs) <= SessionPackets(t, remote, recursive)
    requires Start(base, x) && |base| + MAX_FILENAME_LEN < MAX_PATH_LEN
    requires ProperNames(t, recursive) && Plain(Parts(remote)) && SafeLinks(base, x.fs, t, remote, recursive)
    ensures Outside(base, x.fs, InterpAll(base, x, st.r.interp).fs)
  {
    hide Reached, Compile, InterpAll, Pkts, Start, Outside, Plain, Parts, Contained, ProperNames, SafeLinks;
    InterpretedIsPrefix(st);
    var all := SessionPackets(t, remote, recursive);
    SessionContained(base, x, t, remote, recursive);
    assert st.r.interp == all[..|st.r.interp|];
    ContainedAt(base, x, all, |st.r.interp|);
  }
}
