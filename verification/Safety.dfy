/** What the invariant gives for every run: the statements a user of the transfer
    relies on, each for all interleavings of sender, NIC and receiver. */
module Safety {
  import opened Packets
  import opened Machine
  import opened Invariant
  import CdcRing

  // ---------------------------------------------------------------- every step, every run

  lemma StepInv(st: St, a: Step)
    requires Inv(st) && Enabled(st, a)
    ensures Inv(Apply(st, a))
  {
    hide Inv, Apply, Enabled;
    match a
    case BeginSync(p) => BeginSyncInv(st, p);
    case BeginFile => BeginFileInv(st);
    case PostAckRecv => PostAckRecvInv(st);
    case PostWrite => PostWriteInv(st);
    case PostReady => PostReadyInv(st);
    case ReadData(d, ok) => ReadDataInv(st, d, ok);
    case FillHead(h, k) => FillHeadInv(st, h, k);
    case Poll(k) => PollInv(st, k);
    case Handle => HandleInv(st);
    case SyncDone => FinishInv(st, a);
    case DrainDone => FinishInv(st, a);
    case BeginChunk => MoveInv(st, a);
    case LoopEnd => MoveInv(st, a);
    case SlotReady => MoveInv(st, a);
    case WriteSeen => MoveInv(st, a);
    case HandleDone => MoveInv(st, a);
    case NicExec => NicExecInv(st);
    case NicReread(e) => NicRereadInv(st, e);
    case NicDeliver => NicDeliverInv(st);
    case NicComplete => NicCompleteInv(st);
    case AckDeliver => AckDeliverInv(st);
    case AckComplete => AckCompleteInv(st);
    case ExtendWindow => WindowInv(st, a);
    case OpenWindow => WindowInv(st, a);
    case RPoll => RPollInv(st);
    case RConsume => RConsumeInv(st);
    case RInterpret => RInterpretInv(st);
    case RRepost => RRepostInv(st);
    case RAck => RAckInv(st);
  }

  lemma {:induction false} RunInv(st: St, run: seq<Step>)
    requires Inv(st) && IsRun(st, run)
    ensures Inv(Exec(st, run))
    decreases |run|
  {
    hide Inv, Apply, Enabled, Shape;
    if run != [] {
      StepInv(st, run[0]);
      RunInv(Apply(st, run[0]), run[1..]);
    }
  }

  /** Some interleaving leads from a start state to `st`. */
  ghost predicate Reached(st: St) {
    exists st0, run :: Init(st0) && IsRun(st0, run) && Exec(st0, run) == st
  }

  ghost predicate Reachable(st: St) { Shape(st) && Reached(st) }

  /** The invariant holds in every reachable state. */
  lemma ReachInv(st: St)
    requires Reachable(st)
    ensures Inv(st)
  {
    hide Inv, Init;
    var st0, run :| Init(st0) && IsRun(st0, run) && Exec(st0, run) == st;
    InitInv(st0);
    RunInv(st0, run);
  }

  lemma InitReachable(st: St)
    requires Init(st)
    ensures Reachable(st)
  {
    assert IsRun(st, []) && Exec(st, []) == st;
  }

  lemma ReachStep(st: St, a: Step)
    requires Reachable(st) && Enabled(st, a)
    ensures Reachable(Apply(st, a))
  {
    hide Path, Window, Local, Remote, Marks, RecvRing, AckRing, Books, SendCq, SenderAt, Filled, ReceiverAt,
      ReceiverData, Enabled, Apply, Init;
    var st0, run :| Init(st0) && IsRun(st0, run) && Exec(st0, run) == st;
    RunSnoc(st0, run, a);
    ReachInv(st);
    StepInv(st, a);
  }

  // ---------------------------------------------------------------- refinement

  /** The specification: an ordered channel that never holds more than `SLOTS`
      packets. With `SLOTS` replaced by one this is stop-and-wait. */
  datatype Spec = Spec(sent: seq<Packet>, got: seq<Packet>)

  predicate SpecStep(a: Spec, b: Spec) {
    || a == b
    || (|a.sent| < |a.got| + SLOTS && b.got == a.got && |b.sent| == |a.sent| + 1 && a.sent == b.sent[..|a.sent|])
    || (|a.got| < |a.sent| && b.sent == a.sent && b.got == a.got + [a.sent[|a.got|]])
  }

  function Pkts(msgs: seq<Msg>): (r: seq<Packet>)
    ensures |r| == |msgs| && forall k :: 0 <= k < |r| ==> r[k] == msgs[k].pkt
  {
    seq(|msgs|, k requires 0 <= k < |msgs| => msgs[k].pkt)
  }

  function Abs(st: St): Spec {
    Spec(Pkts(st.n.msgs), st.r.interp)
  }

  /** Everything interpreted is, in order, a prefix of what was sent. */
  lemma InterpretedIsPrefix(st: St)
    requires Reachable(st)
    ensures st.r.interp <= Pkts(st.n.msgs)
    ensures |st.n.msgs| <= |st.r.interp| + 4
  {
    hide Reached, Path, Window, Local, Remote, Marks, RecvRing, AckRing, Books, SendCq, SenderAt, Filled,
      ReceiverAt;
    ReachInv(st);
    Chain(st);
  }

  /** Only posting a write extends the log, only interpreting extends the output. */
  lemma OnlyTheseMove(st: St, a: Step)
    requires Shape(st) && Enabled(st, a)
    ensures !a.PostWrite? ==> Apply(st, a).n.msgs == st.n.msgs
    ensures a.PostWrite? ==> |Apply(st, a).n.msgs| == |st.n.msgs| + 1 && st.n.msgs <= Apply(st, a).n.msgs
    ensures !a.RInterpret? ==> Apply(st, a).r.interp == st.r.interp
    ensures a.RInterpret? ==> exists p :: Apply(st, a).r.interp <= st.r.interp + [p]
    ensures st.r.interp <= Apply(st, a).r.interp
  {
    if a.RInterpret? {
      var p := if st.r.slot < SLOTS then st.n.rmem[st.r.slot] else Blank;
      assert Apply(st, a).r.interp <= st.r.interp + [p];
    }
  }

  /** Each step of the pipeline is a step of the ordered channel. */
  lemma Refines(st: St, a: Step)
    requires Reachable(st) && Enabled(st, a)
    ensures SpecStep(Abs(st), Abs(Apply(st, a)))
  {
    hide Reached, Apply, Enabled, Path, Window, Local, Remote, Marks, RecvRing, AckRing, Books, SendCq,
      SenderAt, Filled, ReceiverAt, ReceiverData;
    ReachInv(st);
    ReachStep(st, a);
    OnlyTheseMove(st, a);
    InterpretedIsPrefix(st);
    InterpretedIsPrefix(Apply(st, a));
  }

  /** When the sender has drained, the receiver has interpreted exactly what was
      sent: the pipeline is then indistinguishable from stop-and-wait sending. */
  lemma DrainedMeansAll(st: St)
    requires Reachable(st) && st.s.pc.Idle?
    ensures st.r.interp == Pkts(st.n.msgs)
  {
    hide Reached, Path, Window, Local, Remote, Marks, RecvRing, AckRing, Books, SendCq, Filled, ReceiverAt;
    ReachInv(st);
    Chain(st);
  }

  // ---------------------------------------------------------------- memory

  /** Between `n` and `n'` nothing wrote the local or the remote slot of a message
      whose ACK has not been posted; the remote one counts from the moment the
      write arrived, and holds the packet that was meant. */
  predicate Stable(n: Net, n': Net)
    requires |n.lmem| == |n'.lmem| == |n.rmem| == |n'.rmem| == SLOTS
  {
    && n.msgs <= n'.msgs
    && (forall k :: |n'.asq| <= k < |n.msgs| ==> n'.lmem[n.msgs[k].slot] == n.lmem[n.msgs[k].slot])
    && (forall k :: |n'.asq| <= k < Writes(n.delivered) && k < |n.msgs| ==>
          n'.rmem[n.msgs[k].slot] == n.rmem[n.msgs[k].slot] == n.msgs[k].pkt)
  }

  /** Which steps write local and remote slots, and that answers only accumulate. */
  predicate Writers(st: St, a: Step, t: St)
    requires Shape(st)
  {
    && Shape(t) && |t.n.asq| >= |st.n.asq|
    && (a.ReadData? || a.FillHead? ==>
          && (st.s.pc.ChunkRead? || st.s.pc.ChunkHead?)
          && (forall k: Slot :: k != st.s.current ==> t.n.lmem[k] == st.n.lmem[k]))
    && (a.BeginSync? ==> st.s.pc.Idle?)
    && (!a.ReadData? && !a.FillHead? && !a.BeginSync? ==> t.n.lmem == st.n.lmem)
    && (!a.NicDeliver? ==> t.n.rmem == st.n.rmem)
  }

  lemma SenderWrites(st: St, a: Step)
    requires Shape(st) && Enabled(st, a) && IsSender(a)
    ensures Writers(st, a, Apply(st, a))
  {
  }

  lemma NicWrites(st: St, a: Step)
    requires Shape(st) && Enabled(st, a) && IsNic(a)
    ensures Writers(st, a, Apply(st, a))
  {
  }

  lemma ReceiverWrites(st: St, a: Step)
    requires Shape(st) && Enabled(st, a) && IsReceiver(a)
    ensures Writers(st, a, Apply(st, a))
  {
  }

  lemma LocalWriters(st: St, a: Step)
    requires Shape(st) && Enabled(st, a)
    ensures Writers(st, a, Apply(st, a))
  {
    hide Enabled, Apply, Writers;
    if IsNic(a) { NicWrites(st, a); }
    else if IsReceiver(a) { ReceiverWrites(st, a); }
    else { SenderWrites(st, a); }
  }

  lemma BuffersStable(st: St, a: Step)
    requires Reachable(st) && Enabled(st, a)
    ensures Shape(Apply(st, a)) && Stable(st.n, Apply(st, a).n)
  {
    hide Reached, Enabled, Apply, Local, Remote, Marks, RecvRing, AckRing, Books, SendCq, Filled, ReceiverAt,
      ReceiverData, Path;
    ReachInv(st);
    var s, n, n' := st.s, st.n, Apply(st, a).n;
    Chain(st);
    OnlyTheseMove(st, a);
    LocalWriters(st, a);
    forall k | |n'.asq| <= k < |n.msgs|
      ensures n'.lmem[n.msgs[k].slot] == n.lmem[n.msgs[k].slot]
    {
      if a.ReadData? || a.FillHead? { FreshSlot(n.msgs, s.base, s.consumed, k, |n.msgs|); }
    }
    forall k | |n'.asq| <= k < Writes(n.delivered) && k < |n.msgs|
      ensures n'.rmem[n.msgs[k].slot] == n.rmem[n.msgs[k].slot] == n.msgs[k].pkt
    {
      RemoteStable(st, a, k);
    }
  }

  lemma RemoteStable(st: St, a: Step, k: nat)
    requires Inv(st) && Enabled(st, a) && |st.n.asq| <= k < Writes(st.n.delivered) && k < |st.n.msgs|
    ensures Shape(Apply(st, a))
    ensures Apply(st, a).n.rmem[st.n.msgs[k].slot] == st.n.rmem[st.n.msgs[k].slot] == st.n.msgs[k].pkt
  {
    hide Path, Window, Local, Marks, RecvRing, AckRing, Books, SendCq, Filled, ReceiverAt, ReceiverData, SenderAt,
      Enabled, Apply;
    LocalWriters(st, a);
    if a.NicDeliver? { DeliverStable(st, k); }
  }

  lemma DeliverStable(st: St, k: nat)
    requires Inv(st) && Enabled(st, NicDeliver) && |st.n.asq| <= k < Writes(st.n.delivered) && k < |st.n.msgs|
    ensures Shape(Apply(st, NicDeliver))
    ensures Apply(st, NicDeliver).n.rmem[st.n.msgs[k].slot] == st.n.rmem[st.n.msgs[k].slot]
  {
    hide Local, Marks, RecvRing, AckRing, Books, SendCq, Filled, ReceiverAt, ReceiverData, SenderAt, Remote, WrOf, Busy;
    var s, n := st.s, st.n;
    Chain(st);
    if n.wire[n.delivered].WriteFrame? {
      var w := Writes(n.delivered);
      assert n.wire[n.delivered] == FrameOf(n.msgs, n.delivered);
      FreshSlot(n.msgs, s.base, s.consumed, k, w);
      assert n.msgs[w].slot == (w - s.base) % SLOTS;
    }
  }

  /** The receiver reposts exactly the buffer it has just consumed and only then
      copies the ACK from it. The copy still reads the original signal: at most
      three other unanswered signals exist, so at least four receives that are
      ahead of the reposted buffer in the queue stay unused. */
  lemma ReadAfterRepost(st: St)
    requires Reachable(st) && st.r.pc.Repost?
    ensures st.r.postIdx == st.r.cur && |st.n.asq| < |st.n.msgs|
    ensures Shape(Apply(st, RRepost))
    ensures var st' := Apply(st, RRepost);
      && st'.n.rrq == st.n.rrq + [st.r.cur]
      && st'.n.rbufs[st.r.cur] == DataReady(st.n.msgs[|st.n.asq|].slot)
      && Sends(|st.n.sq|) - |st.n.asq| <= 4
      && |st'.n.rrq| - 1 - Sends(|st.n.sq|) >= 4
  {
    hide Reached, Local, Marks, RecvRing, Books, SendCq, Filled, SenderAt, Path, Window, Remote, AckRing,
      IsAckOf;
    ReachInv(st);
    Chain(st);
    RRepostInv(st);
    AckAnswers(Apply(st, RRepost));
  }

  // ---------------------------------------------------------------- receive rings

  /** No SEND, in either direction, ever finds an empty receive queue: not even at
      start-up, when the receiver has posted a single receive. */
  lemma NoReceiverNotReady(st: St)
    requires Reachable(st)
    ensures !st.n.rnr
    ensures Sends(st.n.delivered) < Sends(|st.n.sq|) ==> Sends(st.n.delivered) < |st.n.rrq|
    ensures st.n.aDelivered < |st.n.asq| ==> st.n.aDelivered < |st.n.srq|
  {
    hide Reached, Local, Remote, Marks, Books, Filled, WrOf, FrameOf, Busy, WrIdOf, IsAckOf, Gather, SendCq,
      RecvRing;
    ReachInv(st);
    Chain(st);
  }

  /** What is sent over the send queues: after each write a signal, of type DATA_READY and
      never an ACK, that names the slot written; and the k-th answer is an ACK, never a
      DATA_READY, of the same slot as the k-th signal. */
  lemma SignalsAndAnswers(st: St)
    requires Reachable(st)
    ensures |st.n.sq| <= 2 * |st.n.msgs| && |st.n.wire| <= |st.n.sq| && |st.n.asq| <= |st.n.msgs|
    ensures forall e :: 0 <= e < |st.n.sq| ==> (if e % 2 == 0 then st.n.sq[e].Write?
      else st.n.sq[e] == Send(Cdc(st.n.msgs[e / 2].slot, false, true, false, 0)))
    ensures forall e :: 0 <= e < |st.n.wire| && e % 2 == 1 ==>
      st.n.wire[e] == SendFrame(Cdc(st.n.msgs[e / 2].slot, false, true, false, 0))
    ensures forall k :: 0 <= k < |st.n.asq| ==>
      st.n.asq[k] == Cdc(st.n.msgs[k].slot, true, true, true, st.n.asq[k].credits)
  {
    hide Reached, Local, Remote, Marks, RecvRing, Books, Filled, SendCq, SenderAt, ReceiverAt, ReceiverData, Window;
    ReachInv(st);
  }

  /** Sender ring: the next ACK consumed sits in the next buffer posted and filled,
      at most five are outstanding, and the buffer posted next is none of them. */
  lemma SenderRing(st: St)
    requires Reachable(st)
    ensures st.s.consumed < |st.n.srq| && st.n.srq[st.s.consumed].buf == st.s.consIdx
    ensures !st.s.pc.SyncWrite? && !st.s.pc.ChunkWrite? && !Posted(st.s.pc) ==>
      |st.n.srq| - st.s.consumed == 1 + st.s.pending <= 5
    ensures forall k :: st.s.consumed <= k < |st.n.srq| ==> st.n.srq[k].buf != st.s.postIdx
  {
    hide Reached, Local, Remote, Marks, RecvRing, Filled, SendCq, ReceiverAt, ReceiverData, Path, Window, Busy,
      WrIdOf, IsAckOf, Recvs;
    ReachInv(st);
    Chain(st);
    var s, n := st.s, st.n;
    AckRingBounds(n.msgs, n.sbufs, n.srq, n.scq, n.asq, n.aDelivered, s.consumed);
    RingOutstanding(n.msgs, n.sbufs, n.srq, n.scq, n.asq, n.aDelivered, s.consumed);
  }

  lemma RingOutstanding(msgs: seq<Msg>, sbufs: seq<Cdc>, srq: seq<RecvWr>, scq: seq<Wc>, asq: seq<Cdc>,
                        aDelivered: nat, consumed: nat)
    requires |sbufs| == RING && AckRing(msgs, sbufs, srq, scq, asq, aDelivered, consumed) && |srq| < consumed + RING
    ensures forall k :: consumed <= k < |srq| ==> srq[k].buf == k % RING != |srq| % RING
  {
    hide WrIdOf, IsAckOf, Recvs;
    CdcRing.ClashIff(consumed, |srq|, RING);
    assert !CdcRing.Clashes(consumed, |srq|, RING);
  }

  /** Receiver ring: likewise; at the loop head all eight receives are outstanding
      and that is what the credit counter says. */
  lemma ReceiverRing(st: St)
    requires Reachable(st)
    ensures st.r.consumed < |st.n.rrq| && st.n.rrq[st.r.consumed] == st.r.consIdx
    ensures st.r.pc.Wait? ==> |st.n.rrq| - st.r.taken == st.r.credits == 8
    ensures Enabled(st, RRepost) || Enabled(st, ExtendWindow) ==>
      forall k :: st.r.consumed <= k < |st.n.rrq| ==> st.n.rrq[k] != st.r.postIdx
  {
    hide Reached, Local, Remote, Marks, AckRing, Books, Filled, SendCq, SenderAt, Path, Window, Recvs, RecvRing;
    ReachInv(st);
    var n := st.n;
    Chain(st);
    RecvOutstanding(n.msgs, n.rbufs, n.rrq, n.rcq, Sends(n.delivered), |n.asq|, st.r.consumed);
  }

  lemma RecvOutstanding(msgs: seq<Msg>, rbufs: seq<Cdc>, rrq: seq<RingIdx>, rcq: seq<Wc>, got: nat, answered: nat,
                        consumed: nat)
    requires |rbufs| == RING && RecvRing(msgs, rbufs, rrq, rcq, got, answered) && consumed < |rrq|
    ensures rrq[consumed] == consumed % RING
    ensures |rrq| < consumed + RING ==> forall k :: consumed <= k < |rrq| ==> rrq[k] != |rrq| % RING
  {
    hide Recvs;
    CdcRing.ClashIff(consumed, |rrq|, RING);
    assert |rrq| < consumed + RING ==> !CdcRing.Clashes(consumed, |rrq|, RING);
  }

  /** The credits an ACK reports are the receives posted and not yet used: eight, or
      seven in the last ACK. */
  lemma CreditsReported(st: St)
    requires Reachable(st) && Enabled(st, RAck)
    ensures Shape(Apply(st, RAck)) && |Apply(st, RAck).n.asq| == |st.n.asq| + 1
    ensures Apply(st, RAck).n.asq[|st.n.asq|].credits == |st.n.rrq| - st.r.taken
    ensures Apply(st, RAck).n.asq[|st.n.asq|].credits ==
      if Apply(st, RAck).r.pc.Halted? then 7 else 8
  {
    hide Reached, Local, Remote, Marks, AckRing, Books, Filled, SendCq, SenderAt, Path, Window, Recvs, RecvRing,
      ReceiverData;
    ReachInv(st);
  }

  /** The wr_id of an ACK's receive completion names the slot of the message before
      it; only the payload names the right slot. */
  lemma WrIdLags(st: St)
    requires Reachable(st) && Enabled(st, AckDeliver)
    ensures var st' := Apply(st, AckDeliver);
      var j := st.n.aDelivered;
      && j < |st.n.msgs| && Shape(st')
      && |st'.n.scq| == |st.n.scq| + 1
      && st'.n.scq[|st.n.scq|] == Recv(if j == 0 then 0 else st.n.msgs[j - 1].slot)
      && st'.n.sbufs[j % RING].slot == st.n.msgs[j].slot
      && (j > st.s.base ==> st.n.msgs[j - 1].slot != st.n.msgs[j].slot)
  {
    hide Reached, Local, Remote, Marks, RecvRing, Books, Filled, SendCq, SenderAt, ReceiverAt, ReceiverData,
      Path;
    ReachInv(st);
    var j := st.n.aDelivered;
    if j > st.s.base { ModDiffer(j - 1 - st.s.base, j - st.s.base); }
  }

  // ---------------------------------------------------------------- window

  /** Slot `i` lies in the circular interval of length `len` just before `current`. */
  predicate InInterval(i: Slot, current: Slot, len: int) {
    (current as int - 1 - i) % SLOTS < len
  }

  function BusyCount(slotFree: seq<bool>): nat {
    if slotFree == [] then 0 else BusyCount(slotFree[1..]) + if slotFree[0] then 0 else 1
  }

  /** pending_acks counts the busy slots, and during a file the busy slots are the
      circular interval that ends just before the current slot. */
  lemma CircularWindow(st: St)
    requires Reachable(st)
    ensures st.s.pending == BusyCount(st.s.slotFree)
    ensures !InSync(st.s.pc) && !st.s.pc.Idle? ==>
      forall i: Slot :: !st.s.slotFree[i] <==> InInterval(i, st.s.current, st.s.pending)
  {
    hide Reached, Local, Remote, Marks, RecvRing, AckRing, Filled, SendCq, ReceiverAt, ReceiverData, Path,
      Window;
    ReachInv(st);
    Chain(st);
    var s := st.s;
    var c, d := s.consumed - s.base, Sends(|st.n.sq|) - s.consumed;
    BusyFour(s.slotFree, c, d);
    forall i: Slot ensures Busy(i, s.base, s.consumed, Sends(|st.n.sq|)) <==> ((c + d) % 4 - 1 - i) % SLOTS < d {
      BusyInterval(i, c, d);
    }
  }

  lemma BusyFour(f: seq<bool>, c: nat, d: nat)
    requires |f| == 4 && d <= 4
    requires forall i: Slot :: f[i] == !((i as int - c) % 4 < d)
    ensures BusyCount(f) == d
  {
    hide BusyCount;
    CountFour(f);
    assert f[0] == !((0 - c) % 4 < d) && f[1] == !((1 - c) % 4 < d);
    assert f[2] == !((2 - c) % 4 < d) && f[3] == !((3 - c) % 4 < d);
    Back(0, c);
    Back(1, c);
    Back(2, c);
    Back(3, c);
  }

  /** Going `c` slots back from slot `i`. */
  lemma Back(i: int, c: nat)
    requires 0 <= i < 4
    ensures (i - c) % 4 == if c % 4 <= i then i - c % 4 else i - c % 4 + 4
  {
  }

  lemma CountFour(f: seq<bool>)
    requires |f| == 4
    ensures BusyCount(f) ==
      (if f[0] then 0 else 1) + (if f[1] then 0 else 1) + (if f[2] then 0 else 1) + if f[3] then 0 else 1
  {
    assert f[1..][1..] == f[2..] && f[2..][1..] == f[3..] && f[3..][1..] == [];
    assert BusyCount(f[3..]) == if f[3] then 0 else 1;
    assert BusyCount(f[2..]) == BusyCount(f[3..]) + if f[2] then 0 else 1;
    assert BusyCount(f[1..]) == BusyCount(f[2..]) + if f[1] then 0 else 1;
  }

  lemma BusyInterval(i: nat, c: nat, d: nat)
    requires i < 4 && d <= 4
    ensures (i as int - c) % 4 < d <==> ((c + d) % 4 - 1 - i) % 4 < d
  {
  }

  /** wait_for_slot polls for a chunk's slot only when all four slots are busy. */
  lemma WaitsOnlyWhenFull(st: St)
    requires Reachable(st) && st.s.pc.ChunkSlot? && !st.s.slotFree[st.s.current]
    ensures st.s.pending == 4
  {
    hide Reached, Local, Remote, Marks, RecvRing, AckRing, Filled, SendCq, ReceiverAt, ReceiverData, Path,
      Window, BusyCount;
    ReachInv(st);
    CircularWindow(st);
    Chain(st);
  }

  /** handle_ack_recv always frees a busy slot, the oldest one: neither its
      "already free" nor its "invalid slot" branch is ever taken. */
  lemma AckFreesOldest(st: St)
    requires Reachable(st) && Enabled(st, Handle) && st.n.scq[st.s.handled].Recv?
    ensures var slot := st.n.sbufs[st.s.consIdx].slot;
      && slot < SLOTS && slot == (st.s.consumed - st.s.base) % SLOTS
      && !st.s.slotFree[slot]
      && Apply(st, Handle).s.slotFree == st.s.slotFree[slot := true]
      && Apply(st, Handle).s.pending == st.s.pending - 1
  {
    hide Reached, Inv;
    ReachInv(st);
    HandleRecv(st);
  }

  /** Where control packets are filled in, and where a file resets the slot state,
      every slot is free and no ACK is expected, so the reset forgets nothing. */
  lemma QuiescentAtControl(st: St)
    requires Reachable(st) && (st.s.pc.Idle? || st.s.pc.SyncSlot?)
    ensures st.s.slotFree == [true, true, true, true] && st.s.pending == 0
    ensures st.n.delivered == |st.n.sq| && st.n.aDelivered == |st.n.msgs|
    ensures Enabled(st, BeginFile) ==>
      DoBeginFile(st).s.slotFree == st.s.slotFree && DoBeginFile(st).s.pending == st.s.pending
  {
    hide Reached, Local, Remote, Marks, RecvRing, AckRing, Filled, SendCq, ReceiverAt, ReceiverData, Window;
    ReachInv(st);
    Chain(st);
    forall i: Slot ensures st.s.slotFree[i] {
      assert st.s.slotFree[i] == !Busy(i, st.s.base, st.s.consumed, Sends(|st.n.sq|));
    }
  }

  // ---------------------------------------------------------------- conservation

  function SendsIn(q: seq<Wr>): nat {
    if q == [] then 0 else SendsIn(q[..|q| - 1]) + if q[|q| - 1].Send? then 1 else 0
  }

  lemma {:induction false} SendsInPath(msgs: seq<Msg>, sq: seq<Wr>, lo: nat, hi: nat)
    requires lo <= hi <= |sq| <= 2 * |msgs|
    requires forall e :: 0 <= e < |sq| ==> sq[e] == WrOf(msgs, e)
    ensures SendsIn(sq[lo..hi]) == Sends(hi) - Sends(lo)
    decreases hi
  {
    if lo < hi {
      assert sq[lo..hi][..hi - lo - 1] == sq[lo..hi - 1];
      assert sq[hi - 1] == WrOf(msgs, hi - 1);
      SendsInPath(msgs, sq, lo, hi - 1);
    }
  }

  lemma {:induction false} RecvsDrop(q: seq<Wc>, k: nat, hi: nat)
    requires k <= hi <= |q|
    ensures Recvs(q[k..hi]) == Recvs(q[..hi]) - Recvs(q[..k])
    decreases hi
  {
    if k < hi {
      assert q[k..hi][..hi - k - 1] == q[k..hi - 1];
      CountTake(q, hi - 1);
      RecvsDrop(q, k, hi - 1);
    }
  }

  /** Every pending ACK is accounted for exactly once: as a DATA_READY not yet
      delivered, a signal not yet polled, the message in hand, an ACK not yet
      delivered, or an ACK completion not yet handled. */
  lemma Conservation(st: St)
    requires Reachable(st)
    ensures st.n.delivered <= |st.n.sq| && st.r.polled <= |st.n.rcq|
    ensures st.n.aDelivered <= |st.n.asq| && st.s.handled <= |st.n.scq|
    ensures st.s.pending ==
      SendsIn(st.n.sq[st.n.delivered..])
      + Recvs(st.n.rcq[st.r.polled..])
      + (st.r.taken - |st.n.asq|)
      + |st.n.asq[st.n.aDelivered..]|
      + Recvs(st.n.scq[st.s.handled..])
    ensures st.r.taken - |st.n.asq| == if st.r.pc.Setup? || st.r.pc.Wait? || st.r.pc.Halted? then 0 else 1
  {
    hide Reached, Local, Remote, Marks, Filled, Window, WrOf, FrameOf, Recvs;
    ReachInv(st);
    var n := st.n;
    Chain(st);
    SendsInPath(n.msgs, n.sq, n.delivered, |n.sq|);
    assert n.sq[n.delivered..|n.sq|] == n.sq[n.delivered..];
    RecvsDrop(n.rcq, st.r.polled, |n.rcq|);
    assert n.rcq[..|n.rcq|] == n.rcq && n.rcq[st.r.polled..|n.rcq|] == n.rcq[st.r.polled..];
    RecvsDrop(n.scq, st.s.handled, |n.scq|);
    assert n.scq[..|n.scq|] == n.scq && n.scq[st.s.handled..|n.scq|] == n.scq[st.s.handled..];
  }

  // ---------------------------------------------------------------- every reachable state

  /** The main safety theorem: in every reachable state, what the receiver has
      interpreted is an in-order prefix of what was sent (all of it when the sender
      is idle), it never met an invalid header, and no SEND met an empty queue. */
  lemma SafeAlways(st: St)
    requires Reachable(st)
    ensures st.r.interp <= Pkts(st.n.msgs) && |st.n.msgs| <= |st.r.interp| + SLOTS
    ensures st.s.pc.Idle? ==> st.r.interp == Pkts(st.n.msgs)
    ensures !st.r.pc.Broken? && !st.n.rnr
  {
    hide Reached, Path, Window, Local, Remote, Marks, RecvRing, AckRing, Books, SendCq, SenderAt, Filled,
      ReceiverData;
    ReachInv(st);
    InterpretedIsPrefix(st);
    if st.s.pc.Idle? { DrainedMeansAll(st); }
  }
}
