/** Termination and deadlock freedom: every step other than beginning a packet uses
    up part of a bounded amount of work, and as long as work is left somebody can
    take a step. */
module Progress {
  import opened Packets
  import opened Machine
  import opened Invariant
  import opened Safety

  /** Work the sender has still to do for the packet in hand. */
  function Rank(pc: SPc): nat {
    match pc
    case Idle => 0
    case SyncSlot => 27
    case SyncRecv => 26
    case SyncWrite => 25
    case SyncWaitWrite => 19
    case SyncReady => 18
    case SyncWaitAck => 1
    case LoopHead => 2
    case ChunkSlot => 31
    case ChunkRead => 30
    case ChunkHead => 29
    case ChunkRecv => 28
    case ChunkWrite => 27
    case ChunkReady => 21
    case ChunkPoll => 4
    case ChunkHandle => 3
    case Drain => 1
  }

  /** Stages that the work requests posted so far have still to pass: execution,
      delivery, completion, polling and handling on the sender; polling, consuming,
      interpreting, reposting and answering on the receiver; delivery and
      completion of the ACKs; and the opening of the receive window. */
  function Measure(st: St): int {
    SenderWork(st.s) + NetWork(st.n) + ReceiverWork(st.r)
  }

  function SenderWork(s: Snd): int {
    Rank(s.pc) - s.polled - s.handled
  }

  function NetWork(n: Net): int {
    var posted, signals := |n.sq|, Sends(|n.sq|);
    (posted - |n.wire|) + (posted - n.delivered) + (posted - n.acked)
    + 2 * (posted + signals) + 2 * signals + (4 * signals - |n.asq|)
    + (signals + RING - |n.rrq|) + (signals - n.aDelivered) + (signals - n.aAcked)
  }

  function ReceiverWork(r: Rcv): int {
    (if r.pc.Setup? then 1 else 0) - r.polled - r.taken - r.consumed - |r.interp|
  }

  lemma MeasureNonNegative(st: St)
    requires Inv(st)
    ensures Measure(st) >= 0
  {
    hide Local, Remote, Marks, RecvRing, AckRing, Filled, Window, Books, SenderAt, WrOf, FrameOf, Recvs,
      WriteDones, Sends, Writes;
    Chain(st);
  }

  predicate IsWork(a: Step) { !IsBegin(a) && !a.NicReread? }

  lemma PostDecreases(st: St, a: Step)
    requires Inv(st) && Enabled(st, a) && (a.PostWrite? || a.PostReady?)
    ensures Measure(Apply(st, a)) < Measure(st)
  {
    hide Path, Window, Local, Remote, Marks, RecvRing, AckRing, Books, SendCq, SenderAt, Filled, ReceiverAt,
      ReceiverData, Measure, Apply;
    Chain(st);
    PostWork(st, a);
  }

  lemma PostWork(st: St, a: Step)
    requires Shape(st) && Enabled(st, a) && (a.PostWrite? || a.PostReady?)
    requires |st.n.sq| == 2 * |st.n.msgs| - if Posted(st.s.pc) then 1 else 0
    ensures Measure(Apply(st, a)) < Measure(st)
  {
    EvenOdd(|st.n.msgs|);
    if a.PostReady? { EvenOdd(|st.n.msgs| - 1); }
    hide Sends;
  }

  /** Apart from posting, the sender touches only its own context, local memory and
      its receive queue. */
  lemma SenderFrame(st: St, a: Step)
    requires Shape(st) && Enabled(st, a) && IsSender(a) && !a.PostWrite? && !a.PostReady?
    ensures var n' := Apply(st, a).n;
      Apply(st, a).r == st.r && n' == st.n.(lmem := n'.lmem, srq := n'.srq)
  {
  }

  lemma SenderOwnWork(st: St, a: Step)
    requires Shape(st) && Enabled(st, a) && IsWork(a) && IsSender(a) && !a.PostWrite? && !a.PostReady?
    ensures SenderWork(Apply(st, a).s) < SenderWork(st.s)
  {
  }

  lemma SenderWorkDecreases(st: St, a: Step)
    requires Inv(st) && Enabled(st, a) && IsWork(a) && IsSender(a)
    ensures Measure(Apply(st, a)) < Measure(st)
  {
    if a.PostWrite? || a.PostReady? {
      PostDecreases(st, a);
    } else {
      hide Inv, Apply, Enabled, SenderWork, ReceiverWork;
      SenderFrame(st, a);
      SenderOwnWork(st, a);
    }
  }

  lemma NicOwnWork(st: St, a: Step)
    requires Shape(st) && Enabled(st, a) && IsWork(a) && IsNic(a)
    requires a.AckDeliver? ==> st.n.aDelivered < |st.n.srq|
    requires a.NicDeliver? && st.n.wire[st.n.delivered].SendFrame? ==> Sends(st.n.delivered) < |st.n.rrq|
    ensures NetWork(Apply(st, a).n) < NetWork(st.n) && Apply(st, a).s == st.s && Apply(st, a).r == st.r
  {
    hide Apply, NetWork;
    if a.NicDeliver? { DeliverWork(st); }
    else if a.AckDeliver? { AckDeliverWork(st); }
    else { NicPlainWork(st, a); }
  }

  lemma DeliverWork(st: St)
    requires Shape(st) && Enabled(st, NicDeliver)
    requires st.n.wire[st.n.delivered].SendFrame? ==> Sends(st.n.delivered) < |st.n.rrq|
    ensures var t := Apply(st, NicDeliver); NetWork(t.n) < NetWork(st.n) && t.s == st.s && t.r == st.r
  {
  }

  lemma AckDeliverWork(st: St)
    requires Shape(st) && Enabled(st, AckDeliver) && st.n.aDelivered < |st.n.srq|
    ensures var t := Apply(st, AckDeliver); NetWork(t.n) < NetWork(st.n) && t.s == st.s && t.r == st.r
  {
  }

  lemma NicPlainWork(st: St, a: Step)
    requires Shape(st) && Enabled(st, a) && (a.NicExec? || a.NicComplete? || a.AckComplete?)
    ensures NetWork(Apply(st, a).n) < NetWork(st.n) && Apply(st, a).s == st.s && Apply(st, a).r == st.r
  {
  }

  lemma NicWorkDecreases(st: St, a: Step)
    requires Inv(st) && Enabled(st, a) && IsWork(a) && IsNic(a)
    ensures Measure(Apply(st, a)) < Measure(st)
  {
    hide Inv, NetWork, SenderWork, ReceiverWork, Apply;
    InvShape(st);
    if a.NicDeliver? {
      DeliverKind(st);
      if st.n.delivered % 2 == 1 { RecvPosted(st); }
    } else if a.AckDeliver? {
      AckPosted(st);
    }
    hide Enabled;
    NicOwnWork(st, a);
  }

  lemma AckPosted(st: St)
    requires Inv(st) && st.n.aDelivered < |st.n.asq|
    ensures st.n.aDelivered < |st.n.srq|
  {
    hide Path, Window, Local, Remote, Marks, RecvRing, Books, SendCq, SenderAt, Filled, ReceiverAt, ReceiverData,
      IsAckOf, WrIdOf, Recvs;
  }

  /** What is delivered alternates with what was posted: odd entries are signals. */
  lemma DeliverKind(st: St)
    requires Inv(st) && st.n.delivered < |st.n.wire|
    ensures st.n.delivered < |st.n.sq|
    ensures st.n.wire[st.n.delivered].SendFrame? <==> st.n.delivered % 2 == 1
  {
  }

  /** The signal in hand names a slot with a valid header. */
  lemma InterpretSucceeds(st: St)
    requires Inv(st) && Enabled(st, RInterpret)
    ensures |Apply(st, RInterpret).r.interp| == |st.r.interp| + 1
  {
    hide Path, Window, Local, Remote, Marks, RecvRing, AckRing, Books, SendCq, SenderAt, Filled, ReceiverData;
    RInterpretInv(st);
  }

  predicate Posts(a: Step) { a.ExtendWindow? || a.RRepost? || a.RAck? }

  /** The receiver's own steps lower its work or, when it posts, the queues' work. */
  lemma ReceiverPosts(st: St, a: Step)
    requires Shape(st) && Enabled(st, a) && Posts(a)
    ensures NetWork(Apply(st, a).n) < NetWork(st.n) && ReceiverWork(Apply(st, a).r) == ReceiverWork(st.r)
    ensures Apply(st, a).s == st.s
  {
    hide NetWork, ReceiverWork;
    match a
    case ExtendWindow => RecvPostWork(st.n, st.r.postIdx, st.r, Apply(st, a).r);
    case RRepost => RecvPostWork(st.n, st.r.postIdx, st.r, Apply(st, a).r);
    case RAck => AckPostWork(st);
  }

  lemma RecvPostWork(n: Net, buf: RingIdx, r: Rcv, r': Rcv)
    requires r'.polled == r.polled && r'.taken == r.taken && r'.consumed == r.consumed && r'.interp == r.interp
    requires r'.pc.Setup? == r.pc.Setup?
    ensures NetWork(n.(rrq := n.rrq + [buf])) < NetWork(n) && ReceiverWork(r') == ReceiverWork(r)
  {
  }

  lemma AckPostWork(st: St)
    requires Shape(st) && Enabled(st, RAck)
    ensures NetWork(DoRAck(st).n) < NetWork(st.n) && ReceiverWork(DoRAck(st).r) == ReceiverWork(st.r)
  {
  }

  lemma ReceiverTakes(st: St, a: Step)
    requires Shape(st) && Enabled(st, a) && IsReceiver(a) && !Posts(a)
    requires a.RInterpret? ==> |Apply(st, a).r.interp| == |st.r.interp| + 1
    ensures Apply(st, a).n == st.n && ReceiverWork(Apply(st, a).r) < ReceiverWork(st.r)
    ensures Apply(st, a).s == st.s
  {
  }

  lemma ReceiverWorkDecreases(st: St, a: Step)
    requires Inv(st) && Enabled(st, a) && IsReceiver(a)
    ensures Measure(Apply(st, a)) < Measure(st)
  {
    hide Inv, SenderWork, NetWork, ReceiverWork, Apply, Enabled, Posts;
    if a.RInterpret? { InterpretSucceeds(st); }
    InvShape(st);
    if Posts(a) { ReceiverPosts(st, a); } else { ReceiverTakes(st, a); }
  }

  lemma InvShape(st: St)
    requires Inv(st)
    ensures Shape(st)
  {
    hide Path, Window, Local, Remote, Marks, RecvRing, AckRing, Books, SendCq, SenderAt, Filled, ReceiverAt,
      ReceiverData;
  }

  /** Every step that does not begin a packet makes the measure smaller. */
  lemma WorkDecreases(st: St, a: Step)
    requires Reachable(st) && Enabled(st, a) && IsWork(a)
    ensures 0 <= Measure(Apply(st, a)) < Measure(st)
  {
    hide Reached, Measure, Apply, Enabled, Path, Window, Local, Remote, Marks, RecvRing, AckRing, Books, SendCq,
      SenderAt, Filled, ReceiverAt, ReceiverData;
    ReachInv(st);
    if IsSender(a) { SenderWorkDecreases(st, a); }
    else if IsNic(a) { NicWorkDecreases(st, a); }
    else { ReceiverWorkDecreases(st, a); }
    StepInv(st, a);
    MeasureNonNegative(Apply(st, a));
  }

  const PACKET_COST: nat := 29

  lemma BeginCost(st: St, a: Step)
    requires Reachable(st) && Enabled(st, a) && IsBegin(a)
    ensures Measure(Apply(st, a)) <= Measure(st) + PACKET_COST
  {
  }

  function Begins(run: seq<Step>): nat {
    if run == [] then 0 else Begins(run[1..]) + if IsBegin(run[0]) then 1 else 0
  }

  function Works(run: seq<Step>): nat {
    if run == [] then 0 else Works(run[1..]) + if IsWork(run[0]) then 1 else 0
  }

  lemma {:induction false} WorkBound(st: St, run: seq<Step>)
    requires Reachable(st) && IsRun(st, run)
    ensures Works(run) + Measure(Exec(st, run)) <= Measure(st) + PACKET_COST * Begins(run)
    ensures Measure(Exec(st, run)) >= 0
    decreases |run|
  {
    hide Inv, Apply, Enabled, Measure;
    if run == [] {
      ReachInv(st);
      MeasureNonNegative(st);
    } else {
      var a := run[0];
      ReachInv(st);
      ReachStep(st, a);
      if IsBegin(a) { BeginCost(st, a); }
      else if a.NicReread? { NicRereadInv(st, a.e); }
      else { WorkDecreases(st, a); }
      WorkBound(Apply(st, a), run[1..]);
    }
  }

  /** The termination theorem: a run that begins b packets or files takes at most
      8 + 29 * b other steps, retransmissions aside. */
  lemma RunsAreBounded(st: St, run: seq<Step>)
    requires Init(st) && IsRun(st, run)
    ensures Works(run) <= 8 + PACKET_COST * Begins(run)
  {
    assert IsRun(st, []) && Exec(st, []) == st;
    WorkBound(st, run);
    assert Measure(st) == 8;
  }

  // ---------------------------------------------------------------- how much is begun

  /** The regular files announced by a packet stream. */
  function Files(ps: seq<Packet>): nat {
    if ps == [] then 0
    else Files(ps[..|ps| - 1]) + if ps[|ps| - 1].FileMeta? && ps[|ps| - 1].kind.Regular? then 1 else 0
  }

  lemma FilesSnoc(ps: seq<Packet>, p: Packet)
    ensures Files(ps + [p]) == Files(ps) + if p.FileMeta? && p.kind.Regular? then 1 else 0
  {
    assert (ps + [p])[..|ps|] == ps;
  }

  lemma {:induction false} FilesPrefix(ps: seq<Packet>, qs: seq<Packet>)
    requires ps <= qs
    ensures Files(ps) <= Files(qs)
    decreases |qs|
  {
    if ps != qs {
      assert ps <= qs[..|qs| - 1];
      FilesPrefix(ps, qs[..|qs| - 1]);
    }
  }

  /** What sending these packets can make the sender begin: each of them, for each file
      its chunk loop and one chunk whose read fails, and one packet more. */
  function MostBegun(ps: seq<Packet>): nat { |ps| + 2 * Files(ps) + 1 }

  predicate InFile(pc: SPc) { !InSync(pc) && !pc.Idle? && !pc.Drain? }

  /** A packet or chunk was begun and is not posted yet. */
  predicate Begun(pc: SPc) {
    pc.SyncSlot? || pc.SyncRecv? || pc.SyncWrite? || pc.ChunkSlot? || pc.ChunkRead? || pc.ChunkHead? || pc.ChunkRecv?
    || pc.ChunkWrite?
  }

  /** Begins that are still to come without a further packet. */
  function Unused(s: Snd, msgs: seq<Msg>): nat {
    if InFile(s.pc) then 1 else if !s.pc.Drain? && FileNext(msgs, s.base) then 2 else 0
  }

  function Allowance(st: St): int {
    |st.n.msgs| + 2 * Files(Pkts(st.n.msgs)) + (if Begun(st.s.pc) then 1 else 0) - Unused(st.s, st.n.msgs)
  }

  /** Within a file the last packet is one of its chunks. */
  predicate FileTail(s: Snd, msgs: seq<Msg>) {
    (InFile(s.pc) || s.pc.Drain?) && s.base < |msgs| ==> msgs[|msgs| - 1].pkt.FileData?
  }

  lemma NicAllows(st: St, a: Step)
    requires Shape(st) && Enabled(st, a) && IsNic(a)
    ensures Apply(st, a).s == st.s && Apply(st, a).n.msgs == st.n.msgs
  {
  }

  lemma ReceiverAllows(st: St, a: Step)
    requires Shape(st) && Enabled(st, a) && IsReceiver(a)
    ensures Apply(st, a).s == st.s && Apply(st, a).n.msgs == st.n.msgs
  {
  }

  lemma SenderAllows(st: St, a: Step)
    requires Shape(st) && Enabled(st, a) && IsSender(a) && !a.PostWrite? && FileTail(st.s, st.n.msgs)
    ensures var t := Apply(st, a);
      && t.n.msgs == st.n.msgs && FileTail(t.s, t.n.msgs)
      && (if Begun(t.s.pc) then 1 else 0) - Unused(t.s, t.n.msgs)
        >= (if Begun(st.s.pc) then 1 else 0) - Unused(st.s, st.n.msgs) + if IsBegin(a) then 1 else 0
  {
    hide Apply, Begun, Unused;
    if IsBegin(a) { BeginAllows(st, a); } else { OwnAllows(st, a); }
  }

  lemma BeginAllows(st: St, a: Step)
    requires Shape(st) && Enabled(st, a) && IsBegin(a) && FileTail(st.s, st.n.msgs)
    ensures var t := Apply(st, a);
      && t.n.msgs == st.n.msgs && FileTail(t.s, t.n.msgs)
      && (if Begun(t.s.pc) then 1 else 0) - Unused(t.s, t.n.msgs)
        >= (if Begun(st.s.pc) then 1 else 0) - Unused(st.s, st.n.msgs) + 1
  {
  }

  lemma OwnAllows(st: St, a: Step)
    requires Shape(st) && Enabled(st, a) && IsSender(a) && !a.PostWrite? && !IsBegin(a) && FileTail(st.s, st.n.msgs)
    ensures var t := Apply(st, a);
      && t.n.msgs == st.n.msgs && FileTail(t.s, t.n.msgs)
      && (if Begun(t.s.pc) then 1 else 0) - Unused(t.s, t.n.msgs)
        >= (if Begun(st.s.pc) then 1 else 0) - Unused(st.s, st.n.msgs)
  {
  }

  lemma PostAllows(st: St)
    requires Shape(st) && Enabled(st, PostWrite) && (st.s.pc.ChunkWrite? ==> st.s.intent.FileData?)
    ensures var t, p := Apply(st, PostWrite), st.s.intent;
      && |t.n.msgs| == |st.n.msgs| + 1 && Pkts(t.n.msgs) == Pkts(st.n.msgs) + [p] && FileTail(t.s, t.n.msgs)
      && Begun(st.s.pc) && !Begun(t.s.pc)
      && Unused(t.s, t.n.msgs) <= Unused(st.s, st.n.msgs) + if p.FileMeta? && p.kind.Regular? then 2 else 0
  {
  }

  lemma AllowStep(st: St, a: Step)
    requires Reachable(st) && Enabled(st, a) && FileTail(st.s, st.n.msgs)
    ensures Allowance(Apply(st, a)) >= Allowance(st) + if IsBegin(a) then 1 else 0
    ensures FileTail(Apply(st, a).s, Apply(st, a).n.msgs)
  {
    hide Reached, Apply, Enabled, FileTail, Unused, Files, Pkts, Begun;
    if IsNic(a) {
      NicAllows(st, a);
    } else if IsReceiver(a) {
      ReceiverAllows(st, a);
    } else if a.PostWrite? {
      if st.s.pc.ChunkWrite? { IntentIsData(st); }
      PostAllows(st);
      FilesSnoc(Pkts(st.n.msgs), st.s.intent);
    } else {
      SenderAllows(st, a);
    }
  }

  lemma IntentIsData(st: St)
    requires Reachable(st) && st.s.pc.ChunkWrite?
    ensures st.s.intent.FileData?
  {
    hide Reached, Path, Window, Local, Remote, Marks, RecvRing, AckRing, Books, SendCq, SenderAt, ReceiverAt,
      ReceiverData, Gather;
    ReachInv(st);
  }

  lemma {:induction false} BegunBound(st: St, run: seq<Step>)
    requires Reachable(st) && IsRun(st, run) && FileTail(st.s, st.n.msgs)
    ensures Begins(run) + Allowance(st) <= Allowance(Exec(st, run))
    decreases |run|
  {
    hide Reached, Apply, Enabled, FileTail, Allowance;
    if run != [] {
      AllowStep(st, run[0]);
      ReachStep(st, run[0]);
      BegunBound(Apply(st, run[0]), run[1..]);
    }
  }

  /** How much is begun is bounded by the packets sent. */
  lemma BegunByPackets(st: St, run: seq<Step>)
    requires Init(st) && IsRun(st, run)
    ensures Begins(run) <= MostBegun(Pkts(Exec(st, run).n.msgs))
  {
    hide IsRun, Exec;
    InitReachable(st);
    BegunBound(st, run);
  }

  /** A run from the connected state that sends no more than the packets `ps` takes a
      bounded number of steps, retransmissions aside. */
  lemma WorkByPackets(st: St, run: seq<Step>, ps: seq<Packet>)
    requires Init(st) && IsRun(st, run) && Pkts(Exec(st, run).n.msgs) <= ps
    ensures Begins(run) <= MostBegun(ps) && Works(run) <= 8 + PACKET_COST * MostBegun(ps)
  {
    hide IsRun, Exec, Init, Pkts;
    BegunByPackets(st, run);
    FilesPrefix(Pkts(Exec(st, run).n.msgs), ps);
    RunsAreBounded(st, run);
  }

  // ---------------------------------------------------------------- deadlock freedom

  /** Nothing in flight: the sender is between packets and the receiver idle. */
  predicate Quiet(st: St) {
    && st.s.pc.Idle?
    && |st.n.wire| == |st.n.sq| == st.n.delivered == st.n.acked
    && |st.n.asq| == st.n.aDelivered == st.n.aAcked == |st.n.msgs|
    && (st.r.pc.Halted? || (st.r.pc.Wait? && st.r.polled == |st.n.rcq|))
  }

  /** Neither the NIC nor the receiver can do anything. */
  predicate EnvBlocked(st: St) {
    && |st.n.wire| == |st.n.sq| == st.n.delivered == st.n.acked
    && |st.n.asq| == st.n.aDelivered == st.n.aAcked
    && (st.r.pc.Halted? || (st.r.pc.Wait? && st.r.polled == |st.n.rcq|))
  }

  /** Cursors never overtake one another, and the receiver's loop is intact. */
  lemma Ordered(st: St)
    requires Inv(st)
    ensures var r, n := st.r, st.n;
      && n.acked <= n.delivered <= |n.wire| <= |n.sq| && n.aAcked <= n.aDelivered <= |n.asq| && !n.rnr
      && r.polled <= |n.rcq| && !r.pc.Broken? && (r.pc.SendAck? ==> r.interp != [])
  {
    hide Window, Local, Remote, Marks, RecvRing, Books, SendCq, SenderAt, Filled, Recvs, WrOf, FrameOf;
  }

  /** Some step of the NIC or the receiver, if there is one. */
  function EnvChoice(st: St): Step {
    var r, n := st.r, st.n;
    if |n.wire| < |n.sq| then NicExec
    else if n.delivered < |n.wire| then NicDeliver
    else if n.acked < n.delivered then NicComplete
    else if n.aDelivered < |n.asq| then AckDeliver
    else if n.aAcked < n.aDelivered then AckComplete
    else match r.pc
      case Setup => if r.ext < RING - 1 then ExtendWindow else OpenWindow
      case Consume => RConsume
      case Interpret => RInterpret
      case Repost => RRepost
      case SendAck => RAck
      case _ => RPoll
  }

  lemma EnvStep(st: St)
    requires Reachable(st) && !EnvBlocked(st)
    ensures Enabled(st, EnvChoice(st)) && IsWork(EnvChoice(st)) && !IsSender(EnvChoice(st))
  {
    hide Reached, Path, Window, Local, Remote, Marks, RecvRing, AckRing, Books, SendCq, SenderAt, Filled, ReceiverAt,
      ReceiverData;
    ReachInv(st);
    Ordered(st);
    hide Inv;
  }

  /** If NIC and receiver are blocked, every posted message has been answered and
      every answer has reached the sender's completion queue. */
  lemma BlockedMeansAnswered(st: St)
    requires Reachable(st) && EnvBlocked(st)
    ensures |st.n.asq| == Sends(|st.n.sq|)
    ensures Recvs(st.n.scq) == Sends(|st.n.sq|) && WriteDones(st.n.scq) == Writes(|st.n.sq|)
  {
    hide Reached, Local, Remote, Filled, Window, Books, SenderAt, WrOf, FrameOf, WriteDones, Recvs, IsAckOf,
      WrIdOf;
    ReachInv(st);
    Chain(st);
    if st.r.pc.Wait? {
      assert st.n.rcq[..st.r.polled] == st.n.rcq;
    } else {
      var last := |st.r.interp| - 1;
      assert st.r.interp[last] == st.n.msgs[last].pkt;
    }
  }

  /** A waiting sender that has polled everything is never alone: the NIC or the
      receiver can take a step. */
  lemma WaitingIsServed(st: St)
    requires Reachable(st) && Waiting(st) && BatchDone(st.s) && st.s.polled == |st.n.scq|
    ensures !EnvBlocked(st)
  {
    hide Reached, Local, Remote, Marks, RecvRing, AckRing, Filled, Window, ReceiverAt, ReceiverData, WrOf,
      FrameOf, Recvs, WriteDones, EnvBlocked;
    ReachInv(st);
    if EnvBlocked(st) {
      BlockedMeansAnswered(st);
      Chain(st);
      assert st.n.scq[..st.s.handled] == st.n.scq;
      forall i: Slot ensures st.s.slotFree[i] {
        assert st.s.slotFree[i] == !Busy(i, st.s.base, st.s.consumed, Sends(|st.n.sq|));
      }
    }
  }

  /** Some step that uses up work, if there is one. */
  function NextStep(st: St): Step
    requires Shape(st)
  {
    var s := st.s;
    match s.pc
    case SyncRecv => PostAckRecv
    case ChunkRecv => PostAckRecv
    case SyncWrite => PostWrite
    case ChunkWrite => PostWrite
    case SyncReady => PostReady
    case ChunkReady => PostReady
    case LoopHead => LoopEnd
    case ChunkRead => ReadData([], false)
    case ChunkHead => FillHead(FileData(0, 0, 0, []), 0)
    case ChunkPoll => Poll(0)
    case ChunkHandle => if s.handled < s.polled then Handle else HandleDone
    case Idle => EnvChoice(st)
    case _ =>
      if s.handled < s.polled then Handle
      else if Waiting(st) && s.polled < |st.n.scq| then Poll(1)
      else if Waiting(st) then EnvChoice(st)
      else if s.pc.SyncSlot? || s.pc.ChunkSlot? then SlotReady
      else if s.pc.SyncWaitWrite? then WriteSeen
      else if s.pc.SyncWaitAck? then SyncDone
      else DrainDone
  }

  /** The deadlock-freedom theorem: unless everything is quiet, some party can take
      a step that uses up work. */
  lemma NoDeadlock(st: St)
    requires Reachable(st) && !Quiet(st)
    ensures Enabled(st, NextStep(st)) && IsWork(NextStep(st))
  {
    hide Reached, Path, Local, Remote, Marks, RecvRing, AckRing, Filled, Window, Books, ReceiverAt,
      ReceiverData, Recvs, WriteDones, EnvChoice, EnvBlocked;
    ReachInv(st);
    if st.s.pc.Idle? {
      if EnvBlocked(st) { QuietWhenBlocked(st); }
      EnvStep(st);
    } else if Waiting(st) && st.s.polled == |st.n.scq| && BatchDone(st.s) {
      WaitingIsServed(st);
      EnvStep(st);
    }
  }

  lemma QuietWhenBlocked(st: St)
    requires Reachable(st) && st.s.pc.Idle? && EnvBlocked(st)
    ensures Quiet(st)
  {
    hide Reached, Path, Local, Remote, Marks, RecvRing, AckRing, Filled, Window, Books, ReceiverAt,
      ReceiverData, Recvs, WriteDones;
    ReachInv(st);
    BlockedMeansAnswered(st);
    Chain(st);
  }

  /** A quiet state is a finished one: all that was sent has been interpreted. */
  lemma QuietMeansDone(st: St)
    requires Reachable(st) && Quiet(st)
    ensures st.r.interp == Pkts(st.n.msgs)
    ensures st.s.ended && st.n.msgs != [] && st.n.msgs[|st.n.msgs| - 1].pkt.TransferEnd? ==> st.r.pc.Halted?
  {
    hide Reached;
    ReachInv(st);
    DrainedMeansAll(st);
    hide Path, Window, Local, Remote, Marks, RecvRing, AckRing, Books, SendCq, SenderAt, Filled, ReceiverData;
    if st.n.msgs != [] { assert st.r.interp[|st.r.interp| - 1] == st.n.msgs[|st.n.msgs| - 1].pkt; }
  }
}
