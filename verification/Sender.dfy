/** The sender program in its own form: a context whose methods update it in place,
    with the other parties free to move between any two of its actions. Every
    action is a step of the machine, so everything proved there holds here. */
module Sender {
  import opened Packets
  import opened Machine
  import opened Invariant
  import opened Safety
  import opened Progress
  import opened Paths
  import opened Chunks
  import opened Interpreter
  import opened Trees

  /** What the sender can observe of others' moves: completions appear, work gets
      done, and its own context and posted messages stay as they are. */
  predicate EnvMoved(a: St, b: St) {
    b.s == a.s && b.n.msgs == a.n.msgs && b.n.lmem == a.n.lmem && a.n.scq <= b.n.scq && Measure(b) <= Measure(a)
  }

  lemma EnvStepMoves(st: St, a: Step)
    requires Reachable(st) && Enabled(st, a) && !IsSender(a)
    ensures EnvMoved(st, Apply(st, a)) && Reachable(Apply(st, a))
    ensures IsWork(a) ==> Measure(Apply(st, a)) < Measure(st)
  {
    hide Reached, Inv, Measure;
    ReachStep(st, a);
    EnvFrame(st, a);
    ReachInv(st);
    if a.NicReread? { NicRereadInv(st, a.e); } else { WorkDecreases(st, a); }
  }

  lemma Handles(st: St)
    requires Reachable(st) && st.s.handled < st.s.polled <= |st.n.scq|
    ensures Shape(st) && Stepped(st, Handle, DoHandle(st)) && Reachable(DoHandle(st))
  {
    hide Reached;
    ReachStep(st, Handle);
  }

  lemma EnvKeeps(a: St, b: St)
    requires EnvMoved(a, b)
    ensures b == St(a.s, b.r, b.n.(lmem := a.n.lmem))
  {
  }

  predicate SenderKept(a: St, b: St) {
    b.s == a.s && b.n.msgs == a.n.msgs && b.n.lmem == a.n.lmem && a.n.scq <= b.n.scq
  }

  lemma EnvFrame(st: St, a: Step)
    requires Shape(st) && Enabled(st, a) && !IsSender(a)
    ensures SenderKept(st, Apply(st, a))
  {
    hide Enabled, Apply, SenderKept;
    if IsNic(a) { NicFrame(st, a); } else { ReceiverFrame(st, a); }
  }

  lemma NicFrame(st: St, a: Step)
    requires Shape(st) && Enabled(st, a) && IsNic(a)
    ensures SenderKept(st, Apply(st, a))
  {
  }

  lemma ReceiverFrame(st: St, a: Step)
    requires Shape(st) && Enabled(st, a) && IsReceiver(a)
    ensures SenderKept(st, Apply(st, a))
  {
  }

  /** A write completion is among the completions from the i-th up to the j-th. */
  predicate WroteBetween(scq: seq<Wc>, i: nat, j: nat) {
    exists k :: i <= k < j && k < |scq| && scq[k].WriteDone?
  }

  lemma WroteNext(scq: seq<Wc>, scq': seq<Wc>, i: nat, j: nat)
    requires scq <= scq' && i <= j < |scq|
    ensures WroteBetween(scq, i, j) || scq[j].WriteDone? ==> WroteBetween(scq', i, j + 1)
  {
    if scq[j].WriteDone? {
      assert scq'[j] == scq[j];
    } else if WroteBetween(scq, i, j) {
      var k :| i <= k < j && k < |scq| && scq[k].WriteDone?;
      assert scq'[k] == scq[k];
    }
  }

  lemma WroteSince(scq: seq<Wc>, i: nat, from: nat, j: nat)
    requires i <= from && WroteBetween(scq, from, j)
    ensures WroteBetween(scq, i, j)
  {
  }

  lemma MeasureNat(st: St)
    requires Reachable(st)
    ensures Measure(st) >= 0
  {
    hide Inv, Measure, Reached;
    ReachInv(st);
    MeasureNonNegative(st);
  }

  class Context {
    // scp_rdma_context_t and the ring indices of create_qp_res_t
    const slotFree: array<bool>
    const slotBuf: array<LocalSlot>
    var pendingAcks: int
    var currentSlot: Slot
    var postIdx: RingIdx
    var consIdx: RingIdx
    // completion queue cursors of the polling loop
    var polled: nat
    var handled: nat
    var writeDone: bool
    // the rest of the world: queues, remote memory, the receiver
    var net: Net
    var peer: Rcv
    // history: where the program is and what it is sending
    var pc: SPc
    var intent: Packet
    var form: Form
    var consumed: nat
    var base: nat
    var ended: bool

    /** scp_rdma_init and the connection: all slots free, no ACK expected, one receive
        posted. What the slots contain is of no consequence. */
    constructor (connected: St)
      requires Init(connected)
      ensures Valid() && fresh(slotFree) && fresh(slotBuf)
      ensures pc.Idle? && !ended && net.msgs == [] && peer == connected.r
    {
      slotFree := new bool[SLOTS](_ => true);
      slotBuf := new LocalSlot[SLOTS](i requires 0 <= i < SLOTS => connected.n.lmem[i]);
      pendingAcks, currentSlot, postIdx, consIdx := 0, 0, 1, 0;
      polled, handled, writeDone := 0, 0, false;
      net, peer := connected.n, connected.r;
      pc, intent, form, consumed, base, ended := Idle, Blank, Whole, 0, 0, false;
      new;
      hide Reached;
      assert slotFree[..] == [true, true, true, true];
      InitReachable(State());
    }

    function Me(): Snd
      reads this, slotFree
    {
      Snd(pc, slotFree[..], pendingAcks, currentSlot, postIdx, consIdx, polled, handled, writeDone, intent, form,
          consumed, base, ended)
    }

    function State(): St
      reads this, slotFree, slotBuf
    {
      St(Me(), peer, net.(lmem := slotBuf[..]))
    }

    ghost predicate Valid()
      reads this, slotFree, slotBuf
    {
      slotFree.Length == SLOTS && slotBuf.Length == SLOTS && Reachable(State())
    }

    /** The packets sent so far, and those the receiver has interpreted. */
    function Emitted(): seq<Packet>
      reads this
    {
      Pkts(net.msgs)
    }

    // -------------------------------------------------------------- the others

    method TakeStep(a: Step)
      requires Valid() && !IsSender(a) && Enabled(State(), a)
      modifies this`net, this`peer
      ensures Valid() && EnvMoved(old(State()), State())
      ensures Stepped(old(State()), a, State())
      ensures IsWork(a) ==> Measure(State()) < Measure(old(State()))
    {
      hide Reached, Measure, Apply, Enabled, EnvMoved, IsSender, IsWork;
      EnvStepMoves(State(), a);
      EnvKeeps(State(), Apply(State(), a));
      var st := Apply(State(), a);
      net, peer := st.n, st.r;
    }

    /** NIC and receiver take any number of steps, in any order. */
    method Interfere()
      requires Valid()
      modifies this`net, this`peer
      ensures Valid() && EnvMoved(old(State()), State()) && net.msgs == old(net.msgs)
    {
      hide Reached, Measure, Apply;
      var n: int := *;
      while n > 0
        invariant Valid() && EnvMoved(old(State()), State())
      {
        var a: Step := *;
        if !IsSender(a) && Enabled(State(), a) { TakeStep(a); }
        n := n - 1;
      }
    }

    /** Sleeping until the completion queue has an entry or somebody else has moved.
        Fairness is used here: a party that can move eventually does. */
    method AwaitCompletion()
      requires Valid() && polled == handled && Waiting(State())
      modifies this`net, this`peer
      ensures Valid() && EnvMoved(old(State()), State())
      ensures polled < |net.scq| || Measure(State()) < Measure(old(State()))
    {
      hide Reached, Measure, Apply, Enabled, EnvBlocked;
      Interfere();
      PolledBound(State());
      if polled == |net.scq| {
        WaitingIsServed(State());
        EnvStep(State());
        var a := EnvChoice(State());
        TakeStep(a);
      }
    }

    // -------------------------------------------------------------- single actions

    /** A step that only moves the program on. */
    method Goto(a: Step)
      requires Valid() && Enabled(State(), a)
      requires a.BeginChunk? || a.LoopEnd? || a.SlotReady? || a.WriteSeen? || a.SyncDone? || a.HandleDone?
        || a.DrainDone?
      modifies this`pc
      ensures Valid() && Stepped(old(State()), a, State())
    {
      hide Reached;
      ReachStep(State(), a);
      pc := Apply(State(), a).s.pc;
    }

    /** Fill in a control packet at the start of session_buf. */
    method FillControl(p: Packet)
      requires Valid() && pc.Idle? && !ended && !p.Blank?
      modifies this`pc, this`intent, this`form, this`base, this`ended, slotBuf
      ensures Valid() && Stepped(old(State()), BeginSync(p), State())
      ensures pc.SyncSlot? && intent == p && form == Whole && ended == p.TransferEnd? && base == |net.msgs|
    {
      hide Reached;
      ReachStep(State(), BeginSync(p));
      slotBuf[0] := slotBuf[0].(head := p);
      pc, intent, form, base, ended := SyncSlot, p, Whole, |net.msgs|, p.TransferEnd?;
    }

    /** rdma_cdc_acquire_post_buf and post_receive_cdc_ex. */
    method PostReceive(wrId: Slot)
      requires Valid() && (pc.SyncRecv? || pc.ChunkRecv?) && wrId == if pc.SyncRecv? then 0 else currentSlot
      modifies this`pc, this`postIdx, this`net
      ensures Valid() && Stepped(old(State()), PostAckRecv, State())
      ensures pc == (if old(pc).SyncRecv? then SyncWrite else ChunkWrite) && net.msgs == old(net.msgs)
    {
      hide Reached;
      ReachStep(State(), PostAckRecv);
      var buf := postIdx;
      postIdx := Next(postIdx);
      net := net.(srq := net.srq + [RecvWr(buf, wrId)]);
      pc := if pc.SyncRecv? then SyncWrite else ChunkWrite;
    }

    /** rdma_trans_post: the work request refers to the slot, it does not copy it. */
    method PostRdmaWrite(slot: Slot, sges: Form)
      requires Valid() && (pc.SyncWrite? || pc.ChunkWrite?) && sges == form
      requires slot == if pc.SyncWrite? then 0 else currentSlot
      modifies this`pc, this`net, this`writeDone
      ensures Valid() && Stepped(old(State()), PostWrite, State())
      ensures pc == (if old(pc).SyncWrite? then SyncWaitWrite else ChunkReady) && !writeDone
      ensures Emitted() == old(Emitted()) + [intent]
    {
      hide Reached, Pkts;
      ReachStep(State(), PostWrite);
      PktsSnoc(net.msgs, Msg(slot, sges, intent));
      net := net.(sq := net.sq + [Write(slot, sges)], msgs := net.msgs + [Msg(slot, sges, intent)]);
      writeDone := false;
      pc := if pc.SyncWrite? then SyncWaitWrite else ChunkReady;
    }

    method MarkBusy(slot: Slot)
      requires slotFree.Length == SLOTS
      modifies this`pendingAcks, slotFree
      ensures slotFree[..] == old(slotFree[..])[slot := false] && pendingAcks == old(pendingAcks) + 1
    {
      slotFree[slot] := false;
      pendingAcks := pendingAcks + 1;
    }

    /** post_send_cdc with a DATA_READY for slot 0, which is marked busy first; the
        message is copied inline. */
    method SignalControl()
      requires Valid() && pc.SyncReady?
      modifies this`pc, this`net, this`pendingAcks, slotFree
      ensures Valid() && Stepped(old(State()), PostReady, State())
      ensures pc.SyncWaitAck? && net.msgs == old(net.msgs)
    {
      hide Reached;
      ReachStep(State(), PostReady);
      ghost var st := State();
      ReadyEffect(st);
      hide Enabled, Reachable, Apply, Stepped;
      MarkBusy(0);
      net := net.(sq := net.sq + [Send(DataReady(0))]);
      pc := SyncWaitAck;
      assert State() == DoPostReady(st);
    }

    /** The same for a chunk, which then moves on to the next slot. */
    method SignalChunk(slot: Slot)
      requires Valid() && pc.ChunkReady? && slot == currentSlot
      modifies this`pc, this`net, this`pendingAcks, this`currentSlot, slotFree
      ensures Valid() && Stepped(old(State()), PostReady, State())
      ensures pc.ChunkPoll? && net.msgs == old(net.msgs)
    {
      hide Reached;
      ReachStep(State(), PostReady);
      ghost var st := State();
      ReadyEffect(st);
      hide Enabled, Reachable, Apply, Stepped;
      net := net.(sq := net.sq + [Send(DataReady(slot))]);
      MarkBusy(slot);
      currentSlot := (slot + 1) % SLOTS;
      pc := ChunkPoll;
      assert State() == DoPostReady(st);
    }

    /** rdma_cdc_consume_buf. */
    method ConsumeBuf() returns (cdc: Cdc)
      requires |net.sbufs| == RING
      modifies this`consIdx, this`consumed
      ensures cdc == net.sbufs[old(consIdx)] && consIdx == Next(old(consIdx)) && consumed == old(consumed) + 1
    {
      cdc := net.sbufs[consIdx];
      consIdx := Next(consIdx);
      consumed := consumed + 1;
    }

    /** handle_ack_recv: free the slot the ACK names. */
    method HandleAckRecv(wrId: nat)
      requires Valid() && handled < polled <= |net.scq| && net.scq[handled] == Recv(wrId)
      modifies this`consIdx, this`consumed, this`handled, this`pendingAcks, slotFree
      ensures Valid() && Stepped(old(State()), Handle, State())
      ensures consumed == old(consumed) + 1
    {
      hide Reached, Reachable, Stepped, Apply, Enabled;
      Handles(State());
      var cdc := ConsumeBuf();
      var slotId := cdc.slot;
      if slotId < SLOTS {
        FreeSlot(slotId);
      }
      handled := handled + 1;
    }

    method FreeSlot(slot: Slot)
      requires slotFree.Length == SLOTS
      modifies this`pendingAcks, slotFree
      ensures slotFree[..] == if old(slotFree[slot]) then old(slotFree[..]) else old(slotFree[..])[slot := true]
      ensures pendingAcks == if old(slotFree[slot]) then old(pendingAcks) else old(pendingAcks) - 1
    {
      if !slotFree[slot] {
        slotFree[slot] := true;
        pendingAcks := pendingAcks - 1;
      }
    }

    /** The switch on the opcode of one completion. */
    method HandleCompletion(wc: Wc)
      requires Valid() && handled < polled <= |net.scq| && net.scq[handled] == wc
      modifies this`consIdx, this`consumed, this`handled, this`pendingAcks, this`writeDone, slotFree
      ensures Valid() && Stepped(old(State()), Handle, State())
      ensures consumed == old(consumed) + if wc.Recv? then 1 else 0
      ensures writeDone ==> old(writeDone) || wc.WriteDone?
    {
      hide Reached, Stepped, Reachable, Apply, Enabled;
      match wc
      case Recv(wrId) => HandleAckRecv(wrId);
      case WriteDone => HandleWriteDone();
      case SendDone => HandleSendDone();
    }

    method HandleWriteDone()
      requires Valid() && handled < polled <= |net.scq| && net.scq[handled].WriteDone?
      modifies this`handled, this`writeDone
      ensures Valid() && Stepped(old(State()), Handle, State())
    {
      hide Reached;
      ReachStep(State(), Handle);
      handled := handled + 1;
      if pc.SyncWaitWrite? { writeDone := true; }
    }

    method HandleSendDone()
      requires Valid() && handled < polled <= |net.scq| && net.scq[handled].SendDone?
      modifies this`handled
      ensures Valid() && Stepped(old(State()), Handle, State())
    {
      hide Reached;
      ReachStep(State(), Handle);
      handled := handled + 1;
    }

    // -------------------------------------------------------------- waiting

    /** ibv_poll_cq: take some of the oldest completions, at most 16, and at least
        one if there is one. */
    method PollCq() returns (wc: seq<Wc>)
      requires Valid() && polled == handled && (pc.ChunkPoll? || Waiting(State()))
      modifies this`polled, this`pc
      ensures Valid() && |wc| <= 16 && handled + |wc| == polled <= |net.scq| && wc == net.scq[handled..polled]
      ensures pc == if old(pc).ChunkPoll? then ChunkHandle else old(pc)
      ensures Measure(State()) <= Measure(old(State()))
      ensures old(polled) < |net.scq| ==> wc != [] && Measure(State()) < Measure(old(State()))
    {
      hide Reached, Measure;
      PolledBound(State());
      var avail := |net.scq| - polled;
      var k: int := *;
      if k > MAX_WC { k := MAX_WC; }
      if k > avail { k := avail; }
      if k <= 0 { k := if avail > 0 then 1 else 0; }
      wc := net.scq[polled..polled + k];
      if k > 0 || pc.ChunkPoll? {
        WorkDecreases(State(), Poll(k));
        ReachStep(State(), Poll(k));
        polled := polled + k;
        if pc.ChunkPoll? { pc := ChunkHandle; }
      }
    }

    method HandleNext(wc: Wc)
      requires Valid() && handled < polled <= |net.scq| && wc == net.scq[handled]
      modifies this`consIdx, this`consumed, this`handled, this`pendingAcks, this`writeDone, this`net, this`peer,
        slotFree
      ensures Valid() && handled == old(handled) + 1 && old(net.scq) <= net.scq && net.msgs == old(net.msgs)
      ensures consumed == old(consumed) + if wc.Recv? then 1 else 0
      ensures writeDone ==> old(writeDone) || wc.WriteDone?
      ensures Measure(State()) <= Measure(old(State()))
    {
      hide Reached, Measure, Enabled;
      Interfere();
      HandleEnabled(State());
      WorkDecreases(State(), Handle);
      HandleFrame(State());
      HandleCompletion(wc);
    }

    /** Handle a batch in order; NIC and receiver go on meanwhile. */
    method HandleBatch(wc: seq<Wc>) returns (harvested: nat)
      requires Valid() && handled + |wc| == polled <= |net.scq| && wc == net.scq[handled..polled]
      modifies this`consIdx, this`consumed, this`handled, this`pendingAcks, this`writeDone, this`net, this`peer,
        slotFree
      ensures Valid() && polled == handled && net.msgs == old(net.msgs)
      ensures Measure(State()) <= Measure(old(State()))
      ensures harvested == Recvs(wc) == consumed - old(consumed)
      ensures old(net.scq) <= net.scq && (writeDone ==> old(writeDone) || WroteBetween(net.scq, old(handled), handled))
    {
      hide Reached, Measure, Reachable, Recvs, WroteBetween;
      harvested := 0;
      assert wc[..0] == [] && Recvs([]) == 0 by { EmptyCount(); }
      for i := 0 to |wc|
        invariant Valid() && handled == old(handled) + i && old(net.scq) <= net.scq
        invariant net.msgs == old(net.msgs) && Measure(State()) <= Measure(old(State()))
        invariant harvested == Recvs(wc[..i]) == consumed - old(consumed)
        invariant writeDone ==> old(writeDone) || WroteBetween(net.scq, old(handled), handled)
      {
        assert wc[i] == net.scq[handled];
        ghost var scq := net.scq;
        HandleNext(wc[i]);
        WroteNext(scq, net.scq, old(handled), handled - 1);
        CountTake(wc, i);
        if wc[i].Recv? { harvested := harvested + 1; }
      }
      assert wc[..|wc|] == wc;
    }

    method EndBatch()
      requires Valid() && polled == handled && pc.ChunkHandle?
      modifies this`pc
      ensures Valid() && polled == handled && pc.LoopHead?
    {
      hide Reached;
      Goto(HandleDone);
    }

    /** harvest_completions: wait for completions (or only look, after a chunk) and
        handle them; the result counts the ACKs. */
    method HarvestCompletions(blocking: bool) returns (harvested: nat)
      requires Valid() && polled == handled && if blocking then Waiting(State()) else pc.ChunkPoll?
      modifies this`polled, this`pc, this`consIdx, this`consumed, this`handled, this`pendingAcks, this`writeDone,
        this`net, this`peer, slotFree
      ensures Valid() && polled == handled && net.msgs == old(net.msgs)
      ensures pc == if blocking then old(pc) else LoopHead
      ensures blocking ==> Measure(State()) < Measure(old(State()))
      ensures harvested == consumed - old(consumed)
      ensures old(net.scq) <= net.scq && old(handled) <= handled
      ensures writeDone ==> old(writeDone) || WroteBetween(net.scq, old(handled), handled)
    {
      hide Reached, Measure, Waiting, Enabled, Apply, WroteBetween;
      WaitingPc(State());
      if blocking {
        AwaitCompletion();
        WaitingSame(old(State()), State());
      } else {
        Interfere();
      }
      var wc := PollCq();
      harvested := HandleBatch(wc);
      if !blocking { EndBatch(); }
    }

    /** wait_for_slot. */
    method WaitForSlot(slot: Slot)
      requires Valid() && polled == handled && (pc.SyncSlot? || pc.SyncWaitAck? || pc.ChunkSlot?)
      requires slot == if pc.ChunkSlot? then currentSlot else 0
      modifies this`polled, this`pc, this`consIdx, this`consumed, this`handled, this`pendingAcks, this`writeDone,
        this`net, this`peer, slotFree
      ensures Valid() && polled == handled && net.msgs == old(net.msgs) && pc == old(pc) && slotFree[slot]
    {
      hide Reached, Measure;
      while !slotFree[slot]
        invariant Valid() && polled == handled && net.msgs == old(net.msgs) && pc == old(pc)
        decreases Measure(State())
      {
        MeasureNat(State());
        var _ := HarvestCompletions(true);
      }
    }

    /** wait_for_rdma_write_completion: until some write completion was in a batch,
        possibly one left over from an earlier chunk. */
    method WaitForRdmaWriteCompletion()
      requires Valid() && polled == handled && pc.SyncWaitWrite? && !writeDone
      modifies this`polled, this`pc, this`consIdx, this`consumed, this`handled, this`pendingAcks, this`writeDone,
        this`net, this`peer, slotFree
      ensures Valid() && polled == handled && net.msgs == old(net.msgs) && pc == old(pc) && writeDone
      ensures WroteBetween(net.scq, old(handled), handled)
    {
      hide Reached, Measure, WroteBetween;
      while !writeDone
        invariant Valid() && polled == handled && net.msgs == old(net.msgs) && pc == old(pc)
        invariant old(handled) <= handled && (writeDone ==> WroteBetween(net.scq, old(handled), handled))
        decreases Measure(State())
      {
        MeasureNat(State());
        ghost var from := handled;
        var _ := HarvestCompletions(true);
        if writeDone { WroteSince(net.scq, old(handled), from, handled); }
      }
    }

    /** drain_pending_acks. */
    method DrainPendingAcks()
      requires Valid() && polled == handled && pc.Drain?
      modifies this`polled, this`pc, this`consIdx, this`consumed, this`handled, this`pendingAcks, this`writeDone,
        this`net, this`peer, slotFree
      ensures Valid() && net.msgs == old(net.msgs) && pc.Idle?
    {
      hide Reached, Measure;
      while pendingAcks > 0
        invariant Valid() && polled == handled && net.msgs == old(net.msgs) && pc.Drain?
        decreases Measure(State())
      {
        MeasureNat(State());
        var _ := HarvestCompletions(true);
      }
      Goto(DrainDone);
    }

    // -------------------------------------------------------------- sending

    method SlotWon()
      requires Valid() && polled == handled && (pc.SyncSlot? || pc.ChunkSlot?)
      requires slotFree[if pc.SyncSlot? then 0 else currentSlot]
      modifies this`pc
      ensures Valid() && pc == if old(pc).SyncSlot? then SyncRecv else ChunkRead
    {
      hide Reached;
      Goto(SlotReady);
    }

    method WriteCompleted()
      requires Valid() && polled == handled && writeDone && pc.SyncWaitWrite?
      modifies this`pc
      ensures Valid() && pc.SyncReady?
    {
      hide Reached;
      Goto(WriteSeen);
    }

    method SyncFinished()
      requires Valid() && polled == handled && slotFree[0] && pc.SyncWaitAck?
      modifies this`pc
      ensures Valid() && pc.Idle?
    {
      hide Reached;
      Goto(SyncDone);
    }

    /** Steps 0 to 2 of scp_rdma_send_sync: slot, receive for the ACK, RDMA write. */
    method SyncWritePacket()
      requires Valid() && pc.SyncSlot? && polled == handled && form == Whole
      modifies this, slotFree
      ensures Valid() && pc.SyncWaitWrite? && !writeDone && polled == handled
      ensures ended == old(ended) && base == old(base)
      ensures Emitted() == old(Emitted() + [intent])
    {
      hide Reached, Measure, Apply, Enabled, Stepped, Reachable, Pkts, EnvMoved, State, Me;
      WaitForSlot(0);
      SlotWon();
      PostReceive(0);
      WriteAsIs();
    }

    method WriteAsIs()
      requires Valid() && pc.SyncWrite? && form == Whole
      modifies this`pc, this`net, this`writeDone, this`peer
      ensures Valid() && pc.SyncWaitWrite? && !writeDone && Emitted() == old(Emitted() + [intent])
    {
      hide Reached, Measure, Apply, Enabled, Stepped, Reachable, Pkts, EnvMoved, State, Me;
      Interfere();
      PostRdmaWrite(0, form);
      Interfere();
    }

    /** Steps 2 to 4: write completion, DATA_READY, ACK. */
    method SyncSignal()
      requires Valid() && pc.SyncWaitWrite? && !writeDone && polled == handled
      modifies this, slotFree
      ensures Valid() && pc.Idle? && ended == old(ended) && net.msgs == old(net.msgs) && base == old(base)
    {
      hide Reached, Measure, Apply, Enabled, Stepped, Reachable, Pkts, EnvMoved, State, Me;
      WaitForRdmaWriteCompletion();
      WriteCompleted();
      SignalControl();
      WaitForSlot(0);
      SyncFinished();
    }

    /** scp_rdma_send_sync on the packet just filled into slot 0. */
    method SendControl(p: Packet)
      requires Valid() && pc.Idle? && !ended && !p.Blank?
      modifies this, slotFree, slotBuf
      ensures Valid() && pc.Idle? && ended == p.TransferEnd? && base == |old(net.msgs)|
      ensures Emitted() == old(Emitted()) + [p]
    {
      hide Reached, Measure, Apply, Enabled, Stepped, Reachable, Pkts, Polling;
      NotPolling(pc);
      IdleHandled(State());
      FillControl(p);
      SyncWritePacket();
      SyncSignal();
    }

    // -------------------------------------------------------------- files

    /** The per-file reset of the slot state. */
    method ResetSlots()
      requires Valid() && pc.Idle? && !ended && FileNext(net.msgs, base)
      modifies this`pc, this`currentSlot, this`pendingAcks, this`base, slotFree
      ensures Valid() && Stepped(old(State()), BeginFile, State())
      ensures pc.LoopHead?
    {
      hide Reached;
      ReachStep(State(), BeginFile);
      currentSlot := 0;
      pendingAcks := 0;
      for s := 0 to SLOTS
        invariant forall k :: 0 <= k < s ==> slotFree[k]
        modifies slotFree
      {
        slotFree[s] := true;
      }
      assert slotFree[..] == [true, true, true, true];
      pc, base := LoopHead, |net.msgs|;
    }

    method ChunkBegins()
      requires Valid() && pc.LoopHead?
      modifies this`pc
      ensures Valid() && pc.ChunkSlot? && polled == handled
    {
      hide Reached;
      NotPolling(pc);
      IdleHandled(State());
      Goto(BeginChunk);
    }

    method LoopEnds()
      requires Valid() && pc.LoopHead?
      modifies this`pc
      ensures Valid() && pc.Drain? && polled == handled
    {
      hide Reached;
      NotPolling(pc);
      IdleHandled(State());
      Goto(LoopEnd);
    }

    /** pread into the data region of the current slot: what lies behind the bytes
        read stays there. With direct reads whole blocks are asked for, and the
        count is cut afterwards. */
    method ReadChunk(content: seq<byte>, results: seq<int>, i: nat, offset: nat, direct: bool) returns (n: int)
      requires Valid() && pc.ChunkRead? && offset <= |content|
      modifies this`pc, slotBuf
      ensures Valid() && n == ChunkLen(|content|, results, i, offset)
      ensures pc == if n > 0 then ChunkHead else Drain
      ensures n > 0 ==>
        n <= |slotBuf[currentSlot].data| && slotBuf[currentSlot].data[..n] == content[offset..offset + n]
      ensures polled == handled
    {
      hide Reached, TotalChunks;
      NotPolling(pc);
      IdleHandled(State());
      var toRead := ToRead(|content|, offset);
      var r := ReadResult(results, i);
      if direct {
        DirectReadSame(|content|, offset, r);
        n := Pread(|content|, offset, Aligned(toRead), r);
        if n > toRead { n := toRead; }
      } else {
        n := Pread(|content|, offset, toRead, r);
      }
      var was := slotBuf[currentSlot].data;
      var data := if n <= 0 then was
                  else content[offset..offset + n] + if n < |was| then was[n..] else [];
      StoreData(data, n > 0);
    }

    method StoreData(data: seq<byte>, ok: bool)
      requires Valid() && pc.ChunkRead?
      modifies this`pc, slotBuf
      ensures Valid() && Stepped(old(State()), ReadData(data, ok), State())
      ensures pc == (if ok then ChunkHead else Drain) && slotBuf[currentSlot].data == data
    {
      hide Reached;
      ReachStep(State(), ReadData(data, ok));
      slotBuf[currentSlot] := slotBuf[currentSlot].(data := data);
      assert slotBuf[..] == old(slotBuf[..])[currentSlot := old(slotBuf[currentSlot]).(data := data)];
      pc := if ok then ChunkHead else Drain;
    }

    /** The chunk header goes to the start of the slot, in front of the data. */
    method FillHeader(h: Packet, n: nat)
      requires Valid() && pc.ChunkHead? && h.FileData? && n <= |slotBuf[currentSlot].data|
      modifies this`pc, this`form, this`intent, slotBuf
      ensures Valid() && Stepped(old(State()), FillHead(h, n), State())
      ensures pc.ChunkRecv? && form == Split(n) && intent == h.(bytes := old(slotBuf[currentSlot]).data[..n])
    {
      hide Reached;
      ReachStep(State(), FillHead(h, n));
      var m := slotBuf[currentSlot].(head := h);
      slotBuf[currentSlot] := m;
      assert slotBuf[..] == old(slotBuf[..])[currentSlot := m];
      pc, form, intent := ChunkRecv, Split(n), Gather(m, Split(n));
    }

    /** Steps 4 to 8 of the chunk loop: receive for the ACK, write, signal, harvest. */
    method SendChunk()
      requires Valid() && pc.ChunkRecv? && polled == handled
      modifies this, slotFree
      ensures Valid() && pc.LoopHead? && ended == old(ended)
      ensures Emitted() == old(Emitted() + [intent])
    {
      hide Reached, Measure, Apply, Enabled, Stepped, Reachable, Pkts, EnvMoved, State, Me;
      PostReceive(currentSlot);
      Interfere();
      PostRdmaWrite(currentSlot, form);
      Interfere();
      SignalChunk(currentSlot);
      var _ := HarvestCompletions(false);
    }

    /** One turn of the chunk loop: `n` bytes sent, or none and the loop is over. */
    method ChunkTurn(content: seq<byte>, results: seq<int>, i: nat, offset: nat, direct: bool) returns (n: int)
      requires Valid() && pc.LoopHead? && offset <= |content|
      modifies this, slotFree, slotBuf
      ensures Valid() && ended == old(ended) && n == ChunkLen(|content|, results, i, offset)
      ensures pc == if n > 0 then LoopHead else Drain
      ensures n <= 0 ==> polled == handled
      ensures Emitted() == old(Emitted())
        + if n > 0 then [FileData(i, n, offset, content[offset..offset + n])] else []
    {
      hide Reached, Measure, Apply, Enabled, Stepped, Reachable, Pkts, ChunkLen, State, Me;
      ChunkBegins();
      WaitForSlot(currentSlot);
      SlotWon();
      n := ReadChunk(content, results, i, offset, direct);
      if n > 0 {
        FillHeader(FileData(i, n, offset, []), n);
        SendChunk();
      }
    }

    /** The loop over all chunks of a file. */
    method ChunkLoop(content: seq<byte>, results: seq<int>, direct: bool)
      requires Valid() && pc.LoopHead?
      modifies this, slotFree, slotBuf
      ensures Valid() && pc.Drain? && polled == handled && ended == old(ended)
      ensures Emitted() == old(Emitted()) + ChunkPackets(content, results, 0, 0)
    {
      hide Reached, Measure, Apply, Enabled, Stepped, Reachable, Pkts, ChunkLen, State, Me, TotalChunks, ChunkPackets,
        Valid;
      var chunks := TotalChunks(|content|);
      var i, offset, n: int := 0, 0, 1;
      while i < chunks && n > 0
        invariant Valid() && ended == old(ended) && pc == (if n > 0 then LoopHead else Drain) && offset <= |content|
        invariant Emitted() + (if n > 0 then ChunkPackets(content, results, i, offset) else []) ==
          old(Emitted()) + ChunkPackets(content, results, 0, 0)
        invariant i <= chunks && (n <= 0 ==> polled == handled)
        decreases chunks - i, if n > 0 then 1 else 0
      {
        ghost var before := Emitted();
        n := ChunkTurn(content, results, i, offset, direct);
        TurnAdds(before, content, results, i, offset);
        if n > 0 { offset, i := offset + n, i + 1; }
      }
      if n > 0 {
        ChunkNext(content, results, i, offset);
        LoopEnds();
      }
    }

    /** scp_send_file, from its metadata packet to the last ACK. */
    method SendFile(content: seq<byte>, results: seq<int>, remote: CString, direct: bool)
      requires Valid() && pc.Idle? && !ended
      modifies this, slotFree, slotBuf
      ensures Valid() && pc.Idle? && !ended
      ensures Emitted() == old(Emitted()) + Compile(File(content, results), remote, true)
    {
      hide Reached, Measure, Apply, Enabled, Stepped, Reachable, Pkts, ChunkPackets, State, Me, TotalChunks;
      ghost var before := Emitted();
      SendControl(Meta(remote, |content|, Regular, TotalChunks(|content|)));
      Announced(net.msgs, before, Meta(remote, |content|, Regular, TotalChunks(|content|)));
      ResetSlots();
      ChunkLoop(content, results, direct);
      DrainPendingAcks();
    }

    /** scp_send_symlink; readlink reports at most 4095 bytes of the target. */
    method SendSymlink(full: CBytes, remote: CString)
      requires Valid() && pc.Idle? && !ended
      modifies this, slotFree, slotBuf
      ensures Valid() && pc.Idle? && !ended
      ensures Emitted() == old(Emitted()) + Compile(Link(full), remote, true)
    {
      hide Reached, Measure, Apply, Enabled, Stepped, Reachable, Pkts, State, Me;
      var target := Take(full, MAX_PATH_LEN - 1);
      SendControl(Meta(remote, |target|, Symlink, 1));
      SendControl(FileData(0, |target|, 0, target));
    }

    // -------------------------------------------------------------- trees

    /** The dispatch on what lstat (or stat) reports. */
    method SendTree(t: Tree, remote: CString, recursive: bool)
      requires Valid() && pc.Idle? && !ended && !t.Gone?
      modifies this, slotFree, slotBuf
      ensures Valid() && pc.Idle? && !ended
      ensures Emitted() == old(Emitted()) + Compile(t, remote, recursive)
      decreases t, 1
    {
      hide Reached, Measure, Apply, Enabled, Stepped, Reachable, Pkts, State, Me;
      match t
      case Dir(entries) => SendDirectory(entries, remote, recursive);
      case Link(full) => SendSymlink(full, remote);
      case File(content, results) =>
        var direct: bool := *;
        SendFile(content, results, remote, direct);
    }

    /** scp_send_directory: enter, every entry that is not passed over, leave. */
    method SendDirectory(entries: seq<Entry>, remote: CString, recursive: bool)
      requires Valid() && pc.Idle? && !ended
      modifies this, slotFree, slotBuf
      ensures Valid() && pc.Idle? && !ended
      ensures Emitted() == old(Emitted()) + Compile(Dir(entries), remote, recursive)
      decreases entries, 0
    {
      hide Reached, Measure, Apply, Enabled, Stepped, Reachable, Pkts, State, Me, Skipped, Compile, CompileAll;
      var enter := DirEnter(Clip(remote, MAX_FILENAME_LEN));
      SendControl(enter);
      assert entries[0..] == entries;
      for k := 0 to |entries|
        invariant Valid() && pc.Idle? && !ended
        invariant Emitted() + CompileAll(entries[k..], remote, recursive) ==
          old(Emitted()) + [enter] + CompileAll(entries, remote, recursive)
      {
        var e := entries[k];
        CompileNext(entries, k, remote, recursive);
        if !Skipped(e, recursive) {
          NotGone(e, recursive);
          SendTree(e.node, SubPath(remote, e.name), recursive);
        }
      }
      CompileDir(entries, remote, recursive);
      ghost var sent := old(Emitted()) + [enter] + CompileAll(entries, remote, recursive);
      assert Emitted() == sent;
      SendControl(DirLeave);
      assert sent + [DirLeave] == old(Emitted()) + Compile(Dir(entries), remote, recursive);
    }

    lemma AllInterpreted()
      requires Valid() && pc.Idle?
      ensures peer.interp == Emitted()
    {
      hide Reached;
      DrainedMeansAll(State());
    }

    /** scp_sender_run: the tree, then TRANSFER_END. `found` is the first stat, which
        follows links. When it returns 0, the receiver has interpreted exactly the
        packets of this session, in order. */
    method SenderRun(found: bool, t: Tree, remote: CString, recursive: bool) returns (ret: int)
      requires Valid() && pc.Idle? && !ended && net.msgs == []
      modifies this, slotFree, slotBuf
      ensures Valid() && ret == if !found || t.Gone? then -1 else 0
      ensures ret == 0 ==> Emitted() == Compile(t, remote, recursive) + [TransferEnd]
      ensures ret == 0 ==> peer.interp == Emitted() && pc.Idle? && ended
    {
      hide Reached, Measure, Apply, Enabled, Stepped, Reachable, Pkts, State, Me;
      if !found || t.Gone? { return -1; }
      assert Emitted() == [];
      SendTree(t, remote, recursive);
      SendControl(TransferEnd);
      AllInterpreted();
      ret := 0;
    }
  }

  /** What one turn of the chunk loop takes off the packets still to come. */
  lemma ChunkNext(content: seq<byte>, results: seq<int>, i: nat, offset: nat)
    requires offset <= |content|
    ensures var n := ChunkLen(|content|, results, i, offset);
      ChunkPackets(content, results, i, offset) ==
        if i >= TotalChunks(|content|) || n <= 0 then []
        else [FileData(i, n, offset, content[offset..offset + n])] + ChunkPackets(content, results, i + 1, offset + n)
  {
    hide TotalChunks, ChunkLen;
  }

  /** What a turn sends and what is left are what was left before it. */
  lemma TurnAdds(before: seq<Packet>, content: seq<byte>, results: seq<int>, i: nat, offset: nat)
    requires offset <= |content| && i < TotalChunks(|content|)
    ensures var n := ChunkLen(|content|, results, i, offset);
      var sent := if n > 0 then [FileData(i, n, offset, content[offset..offset + n])] else [];
      (before + sent) + (if n > 0 then ChunkPackets(content, results, i + 1, offset + n) else []) ==
        before + ChunkPackets(content, results, i, offset)
  {
    hide TotalChunks, ChunkLen;
  }

  lemma Announced(msgs: seq<Msg>, before: seq<Packet>, p: Packet)
    requires Pkts(msgs) == before + [p] && p.FileMeta? && p.kind.Regular?
    ensures FileNext(msgs, |before|)
  {
  }

  lemma NotGone(e: Entry, recursive: bool)
    requires !Skipped(e, recursive)
    ensures !e.node.Gone?
  {
  }

  /** What one turn of the directory loop takes off the packets still to come. */
  lemma CompileNext(entries: seq<Entry>, k: nat, remote: CString, recursive: bool)
    requires k < |entries|
    ensures CompileAll(entries[k..], remote, recursive) ==
      (if Skipped(entries[k], recursive) then []
       else Compile(entries[k].node, SubPath(remote, entries[k].name), recursive))
      + CompileAll(entries[k + 1..], remote, recursive)
  {
  }

  lemma CompileDir(entries: seq<Entry>, remote: CString, recursive: bool)
    ensures CompileAll(entries[|entries|..], remote, recursive) == []
    ensures Compile(Dir(entries), remote, recursive) ==
      [DirEnter(Clip(remote, MAX_FILENAME_LEN))] + CompileAll(entries, remote, recursive) + [DirLeave]
  {
  }

  lemma PktsSnoc(msgs: seq<Msg>, m: Msg)
    ensures Pkts(msgs + [m]) == Pkts(msgs) + [m.pkt]
  {
  }

  lemma ReadyEffect(st: St)
    requires Shape(st) && Enabled(st, PostReady)
    ensures Apply(st, PostReady) == DoPostReady(st) && Stepped(st, PostReady, DoPostReady(st))
  {
  }

  lemma PolledBound(st: St)
    requires Reachable(st)
    ensures st.s.handled <= st.s.polled <= |st.n.scq|
  {
    hide Reached, Path, Window, Local, Remote, Marks, RecvRing, AckRing, Books, SenderAt, Filled, ReceiverAt,
      ReceiverData, Recvs, WriteDones;
    ReachInv(st);
  }

  lemma EmptyCount()
    ensures Recvs([]) == 0
  {
  }

  lemma HandleFrame(st: St)
    requires Shape(st) && Enabled(st, Handle)
    ensures Apply(st, Handle).s.handled == st.s.handled + 1 && Apply(st, Handle).n == st.n
  {
  }

  lemma HandleEnabled(st: St)
    requires Shape(st) && st.s.handled < st.s.polled <= |st.n.scq|
    ensures Enabled(st, Handle)
  {
  }

  /** Whether the sender waits depends on its own context only. */
  lemma WaitingSame(a: St, b: St)
    requires Shape(a) && Shape(b) && a.s == b.s && Waiting(a)
    ensures Waiting(b)
  {
  }

  lemma WaitingPc(st: St)
    requires Shape(st)
    ensures Waiting(st) ==> !st.s.pc.ChunkPoll?
  {
  }

  /** Outside the polling loops every completion taken has been handled. */
  lemma IdleHandled(st: St)
    requires Reachable(st) && !Polling(st.s.pc)
    ensures st.s.polled == st.s.handled
  {
    hide Reached, Path, Window, Local, Remote, Marks, RecvRing, AckRing, Books, SenderAt, Filled, ReceiverAt,
      ReceiverData, Recvs, WriteDones;
    ReachInv(st);
  }

  lemma NotPolling(pc: SPc)
    requires pc.Idle? || pc.LoopHead? || pc.ChunkRead?
    ensures !Polling(pc)
  {
  }
}
