/** The receiver program in its own form: the loop of scp_receiver_run over a
    context updated in place, while the NIC and the sender move between any two of
    its actions. */
module Receiver {
  import opened Packets
  import opened Machine
  import opened Invariant
  import opened Safety
  import opened Progress
  import opened Paths
  import opened FileSystem
  import opened Interpreter
  import opened Output

  // ---------------------------------------------------------------- what the others may do

  /** What the receiver can rely on while others move: its own context and the
      queues only it posts to stay; completions and messages only accumulate. */
  predicate OthersMoved(a: St, b: St) {
    b.r == a.r && a.n.msgs <= b.n.msgs && a.n.rcq <= b.n.rcq && b.n.rrq == a.n.rrq && b.n.asq == a.n.asq
  }

  lemma OthersFrame(st: St, a: Step)
    requires Shape(st) && Enabled(st, a) && !IsReceiver(a)
    ensures OthersMoved(st, Apply(st, a))
  {
    hide Enabled, Apply, OthersMoved;
    if IsNic(a) { NicFrame(st, a); } else { SenderFrame(st, a); }
  }

  lemma NicFrame(st: St, a: Step)
    requires Shape(st) && Enabled(st, a) && IsNic(a)
    ensures OthersMoved(st, Apply(st, a))
  {
  }

  lemma SenderFrame(st: St, a: Step)
    requires Shape(st) && Enabled(st, a) && IsSender(a)
    ensures OthersMoved(st, Apply(st, a))
  {
  }

  /** Work that can still be done if the sender begins `budget` more packets or files. */
  function Weight(st: St, budget: nat): int { Measure(st) + (PACKET_COST + 1) * budget }

  predicate Spends(a: Step, budget: nat, budget': nat) {
    if IsBegin(a) then budget == budget' + 1 else budget == budget'
  }

  lemma OthersStep(st: St, a: Step, budget: nat, budget': nat)
    requires Reachable(st) && Enabled(st, a) && !IsReceiver(a) && Spends(a, budget, budget')
    ensures Reachable(Apply(st, a)) && OthersMoved(st, Apply(st, a))
    ensures Weight(Apply(st, a), budget') <= Weight(st, budget)
    ensures !a.NicReread? ==> Weight(Apply(st, a), budget') < Weight(st, budget)
  {
    hide Reached, Inv, Measure, Apply, Enabled, OthersMoved;
    ReachStep(st, a);
    OthersFrame(st, a);
    ReachInv(st);
    if a.NicReread? { NicRereadInv(st, a.e); }
    else if IsBegin(a) { BeginCost(st, a); }
    else { WorkDecreases(st, a); }
  }

  /** The receiver's own steps use up work. */
  lemma OwnStep(st: St, a: Step, budget: nat)
    requires Reachable(st) && Enabled(st, a) && IsReceiver(a)
    ensures Reachable(Apply(st, a)) && Weight(Apply(st, a), budget) < Weight(st, budget)
  {
    hide Reached, Measure, Apply, Enabled;
    ReachStep(st, a);
    WorkDecreases(st, a);
  }

  lemma Consumes(st: St, budget: nat)
    requires Reachable(st) && st.r.pc.Consume?
    ensures Shape(st) && Stepped(st, RConsume, DoRConsume(st)) && Reachable(DoRConsume(st))
    ensures Weight(DoRConsume(st), budget) < Weight(st, budget)
  {
    hide Reached, Measure;
    OwnStep(st, RConsume, budget);
  }

  /** From the signal until the ACK is posted, the slot in hand is not overwritten. */
  predicate InHand(pc: RPc) { pc.Interpret? || pc.Repost? || pc.SendAck? }

  lemma SlotStable(st: St, a: Step)
    requires Reachable(st) && Enabled(st, a) && !IsReceiver(a) && InHand(st.r.pc)
    ensures st.r.slot < SLOTS && Shape(Apply(st, a)) && Apply(st, a).n.rmem[st.r.slot] == st.n.rmem[st.r.slot]
  {
    hide Reached, Path, Window, Local, Remote, Marks, RecvRing, AckRing, Books, SendCq, SenderAt, Filled, Apply,
      Enabled;
    ReachInv(st);
    Chain(st);
    RemoteStable(st, a, |st.n.asq|);
    LocalWriters(st, a);
  }

  lemma HandBound(st: St)
    requires Reachable(st) && InHand(st.r.pc)
    ensures st.r.slot < SLOTS && Shape(st)
  {
    hide Reached, Path, Local, Remote, Marks, RecvRing, AckRing, Books, SendCq, SenderAt, Filled;
    ReachInv(st);
    Chain(st);
  }

  lemma AckInHand(st: St)
    requires Reachable(st) && st.r.pc.SendAck?
    ensures |st.n.asq| + 1 == |st.r.interp| <= |st.n.msgs|
    ensures IsAckOf(AckFor(st.r, st.n.rbufs), st.n.msgs[|st.r.interp| - 1])
  {
    hide Reached, Path, Window, Local, Remote, Marks, RecvRing, AckRing, Books, SendCq, SenderAt, Filled, AckFor,
      IsAckOf;
    ReachInv(st);
    AckAnswers(st);
  }

  /** The slot in hand holds a packet with a valid header: the oldest one sent that
      has not been interpreted. */
  lemma SlotHolds(st: St)
    requires Reachable(st) && st.r.pc.Interpret?
    ensures st.r.slot < SLOTS && |st.r.interp| < |st.n.msgs|
    ensures st.n.rmem[st.r.slot] == st.n.msgs[|st.r.interp|].pkt && !st.n.rmem[st.r.slot].Blank?
  {
    hide Reached, Path, Window, Local, RecvRing, AckRing, Books, SendCq, SenderAt, Filled;
    ReachInv(st);
    Chain(st);
  }

  /** Once TRANSFER_END has been interpreted, nothing else was ever sent. */
  lemma EndMeansAll(st: St)
    requires Reachable(st) && LastIsEnd(st.r.interp)
    ensures st.r.interp == Pkts(st.n.msgs)
  {
    hide Reached, Path, Window, Local, Remote, RecvRing, AckRing, Books, SendCq, SenderAt, Filled, ReceiverAt;
    ReachInv(st);
    assert st.r.interp[|st.r.interp| - 1] == st.n.msgs[|st.r.interp| - 1].pkt;
  }

  /** While the receiver waits with nothing to poll and something is in flight,
      another party can move. */
  lemma OthersServe(st: St)
    requires Reachable(st) && st.r.pc.Wait? && st.r.polled == |st.n.rcq| && !Quiet(st)
    ensures Enabled(st, NextStep(st)) && IsWork(NextStep(st)) && !IsReceiver(NextStep(st))
  {
    hide Reached, Quiet, NextStep;
    NoDeadlock(st);
  }

  lemma RPolledBound(st: St)
    requires Reachable(st)
    ensures st.r.polled <= |st.n.rcq|
  {
    hide Reached, Path, Window, Local, Remote, Marks, RecvRing, AckRing, Books, SendCq, SenderAt, Filled,
      ReceiverAt, Recvs;
    ReachInv(st);
  }

  lemma WeightNat(st: St, budget: nat)
    requires Reachable(st)
    ensures Weight(st, budget) >= 0
  {
    hide Reached, Inv, Measure;
    ReachInv(st);
    MeasureNonNegative(st);
  }

  class Context {
    // local_credits, the CDC ring indices, cdc_recv and slot_id
    var localCredits: int
    var postIdx: RingIdx
    var consIdx: RingIdx
    var cdcRecv: RingIdx
    var slotId: nat
    const out: Files
    // the rest of the world: queues and memory the NIC writes, the sender
    var net: Net
    var peer: Snd
    var budget: nat
    // history: where the program is and what it has taken and interpreted
    var pc: RPc
    var ext: nat
    var polled: nat
    var taken: nat
    var consumed: nat
    var interp: seq<Packet>
    const start: Ctx

    /** A receiver just connected, with one receive posted, an empty credit counter
        and nothing open. */
    constructor (connected: St, base: CString, fs: Fs, budget: nat)
      requires Init(connected) && WellFormed(fs)
      ensures Valid() && Interpreted() && fresh(out) && out.base == base && start == Ctx(fs, None, "", Regular)
      ensures pc.Setup? && ext == 0 && interp == [] && this.budget == budget
    {
      out := new Files(base, fs);
      start := Ctx(fs, None, "", Regular);
      localCredits, postIdx, consIdx, cdcRecv, slotId := 0, 1, 0, 0, 0;
      net, peer, this.budget := connected.n, connected.s, budget;
      pc, ext, polled, taken, consumed, interp := Setup, 0, 0, 0, 0, [];
      new;
      hide Reached;
      InitReachable(State());
    }

    function Me(): Rcv
      reads this
    {
      Rcv(pc, ext, localCredits, postIdx, consIdx, polled, cdcRecv, slotId, taken, consumed, interp)
    }

    function State(): St
      reads this
    {
      St(peer, Me(), net)
    }

    ghost predicate Valid()
      reads this
    {
      Reachable(State())
    }

    /** The files are what the packets interpreted so far make of the start. */
    ghost predicate Interpreted()
      reads this, out
    {
      WellFormed(out.fs) && out.Here() == InterpAll(out.base, start, interp)
    }

    ghost function Left(): int
      reads this
    {
      Weight(State(), budget)
    }

    // -------------------------------------------------------------- the others

    method TakeStep(a: Step)
      requires Valid() && !IsReceiver(a) && Enabled(State(), a) && (IsBegin(a) ==> budget > 0)
      modifies this`net, this`peer, this`budget
      ensures Valid() && OthersMoved(old(State()), State()) && Stepped(old(State()), a, State())
      ensures Left() <= old(Left()) && (!a.NicReread? ==> Left() < old(Left()))
    {
      hide Reached, Measure, Weight, OthersMoved, Apply, Enabled, IsReceiver;
      var left := if IsBegin(a) then budget - 1 else budget;
      OthersStep(State(), a, budget, left);
      var st := Apply(State(), a);
      OthersKeepMe(State(), st);
      net, peer, budget := st.n, st.s, left;
    }

    lemma OthersKeepMe(a: St, b: St)
      requires OthersMoved(a, b)
      ensures a.r == b.r
    {
    }

    /** NIC and sender take any number of steps, in any order; the sender begins at
        most as many packets as are left in its budget. */
    method Interfere()
      requires Valid()
      modifies this`net, this`peer, this`budget
      ensures Valid() && OthersMoved(old(State()), State()) && Left() <= old(Left())
      ensures InHand(pc) ==> slotId < SLOTS && net.rmem[slotId] == old(net.rmem[slotId])
    {
      hide Reached, Measure, Weight, Apply, Enabled;
      var n: int := *;
      if InHand(pc) { HandBound(State()); }
      while n > 0
        invariant Valid() && OthersMoved(old(State()), State()) && Left() <= old(Left())
        invariant InHand(pc) ==> slotId < SLOTS && net.rmem[slotId] == old(net.rmem[slotId])
      {
        var a: Step := *;
        if !IsReceiver(a) && Enabled(State(), a) && (IsBegin(a) ==> budget > 0) {
          if InHand(pc) { SlotStable(State(), a); }
          TakeStep(a);
        }
        n := n - 1;
      }
    }

    // -------------------------------------------------------------- single actions

    /** rdma_cdc_acquire_post_buf and post_receive_cdc, before the first message. */
    method ExtendWindow()
      requires Valid() && pc.Setup? && ext < RING - 1
      modifies this`net, this`postIdx, this`ext
      ensures Valid() && Stepped(old(State()), Step.ExtendWindow, State())
      ensures ext == old(ext) + 1
    {
      hide Reached;
      ReachStep(State(), Step.ExtendWindow);
      var buf := postIdx;
      postIdx := Next(postIdx);
      net := net.(rrq := net.rrq + [buf]);
      ext := ext + 1;
    }

    method OpenWindow()
      requires Valid() && pc.Setup? && ext == RING - 1
      modifies this`localCredits, this`pc
      ensures Valid() && pc.Wait?
    {
      hide Reached;
      ReachStep(State(), Step.OpenWindow);
      localCredits, pc := RING, Wait;
    }

    /** ibv_poll_cq for a single completion; only a RECV ends the wait. */
    method PollOne()
      requires Valid() && pc.Wait? && polled < |net.rcq|
      modifies this`polled, this`taken, this`pc
      ensures Valid() && Stepped(old(State()), RPoll, State())
      ensures pc == if net.rcq[old(polled)].Recv? then Consume else Wait
      ensures Left() < old(Left())
    {
      hide Reached, Weight;
      OwnStep(State(), RPoll, budget);
      var wc := net.rcq[polled];
      polled := polled + 1;
      if wc.Recv? { taken, pc := taken + 1, Consume; }
    }

    /** The credit goes down, and the next buffer of the ring is read. */
    method ConsumeSignal()
      requires Valid() && pc.Consume?
      modifies this`localCredits, this`cdcRecv, this`slotId, this`consIdx, this`consumed, this`pc
      ensures Valid() && pc.Interpret? && Stepped(old(State()), RConsume, State())
      ensures Left() < old(Left())
    {
      hide Reached, Weight, Reachable, Stepped, Apply, Enabled;
      Consumes(State(), budget);
      if localCredits > 0 { localCredits := localCredits - 1; }
      cdcRecv := consIdx;
      consIdx := Next(consIdx);
      slotId := net.rbufs[cdcRecv].slot;
      consumed, pc := consumed + 1, Interpret;
    }

    /** The header is checked and the packet then read, with NIC and sender going on
        in between: it is the packet whose header was checked, and the oldest one
        sent that has not been interpreted. */
    method ReadSlot() returns (p: Packet)
      requires Valid() && pc.Interpret?
      modifies this`net, this`peer, this`budget
      ensures Valid() && OthersMoved(old(State()), State()) && Left() <= old(Left())
      ensures slotId < SLOTS && p == net.rmem[slotId] == old(net.rmem[slotId]) && !p.Blank?
      ensures |interp| < |net.msgs| && p == net.msgs[|interp|].pkt
    {
      hide Reached, Measure, Weight;
      SlotHolds(State());
      var header := net.rmem[slotId];
      Interfere();
      SlotHolds(State());
      p := net.rmem[slotId];
      assert p == header;
    }

    method CarryOut(p: Packet)
      requires Valid() && Interpreted() && pc.Interpret? && slotId < SLOTS && p == net.rmem[slotId] && !p.Blank?
      modifies this`interp, this`pc, out
      ensures Valid() && Interpreted() && Stepped(old(State()), RInterpret, State())
      ensures interp == old(interp) + [p] && pc == if p.TransferEnd? then SendAck else Repost
      ensures Left() < old(Left())
    {
      hide Reached, Weight, Interp, InterpAll, WellFormed;
      OwnStep(State(), RInterpret, budget);
      InterpAppend(out.base, start, interp, [p]);
      InterpOne(out.base, InterpAll(out.base, start, interp), p);
      out.Execute(p);
      interp, pc := interp + [p], if p.TransferEnd? then SendAck else Repost;
    }

    /** The buffer just consumed is posted again, before the ACK. */
    method RepostReceive()
      requires Valid() && pc.Repost?
      modifies this`net, this`postIdx, this`localCredits, this`pc
      ensures Valid() && Stepped(old(State()), RRepost, State()) && pc.SendAck?
      ensures Left() < old(Left())
    {
      hide Reached, Weight;
      OwnStep(State(), RRepost, budget);
      var buf := postIdx;
      postIdx := Next(postIdx);
      net := net.(rrq := net.rrq + [buf]);
      localCredits, pc := localCredits + 1, SendAck;
    }

    /** The ACK is copied from the buffer that has been posted again; it answers the
        message just interpreted all the same. */
    method PostAck()
      requires Valid() && pc.SendAck? && interp != []
      modifies this`net, this`pc
      ensures Valid() && Stepped(old(State()), RAck, State())
      ensures pc == if interp[|interp| - 1].TransferEnd? then Halted else Wait
      ensures |net.asq| == |interp| <= |net.msgs| && IsAckOf(net.asq[|interp| - 1], net.msgs[|interp| - 1])
      ensures Left() < old(Left())
    {
      hide Reached, Weight;
      OwnStep(State(), RAck, budget);
      AckInHand(State());
      var cdc := net.rbufs[cdcRecv].(slot := slotId, ack := true, credits := localCredits, confirmed := true);
      net := net.(asq := net.asq + [cdc]);
      pc := if interp[|interp| - 1].TransferEnd? then Halted else Wait;
    }

    // -------------------------------------------------------------- the loop

    method SenderBegins()
      requires Valid() && Quiet(State()) && budget > 0 && !peer.ended
      modifies this`net, this`peer, this`budget
      ensures Valid() && OthersMoved(old(State()), State()) && Left() < old(Left())
    {
      hide Reached, Measure, Weight, OthersMoved, Apply;
      var p: Packet := *;
      if p.Blank? { p := DirLeave; }
      var file: bool := *;
      TakeStep(if file && FileNext(net.msgs, peer.base) then BeginFile else BeginSync(p));
    }

    /** Somebody else moves while the receiver finds its completion queue empty. If
        nobody can, the connection is quiet and the sender begins nothing more. */
    method OthersGoOn() returns (moved: bool)
      requires Valid() && pc.Wait? && polled == |net.rcq|
      modifies this`net, this`peer, this`budget
      ensures Valid() && OthersMoved(old(State()), State()) && Left() <= old(Left())
      ensures if moved then Left() < old(Left()) else Quiet(State())
    {
      hide Reached, Measure, Weight, Apply, Enabled, Quiet, NextStep;
      if !Quiet(State()) {
        OthersServe(State());
        var a := NextStep(State());
        TakeStep(a);
      } else if budget == 0 || peer.ended {
        return false;
      } else {
        SenderBegins();
      }
      moved := true;
    }

    /** rdma_cdc_completion: single completions are polled until one is a RECV. */
    method CdcCompletion() returns (ok: bool)
      requires Valid() && pc.Wait?
      modifies this`net, this`peer, this`budget, this`polled, this`taken, this`pc
      ensures Valid() && (if ok then pc.Consume? else pc.Wait? && Quiet(State()))
      ensures ok ==> Left() < old(Left())
    {
      hide Reached, Measure, Weight, OthersMoved, Apply, Enabled, Quiet;
      while pc.Wait?
        invariant Valid() && (pc.Wait? || pc.Consume?) && Left() <= old(Left())
        invariant pc.Consume? ==> Left() < old(Left())
        decreases Left()
      {
        WeightNat(State(), budget);
        Interfere();
        RPolledBound(State());
        if polled < |net.rcq| {
          PollOne();
        } else {
          var moved := OthersGoOn();
          if !moved { return false; }
        }
      }
      ok := true;
    }

    /** The receive window is extended from the one receive posted on connecting to
        all eight buffers, while the first message may already arrive. */
    method SetUpWindow()
      requires Valid() && pc.Setup? && ext == 0
      modifies this`net, this`peer, this`budget, this`postIdx, this`ext, this`localCredits, this`pc
      ensures Valid() && pc.Wait?
    {
      hide Reached, Measure, Weight, Apply, Enabled;
      for i := 0 to RING - 1
        invariant Valid() && pc.Setup? && ext == i
      {
        Interfere();
        ExtendWindow();
      }
      OpenWindow();
    }

    /** One turn of the loop from a signal to its ACK. */
    method HandleSignal()
      requires Valid() && Interpreted() && pc.Consume?
      modifies this, out
      ensures Valid() && Interpreted() && Left() < old(Left())
      ensures interp != [] && pc == if interp[|interp| - 1].TransferEnd? then Halted else Wait
      ensures interp[..|interp| - 1] == old(interp)
    {
      hide Reached, Measure, Weight, Apply, Enabled, Reachable;
      ConsumeSignal();
      var p := ReadSlot();
      CarryOut(p);
      if !p.TransferEnd? {
        Interfere();
        RepostReceive();
      }
      Interfere();
      PostAck();
    }

    /** scp_receiver_run from the window setup on. It ends with TRANSFER_END, or goes
        idle because the sender begins nothing more; either way the files are what
        all the packets sent, in order, make of the start. */
    method ReceiverRun() returns (done: bool)
      requires Valid() && Interpreted() && pc.Setup? && ext == 0 && interp == []
      modifies this, out
      ensures Valid() && Interpreted()
      ensures done == LastIsEnd(interp) && interp == Pkts(net.msgs)
      ensures out.Here() == InterpAll(out.base, start, Pkts(net.msgs))
      ensures if done then pc.Halted? else Quiet(State())
    {
      hide Reached, Measure, Weight, Apply, Enabled, InterpAll, WellFormed, Quiet;
      SetUpWindow();
      done := false;
      while !done
        invariant Valid() && Interpreted() && done == LastIsEnd(interp) && pc == if done then Halted else Wait
        decreases Left(), !done
      {
        WeightNat(State(), budget);
        var ok := CdcCompletion();
        if !ok {
          QuietMeansDone(State());
          return;
        }
        HandleSignal();
        done := interp[|interp| - 1].TransferEnd?;
      }
      EndMeansAll(State());
    }
  }
}
