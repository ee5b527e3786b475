/** The transfer protocol as a step system: the sender program, the receiver
    program and an asynchronous NIC, interleaved in any order.

    Every FIFO (send queue, wire, receive queue, completion queue) is kept as the
    log of everything ever put into it together with a cursor; what is still
    queued is the part of the log behind the cursor. */
module Machine {
  import opened Packets
  import opened CdcRing

  /** How a work request refers to local slot memory: one SGE over the packet, or
      the header SGE followed by a second SGE over `n` bytes of the data region. */
  datatype Form = Whole | Split(n: nat)

  /** Local slot memory: the header region and the 4 KiB-aligned data region. */
  datatype LocalSlot = LocalSlot(head: Packet, data: seq<byte>)

  /** What the NIC reads when it executes a write over `m`. */
  function Gather(m: LocalSlot, f: Form): Packet {
    if f.Split? && m.head.FileData? && f.n <= |m.data| then
      m.head.(bytes := m.data[..f.n])
    else
      m.head
  }

  // A posted RDMA write holds only a reference; a posted SEND is an inline snapshot.
  datatype Wr = Write(slot: Slot, form: Form) | Send(cdc: Cdc)
  datatype Frame = WriteFrame(slot: Slot, pkt: Packet) | SendFrame(cdc: Cdc)
  datatype RecvWr = RecvWr(buf: RingIdx, wrId: nat)

  /** Ghost log entry: the packet meant by the k-th posted write. */
  datatype Msg = Msg(slot: Slot, form: Form, pkt: Packet)

  datatype SPc =
    | Idle
    | SyncSlot | SyncRecv | SyncWrite | SyncWaitWrite | SyncReady | SyncWaitAck
    | LoopHead | ChunkSlot | ChunkRead | ChunkHead | ChunkRecv | ChunkWrite | ChunkReady
    | ChunkPoll | ChunkHandle | Drain

  datatype RPc = Setup | Wait | Consume | Interpret | Repost | SendAck | Halted | Broken

  /** The sender's context. The last five fields are history: the packet being
      sent, the number of ACKs consumed, the log position where the current slot
      rotation started, and whether TRANSFER_END was chosen. */
  datatype Snd = Snd(
    pc: SPc,
    slotFree: seq<bool>,
    pending: int,
    current: Slot,
    postIdx: RingIdx,
    consIdx: RingIdx,
    polled: nat,
    handled: nat,
    writeDone: bool,
    intent: Packet,
    form: Form,
    consumed: nat,
    base: nat,
    ended: bool)

  /** The receiver's context; `interp` logs the packets it has interpreted. */
  datatype Rcv = Rcv(
    pc: RPc,
    ext: nat,
    credits: int,
    postIdx: RingIdx,
    consIdx: RingIdx,
    polled: nat,
    cur: RingIdx,
    slot: nat,
    taken: nat,
    consumed: nat,
    interp: seq<Packet>)

  /** Registered memory of both hosts and all queues between them. */
  datatype Net = Net(
    msgs: seq<Msg>,
    lmem: seq<LocalSlot>,
    rmem: seq<Packet>,
    sbufs: seq<Cdc>,
    rbufs: seq<Cdc>,
    sq: seq<Wr>,
    wire: seq<Frame>,
    delivered: nat,
    acked: nat,
    srq: seq<RecvWr>,
    scq: seq<Wc>,
    rrq: seq<RingIdx>,
    rcq: seq<Wc>,
    asq: seq<Cdc>,
    aDelivered: nat,
    aAcked: nat,
    rnr: bool)

  datatype St = St(s: Snd, r: Rcv, n: Net)

  predicate Shape(st: St) {
    && |st.s.slotFree| == SLOTS && |st.n.lmem| == SLOTS && |st.n.rmem| == SLOTS
    && |st.n.sbufs| == RING && |st.n.rbufs| == RING
  }

  /** After connect_qp: each side has posted exactly one receive, and the receiver
      has not yet extended its window. Nothing is known about old memory contents. */
  predicate Init(st: St) {
    && Shape(st)
    && st.s.pc.Idle? && st.s.slotFree == [true, true, true, true] && st.s.pending == 0 && st.s.current == 0
    && st.s.postIdx == 1 && st.s.consIdx == 0 && st.s.polled == 0 && st.s.handled == 0
    && st.s.consumed == 0 && st.s.base == 0 && !st.s.ended
    && st.r.pc.Setup? && st.r.ext == 0 && st.r.postIdx == 1 && st.r.consIdx == 0 && st.r.polled == 0
    && st.r.taken == 0 && st.r.consumed == 0 && st.r.interp == []
    && st.n.msgs == [] && st.n.sq == [] && st.n.wire == [] && st.n.delivered == 0 && st.n.acked == 0
    && st.n.srq == [RecvWr(0, 0)] && st.n.scq == [] && st.n.rrq == [0] && st.n.rcq == []
    && st.n.asq == [] && st.n.aDelivered == 0 && st.n.aAcked == 0 && !st.n.rnr
  }

  /** The step of the receive rings' indices, over eight buffers. */
  function Next(i: RingIdx): RingIdx { Advance(i, RING) }

  /** Number of SENDs, and of writes, among the first `d` entries of the send queue. */
  function Sends(d: nat): nat { d / 2 }
  function Writes(d: nat): nat { (d + 1) / 2 }

  predicate InSync(pc: SPc) {
    pc.SyncSlot? || pc.SyncRecv? || pc.SyncWrite? || pc.SyncWaitWrite? || pc.SyncReady? || pc.SyncWaitAck?
  }

  /** Control packets always use slot 0, chunks the rotating slot. */
  function Target(s: Snd): Slot {
    if InSync(s.pc) then 0 else s.current
  }

  predicate BatchDone(s: Snd) { s.polled <= s.handled }

  // ---------------------------------------------------------------- labels

  datatype Step =
    | BeginSync(p: Packet) | BeginFile | BeginChunk
    | SlotReady | PostAckRecv | PostWrite | WriteSeen | PostReady | SyncDone
    | ReadData(d: seq<byte>, ok: bool) | FillHead(h: Packet, n: nat) | LoopEnd
    | Poll(k: nat) | Handle | HandleDone | DrainDone
    | NicExec | NicReread(e: nat) | NicDeliver | NicComplete | AckDeliver | AckComplete
    | ExtendWindow | OpenWindow | RPoll | RConsume | RInterpret | RRepost | RAck

  /** The sender begins a new packet (or file): the only steps that add work. */
  predicate IsBegin(a: Step) { a.BeginSync? || a.BeginFile? || a.BeginChunk? }

  predicate IsNic(a: Step) {
    a.NicExec? || a.NicReread? || a.NicDeliver? || a.NicComplete? || a.AckDeliver? || a.AckComplete?
  }

  predicate IsReceiver(a: Step) {
    a.ExtendWindow? || a.OpenWindow? || a.RPoll? || a.RConsume? || a.RInterpret? || a.RRepost? || a.RAck?
  }

  predicate IsSender(a: Step) { !IsNic(a) && !IsReceiver(a) }

  // ---------------------------------------------------------------- guards

  /** The loop conditions of wait_for_slot, wait_for_rdma_write_completion and
      drain_pending_acks: the sender polls only while its condition is unmet. */
  predicate Waiting(st: St)
    requires Shape(st)
  {
    match st.s.pc
    case SyncSlot => !st.s.slotFree[0]
    case SyncWaitAck => !st.s.slotFree[0]
    case ChunkSlot => !st.s.slotFree[st.s.current]
    case SyncWaitWrite => !st.s.writeDone
    case Drain => st.s.pending > 0
    case _ => false
  }

  /** The last packet announces a regular file whose chunks have not been begun. */
  predicate FileNext(msgs: seq<Msg>, base: nat) {
    base < |msgs| && msgs[|msgs| - 1].pkt.FileMeta? && msgs[|msgs| - 1].pkt.kind.Regular?
  }

  predicate Enabled(st: St, a: Step)
    requires Shape(st)
  {
    match a
    case BeginSync(p) => st.s.pc.Idle? && !st.s.ended && !p.Blank?
    case BeginFile => st.s.pc.Idle? && !st.s.ended && FileNext(st.n.msgs, st.s.base)
    case BeginChunk => st.s.pc.LoopHead?
    case LoopEnd => st.s.pc.LoopHead?
    case SlotReady =>
      (st.s.pc.SyncSlot? || st.s.pc.ChunkSlot?) && BatchDone(st.s) && st.s.slotFree[Target(st.s)]
    case PostAckRecv => st.s.pc.SyncRecv? || st.s.pc.ChunkRecv?
    case PostWrite => st.s.pc.SyncWrite? || st.s.pc.ChunkWrite?
    case WriteSeen => st.s.pc.SyncWaitWrite? && BatchDone(st.s) && st.s.writeDone
    case PostReady => st.s.pc.SyncReady? || st.s.pc.ChunkReady?
    case SyncDone => st.s.pc.SyncWaitAck? && BatchDone(st.s) && st.s.slotFree[0]
    case ReadData(_, _) => st.s.pc.ChunkRead?
    case FillHead(h, n) => st.s.pc.ChunkHead? && h.FileData? && n <= |st.n.lmem[st.s.current].data|
    case Poll(k) =>
      && BatchDone(st.s) && k <= MAX_WC && st.s.polled + k <= |st.n.scq|
      && (st.s.pc.ChunkPoll? || (Waiting(st) && k > 0))
    case Handle => st.s.handled < st.s.polled <= |st.n.scq|
    case HandleDone => st.s.pc.ChunkHandle? && BatchDone(st.s)
    case DrainDone => st.s.pc.Drain? && BatchDone(st.s) && st.s.pending <= 0
    case NicExec => |st.n.wire| < |st.n.sq|
    case NicReread(e) =>
      st.n.delivered <= e < |st.n.wire| && e < |st.n.sq| && st.n.sq[e].Write?
    case NicDeliver => st.n.delivered < |st.n.wire| && !st.n.rnr
    case NicComplete => st.n.acked < st.n.delivered && st.n.acked < |st.n.sq|
    case AckDeliver => st.n.aDelivered < |st.n.asq| && !st.n.rnr
    case AckComplete => st.n.aAcked < st.n.aDelivered
    case ExtendWindow => st.r.pc.Setup? && st.r.ext < RING - 1
    case OpenWindow => st.r.pc.Setup? && st.r.ext >= RING - 1
    case RPoll => st.r.pc.Wait? && st.r.polled < |st.n.rcq|
    case RConsume => st.r.pc.Consume?
    case RInterpret => st.r.pc.Interpret?
    case RRepost => st.r.pc.Repost?
    case RAck => st.r.pc.SendAck? && st.r.interp != []
  }

  // ---------------------------------------------------------------- sender

  function DoBeginSync(st: St, p: Packet): St
    requires Shape(st)
  {
    st.(n := st.n.(lmem := st.n.lmem[0 := st.n.lmem[0].(head := p)]),
        s := st.s.(pc := SyncSlot, intent := p, form := Whole, base := |st.n.msgs|, ended := p.TransferEnd?))
  }

  /** The per-file reset of the slot state. */
  function DoBeginFile(st: St): St {
    st.(s := st.s.(pc := LoopHead, current := 0, pending := 0,
                   slotFree := [true, true, true, true], base := |st.n.msgs|))
  }

  function DoPostAckRecv(st: St): St {
    st.(n := st.n.(srq := st.n.srq + [RecvWr(st.s.postIdx, Target(st.s))]),
        s := st.s.(postIdx := Next(st.s.postIdx),
                   pc := if st.s.pc.SyncRecv? then SyncWrite else ChunkWrite))
  }

  function DoPostWrite(st: St): St {
    st.(n := st.n.(sq := st.n.sq + [Write(Target(st.s), st.s.form)],
                   msgs := st.n.msgs + [Msg(Target(st.s), st.s.form, st.s.intent)]),
        s := st.s.(writeDone := false,
                   pc := if st.s.pc.SyncWrite? then SyncWaitWrite else ChunkReady))
  }

  /** Post DATA_READY and mark the slot busy; only a chunk advances the rotation. */
  function DoPostReady(st: St): St
    requires Shape(st)
  {
    var t := Target(st.s);
    st.(n := st.n.(sq := st.n.sq + [Send(DataReady(t))]),
        s := st.s.(slotFree := st.s.slotFree[t := false], pending := st.s.pending + 1,
                   current := if st.s.pc.SyncReady? then st.s.current else (t + 1) % SLOTS,
                   pc := if st.s.pc.SyncReady? then SyncWaitAck else ChunkPoll))
  }

  function DoReadData(st: St, d: seq<byte>, ok: bool): St
    requires Shape(st)
  {
    var c := st.s.current;
    st.(n := st.n.(lmem := st.n.lmem[c := st.n.lmem[c].(data := d)]),
        s := st.s.(pc := if ok then ChunkHead else Drain))
  }

  function DoFillHead(st: St, h: Packet, n: nat): St
    requires Shape(st)
  {
    var c := st.s.current;
    var m := st.n.lmem[c].(head := h);
    st.(n := st.n.(lmem := st.n.lmem[c := m]),
        s := st.s.(pc := ChunkRecv, form := Split(n), intent := Gather(m, Split(n))))
  }

  function DoPoll(st: St, k: nat): St {
    st.(s := st.s.(polled := st.s.polled + k,
                   pc := if st.s.pc.ChunkPoll? then ChunkHandle else st.s.pc))
  }

  /** handle_ack_recv, with its duplicate and invalid-slot branches. */
  function HandleAck(s: Snd, sbufs: seq<Cdc>): Snd
    requires |s.slotFree| == SLOTS && |sbufs| == RING
  {
    var slot := sbufs[s.consIdx].slot;
    var t := s.(consIdx := Next(s.consIdx), consumed := s.consumed + 1);
    if slot < SLOTS && !s.slotFree[slot] then
      t.(slotFree := s.slotFree[slot := true], pending := s.pending - 1)
    else
      t
  }

  function DoHandle(st: St): St
    requires Shape(st) && st.s.handled < |st.n.scq|
  {
    var wc := st.n.scq[st.s.handled];
    var s1 := st.s.(handled := st.s.handled + 1);
    var s2 := if wc.Recv? then HandleAck(s1, st.n.sbufs)
              else if wc.WriteDone? && st.s.pc.SyncWaitWrite? then s1.(writeDone := true)
              else s1;
    st.(s := s2)
  }

  // ---------------------------------------------------------------- NIC

  /** Executing a write reads the slot memory as it is now. */
  function FrameFor(w: Wr, lmem: seq<LocalSlot>): Frame
    requires |lmem| == SLOTS
  {
    match w
    case Write(slot, form) => WriteFrame(slot, Gather(lmem[slot], form))
    case Send(cdc) => SendFrame(cdc)
  }

  function DoNicExec(st: St): St
    requires Shape(st) && |st.n.wire| < |st.n.sq|
  {
    st.(n := st.n.(wire := st.n.wire + [FrameFor(st.n.sq[|st.n.wire|], st.n.lmem)]))
  }

  /** A retransmission before delivery reads local memory again. */
  function DoNicReread(st: St, e: nat): St
    requires Shape(st) && e < |st.n.wire| && e < |st.n.sq|
  {
    st.(n := st.n.(wire := st.n.wire[e := FrameFor(st.n.sq[e], st.n.lmem)]))
  }

  /** In-order delivery. A SEND that finds no posted receive fails the connection,
      because rnr_retry is 0. */
  function DoNicDeliver(st: St): St
    requires Shape(st) && st.n.delivered < |st.n.wire|
  {
    var n := st.n;
    match n.wire[n.delivered]
    case WriteFrame(slot, pkt) =>
      st.(n := n.(rmem := n.rmem[slot := pkt], delivered := n.delivered + 1))
    case SendFrame(cdc) =>
      var got := Sends(n.delivered);
      if got >= |n.rrq| then
        st.(n := n.(rnr := true))
      else
        st.(n := n.(rbufs := n.rbufs[n.rrq[got] := cdc], rcq := n.rcq + [Recv(0)],
                    delivered := n.delivered + 1))
  }

  /** The transport acknowledgement turns into the sender's own completion. */
  function DoNicComplete(st: St): St
    requires st.n.acked < |st.n.sq|
  {
    st.(n := st.n.(acked := st.n.acked + 1,
                   scq := st.n.scq + [if st.n.sq[st.n.acked].Write? then WriteDone else SendDone]))
  }

  function DoAckDeliver(st: St): St
    requires Shape(st) && st.n.aDelivered < |st.n.asq|
  {
    var n := st.n;
    if n.aDelivered >= |n.srq| then
      st.(n := n.(rnr := true))
    else
      st.(n := n.(sbufs := n.sbufs[n.srq[n.aDelivered].buf := n.asq[n.aDelivered]],
                  scq := n.scq + [Recv(n.srq[n.aDelivered].wrId)],
                  aDelivered := n.aDelivered + 1))
  }

  // ---------------------------------------------------------------- receiver

  function DoExtendWindow(st: St): St {
    st.(n := st.n.(rrq := st.n.rrq + [st.r.postIdx]),
        r := st.r.(postIdx := Next(st.r.postIdx), ext := st.r.ext + 1))
  }

  /** rdma_cdc_completion: take one completion, and go on only if it is a RECV. */
  function DoRPoll(st: St): St
    requires st.r.polled < |st.n.rcq|
  {
    var recv := st.n.rcq[st.r.polled].Recv?;
    st.(r := st.r.(polled := st.r.polled + 1,
                   taken := if recv then st.r.taken + 1 else st.r.taken,
                   pc := if recv then Consume else Wait))
  }

  function DoRConsume(st: St): St
    requires Shape(st)
  {
    var r := st.r;
    st.(r := r.(credits := if r.credits > 0 then r.credits - 1 else r.credits,
                cur := r.consIdx, slot := st.n.rbufs[r.consIdx].slot,
                consIdx := Next(r.consIdx), consumed := r.consumed + 1, pc := Interpret))
  }

  /** Read the slot named by the signal; an invalid header ends the loop. */
  function DoRInterpret(st: St): St
    requires Shape(st)
  {
    var r := st.r;
    if r.slot >= SLOTS || st.n.rmem[r.slot].Blank? then
      st.(r := r.(pc := Broken))
    else
      var p := st.n.rmem[r.slot];
      st.(r := r.(interp := r.interp + [p], pc := if p.TransferEnd? then SendAck else Repost))
  }

  function DoRRepost(st: St): St {
    st.(n := st.n.(rrq := st.n.rrq + [st.r.postIdx]),
        r := st.r.(postIdx := Next(st.r.postIdx), credits := st.r.credits + 1, pc := SendAck))
  }

  /** The ACK is copied from the receive buffer that has already been reposted. */
  function AckFor(r: Rcv, rbufs: seq<Cdc>): Cdc
    requires |rbufs| == RING
  {
    rbufs[r.cur].(slot := r.slot, ack := true, credits := r.credits, confirmed := true)
  }

  function DoRAck(st: St): St
    requires Shape(st) && st.r.interp != []
  {
    var last := st.r.interp[|st.r.interp| - 1];
    st.(n := st.n.(asq := st.n.asq + [AckFor(st.r, st.n.rbufs)]),
        r := st.r.(pc := if last.TransferEnd? then Halted else Wait))
  }

  // ---------------------------------------------------------------- runs

  function Apply(st: St, a: Step): St
    requires Shape(st) && Enabled(st, a)
  {
    match a
    case BeginSync(p) => DoBeginSync(st, p)
    case BeginFile => DoBeginFile(st)
    case BeginChunk => st.(s := st.s.(pc := ChunkSlot))
    case LoopEnd => st.(s := st.s.(pc := Drain))
    case SlotReady => st.(s := st.s.(pc := if st.s.pc.SyncSlot? then SyncRecv else ChunkRead))
    case PostAckRecv => DoPostAckRecv(st)
    case PostWrite => DoPostWrite(st)
    case WriteSeen => st.(s := st.s.(pc := SyncReady))
    case PostReady => DoPostReady(st)
    case SyncDone => st.(s := st.s.(pc := Idle))
    case ReadData(d, ok) => DoReadData(st, d, ok)
    case FillHead(h, n) => DoFillHead(st, h, n)
    case Poll(k) => DoPoll(st, k)
    case Handle => DoHandle(st)
    case HandleDone => st.(s := st.s.(pc := LoopHead))
    case DrainDone => st.(s := st.s.(pc := Idle))
    case NicExec => DoNicExec(st)
    case NicReread(e) => DoNicReread(st, e)
    case NicDeliver => DoNicDeliver(st)
    case NicComplete => DoNicComplete(st)
    case AckDeliver => DoAckDeliver(st)
    case AckComplete => st.(n := st.n.(aAcked := st.n.aAcked + 1, rcq := st.n.rcq + [SendDone]))
    case ExtendWindow => DoExtendWindow(st)
    case OpenWindow => st.(r := st.r.(pc := Wait, credits := RING))
    case RPoll => DoRPoll(st)
    case RConsume => DoRConsume(st)
    case RInterpret => DoRInterpret(st)
    case RRepost => DoRRepost(st)
    case RAck => DoRAck(st)
  }

  /** Step `a` leads from `st` to `st'`. */
  predicate Stepped(st: St, a: Step, st': St) { Shape(st) && Enabled(st, a) && st' == Apply(st, a) }

  /** `run` is a possible interleaving from `st`. */
  ghost predicate IsRun(st: St, run: seq<Step>)
    decreases |run|
  {
    run == [] || (Shape(st) && Enabled(st, run[0]) && IsRun(Apply(st, run[0]), run[1..]))
  }

  ghost function Exec(st: St, run: seq<Step>): St
    requires IsRun(st, run)
    decreases |run|
  {
    if run == [] then st else Exec(Apply(st, run[0]), run[1..])
  }

  lemma {:induction false} RunSnoc(st: St, run: seq<Step>, a: Step)
    requires IsRun(st, run) && Shape(Exec(st, run)) && Enabled(Exec(st, run), a)
    ensures IsRun(st, run + [a]) && Exec(st, run + [a]) == Apply(Exec(st, run), a)
    decreases |run|
  {
    hide Shape, Enabled, Apply;
    if run == [] {
      assert run + [a] == [a] && [a][1..] == [];
    } else {
      assert (run + [a])[1..] == run[1..] + [a];
      RunSnoc(Apply(st, run[0]), run[1..], a);
    }
  }
}
