/** The global invariant linking sender, queues, memories and receiver, and the
    proof that every step of every party keeps it. */
module Invariant {
  import opened Packets
  import opened Machine

  // ---------------------------------------------------------------- counting

  /** Number of receive completions, and of write completions, in a queue log. */
  function Recvs(q: seq<Wc>): nat {
    if q == [] then 0 else Recvs(q[..|q| - 1]) + if q[|q| - 1].Recv? then 1 else 0
  }

  function WriteDones(q: seq<Wc>): nat {
    if q == [] then 0 else WriteDones(q[..|q| - 1]) + if q[|q| - 1].WriteDone? then 1 else 0
  }

  lemma CountSnoc(q: seq<Wc>, w: Wc)
    ensures Recvs(q + [w]) == Recvs(q) + if w.Recv? then 1 else 0
    ensures WriteDones(q + [w]) == WriteDones(q) + if w.WriteDone? then 1 else 0
  {
  }

  lemma CountTake(q: seq<Wc>, k: nat)
    requires k < |q|
    ensures Recvs(q[..k + 1]) == Recvs(q[..k]) + if q[k].Recv? then 1 else 0
    ensures WriteDones(q[..k + 1]) == WriteDones(q[..k]) + if q[k].WriteDone? then 1 else 0
  {
    assert q[..k + 1] == q[..k] + [q[k]];
    CountSnoc(q[..k], q[k]);
  }

  /** A longer prefix counts at least as much. */
  lemma {:induction false} CountMono(q: seq<Wc>, i: nat, j: nat)
    requires i <= j <= |q|
    ensures Recvs(q[..i]) <= Recvs(q[..j]) && WriteDones(q[..i]) <= WriteDones(q[..j])
    decreases j
  {
    if i < j {
      CountTake(q, j - 1);
      CountMono(q, i, j - 1);
    }
  }

  // ---------------------------------------------------------------- data path

  function WrOf(msgs: seq<Msg>, e: nat): Wr
    requires e < 2 * |msgs|
  {
    if e % 2 == 0 then Write(msgs[e / 2].slot, msgs[e / 2].form) else Send(DataReady(msgs[e / 2].slot))
  }

  function FrameOf(msgs: seq<Msg>, e: nat): Frame
    requires e < 2 * |msgs|
  {
    if e % 2 == 0 then WriteFrame(msgs[e / 2].slot, msgs[e / 2].pkt) else SendFrame(DataReady(msgs[e / 2].slot))
  }

  /** Write and signal of message k are entries 2k and 2k+1 of the send queue, and
      what is on the wire is what the messages meant. */
  predicate Path(msgs: seq<Msg>, sq: seq<Wr>, wire: seq<Frame>, delivered: nat, acked: nat) {
    && |sq| <= 2 * |msgs| <= |sq| + 1
    && acked <= delivered <= |wire| <= |sq|
    && (forall e :: 0 <= e < |sq| ==> sq[e] == WrOf(msgs, e))
    && (forall e :: 0 <= e < |wire| ==> wire[e] == FrameOf(msgs, e))
  }

  /** Slots rotate from `base`; at most four messages are unacknowledged. */
  predicate Window(msgs: seq<Msg>, base: nat, consumed: nat) {
    && base <= consumed <= |msgs| <= consumed + SLOTS
    && (forall k :: base <= k < |msgs| ==> msgs[k].slot == (k - base) % SLOTS)
  }

  /** Local memory of every unacknowledged message still holds it. */
  predicate Local(msgs: seq<Msg>, lmem: seq<LocalSlot>, consumed: nat)
    requires |lmem| == SLOTS
  {
    forall k :: consumed <= k < |msgs| ==> Gather(lmem[msgs[k].slot], msgs[k].form) == msgs[k].pkt
  }

  /** Remote memory holds every message that was written but not yet answered. */
  predicate Remote(msgs: seq<Msg>, rmem: seq<Packet>, answered: nat, written: nat)
    requires |rmem| == SLOTS
  {
    && written <= |msgs|
    && (forall k :: answered <= k < written ==> rmem[msgs[k].slot] == msgs[k].pkt)
  }

  /** Only the last message can be TRANSFER_END, and none is blank. */
  predicate Marks(msgs: seq<Msg>, over: bool) {
    && (forall k :: 0 <= k < |msgs| ==> !msgs[k].pkt.Blank?)
    && (forall k :: 0 <= k < |msgs| && msgs[k].pkt.TransferEnd? ==> k == |msgs| - 1 && over)
  }

  /** The write of TRANSFER_END has been posted. */
  predicate Over(s: Snd) {
    s.ended && !s.pc.SyncSlot? && !s.pc.SyncRecv? && !s.pc.SyncWrite?
  }

  // ---------------------------------------------------------------- receive rings

  /** The receiver's k-th posted buffer is ring entry k mod 8, and an unanswered
      DATA_READY is still in the buffer it was delivered to. */
  predicate RecvRing(msgs: seq<Msg>, rbufs: seq<Cdc>, rrq: seq<RingIdx>, rcq: seq<Wc>, got: nat, answered: nat)
    requires |rbufs| == RING
  {
    && answered <= got <= |msgs| && got <= |rrq|
    && (forall k :: 0 <= k < |rrq| ==> rrq[k] == k % RING)
    && (forall k :: answered <= k < got ==> rbufs[k % RING] == DataReady(msgs[k].slot))
    && Recvs(rcq) == got
  }

  function WrIdOf(msgs: seq<Msg>, k: nat): nat
    requires k <= |msgs|
  {
    if k == 0 then 0 else msgs[k - 1].slot
  }

  predicate IsAckOf(c: Cdc, m: Msg) {
    c.slot == m.slot && c.ack && c.confirmed && c.clientIsWrite
  }

  /** The same for ACKs; the wr_id of a receive belongs to the message before. */
  predicate AckRing(msgs: seq<Msg>, sbufs: seq<Cdc>, srq: seq<RecvWr>, scq: seq<Wc>, asq: seq<Cdc>,
                    aDelivered: nat, consumed: nat)
    requires |sbufs| == RING
  {
    && consumed <= aDelivered <= |asq| <= |msgs| && |msgs| + 1 <= |srq| <= |msgs| + 2
    && (forall k :: 0 <= k < |asq| ==> IsAckOf(asq[k], msgs[k]))
    && (forall k :: 0 <= k < |srq| ==> srq[k].buf == k % RING)
    && (forall k :: 0 <= k <= |msgs| ==> srq[k].wrId == WrIdOf(msgs, k))
    && (forall k :: consumed <= k < aDelivered ==> IsAckOf(sbufs[k % RING], msgs[k]))
    && Recvs(scq) == aDelivered
  }

  // ---------------------------------------------------------------- programs

  /** Slot i is busy exactly when it lies in the circular interval of the
      unacknowledged signals. */
  predicate Busy(i: Slot, base: nat, consumed: nat, sent: nat)
  {
    (i as int - (consumed as int - base)) % SLOTS < sent as int - consumed
  }

  predicate Books(slotFree: seq<bool>, pending: int, base: nat, consumed: nat, sent: nat)
    requires |slotFree| == SLOTS
  {
    && base <= consumed <= sent
    && pending == sent - consumed
    && (forall i: Slot :: slotFree[i] == !Busy(i, base, consumed, sent))
  }

  predicate Posted(pc: SPc) { pc.SyncWaitWrite? || pc.SyncReady? || pc.ChunkReady? }

  predicate Polling(pc: SPc) {
    pc.SyncSlot? || pc.SyncWaitWrite? || pc.SyncWaitAck? || pc.ChunkSlot? || pc.ChunkHandle? || pc.Drain?
  }

  /** Between winning its slot and signalling it, the sender owns that slot. */
  predicate Filling(pc: SPc) {
    pc.ChunkRead? || pc.ChunkHead? || pc.ChunkRecv? || pc.ChunkWrite? || pc.ChunkReady?
  }

  /** Completions taken from the queue, handled, and still expected. */
  predicate SendCq(s: Snd, scq: seq<Wc>, acked: nat, aDelivered: nat, posted: nat) {
    && s.handled <= s.polled <= |scq| == acked + aDelivered
    && Recvs(scq[..s.handled]) == s.consumed
    && WriteDones(scq) == Writes(acked)
    && (!Polling(s.pc) ==> s.handled == s.polled)
    && (s.pc.SyncWaitWrite? && !s.writeDone ==> WriteDones(scq[..s.handled]) < posted)
  }

  /** Where the sender stands relative to what it has posted. */
  predicate SenderAt(s: Snd, posted: nat, sqLen: nat, srqLen: nat) {
    && s.consIdx == s.consumed % RING && s.postIdx == srqLen % RING
    && (sqLen % 2 == 1 <==> Posted(s.pc))
    && srqLen == posted + (if s.pc.SyncWrite? || s.pc.ChunkWrite? then 2 else 1)
    && (s.pc.Idle? ==> s.consumed == posted)
    && (InSync(s.pc) ==> posted == s.base + if Posted(s.pc) || s.pc.SyncWaitAck? then 1 else 0)
    && (!InSync(s.pc) && !s.pc.Idle? ==>
          s.base >= 1 && !s.ended && s.base <= Sends(sqLen) && s.current == (Sends(sqLen) - s.base) % SLOTS)
    && (Filling(s.pc) ==> Sends(sqLen) < s.consumed + SLOTS)
  }

  /** The slot being filled holds the packet the sender means to send, and the
      receive posted for its ACK carries its slot as wr_id. */
  predicate Filled(s: Snd, lmem: seq<LocalSlot>, srq: seq<RecvWr>)
    requires |lmem| == SLOTS
  {
    && (s.pc.SyncWrite? || s.pc.ChunkWrite? ==> srq != [] && srq[|srq| - 1].wrId == Target(s))
    && (s.pc.SyncSlot? || s.pc.SyncRecv? || s.pc.SyncWrite? ==>
          Gather(lmem[0], s.form) == s.intent && !s.intent.Blank? && s.ended == s.intent.TransferEnd?)
    && (s.pc.ChunkRecv? || s.pc.ChunkWrite? ==>
          Gather(lmem[s.current], s.form) == s.intent && s.intent.FileData?)
  }

  predicate LastIsEnd(interp: seq<Packet>) {
    interp != [] && interp[|interp| - 1].TransferEnd?
  }

  /** The receiver's counters at each program point: eight receives outstanding
      at the loop head, seven while one message is being processed. */
  predicate ReceiverAt(r: Rcv, posted: nat, answered: nat) {
    match r.pc
    case Setup =>
      r.taken == r.consumed == |r.interp| == answered == 0 && r.ext < RING && posted == 1 + r.ext
    case Wait =>
      r.taken == r.consumed == |r.interp| == answered && posted == r.consumed + RING && r.credits == RING
      && !LastIsEnd(r.interp)
    case Consume =>
      r.taken == r.consumed + 1 && r.consumed == |r.interp| == answered
      && posted == r.consumed + RING && r.credits == RING
    case Interpret =>
      r.taken == r.consumed == |r.interp| + 1 && |r.interp| == answered
      && posted == r.consumed + RING - 1 && r.credits == RING - 1
    case Repost =>
      r.taken == r.consumed == |r.interp| == answered + 1 && !LastIsEnd(r.interp)
      && posted == r.consumed + RING - 1 && r.credits == RING - 1
    case SendAck =>
      r.taken == r.consumed == |r.interp| == answered + 1
      && posted == r.consumed + r.credits && r.credits == if LastIsEnd(r.interp) then RING - 1 else RING
    case Halted =>
      r.taken == r.consumed == |r.interp| == answered && LastIsEnd(r.interp) && posted == r.consumed + RING - 1
    case Broken => false
  }

  /** What the receiver has read so far: a prefix of the messages, and the slot and
      buffer of the one in hand. */
  predicate ReceiverData(r: Rcv, msgs: seq<Msg>, rcq: seq<Wc>, posted: nat) {
    && r.postIdx == posted % RING && r.consIdx == r.consumed % RING
    && r.polled <= |rcq| && Recvs(rcq[..r.polled]) == r.taken
    && r.consumed <= r.taken <= |msgs| && |r.interp| <= |msgs|
    && (forall k :: 0 <= k < |r.interp| ==> r.interp[k] == msgs[k].pkt)
    && (r.pc.Interpret? || r.pc.Repost? || r.pc.SendAck? ==>
          && r.consumed >= 1 && r.cur == (r.consumed - 1) % RING && r.slot == msgs[r.consumed - 1].slot)
  }

  predicate Inv(st: St) {
    var s, r, n := st.s, st.r, st.n;
    && Shape(st)
    && Path(n.msgs, n.sq, n.wire, n.delivered, n.acked)
    && Window(n.msgs, s.base, s.consumed)
    && Local(n.msgs, n.lmem, s.consumed)
    && Remote(n.msgs, n.rmem, |n.asq|, Writes(n.delivered))
    && Marks(n.msgs, Over(s))
    && RecvRing(n.msgs, n.rbufs, n.rrq, n.rcq, Sends(n.delivered), |n.asq|)
    && AckRing(n.msgs, n.sbufs, n.srq, n.scq, n.asq, n.aDelivered, s.consumed)
    && Books(s.slotFree, s.pending, s.base, s.consumed, Sends(|n.sq|))
    && SendCq(s, n.scq, n.acked, n.aDelivered, |n.msgs|)
    && SenderAt(s, |n.msgs|, |n.sq|, |n.srq|)
    && Filled(s, n.lmem, n.srq)
    && ReceiverAt(r, |n.rrq|, |n.asq|)
    && ReceiverData(r, n.msgs, n.rcq, |n.rrq|)
    && n.aAcked <= n.aDelivered && |n.rcq| == Sends(n.delivered) + n.aAcked
    && !n.rnr
  }

  lemma InitInv(st: St)
    requires Init(st)
    ensures Inv(st)
  {
  }

  // ---------------------------------------------------------------- helper lemmas

  lemma PathBounds(msgs: seq<Msg>, sq: seq<Wr>, wire: seq<Frame>, delivered: nat, acked: nat)
    requires Path(msgs, sq, wire, delivered, acked)
    ensures acked <= delivered <= |wire| <= |sq| <= 2 * |msgs| <= |sq| + 1
  {
  }

  lemma RecvRingBounds(msgs: seq<Msg>, rbufs: seq<Cdc>, rrq: seq<RingIdx>, rcq: seq<Wc>, got: nat, answered: nat)
    requires |rbufs| == RING && RecvRing(msgs, rbufs, rrq, rcq, got, answered)
    ensures answered <= got <= |msgs| && got <= |rrq| && Recvs(rcq) == got
  {
  }

  lemma AckRingBounds(msgs: seq<Msg>, sbufs: seq<Cdc>, srq: seq<RecvWr>, scq: seq<Wc>, asq: seq<Cdc>,
                      aDelivered: nat, consumed: nat)
    requires |sbufs| == RING && AckRing(msgs, sbufs, srq, scq, asq, aDelivered, consumed)
    ensures consumed <= aDelivered <= |asq| <= |msgs| && |msgs| + 1 <= |srq| <= |msgs| + 2
    ensures Recvs(scq) == aDelivered
  {
  }

  /** All cursors in one chain, from the oldest ACK to the newest post. */
  lemma Chain(st: St)
    requires Inv(st)
    ensures st.s.consumed <= st.n.aDelivered <= |st.n.asq| <= |st.r.interp| <= st.r.taken
    ensures |st.r.interp| <= st.r.consumed <= st.r.taken <= Sends(st.n.delivered) <= Sends(|st.n.sq|)
    ensures Writes(st.n.delivered) <= |st.n.msgs| <= st.s.consumed + SLOTS
    ensures |st.n.sq| == 2 * |st.n.msgs| - if Posted(st.s.pc) then 1 else 0
    ensures st.s.base <= st.s.consumed
  {
    hide Path, Local, Remote, Marks, RecvRing, AckRing, Filled, Gather, Recvs, WriteDones, Busy;
    var n := st.n;
    PathBounds(n.msgs, n.sq, n.wire, n.delivered, n.acked);
    RecvRingBounds(n.msgs, n.rbufs, n.rrq, n.rcq, Sends(n.delivered), |n.asq|);
    AckRingBounds(n.msgs, n.sbufs, n.srq, n.scq, n.asq, n.aDelivered, st.s.consumed);
    CountMono(st.n.rcq, st.r.polled, |st.n.rcq|);
    assert st.n.rcq[..|st.n.rcq|] == st.n.rcq;
  }

  lemma PathWrite(msgs: seq<Msg>, sq: seq<Wr>, wire: seq<Frame>, delivered: nat, acked: nat, m: Msg)
    requires Path(msgs, sq, wire, delivered, acked) && |sq| == 2 * |msgs|
    ensures Path(msgs + [m], sq + [Write(m.slot, m.form)], wire, delivered, acked)
  {
  }

  lemma PathSend(msgs: seq<Msg>, sq: seq<Wr>, wire: seq<Frame>, delivered: nat, acked: nat)
    requires Path(msgs, sq, wire, delivered, acked) && |sq| == 2 * |msgs| - 1
    ensures Path(msgs, sq + [Send(DataReady(msgs[|msgs| - 1].slot))], wire, delivered, acked)
  {
  }

  /** Executing (or re-executing) a queued work request puts the meant packet on
      the wire, as long as the local memory of unacknowledged messages is intact. */
  lemma ExecFrame(st: St, e: nat)
    requires Inv(st) && st.n.delivered <= e < |st.n.sq|
    ensures FrameFor(st.n.sq[e], st.n.lmem) == FrameOf(st.n.msgs, e)
  {
  }

  lemma PathExec(msgs: seq<Msg>, sq: seq<Wr>, wire: seq<Frame>, delivered: nat, acked: nat)
    requires Path(msgs, sq, wire, delivered, acked) && |wire| < |sq|
    ensures Path(msgs, sq, wire + [FrameOf(msgs, |wire|)], delivered, acked)
  {
  }

  lemma RingNext(k: nat)
    ensures Next(k % RING) == (k + 1) % RING
  {
  }

  lemma SlotNext(k: nat)
    ensures (k % SLOTS + 1) % SLOTS == (k + 1) % SLOTS
  {
  }

  /** The next slot of the rotation is none of the unacknowledged ones. */
  lemma FreshSlot(msgs: seq<Msg>, base: nat, consumed: nat, from: nat, k: nat)
    requires Window(msgs, base, consumed) && consumed <= from < k < consumed + SLOTS && from < |msgs|
    ensures msgs[from].slot != (k - base) % SLOTS
  {
  }

  lemma ModDiffer(a: nat, b: nat)
    requires a < b < a + 4
    ensures a % 4 != b % 4
  {
  }

  /** Writing the slot being filled touches no unacknowledged message. */
  lemma FillKeepsLocal(st: St, m: LocalSlot)
    requires Inv(st) && Filling(st.s.pc) && !Posted(st.s.pc)
    ensures Local(st.n.msgs, st.n.lmem[st.s.current := m], st.s.consumed)
  {
    hide Path, Remote, Marks, RecvRing, AckRing, Books, SendCq, Filled, ReceiverAt, ReceiverData, Gather;
    Chain(st);
    var n, s := st.n, st.s;
    forall k | s.consumed <= k < |n.msgs|
      ensures Gather(n.lmem[s.current := m][n.msgs[k].slot], n.msgs[k].form) == n.msgs[k].pkt
    {
      FreshSlot(n.msgs, s.base, s.consumed, k, |n.msgs|);
      assert n.lmem[s.current := m][n.msgs[k].slot] == n.lmem[n.msgs[k].slot];
    }
  }

  /** One more signal: the slot of the rotation becomes the newest busy one. */
  lemma BooksSend(slotFree: seq<bool>, pending: int, base: nat, consumed: nat, sent: nat, t: Slot)
    requires |slotFree| == SLOTS && Books(slotFree, pending, base, consumed, sent)
    requires sent < consumed + SLOTS && t == (sent - base) % SLOTS
    ensures Books(slotFree[t := false], pending + 1, base, consumed, sent + 1)
  {
  }

  /** One ACK: the oldest busy slot, and only it, becomes free. */
  lemma BooksAck(slotFree: seq<bool>, pending: int, base: nat, consumed: nat, sent: nat, t: Slot)
    requires |slotFree| == SLOTS && Books(slotFree, pending, base, consumed, sent)
    requires consumed < sent <= consumed + SLOTS && t == (consumed - base) % SLOTS
    ensures !slotFree[t] && Books(slotFree[t := true], pending - 1, base, consumed + 1, sent)
  {
  }

  /** Winning the next slot of the rotation means fewer than four are out. */
  lemma WonSlot(st: St)
    requires Inv(st) && st.s.pc.ChunkSlot? && st.s.slotFree[st.s.current]
    ensures Sends(|st.n.sq|) < st.s.consumed + SLOTS
  {
  }

  /** Leaving a wait for slot 0 or the drain loop, nothing is outstanding. */
  lemma NothingOut(st: St)
    requires Inv(st)
    requires (st.s.pc.SyncWaitAck? && st.s.slotFree[0]) || (st.s.pc.Drain? && st.s.pending <= 0)
    ensures st.s.consumed == |st.n.msgs|
  {
    hide Local, Remote, Marks, RecvRing, AckRing, SendCq, Filled, ReceiverAt, ReceiverData, Window;
  }

  /** The completion counts at the handling cursor never exceed the totals. */
  lemma Handled(st: St, k: nat)
    requires Inv(st) && k <= |st.n.scq|
    ensures Recvs(st.n.scq[..k]) <= st.n.aDelivered
    ensures WriteDones(st.n.scq[..k]) <= Writes(st.n.acked) <= |st.n.msgs|
  {
    CountMono(st.n.scq, k, |st.n.scq|);
    assert st.n.scq[..|st.n.scq|] == st.n.scq;
  }

  /** A newly posted message changes nothing the receiver side relies on. */
  lemma PostedViews(msgs: seq<Msg>, m: Msg, st: St)
    requires Inv(st) && msgs == st.n.msgs
    ensures Remote(msgs + [m], st.n.rmem, |st.n.asq|, Writes(st.n.delivered))
    ensures RecvRing(msgs + [m], st.n.rbufs, st.n.rrq, st.n.rcq, Sends(st.n.delivered), |st.n.asq|)
    ensures ReceiverData(st.r, msgs + [m], st.n.rcq, |st.n.rrq|)
  {
  }

  /** The packet in the slot just filled becomes the newest message of the log. */
  lemma PostedLog(st: St, m: Msg)
    requires Inv(st) && (st.s.pc.SyncWrite? || st.s.pc.ChunkWrite?)
    requires m == Msg(Target(st.s), st.s.form, st.s.intent)
    ensures Window(st.n.msgs + [m], st.s.base, st.s.consumed)
    ensures Local(st.n.msgs + [m], st.n.lmem, st.s.consumed)
    ensures Marks(st.n.msgs + [m], st.s.ended)
  {
    hide Path, Remote, RecvRing, AckRing, Books, SendCq, ReceiverAt, ReceiverData, Gather, WrOf, FrameOf,
      Recvs, WriteDones, Busy, WrIdOf, IsAckOf;
    Chain(st);
  }

  lemma AckRingPost(msgs: seq<Msg>, m: Msg, sbufs: seq<Cdc>, srq: seq<RecvWr>, scq: seq<Wc>, asq: seq<Cdc>,
                    aDelivered: nat, consumed: nat)
    requires |sbufs| == RING && AckRing(msgs, sbufs, srq, scq, asq, aDelivered, consumed)
    requires |srq| == |msgs| + 2 && srq[|msgs| + 1].wrId == m.slot
    ensures AckRing(msgs + [m], sbufs, srq, scq, asq, aDelivered, consumed)
  {
  }

  lemma AckRingTake(msgs: seq<Msg>, sbufs: seq<Cdc>, srq: seq<RecvWr>, scq: seq<Wc>, asq: seq<Cdc>,
                    aDelivered: nat, consumed: nat)
    requires |sbufs| == RING && AckRing(msgs, sbufs, srq, scq, asq, aDelivered, consumed) && consumed < aDelivered
    ensures AckRing(msgs, sbufs, srq, scq, asq, aDelivered, consumed + 1)
    ensures IsAckOf(sbufs[consumed % RING], msgs[consumed])
  {
  }

  lemma RecvRingPost(msgs: seq<Msg>, rbufs: seq<Cdc>, rrq: seq<RingIdx>, rcq: seq<Wc>, got: nat, answered: nat)
    requires |rbufs| == RING && RecvRing(msgs, rbufs, rrq, rcq, got, answered)
    ensures RecvRing(msgs, rbufs, rrq + [|rrq| % RING], rcq, got, answered)
  {
  }

  /** Answering the oldest message: its buffer, though reposted, still holds the
      original signal, so the ACK copies the right fields. */
  lemma AckAnswers(st: St)
    requires Inv(st) && st.r.pc.SendAck?
    ensures |st.n.asq| < Sends(st.n.delivered) && |st.n.asq| < |st.n.msgs|
    ensures st.n.rbufs[st.r.cur] == DataReady(st.n.msgs[|st.n.asq|].slot)
    ensures IsAckOf(AckFor(st.r, st.n.rbufs), st.n.msgs[|st.n.asq|])
  {
    hide Path, Window, Local, Remote, Marks, AckRing, Books, SendCq, SenderAt, Filled, Gather, WrOf, FrameOf,
      Recvs, WriteDones, Busy, WrIdOf;
    Chain(st);
    assert st.n.rbufs[|st.n.asq| % RING] == DataReady(st.n.msgs[|st.n.asq|].slot);
  }

  lemma RecvRingAnswer(msgs: seq<Msg>, rbufs: seq<Cdc>, rrq: seq<RingIdx>, rcq: seq<Wc>, got: nat, answered: nat)
    requires |rbufs| == RING && RecvRing(msgs, rbufs, rrq, rcq, got, answered) && answered < got
    ensures RecvRing(msgs, rbufs, rrq, rcq, got, answered + 1)
  {
  }

  lemma AckRingAnswer(msgs: seq<Msg>, sbufs: seq<Cdc>, srq: seq<RecvWr>, scq: seq<Wc>, asq: seq<Cdc>,
                      aDelivered: nat, consumed: nat, c: Cdc)
    requires |sbufs| == RING && AckRing(msgs, sbufs, srq, scq, asq, aDelivered, consumed)
    requires |asq| < |msgs| && IsAckOf(c, msgs[|asq|])
    ensures AckRing(msgs, sbufs, srq, scq, asq + [c], aDelivered, consumed)
  {
  }

  /** A SEND lands in the buffer at the head of the receive queue. */
  lemma RecvRingDeliver(msgs: seq<Msg>, rbufs: seq<Cdc>, rrq: seq<RingIdx>, rcq: seq<Wc>, got: nat, answered: nat)
    requires |rbufs| == RING && RecvRing(msgs, rbufs, rrq, rcq, got, answered)
    requires got < |rrq| && got < |msgs| && got < answered + RING
    ensures RecvRing(msgs, rbufs[rrq[got] := DataReady(msgs[got].slot)], rrq, rcq + [Recv(0)], got + 1, answered)
  {
  }

  /** What handle_ack_recv does with the ACK of message `consumed`: the duplicate
      and invalid-slot branches are not taken. */
  lemma HandleRecv(st: St)
    requires Inv(st) && Enabled(st, Handle) && st.n.scq[st.s.handled].Recv?
    ensures st.s.consumed < st.n.aDelivered && st.s.consumed < |st.n.msgs|
    ensures var t := st.n.msgs[st.s.consumed].slot;
      && !st.s.slotFree[t] && t == (st.s.consumed - st.s.base) % SLOTS
      && st.n.sbufs[st.s.consIdx].slot == t
      && Apply(st, Handle) == st.(s := st.s.(handled := st.s.handled + 1, consIdx := Next(st.s.consIdx),
           consumed := st.s.consumed + 1, slotFree := st.s.slotFree[t := true], pending := st.s.pending - 1))
      && Books(st.s.slotFree[t := true], st.s.pending - 1, st.s.base, st.s.consumed + 1, Sends(|st.n.sq|))
  {
    hide Path, Local, Remote, Marks, RecvRing, AckRing, Books, Filled, ReceiverAt, ReceiverData, Gather, WrOf,
      FrameOf, Recvs, WriteDones, Busy, WrIdOf, Apply;
    var s, n := st.s, st.n;
    Chain(st);
    CountTake(n.scq, s.handled);
    Handled(st, s.handled + 1);
    AckRingTake(n.msgs, n.sbufs, n.srq, n.scq, n.asq, n.aDelivered, s.consumed);
    assert n.msgs[s.consumed].slot == (s.consumed - s.base) % SLOTS;
    BooksAck(s.slotFree, s.pending, s.base, s.consumed, Sends(|n.sq|), n.msgs[s.consumed].slot);
    AckHandled(st, n.msgs[s.consumed].slot);
  }

  lemma AckHandled(st: St, t: Slot)
    requires Shape(st) && Enabled(st, Handle) && st.n.scq[st.s.handled].Recv?
    requires st.n.sbufs[st.s.consIdx].slot == t && !st.s.slotFree[t]
    ensures Apply(st, Handle) == st.(s := st.s.(handled := st.s.handled + 1, consIdx := Next(st.s.consIdx),
           consumed := st.s.consumed + 1, slotFree := st.s.slotFree[t := true], pending := st.s.pending - 1))
  {
  }

  /** Handling a receive completion consumes the ACK of the oldest message. */
  lemma HandleRecvInv(st: St)
    requires Inv(st) && Enabled(st, Handle) && st.n.scq[st.s.handled].Recv?
    ensures Inv(Apply(st, Handle))
  {
    hide Path, Remote, Marks, RecvRing, AckRing, Books, ReceiverAt, ReceiverData, Gather, WrOf, FrameOf,
      Recvs, WriteDones, Busy, WrIdOf, IsAckOf;
    var s, n := st.s, st.n;
    HandleRecv(st);
    CountTake(n.scq, s.handled);
    AckRingTake(n.msgs, n.sbufs, n.srq, n.scq, n.asq, n.aDelivered, s.consumed);
    RingNext(s.consumed);
  }

  /** Whenever a SEND is about to be delivered, a receive is posted for it. */
  lemma RecvPosted(st: St)
    requires Inv(st) && st.n.delivered < |st.n.sq| && st.n.delivered % 2 == 1
    ensures Sends(st.n.delivered) < |st.n.rrq| && Sends(st.n.delivered) < |st.n.asq| + RING
  {
  }

  lemma DeliverWriteInv(st: St)
    requires Inv(st) && Enabled(st, NicDeliver) && st.n.wire[st.n.delivered].WriteFrame?
    ensures Inv(Apply(st, NicDeliver))
  {
    hide Local, Marks, RecvRing, AckRing, Books, SendCq, SenderAt, Filled, ReceiverAt, ReceiverData, Gather,
      WrOf, Recvs, WriteDones, Busy, WrIdOf, IsAckOf;
    var n, s := st.n, st.s;
    var w := Writes(n.delivered);
    assert n.wire[n.delivered] == FrameOf(n.msgs, n.delivered);
    Chain(st);
    WrittenApart(st, w);
  }

  /** The slot written next is none of those that hold unanswered packets. */
  lemma WrittenApart(st: St, w: nat)
    requires Inv(st) && w < |st.n.msgs|
    ensures forall k :: |st.n.asq| <= k < w ==> st.n.msgs[k].slot != st.n.msgs[w].slot
  {
    hide Local, Remote, Path, Marks, RecvRing, AckRing, Books, SendCq, SenderAt, Filled, ReceiverAt, ReceiverData;
    var n, s := st.n, st.s;
    Chain(st);
    forall k | |n.asq| <= k < w ensures n.msgs[k].slot != n.msgs[w].slot {
      FreshSlot(n.msgs, s.base, s.consumed, k, w);
      assert n.msgs[w].slot == (w - s.base) % SLOTS;
    }
  }

  lemma DeliverSendInv(st: St)
    requires Inv(st) && Enabled(st, NicDeliver) && st.n.wire[st.n.delivered].SendFrame?
    ensures Inv(Apply(st, NicDeliver))
  {
    hide Window, Local, Remote, Marks, RecvRing, AckRing, Books, SendCq, SenderAt, Filled, ReceiverAt, Gather,
      WrOf, Recvs, WriteDones, Busy, WrIdOf, IsAckOf;
    var n := st.n;
    var got := Sends(n.delivered);
    assert n.wire[n.delivered] == FrameOf(n.msgs, n.delivered);
    Chain(st);
    RecvPosted(st);
    RecvRingDeliver(n.msgs, n.rbufs, n.rrq, n.rcq, got, |n.asq|);
    assert (n.rcq + [Recv(0)])[..st.r.polled] == n.rcq[..st.r.polled];
  }

  // ---------------------------------------------------------------- sender steps

  lemma BeginSyncInv(st: St, p: Packet)
    requires Inv(st) && Enabled(st, BeginSync(p))
    ensures Inv(Apply(st, BeginSync(p)))
  {
  }

  lemma BeginFileInv(st: St)
    requires Inv(st) && Enabled(st, BeginFile)
    ensures Inv(Apply(st, BeginFile))
  {
    hide Path, Local, Remote, Marks, RecvRing, AckRing, ReceiverAt, ReceiverData, Gather, WrOf, FrameOf, Recvs,
      WriteDones, WrIdOf, IsAckOf;
    Chain(st);
  }

  lemma MoveInv(st: St, a: Step)
    requires Inv(st) && Enabled(st, a)
    requires a.BeginChunk? || a.LoopEnd? || a.SlotReady? || a.WriteSeen? || a.HandleDone?
    ensures Inv(Apply(st, a))
  {
    hide Path, Window, Local, Remote, Marks, RecvRing, AckRing, Books, ReceiverAt, ReceiverData, Gather, WrOf,
      FrameOf, Recvs, WriteDones, Busy, WrIdOf, IsAckOf;
    if a.SlotReady? && st.s.pc.ChunkSlot? { WonSlot(st); }
  }

  lemma FinishInv(st: St, a: Step)
    requires Inv(st) && Enabled(st, a) && (a.SyncDone? || a.DrainDone?)
    ensures Inv(Apply(st, a))
  {
    hide Path, Window, Local, Remote, Marks, RecvRing, AckRing, Books, ReceiverAt, ReceiverData, Gather, WrOf,
      FrameOf, Recvs, WriteDones, Busy, WrIdOf, IsAckOf;
    NothingOut(st);
  }

  lemma PostAckRecvInv(st: St)
    requires Inv(st) && Enabled(st, PostAckRecv)
    ensures Inv(Apply(st, PostAckRecv))
  {
    hide Path, Window, Local, Remote, Marks, RecvRing, AckRing, Books, ReceiverAt, ReceiverData, Gather, WrOf, FrameOf,
      Recvs, WriteDones, Busy, WrIdOf, IsAckOf;
    var n := st.n;
    AckRingRecv(n.msgs, n.sbufs, n.srq, n.scq, n.asq, n.aDelivered, st.s.consumed, Target(st.s));
    RingNext(|n.srq|);
  }

  lemma AckRingRecv(msgs: seq<Msg>, sbufs: seq<Cdc>, srq: seq<RecvWr>, scq: seq<Wc>, asq: seq<Cdc>,
                    aDelivered: nat, consumed: nat, wrId: nat)
    requires |sbufs| == RING && AckRing(msgs, sbufs, srq, scq, asq, aDelivered, consumed) && |srq| == |msgs| + 1
    ensures AckRing(msgs, sbufs, srq + [RecvWr(|srq| % RING, wrId)], scq, asq, aDelivered, consumed)
  {
    hide Recvs, WrIdOf, IsAckOf;
  }

  lemma PostWriteInv(st: St)
    requires Inv(st) && Enabled(st, PostWrite)
    ensures Inv(Apply(st, PostWrite))
  {
    hide Path, Window, Local, Remote, Marks, RecvRing, AckRing, Books, SendCq, SenderAt, ReceiverAt, ReceiverData,
      Gather, WrOf, FrameOf, Recvs, WriteDones, Busy, WrIdOf, IsAckOf, Sends, Writes;
    EvenOdd(|st.n.msgs|);
    var n := st.n;
    var m := Msg(Target(st.s), st.s.form, st.s.intent);
    Chain(st);
    SendCqPost(st, Apply(st, PostWrite).s);
    SenderAtPost(st.s, Apply(st, PostWrite).s, |n.msgs|, |n.sq|, |n.srq|);
    FilledPost(Apply(st, PostWrite).s, n.lmem, n.srq);
    PathWrite(n.msgs, n.sq, n.wire, n.delivered, n.acked, m);
    PostedLog(st, m);
    PostedViews(n.msgs, m, st);
    AckRingPost(n.msgs, m, n.sbufs, n.srq, n.scq, n.asq, n.aDelivered, st.s.consumed);
  }

  lemma SenderAtPost(s: Snd, s': Snd, posted: nat, sqLen: nat, srqLen: nat)
    requires SenderAt(s, posted, sqLen, srqLen) && (s.pc.SyncWrite? || s.pc.ChunkWrite?) && sqLen == 2 * posted
    requires s' == s.(writeDone := false, pc := if s.pc.SyncWrite? then SyncWaitWrite else ChunkReady)
    ensures SenderAt(s', posted + 1, sqLen + 1, srqLen) && srqLen == posted + 2
  {
    EvenOdd(posted);
    hide Sends;
  }

  lemma EvenOdd(posted: nat)
    ensures Sends(2 * posted) == Sends(2 * posted + 1) == posted && (2 * posted + 1) % 2 == 1
  {
  }

  lemma FilledPost(s: Snd, lmem: seq<LocalSlot>, srq: seq<RecvWr>)
    requires |lmem| == SLOTS && (s.pc.SyncWaitWrite? || s.pc.ChunkReady?)
    ensures Filled(s, lmem, srq)
  {
  }

  lemma SendCqPost(st: St, s': Snd)
    requires Inv(st) && (st.s.pc.SyncWrite? || st.s.pc.ChunkWrite?)
    requires s' == st.s.(writeDone := false, pc := if st.s.pc.SyncWrite? then SyncWaitWrite else ChunkReady)
    ensures SendCq(s', st.n.scq, st.n.acked, st.n.aDelivered, |st.n.msgs| + 1)
  {
    hide Path, Window, Local, Remote, Marks, RecvRing, AckRing, Books, SenderAt, Filled, ReceiverAt, ReceiverData,
      Gather, WrOf, FrameOf, Recvs, WriteDones, Busy, WrIdOf, IsAckOf;
    Handled(st, st.s.handled);
  }

  lemma PostReadyInv(st: St)
    requires Inv(st) && Enabled(st, PostReady)
    ensures Inv(Apply(st, PostReady))
  {
    hide Path, Local, Remote, Marks, RecvRing, AckRing, Books, ReceiverAt, ReceiverData, Gather, WrOf,
      FrameOf, Recvs, WriteDones, Busy, WrIdOf, IsAckOf, Sends, Writes;
    Chain(st);
    EvenOdd(|st.n.msgs| - 1);
    EvenOdd(|st.n.msgs|);
    var sent := Sends(|st.n.sq|);
    PathSend(st.n.msgs, st.n.sq, st.n.wire, st.n.delivered, st.n.acked);
    BooksSend(st.s.slotFree, st.s.pending, st.s.base, st.s.consumed, sent, Target(st.s));
    SlotNext(sent - st.s.base);
  }

  lemma ReadDataInv(st: St, d: seq<byte>, ok: bool)
    requires Inv(st) && Enabled(st, ReadData(d, ok))
    ensures Inv(Apply(st, ReadData(d, ok)))
  {
    hide Path, Window, Local, Remote, Marks, RecvRing, AckRing, Books, ReceiverAt, ReceiverData, Gather, WrOf,
      FrameOf, Recvs, WriteDones, Busy, WrIdOf, IsAckOf;
    FillKeepsLocal(st, st.n.lmem[st.s.current].(data := d));
  }

  lemma FillHeadInv(st: St, h: Packet, k: nat)
    requires Inv(st) && Enabled(st, FillHead(h, k))
    ensures Inv(Apply(st, FillHead(h, k)))
  {
    hide Path, Window, Local, Remote, Marks, RecvRing, AckRing, Books, ReceiverAt, ReceiverData, WrOf,
      FrameOf, Recvs, WriteDones, Busy, WrIdOf, IsAckOf;
    FillKeepsLocal(st, st.n.lmem[st.s.current].(head := h));
  }

  lemma PollInv(st: St, k: nat)
    requires Inv(st) && Enabled(st, Poll(k))
    ensures Inv(Apply(st, Poll(k)))
  {
    hide Path, Window, Local, Remote, Marks, RecvRing, AckRing, Books, ReceiverAt, ReceiverData, Gather, WrOf,
      FrameOf, Recvs, WriteDones, Busy, WrIdOf, IsAckOf;
  }

  lemma HandleInv(st: St)
    requires Inv(st) && Enabled(st, Handle)
    ensures Inv(Apply(st, Handle))
  {
    hide Path, Window, Local, Remote, Marks, RecvRing, AckRing, Books, ReceiverAt, ReceiverData, Gather, WrOf,
      FrameOf, Recvs, WriteDones, Busy, WrIdOf, IsAckOf;
    if st.n.scq[st.s.handled].Recv? {
      HandleRecvInv(st);
    } else {
      CountTake(st.n.scq, st.s.handled);
    }
  }

  // ---------------------------------------------------------------- NIC steps

  lemma NicExecInv(st: St)
    requires Inv(st) && Enabled(st, NicExec)
    ensures Inv(Apply(st, NicExec))
  {
    hide Window, Local, Remote, Marks, RecvRing, AckRing, Books, SendCq, SenderAt, Filled, ReceiverAt,
      ReceiverData, Gather, WrOf, FrameOf, Recvs, WriteDones, Busy, WrIdOf, IsAckOf;
    ExecFrame(st, |st.n.wire|);
    PathExec(st.n.msgs, st.n.sq, st.n.wire, st.n.delivered, st.n.acked);
  }

  lemma NicRereadInv(st: St, e: nat)
    requires Inv(st) && Enabled(st, NicReread(e))
    ensures Apply(st, NicReread(e)) == st
  {
  }

  lemma NicDeliverInv(st: St)
    requires Inv(st) && Enabled(st, NicDeliver)
    ensures Inv(Apply(st, NicDeliver))
  {
    hide Path, Window, Local, Remote, Marks, RecvRing, AckRing, Books, SendCq, SenderAt, Filled, ReceiverAt,
      ReceiverData, Gather, WrOf, FrameOf, Recvs, WriteDones, Busy, WrIdOf, IsAckOf;
    if st.n.wire[st.n.delivered].WriteFrame? { DeliverWriteInv(st); } else { DeliverSendInv(st); }
  }

  lemma NicCompleteInv(st: St)
    requires Inv(st) && Enabled(st, NicComplete)
    ensures Inv(Apply(st, NicComplete))
  {
    hide Path, Window, Local, Remote, Marks, RecvRing, AckRing, Books, SendCq, SenderAt, Filled, ReceiverAt,
      ReceiverData, Gather, WrOf, FrameOf, Recvs, WriteDones, Busy, WrIdOf, IsAckOf;
    var n := st.n;
    var w := if n.sq[n.acked].Write? then WriteDone else SendDone;
    PathComplete(n.msgs, n.sq, n.wire, n.delivered, n.acked);
    AckRingSkip(n.msgs, n.sbufs, n.srq, n.scq, n.asq, n.aDelivered, st.s.consumed, w);
    SendCqComplete(st.s, n.scq, n.acked, n.aDelivered, |n.msgs|, w);
  }

  lemma PathComplete(msgs: seq<Msg>, sq: seq<Wr>, wire: seq<Frame>, delivered: nat, acked: nat)
    requires Path(msgs, sq, wire, delivered, acked) && acked < delivered
    ensures Path(msgs, sq, wire, delivered, acked + 1) && acked < |sq|
    ensures sq[acked].Write? <==> acked % 2 == 0
  {
    hide FrameOf;
    assert sq[acked] == WrOf(msgs, acked);
  }

  lemma AckRingSkip(msgs: seq<Msg>, sbufs: seq<Cdc>, srq: seq<RecvWr>, scq: seq<Wc>, asq: seq<Cdc>,
                    aDelivered: nat, consumed: nat, w: Wc)
    requires |sbufs| == RING && AckRing(msgs, sbufs, srq, scq, asq, aDelivered, consumed) && !w.Recv?
    ensures AckRing(msgs, sbufs, srq, scq + [w], asq, aDelivered, consumed)
  {
    hide Recvs, WrIdOf, IsAckOf;
    CountSnoc(scq, w);
  }

  lemma SendCqComplete(s: Snd, scq: seq<Wc>, acked: nat, aDelivered: nat, posted: nat, w: Wc)
    requires SendCq(s, scq, acked, aDelivered, posted) && w == if acked % 2 == 0 then WriteDone else SendDone
    ensures SendCq(s, scq + [w], acked + 1, aDelivered, posted)
  {
    hide Recvs, WriteDones, Polling;
    CountSnoc(scq, w);
    assert (scq + [w])[..s.handled] == scq[..s.handled];
  }

  lemma AckDeliverInv(st: St)
    requires Inv(st) && Enabled(st, AckDeliver)
    ensures Inv(Apply(st, AckDeliver))
  {
    hide Path, Window, Local, Remote, Marks, RecvRing, AckRing, Books, SenderAt, Filled, ReceiverAt, ReceiverData,
      Gather, WrOf, FrameOf, Recvs, WriteDones, Busy, WrIdOf, IsAckOf;
    var n := st.n;
    Chain(st);
    AckRingDeliver(n.msgs, n.sbufs, n.srq, n.scq, n.asq, n.aDelivered, st.s.consumed);
    var w := Recv(n.srq[n.aDelivered].wrId);
    CountSnoc(n.scq, w);
    assert (n.scq + [w])[..st.s.handled] == n.scq[..st.s.handled];
  }

  lemma AckRingDeliver(msgs: seq<Msg>, sbufs: seq<Cdc>, srq: seq<RecvWr>, scq: seq<Wc>, asq: seq<Cdc>,
                       aDelivered: nat, consumed: nat)
    requires |sbufs| == RING && AckRing(msgs, sbufs, srq, scq, asq, aDelivered, consumed)
    requires aDelivered < |asq| && |msgs| <= consumed + SLOTS
    ensures aDelivered < |srq|
    ensures AckRing(msgs, sbufs[srq[aDelivered].buf := asq[aDelivered]], srq, scq + [Recv(srq[aDelivered].wrId)], asq,
      aDelivered + 1, consumed)
  {
  }

  lemma AckCompleteInv(st: St)
    requires Inv(st) && Enabled(st, AckComplete)
    ensures Inv(Apply(st, AckComplete))
  {
    hide Path, Window, Local, Remote, Marks, AckRing, Books, SendCq, SenderAt, Filled, ReceiverAt, Gather,
      WrOf, FrameOf, Recvs, WriteDones, Busy, WrIdOf, IsAckOf;
    CountSnoc(st.n.rcq, SendDone);
    assert (st.n.rcq + [SendDone])[..st.r.polled] == st.n.rcq[..st.r.polled];
  }

  // ---------------------------------------------------------------- receiver steps

  lemma WindowInv(st: St, a: Step)
    requires Inv(st) && Enabled(st, a) && (a.ExtendWindow? || a.OpenWindow?)
    ensures Inv(Apply(st, a))
  {
    hide Path, Window, Local, Remote, Marks, RecvRing, AckRing, Books, SendCq, SenderAt, Filled, Gather, WrOf,
      FrameOf, Recvs, WriteDones, Busy, WrIdOf, IsAckOf;
    if a.ExtendWindow? {
      RingNext(|st.n.rrq|);
      RecvRingPost(st.n.msgs, st.n.rbufs, st.n.rrq, st.n.rcq, Sends(st.n.delivered), |st.n.asq|);
    }
  }

  lemma RPollInv(st: St)
    requires Inv(st) && Enabled(st, RPoll)
    ensures Inv(Apply(st, RPoll))
  {
    hide Path, Window, Local, Remote, Marks, AckRing, Books, SendCq, SenderAt, Filled, Gather, WrOf, FrameOf,
      Recvs, WriteDones, Busy, WrIdOf, IsAckOf;
    CountTake(st.n.rcq, st.r.polled);
    CountMono(st.n.rcq, st.r.polled + 1, |st.n.rcq|);
    assert st.n.rcq[..|st.n.rcq|] == st.n.rcq;
  }

  lemma RConsumeInv(st: St)
    requires Inv(st) && Enabled(st, RConsume)
    ensures Inv(Apply(st, RConsume))
  {
    hide Path, Window, Local, Remote, Marks, AckRing, Books, SendCq, SenderAt, Filled, Gather, WrOf, FrameOf,
      Recvs, WriteDones, Busy, WrIdOf, IsAckOf;
    Chain(st);
    RingNext(st.r.consumed);
    assert st.n.rbufs[|st.n.asq| % RING] == DataReady(st.n.msgs[|st.n.asq|].slot);
  }

  lemma RInterpretInv(st: St)
    requires Inv(st) && Enabled(st, RInterpret)
    ensures Inv(Apply(st, RInterpret))
  {
    hide Path, Window, Local, AckRing, Books, SendCq, SenderAt, Filled, Gather, WrOf, FrameOf, Recvs,
      WriteDones, Busy, WrIdOf, IsAckOf;
    Chain(st);
    assert st.n.rmem[st.n.msgs[|st.n.asq|].slot] == st.n.msgs[|st.n.asq|].pkt;
  }

  lemma RRepostInv(st: St)
    requires Inv(st) && Enabled(st, RRepost)
    ensures Inv(Apply(st, RRepost))
  {
    hide Path, Window, Local, Remote, Marks, RecvRing, AckRing, Books, SendCq, SenderAt, Filled, Gather, WrOf,
      FrameOf, Recvs, WriteDones, Busy, WrIdOf, IsAckOf;
    RingNext(|st.n.rrq|);
    RecvRingPost(st.n.msgs, st.n.rbufs, st.n.rrq, st.n.rcq, Sends(st.n.delivered), |st.n.asq|);
  }

  lemma RAckInv(st: St)
    requires Inv(st) && Enabled(st, RAck)
    ensures Inv(Apply(st, RAck))
  {
    hide Path, Window, Local, Marks, RecvRing, AckRing, Books, SendCq, SenderAt, Filled, Gather, WrOf,
      FrameOf, Recvs, WriteDones, Busy, WrIdOf, IsAckOf;
    var n := st.n;
    AckAnswers(st);
    RecvRingAnswer(n.msgs, n.rbufs, n.rrq, n.rcq, Sends(n.delivered), |n.asq|);
    AckRingAnswer(n.msgs, n.sbufs, n.srq, n.scq, n.asq, n.aDelivered, st.s.consumed, AckFor(st.r, n.rbufs));
  }
}
