/** The event-driven wait of rdma_async_wait_completion: a completion queue and its
    notification channel, with the NIC inserting completions between any two steps
    of the waiting program. */
module Completions {
  import opened Packets
  import opened Invariant

  /** `inserted` completions have entered the queue and `polled` of them have left it.
      `events` notifications are readable on the channel; `gotten` have been read from
      it and `acked` of those acknowledged. */
  datatype Chan = Chan(inserted: nat, polled: nat, armed: bool, events: nat, gotten: nat, acked: nat)

  /** Inserting completions: an armed queue raises one event for the first of them
      and is then no longer armed. */
  function Insert(c: Chan, k: nat): Chan {
    if k == 0 then c
    else c.(inserted := c.inserted + k, events := if c.armed then c.events + 1 else c.events, armed := false)
  }

  function Poll(c: Chan, k: nat): Chan { c.(polled := c.polled + k) }

  /** ibv_req_notify_cq: only completions inserted from now on raise an event. */
  function Arm(c: Chan): Chan { c.(armed := true) }

  function GetEvent(c: Chan): Chan
    requires c.events > 0
  {
    c.(events := c.events - 1, gotten := c.gotten + 1)
  }

  function Ack(c: Chan, k: nat): Chan { c.(acked := c.acked + k) }

  predicate Empty(c: Chan) { c.polled == c.inserted }

  /** It is safe to sleep: a completion still in the queue has left an event, and
      with an empty queue the next completion will. An event means a completion. */
  predicate Sleepable(c: Chan) {
    c.polled <= c.inserted && if Empty(c) then c.armed && c.events == 0 else c.events > 0
  }

  /** A completion waits in the queue and nothing on the channel tells of it. */
  predicate LostIn(c: Chan) { !Empty(c) && c.events == 0 }

  /** The argument of the wait, from any mix of stale events and arming: drained of
      events, then armed, then found empty, it is safe to sleep, whatever the NIC
      inserts between these steps and after them. */
  lemma NoLostWakeup(c: Chan, beforeArm: nat, beforePoll: nat, asleep: nat)
    requires c.polled <= c.inserted && c.events == 0
    requires Empty(Insert(Arm(Insert(c, beforeArm)), beforePoll))
    ensures Sleepable(Insert(Insert(Arm(Insert(c, beforeArm)), beforePoll), asleep))
  {
  }

  /** A sleeper is woken exactly if a completion arrives. */
  lemma WokenIff(c: Chan, asleep: nat)
    requires Sleepable(c)
    ensures Sleepable(Insert(c, asleep))
    ensures Insert(c, asleep).events > 0 <==> !Empty(Insert(c, asleep))
  {
  }

  /** No step can be left out. Without the second poll, or without arming, the
      program sleeps on a completion no event tells of; without draining, it wakes
      up for nothing. */
  lemma EveryStepNeeded()
    ensures exists c: Chan, k :: Empty(c) && c.events == 0 && LostIn(Arm(Insert(c, k)))
    ensures exists c: Chan, k :: Empty(c) && c.events == 0 && LostIn(Insert(c, k))
    ensures exists c: Chan :: Empty(Arm(c)) && Arm(c).events > 0
  {
    var idle := Chan(0, 0, false, 0, 0, 0);
    assert Insert(idle, 1) == Chan(1, 0, false, 0, 0, 0);
    assert Empty(idle) && LostIn(Arm(Insert(idle, 1)));
    assert LostIn(Insert(idle, 1));
    var stale := Chan(0, 0, false, 1, 0, 0);
    assert Empty(Arm(stale)) && Arm(stale).events > 0;
  }

  function Concat(batches: seq<seq<Wc>>): seq<Wc> {
    if batches == [] then [] else Concat(batches[..|batches| - 1]) + batches[|batches| - 1]
  }

  lemma EmptyConcat()
    ensures Concat([]) == []
  {
  }

  lemma ConcatSnoc(batches: seq<seq<Wc>>, wc: seq<Wc>)
    ensures Concat(batches + [wc]) == Concat(batches) + wc
  {
    assert (batches + [wc])[..|batches|] == batches;
  }

  /** The next stretch of a sequence continues the one before. */
  lemma NextStretch(all: seq<Wc>, i: nat, j: nat, k: nat)
    requires i <= j <= k <= |all|
    ensures all[i..j] + all[j..k] == all[i..k]
  {
  }

  datatype Wakeup = Readable | TimedOut | Interrupted | Failed

  /** One epoll_wait: the state it was entered in, and how it ended. */
  datatype Wait = Wait(entered: Chan, outcome: Wakeup)

  /** A completion queue with its channel. `all` is everything the NIC will insert. */
  class Queue {
    const all: seq<Wc>
    var inserted: nat
    var polled: nat
    var armed: bool
    var events: nat
    var gotten: nat
    var acked: nat
    // history: what each ibv_poll_cq returned, and every epoll_wait
    ghost var polls: seq<seq<Wc>>
    ghost var waits: seq<Wait>

    function State(): Chan
      reads this
    {
      Chan(inserted, polled, armed, events, gotten, acked)
    }

    /** What has been polled is what was inserted first, each completion once. */
    predicate Valid()
      reads this
    {
      polled <= inserted <= |all|
    }

    function Polled(): seq<Wc>
      requires Valid()
      reads this
    {
      all[..polled]
    }

    constructor (all: seq<Wc>)
      ensures this.all == all && State() == Chan(0, 0, false, 0, 0, 0)
    {
      this.all := all;
      inserted, polled, armed, events, gotten, acked := 0, 0, false, 0, 0, 0;
      polls, waits := [], [];
    }

    /** The NIC inserts any number of the completions still to come. */
    method Nic() returns (ghost k: nat)
      requires Valid()
      modifies this`inserted, this`events, this`armed
      ensures Valid() && State() == Insert(old(State()), k)
    {
      k := 0;
      var n: int := *;
      while n > 0 && inserted < |all|
        invariant Valid() && State() == Insert(old(State()), k)
      {
        inserted, k := inserted + 1, k + 1;
        if armed { events, armed := events + 1, false; }
        n := n - 1;
      }
    }

    /** ibv_poll_cq: some of the oldest completions, none only if there are none. */
    method PollCq(maxWc: nat) returns (wc: seq<Wc>)
      requires Valid() && maxWc > 0
      modifies this`polled, this`polls
      ensures Valid() && State() == Poll(old(State()), |wc|) && |wc| <= maxWc && polls == old(polls) + [wc]
      ensures wc == all[old(polled)..polled] && Polled() == old(Polled()) + wc
      ensures wc == [] <==> old(Empty(State()))
    {
      var k: int := *;
      if k > maxWc { k := maxWc; }
      if k > inserted - polled { k := inserted - polled; }
      if k <= 0 { k := if polled < inserted then 1 else 0; }
      wc := all[polled..polled + k];
      polled, polls := polled + k, polls + [wc];
    }

    /** ibv_get_cq_event on the non-blocking channel. */
    method GetCqEvent() returns (ok: bool)
      modifies this`events, this`gotten
      ensures ok == (old(events) > 0)
      ensures State() == if ok then GetEvent(old(State())) else old(State())
    {
      ok := events > 0;
      if ok { events, gotten := events - 1, gotten + 1; }
    }

    method AckCqEvents(k: nat)
      modifies this`acked
      ensures State() == Ack(old(State()), k)
    {
      acked := acked + k;
    }

    method ReqNotify()
      modifies this`armed
      ensures State() == Arm(old(State()))
    {
      armed := true;
    }

    /** Read and acknowledge every stale event. The loop ends although the NIC goes
        on: an event raised meanwhile uses up the arming. */
    method DrainEvents()
      requires Valid() && gotten == acked
      modifies this`inserted, this`events, this`armed, this`gotten, this`acked
      ensures Valid() && gotten == acked && events == 0
      ensures gotten + events + (if armed then 1 else 0) == old(gotten + events + if armed then 1 else 0)
      ensures inserted >= old(inserted)
    {
      var drained := 0;
      var got := GetCqEvent();
      while got
        invariant Valid() && gotten == acked + drained + (if got then 1 else 0) && (got || events == 0)
        invariant gotten + events + (if armed then 1 else 0) == old(gotten + events + if armed then 1 else 0)
        invariant inserted >= old(inserted)
        decreases events + (if armed then 1 else 0), got
      {
        drained := drained + 1;
        var _ := Nic();
        got := GetCqEvent();
      }
      if drained > 0 { AckCqEvents(drained); }
    }

    /** epoll_wait: readable if there is an event, timed out only if there is none. It must
        be safe to sleep. */
    method EpollWait() returns (w: Wakeup)
      requires Valid() && Sleepable(State())
      modifies this`inserted, this`events, this`armed, this`waits
      ensures Valid() && Sleepable(State()) && inserted >= old(inserted)
      ensures waits == old(waits) + [Wait(old(State()), w)]
      ensures w.Readable? ==> events > 0
      ensures w.TimedOut? ==> events == 0
    {
      ghost var c := State();
      ghost var k := Nic();
      WokenIff(c, k);
      w := *;
      if w.Readable? && events == 0 { w := TimedOut; }
      if w.TimedOut? && events > 0 { w := Readable; }
      waits := waits + [Wait(c, w)];
    }

    /** Steps 2 and 3: drain, then arm, with the NIC inserting in between. */
    method DrainAndArm()
      requires Valid() && gotten == acked
      modifies this`inserted, this`events, this`armed, this`gotten, this`acked
      ensures Valid() && gotten == acked && inserted >= old(inserted) && armed
      ensures Empty(State()) ==> Sleepable(State())
    {
      DrainEvents();
      ghost var c := State();
      ghost var k := Nic();
      ReqNotify();
      if Empty(Arm(Insert(c, k))) { NoLostWakeup(c, k, 0, 0); }
    }

    /** Step 4: the second poll. If it finds nothing either, it is safe to sleep. */
    method SecondPoll(maxWc: nat) returns (wc: seq<Wc>)
      requires Valid() && gotten == acked && maxWc > 0
      modifies this`inserted, this`events, this`armed, this`gotten, this`acked, this`polled, this`polls
      ensures Valid() && gotten == acked && (armed || events > 0)
      ensures |wc| <= maxWc && polled == old(polled) + |wc| && wc == all[old(polled)..polled]
      ensures polls == old(polls) + [wc]
      ensures wc == [] ==> Empty(State()) && Sleepable(State())
    {
      DrainAndArm();
      ghost var c := State();
      ghost var k := Nic();
      wc := PollCq(maxWc);
      if wc == [] { StillSleepable(c, k); }
    }

    /** Steps 6 and 7, after epoll_wait reported the channel readable. The event is
        there, so ibv_get_cq_event does not fail, and the poll finds a completion. */
    method TakeEvent(maxWc: nat) returns (wc: seq<Wc>)
      requires Valid() && gotten == acked && maxWc > 0 && events > 0 && !Empty(State())
      modifies this
      ensures Valid() && gotten == acked == old(gotten) + 1 && 0 < |wc| <= maxWc
      ensures polled == old(polled) + |wc| && wc == all[old(polled)..polled]
      ensures armed || events > 0
      ensures polls == old(polls) + [wc] && waits == old(waits)
    {
      var ok := GetCqEvent();
      assert ok;
      AckCqEvents(1);
      var _ := Nic();
      ReqNotify();
      var _ := Nic();
      wc := PollCq(maxWc);
    }

    /** What happened between two moments of the history: `wc` came from the first poll;
        or from the second, after an empty first one; or both were empty, and exactly one
        wait was entered, with the queue empty and safe to sleep. That wait ended as `why`
        says; if it ended readable, a third poll returned `wc`, which is not empty. */
    ghost predicate Outcome(polls0: seq<seq<Wc>>, waits0: seq<Wait>, taken: nat, wc: seq<Wc>, why: Wakeup)
      reads this
    {
      if |waits| == |waits0| then
        waits == waits0 && wc != [] && why.Readable? && (polls == polls0 + [wc] || polls == polls0 + [[], wc])
      else
        && |waits| == |waits0| + 1 && waits[..|waits0|] == waits0
        && waits[|waits0|].outcome == why && Sleepable(waits[|waits0|].entered) && Empty(waits[|waits0|].entered)
        && waits[|waits0|].entered.polled == taken
        && polls == polls0 + [[], []] + (if why.Readable? then [wc] else [])
        && (why.Readable? <==> wc != [])
    }

    /** rdma_async_wait_completion. The completions returned are the oldest not yet
        returned; events read equal events acknowledged; the program sleeps only when
        it is safe to, and a result of no completions means that one wait was entered
        and timed out with an empty queue, was interrupted or failed. */
    method AsyncWaitCompletion(maxWc: nat) returns (wc: seq<Wc>, ne: int, why: Wakeup)
      requires Valid() && gotten == acked && maxWc > 0
      modifies this
      ensures Valid() && gotten == acked
      ensures |wc| <= maxWc && polled == old(polled) + |wc| && wc == all[old(polled)..polled]
      ensures ne == if why.Failed? then -1 else |wc|
      ensures old(polled < inserted) ==> ne > 0
      ensures ne == 0 ==> why.TimedOut? || why.Interrupted?
      ensures why.TimedOut? ==> polled == inserted && armed
      ensures Outcome(old(polls), old(waits), old(polled), wc, why)
      ensures |polls| > old(|polls|) + 1 ==> armed || events > 0
    {
      var _ := Nic();
      why := Readable;
      wc := PollCq(maxWc);
      if wc != [] { return wc, |wc|, why; }
      var _ := Nic();
      wc := SecondPoll(maxWc);
      if wc != [] { return wc, |wc|, why; }
      why := EpollWait();
      match why
      case Failed => ne := -1;
      case Interrupted => ne := 0;
      case TimedOut => ne := 0;
      case Readable =>
        wc := TakeEvent(maxWc);
        ne := |wc|;
    }

    /** Any number of waits in a row: the batches, put together, are the completions
        inserted, in order, none dropped and none repeated. */
    method Batches(times: nat, maxWc: nat) returns (batches: seq<seq<Wc>>)
      requires Valid() && gotten == acked && maxWc > 0
      modifies this
      ensures Valid() && gotten == acked && |batches| == times
      ensures polled >= old(polled) && Concat(batches) == all[old(polled)..polled]
    {
      hide Concat, Outcome;
      batches := [];
      assert Concat(batches) == [] by { EmptyConcat(); }
      ghost var start := polled;
      while |batches| < times
        invariant Valid() && gotten == acked && |batches| <= times
        invariant polled >= start && Concat(batches) == all[start..polled]
      {
        ghost var before := polled;
        var wc, _, _ := AsyncWaitCompletion(maxWc);
        ConcatSnoc(batches, wc);
        NextStretch(all, start, before, polled);
        batches := batches + [wc];
      }
    }

    /** rdma_cdc_completion: single polls until a RECV comes out. It succeeds exactly
        if one is still to come, and takes exactly one. */
    method CdcCompletion() returns (ok: bool)
      requires Valid()
      modifies this`inserted, this`events, this`armed, this`polled, this`polls
      ensures Valid() && polled >= old(polled)
      ensures ok <==> exists i :: old(polled) <= i < |all| && all[i].Recv?
      ensures Recvs(Polled()) == Recvs(old(Polled())) + if ok then 1 else 0
      ensures ok ==> all[polled - 1].Recv?
    {
      hide Recvs;
      ok := false;
      while !ok && (polled < inserted || inserted < |all|)
        invariant Valid() && polled >= old(polled)
        invariant ok ==> polled > old(polled) && all[polled - 1].Recv?
        invariant !ok ==> forall i :: old(polled) <= i < polled ==> !all[i].Recv?
        invariant Recvs(Polled()) == Recvs(old(Polled())) + if ok then 1 else 0
        decreases |all| - polled, |all| - inserted
      {
        var _ := Nic();
        if polled == inserted {
          // nothing yet: the program polls again until the NIC has moved
          inserted := inserted + 1;
          if armed { events, armed := events + 1, false; }
        } else {
          CountTake(all, polled);
          var wc := PollCq(1);
          ok := wc[0].Recv?;
        }
      }
    }
  }

  /** Armed and found empty, nothing has come since. */
  lemma StillSleepable(c: Chan, k: nat)
    requires c.polled <= c.inserted && (Empty(c) ==> Sleepable(c)) && Empty(Insert(c, k))
    ensures Sleepable(Insert(c, k))
  {
  }
}
