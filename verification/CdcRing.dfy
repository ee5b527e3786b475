/** The ring of CDC receive buffers: rdma_cdc_acquire_post_buf, rdma_cdc_consume_buf and
    the set-up in mr_create. */
module CdcRing {
  import opened Packets

  /** How both ring indices move. */
  function Advance(i: nat, slots: nat): nat
    requires slots > 0
  {
    (i + 1) % slots
  }

  /** Some buffer posted but not yet consumed is the one that would be posted next. */
  ghost predicate Clashes(consumed: nat, posted: nat, slots: nat)
    requires slots > 0
  {
    exists k :: consumed <= k < posted && k % slots == posted % slots
  }

  lemma ModGap(k: nat, n: nat, slots: nat)
    requires k < n && slots > 0 && k % slots == n % slots
    ensures n - k >= slots
  {
    var q, p := k / slots, n / slots;
    assert k == q * slots + k % slots && n == p * slots + n % slots;
    assert n - k == (p - q) * slots by { Distribute(p, q, slots); }
    if p <= q { NotPositive(p - q, slots); } else { AtLeastOne(p - q, slots); }
  }

  lemma Distribute(p: int, q: int, m: int)
    ensures p * m - q * m == (p - q) * m
  {
  }

  lemma NotPositive(d: int, m: nat)
    requires d <= 0
    ensures d * m <= 0
  {
  }

  lemma AtLeastOne(d: int, m: nat)
    requires d >= 1
    ensures d * m >= m
  {
  }

  lemma ModBack(n: nat, slots: nat)
    requires slots > 0 && n >= slots
    ensures (n - slots) % slots == n % slots
  {
    var q, r := n / slots, n % slots;
    assert n - slots == (q - 1) * slots + r by { Distribute(q, 1, slots); }
    Quotient(n - slots, q - 1, r, slots);
  }

  lemma Quotient(n: nat, q: int, r: nat, m: nat)
    requires m > 0 && r < m && n == q * m + r
    ensures n % m == r
  {
    var q', r' := n / m, n % m;
    assert (q - q') * m == r' - r by { Distribute(q, q', m); }
    if q > q' { AtLeastOne(q - q', m); } else if q < q' { AtLeastOne(q' - q, m); Distribute(q', q, m); }
  }

  /** The ring reposts a buffer that is still outstanding exactly if as many are
      outstanding as there are buffers. */
  lemma ClashIff(consumed: nat, posted: nat, slots: nat)
    requires slots > 0 && consumed <= posted
    ensures Clashes(consumed, posted, slots) <==> posted - consumed >= slots
  {
    if posted - consumed >= slots {
      ModBack(posted, slots);
      assert consumed <= posted - slots < posted;
    }
    if Clashes(consumed, posted, slots) {
      var k :| consumed <= k < posted && k % slots == posted % slots;
      ModGap(k, posted, slots);
    }
  }

  lemma NextIndex(k: nat, slots: nat)
    requires slots > 0
    ensures Advance(k % slots, slots) == (k + 1) % slots
  {
    var q, r := k / slots, k % slots;
    if r + 1 < slots {
      Quotient(k + 1, q, r + 1, slots);
    } else {
      assert k + 1 == (q + 1) * slots by { Distribute(q + 1, 1, slots); }
      Quotient(k + 1, q + 1, 0, slots);
    }
  }

  class Ring {
    // cdc_recv_bufs, cdc_recv_post_idx, cdc_recv_cons_idx, cdc_last_consumed
    const bufs: array<Cdc>
    var postIdx: nat
    var consIdx: nat
    var lastConsumed: nat
    ghost var posted: nat
    ghost var consumed: nat

    ghost predicate Valid()
      reads this
    {
      && bufs.Length > 0 && lastConsumed < bufs.Length
      && postIdx == posted % bufs.Length && consIdx == consumed % bufs.Length
    }

    /** mr_create: a table of zeroed buffers, both indices at its start. */
    constructor (slots: nat)
      requires slots > 0
      ensures Valid() && fresh(bufs) && bufs.Length == slots && posted == consumed == 0 && lastConsumed == 0
      ensures forall k :: 0 <= k < slots ==> bufs[k] == Cdc(0, false, false, false, 0)
    {
      bufs := new Cdc[slots](_ => Cdc(0, false, false, false, 0));
      postIdx, consIdx, lastConsumed, posted, consumed := 0, 0, 0, 0, 0;
    }

    /** The j-th buffer posted is the j-th of the rotation, and none that is
        outstanding as long as fewer are outstanding than there are. */
    method AcquirePostBuf() returns (buf: nat)
      requires Valid()
      modifies this`postIdx, this`posted
      ensures Valid() && posted == old(posted) + 1 && buf == old(posted) % bufs.Length
      ensures consumed <= old(posted) < consumed + bufs.Length ==>
        forall k :: consumed <= k < old(posted) ==> k % bufs.Length != buf
    {
      if consumed <= posted { ClashIff(consumed, posted, bufs.Length); }
      buf := postIdx;
      NextIndex(posted, bufs.Length);
      postIdx, posted := Advance(postIdx, bufs.Length), posted + 1;
    }

    /** The j-th buffer consumed is the j-th that was posted. */
    method ConsumeBuf() returns (buf: nat)
      requires Valid()
      modifies this`consIdx, this`consumed, this`lastConsumed
      ensures Valid() && consumed == old(consumed) + 1 && buf == old(consumed) % bufs.Length && lastConsumed == buf
    {
      buf := consIdx;
      NextIndex(consumed, bufs.Length);
      consIdx, consumed, lastConsumed := Advance(consIdx, bufs.Length), consumed + 1, buf;
    }
  }
}
