/** scp_calc_checksum: the bitwise CRC-32, its loop, and what it detects. */
module Crc32 {
  const ONES: bv32 := 0xFFFF_FFFF

  /** One bit step, in the branchless form of the source. */
  function Step(c: bv32): bv32 { (c >> 1) ^ (0xEDB8_8320 & (0 - (c & 1))) }

  function Bits(c: bv32, k: nat): bv32
    decreases k
  {
    if k == 0 then c else Bits(Step(c), k - 1)
  }

  function Xor(a: bv32, b: bv32): bv32 { a ^ b }

  function Absorb(c: bv32, b: bv8): bv32 { Bits(Xor(c, b as bv32), 8) }

  function Run(c: bv32, data: seq<bv8>): bv32
    decreases |data|
  {
    if data == [] then c else Run(Absorb(c, data[0]), data[1..])
  }

  function Flip(c: bv32): bv32 { !c }

  function Crc(data: seq<bv8>): bv32 { Flip(Run(ONES, data)) }

  lemma {:induction false} RunAppend(c: bv32, a: seq<bv8>, b: seq<bv8>)
    ensures Run(c, a + b) == Run(Run(c, a), b)
    decreases |a|
  {
    if a == [] {
      assert a + b == b;
    } else {
      assert (a + b)[1..] == a[1..] + b;
      RunAppend(Absorb(c, a[0]), a[1..], b);
    }
  }

  lemma RunSnoc(c: bv32, data: seq<bv8>, i: nat)
    requires i < |data|
    ensures Run(c, data[..i + 1]) == Absorb(Run(c, data[..i]), data[i])
  {
    hide Absorb;
    assert data[..i + 1] == data[..i] + [data[i]];
    RunAppend(c, data[..i], [data[i]]);
    assert [data[i]][1..] == [];
  }

  /** The loop of scp_calc_checksum. */
  method Checksum(data: array<bv8>) returns (r: bv32)
    ensures r == Crc(data[..])
  {
    hide Step, Bits, Absorb;
    var crc: bv32 := ONES;
    for i := 0 to data.Length
      invariant crc == Run(ONES, data[..i])
    {
      RunSnoc(ONES, data[..], i);
      assert data[..][..i + 1] == data[..i + 1] && data[..][..i] == data[..i];
      crc := EightBits(crc, data[i]);
    }
    assert data[..data.Length] == data[..];
    r := !crc;
  }

  /** Its inner loop. */
  method EightBits(was: bv32, b: bv8) returns (crc: bv32)
    ensures crc == Absorb(was, b)
  {
    crc := was ^ (b as bv32);
    var j := 0;
    while j < 8
      invariant 0 <= j <= 8
      invariant Bits(crc, 8 - j) == Absorb(was, b)
    {
      crc := (crc >> 1) ^ (0xEDB8_8320 & (0 - (crc & 1)));
      j := j + 1;
    }
  }

  // ---------------------------------------------------------------- bijection and linearity

  /** The bit step as section 8 of RFC 1952 writes it. */
  function StepIf(c: bv32): bv32 { if Odd(c) then Xor(Half(c), Poly()) else Half(c) }

  function Poly(): bv32 { 0xEDB8_8320 }

  predicate Odd(c: bv32) { c & 1 != 0 }

  function Half(c: bv32): bv32 { c >> 1 }

  lemma HalfXor(a: bv32, b: bv32)
    ensures Half(Xor(a, b)) == Xor(Half(a), Half(b)) && Odd(Xor(a, b)) == (Odd(a) != Odd(b))
  {
  }

  lemma XorAssoc(x: bv32, y: bv32, p: bv32)
    ensures Xor(Xor(x, y), p) == Xor(x, Xor(y, p))
  {
  }

  lemma XorComm(x: bv32, y: bv32)
    ensures Xor(x, y) == Xor(y, x)
  {
  }

  lemma XorSelf(p: bv32, y: bv32)
    ensures Xor(p, p) == 0 && Xor(0, y) == y
  {
  }

  lemma XorSwap(x: bv32, y: bv32, p: bv32)
    ensures Xor(Xor(x, y), p) == Xor(Xor(x, p), y)
  {
    hide Xor;
    XorAssoc(x, y, p);
    XorAssoc(x, p, y);
    XorComm(y, p);
  }

  lemma XorTwice(x: bv32, y: bv32, p: bv32)
    ensures Xor(Xor(x, p), Xor(y, p)) == Xor(x, y)
  {
    hide Xor;
    XorAssoc(x, p, Xor(y, p));
    XorComm(y, p);
    XorAssoc(p, p, y);
    XorSelf(p, y);
  }

  lemma StepForms(c: bv32)
    ensures Step(c) == StepIf(c)
  {
  }

  /** The bit step can be undone: the top bit tells whether the polynomial was added. */
  function Unstep(c: bv32): bv32 {
    if c & 0x8000_0000 == 0 then c << 1 else ((c ^ 0xEDB8_8320) << 1) | 1
  }

  lemma UnstepStep(c: bv32)
    ensures Unstep(StepIf(c)) == c
  {
  }

  lemma TopClear(c: bv32)
    requires c & 0x8000_0000 == 0
    ensures (c << 1) & 1 == 0 && (c << 1) >> 1 == c
    ensures ((c << 1) | 1) & 1 == 1 && ((c << 1) | 1) >> 1 == c
  {
  }

  lemma TopSet(c: bv32)
    requires c & 0x8000_0000 != 0
    ensures (c ^ 0xEDB8_8320) & 0x8000_0000 == 0 && (c ^ 0xEDB8_8320) ^ 0xEDB8_8320 == c
  {
  }

  lemma StepUnstep(c: bv32)
    ensures StepIf(Unstep(c)) == c
  {
    if c & 0x8000_0000 == 0 {
      TopClear(c);
    } else {
      TopSet(c);
      TopClear(c ^ 0xEDB8_8320);
    }
  }

  lemma StepBijective(c: bv32)
    ensures Unstep(Step(c)) == c && Step(Unstep(c)) == c
  {
    StepForms(c);
    StepForms(Unstep(c));
    hide Step, StepIf, Unstep;
    UnstepStep(c);
    StepUnstep(c);
  }

  lemma StepIfLinear(a: bv32, b: bv32)
    ensures StepIf(Xor(a, b)) == Xor(StepIf(a), StepIf(b))
  {
    hide Xor, Odd, Half, Poly;
    HalfXor(a, b);
    XorSwap(Half(a), Half(b), Poly());
    XorAssoc(Half(a), Half(b), Poly());
    XorTwice(Half(a), Half(b), Poly());
  }

  lemma StepLinear(a: bv32, b: bv32)
    ensures Step(Xor(a, b)) == Xor(Step(a), Step(b))
  {
    hide Step, StepIf, Xor;
    StepForms(a);
    StepForms(b);
    StepForms(Xor(a, b));
    StepIfLinear(a, b);
  }

  lemma {:induction false} BitsInjective(a: bv32, b: bv32, k: nat)
    requires a != b
    ensures Bits(a, k) != Bits(b, k)
    decreases k
  {
    hide Step, Unstep;
    if k > 0 {
      StepBijective(a);
      StepBijective(b);
      BitsInjective(Step(a), Step(b), k - 1);
    }
  }

  lemma {:induction false} BitsLinear(a: bv32, b: bv32, k: nat)
    ensures Bits(Xor(a, b), k) == Xor(Bits(a, k), Bits(b, k))
    decreases k
  {
    hide Step, Xor;
    if k > 0 {
      StepLinear(a, b);
      BitsLinear(Step(a), Step(b), k - 1);
    }
  }

  lemma XorCancels(a: bv32, b: bv32, c: bv32)
    requires a != b
    ensures Xor(a, c) != Xor(b, c)
  {
  }

  /** From different states the same bytes lead to different states. */
  lemma {:induction false} RunInjective(a: bv32, b: bv32, data: seq<bv8>)
    requires a != b
    ensures Run(a, data) != Run(b, data)
    decreases |data|
  {
    hide Bits, Xor;
    if data != [] {
      XorCancels(a, b, data[0] as bv32);
      BitsInjective(Xor(a, data[0] as bv32), Xor(b, data[0] as bv32), 8);
      RunInjective(Absorb(a, data[0]), Absorb(b, data[0]), data[1..]);
    }
  }

  // ---------------------------------------------------------------- shifts

  function Double(c: bv32): bv32 { c << 1 }

  predicate TopBit(c: bv32) { c & 0x8000_0000 != 0 }

  lemma ShiftOutHalf(x: bv32, y: bv32)
    requires !TopBit(y)
    ensures Half(Xor(x, Double(y))) == Xor(Half(x), y)
  {
  }

  lemma ShiftOutBit(x: bv32, y: bv32)
    ensures Odd(Xor(x, Double(y))) == Odd(x)
  {
  }

  /** What stands above the bit being shifted out only moves down. */
  lemma StepShift(x: bv32, y: bv32)
    requires !TopBit(y)
    ensures Step(Xor(x, Double(y))) == Xor(Step(x), y)
  {
    hide Step, Xor, Odd, Half, Poly, Double, TopBit;
    StepForms(x);
    StepForms(Xor(x, Double(y)));
    ShiftOutHalf(x, y);
    ShiftOutBit(x, y);
    XorSwap(Half(x), y, Poly());
  }

  function Up(y: bv32, k: nat): bv32 {
    if k == 0 then y else Double(Up(y, k - 1))
  }

  /** The `k` topmost bits of `y` are clear. */
  predicate Clear(y: bv32, k: nat) {
    k == 0 || (Clear(y, k - 1) && !TopBit(Up(y, k - 1)))
  }

  /** Processing `k` bits below what stands above them. */
  lemma {:induction false} BitsShift(x: bv32, y: bv32, k: nat)
    requires Clear(y, k)
    ensures Bits(Xor(x, Up(y, k)), k) == Xor(Bits(x, k), y)
    decreases k
  {
    hide Step, Xor, Double, TopBit;
    if k > 0 {
      StepShift(x, Up(y, k - 1));
      BitsShift(Step(x), y, k - 1);
    }
  }

  // ---------------------------------------------------------------- bytes

  lemma Doubles(y: bv32)
    ensures Double(y) == y << 1 && Double(y << 1) == y << 2 && Double(y << 2) == y << 3 && Double(y << 3) == y << 4
    ensures Double(y << 4) == y << 5 && Double(y << 5) == y << 6 && Double(y << 6) == y << 7
    ensures Double(y << 7) == y << 8
  {
  }

  lemma TopByteClear(y: bv32)
    requires y & 0xFF00_0000 == 0
    ensures !TopBit(y) && !TopBit(y << 1) && !TopBit(y << 2) && !TopBit(y << 3)
    ensures !TopBit(y << 4) && !TopBit(y << 5) && !TopBit(y << 6) && !TopBit(y << 7)
  {
  }

  /** With the top byte clear, `y` moves up by a byte without loss. */
  lemma UpByte(y: bv32)
    ensures Up(y, 8) == y << 8
    ensures y & 0xFF00_0000 == 0 ==> Clear(y, 8)
  {
    hide Up, Double, TopBit;
    UpShifts(y);
    if y & 0xFF00_0000 == 0 {
      TopByteClear(y);
      hide Clear;
      NoneClear(y);
      ClearMore(y, 1);
      ClearMore(y, 2);
      ClearMore(y, 3);
      ClearMore(y, 4);
      ClearMore(y, 5);
      ClearMore(y, 6);
      ClearMore(y, 7);
      ClearMore(y, 8);
    }
  }

  lemma UpShifts(y: bv32)
    ensures Up(y, 0) == y && Up(y, 1) == y << 1 && Up(y, 2) == y << 2 && Up(y, 3) == y << 3 && Up(y, 4) == y << 4
    ensures Up(y, 5) == y << 5 && Up(y, 6) == y << 6 && Up(y, 7) == y << 7 && Up(y, 8) == y << 8
  {
    hide Up, Double;
    Doubles(y);
    UpMore(y, 1);
    UpMore(y, 2);
    UpMore(y, 3);
    UpMore(y, 4);
    UpMore(y, 5);
    UpMore(y, 6);
    UpMore(y, 7);
    UpMore(y, 8);
  }

  lemma UpMore(y: bv32, k: nat)
    requires k > 0
    ensures Up(y, k) == Double(Up(y, k - 1)) && Up(y, 0) == y
  {
    hide Double;
  }

  lemma NoneClear(y: bv32)
    ensures Clear(y, 0)
  {
  }

  lemma ClearMore(y: bv32, k: nat)
    requires k > 0 && Clear(y, k - 1) && !TopBit(Up(y, k - 1))
    ensures Clear(y, k)
  {
    hide Up, TopBit;
  }

  // ---------------------------------------------------------------- table form

  /** The table of section 8 of RFC 1952: eight bit steps on a single byte. */
  function TableBits(c: bv32, k: nat): bv32
    decreases k
  {
    if k == 0 then c else TableBits(StepIf(c), k - 1)
  }

  function Low(c: bv32): bv32 { c & 0xFF }

  function High(c: bv32): bv32 { c >> 8 }

  function TableStep(c: bv32, b: bv8): bv32 {
    Xor(TableBits(Low(Xor(c, b as bv32)), 8), High(c))
  }

  function TableRun(c: bv32, data: seq<bv8>): bv32
    decreases |data|
  {
    if data == [] then c else TableRun(TableStep(c, data[0]), data[1..])
  }

  function TableCrc(data: seq<bv8>): bv32 { Xor(TableRun(ONES, data), ONES) }

  lemma {:induction false} TableBitsSame(c: bv32, k: nat)
    ensures TableBits(c, k) == Bits(c, k)
    decreases k
  {
    hide Step, StepIf;
    if k > 0 {
      StepForms(c);
      TableBitsSame(Step(c), k - 1);
    }
  }

  lemma SplitByte(x: bv32)
    ensures Xor(Low(x), High(x) << 8) == x
  {
  }

  lemma HighClear(x: bv32)
    ensures High(x) & 0xFF00_0000 == 0
  {
  }

  lemma ByteIsLow(c: bv32, b: bv8)
    ensures High(Xor(c, b as bv32)) == High(c)
  {
  }

  /** One table look-up does the work of eight bit steps. */
  lemma TableStepSame(c: bv32, b: bv8)
    ensures TableStep(c, b) == Absorb(c, b)
  {
    hide Bits, TableBits, Xor, Up, Clear, Low, High;
    var x := Xor(c, b as bv32);
    SplitByte(x);
    ByteIsLow(c, b);
    HighClear(x);
    UpByte(High(x));
    BitsShift(Low(x), High(x), 8);
    TableBitsSame(Low(x), 8);
  }

  lemma {:induction false} TableRunSame(c: bv32, data: seq<bv8>)
    ensures TableRun(c, data) == Run(c, data)
    decreases |data|
  {
    hide TableStep, Absorb;
    if data != [] {
      TableStepSame(c, data[0]);
      TableRunSame(Absorb(c, data[0]), data[1..]);
    }
  }

  lemma Complement(c: bv32)
    ensures Xor(c, ONES) == Flip(c)
  {
  }

  /** The table-driven CRC of RFC 1952 gives the same checksum for every buffer. */
  lemma TableAgrees(data: seq<bv8>)
    ensures TableCrc(data) == Crc(data)
  {
    hide TableRun, Run, Xor, Flip;
    TableRunSame(ONES, data);
    Complement(Run(ONES, data));
  }

  // ---------------------------------------------------------------- concatenation and affinity

  /** A checksum can be continued over a second buffer from the first one's result. */
  lemma CrcAppend(a: seq<bv8>, b: seq<bv8>)
    ensures Crc(a + b) == Flip(Run(Flip(Crc(a)), b))
  {
    hide Run, Flip;
    RunAppend(ONES, a, b);
    Twice(Run(ONES, a));
  }

  lemma Twice(c: bv32)
    ensures Flip(Flip(c)) == c
  {
  }

  function Xor8(a: bv8, b: bv8): bv8 { a ^ b }

  function XorAll(a: seq<bv8>, b: seq<bv8>): (r: seq<bv8>)
    requires |a| == |b|
    ensures |r| == |a|
  {
    if a == [] then [] else [Xor8(a[0], b[0])] + XorAll(a[1..], b[1..])
  }

  lemma Widen(a: bv8, b: bv8)
    ensures Xor8(a, b) as bv32 == Xor(a as bv32, b as bv32)
  {
  }

  lemma XorFour(a: bv32, b: bv32, c: bv32, d: bv32)
    ensures Xor(Xor(a, b), Xor(c, d)) == Xor(Xor(a, c), Xor(b, d))
  {
    hide Xor;
    XorAssoc(Xor(a, b), c, d);
    XorSwap(a, b, c);
    XorAssoc(Xor(a, c), b, d);
  }

  lemma {:induction false} RunLinear(s: bv32, t: bv32, a: seq<bv8>, b: seq<bv8>)
    requires |a| == |b|
    ensures Run(Xor(s, t), XorAll(a, b)) == Xor(Run(s, a), Run(t, b))
    decreases |a|
  {
    hide Bits, Xor, Xor8;
    if a != [] {
      var x, y := a[0] as bv32, b[0] as bv32;
      Widen(a[0], b[0]);
      XorFour(s, t, x, y);
      BitsLinear(Xor(s, x), Xor(t, y), 8);
      var ab := XorAll(a, b);
      assert ab[0] == Xor8(a[0], b[0]) && ab[1..] == XorAll(a[1..], b[1..]);
      RunLinear(Absorb(s, a[0]), Absorb(t, b[0]), a[1..], b[1..]);
    }
  }

  lemma ThreeOnes()
    ensures Xor(Xor(ONES, ONES), ONES) == ONES
  {
  }

  lemma ThreeComplements(a: bv32, b: bv32, c: bv32)
    ensures Flip(Xor(Xor(a, b), c)) == Xor(Xor(Flip(a), Flip(b)), Flip(c))
  {
  }

  /** The checksum is affine over buffers of one length. */
  lemma CrcAffine(a: seq<bv8>, b: seq<bv8>, c: seq<bv8>)
    requires |a| == |b| == |c|
    ensures Crc(XorAll(XorAll(a, b), c)) == Xor(Xor(Crc(a), Crc(b)), Crc(c))
  {
    var x, y, z := Run(ONES, a), Run(ONES, b), Run(ONES, c);
    hide Run, XorAll, Xor, Flip;
    RunLinear(ONES, ONES, a, b);
    RunLinear(Xor(ONES, ONES), ONES, XorAll(a, b), c);
    ThreeOnes();
    assert Run(ONES, XorAll(XorAll(a, b), c)) == Xor(Xor(x, y), z);
    ThreeComplements(x, y, z);
  }

  // ---------------------------------------------------------------- bursts

  /** The bytes of a buffer as one number, the first byte lowest. */
  function Word(data: seq<bv8>): bv32
    decreases |data|
  {
    if data == [] then 0 else Put(data[0], Word(data[1..]))
  }

  function Put(b: bv8, above: bv32): bv32 { Xor(b as bv32, above << 8) }

  /** `y` takes no more than `n` bytes. */
  predicate Within(y: bv32, n: nat) {
    if n == 0 then y == 0
    else if n == 1 then y & 0xFFFF_FF00 == 0
    else if n == 2 then y & 0xFFFF_0000 == 0
    else if n == 3 then y & 0xFF00_0000 == 0
    else true
  }

  lemma PutWithin(b: bv8, y: bv32, n: nat)
    requires Within(y, n)
    ensures Within(Put(b, y), n + 1)
  {
  }

  lemma {:induction false} WordWithin(data: seq<bv8>)
    ensures Within(Word(data), |data|)
    decreases |data|
  {
    if data != [] {
      WordWithin(data[1..]);
      hide Within, Put;
      PutWithin(data[0], Word(data[1..]), |data| - 1);
    }
  }

  lemma WithinTwo(y: bv32)
    ensures y & 0xFFFF_FF00 == 0 ==> y & 0xFF00_0000 == 0
    ensures y & 0xFFFF_0000 == 0 ==> y & 0xFF00_0000 == 0
  {
  }

  lemma WithinThree(y: bv32, n: nat)
    requires Within(y, n) && n <= 3
    ensures y & 0xFF00_0000 == 0
  {
    if n == 0 { assert (0 as bv32) & 0xFF00_0000 == 0; } else { WithinTwo(y); }
  }

  lemma PutInjective(a: bv8, b: bv8, y: bv32, z: bv32)
    requires y & 0xFF00_0000 == 0 && z & 0xFF00_0000 == 0
    requires Put(a, y) == Put(b, z)
    ensures a == b && y == z
  {
  }

  /** Up to four bytes fit into the state without loss. */
  lemma {:induction false} WordInjective(a: seq<bv8>, b: seq<bv8>)
    requires |a| == |b| <= 4 && a != b
    ensures Word(a) != Word(b)
    decreases |a|
  {
    hide Put, Within;
    if Word(a) == Word(b) {
      WordWithin(a[1..]);
      WordWithin(b[1..]);
      WithinThree(Word(a[1..]), |a| - 1);
      WithinThree(Word(b[1..]), |b| - 1);
      PutInjective(a[0], b[0], Word(a[1..]), Word(b[1..]));
      assert a == [a[0]] + a[1..] && b == [b[0]] + b[1..];
      WordInjective(a[1..], b[1..]);
    }
  }

  lemma {:induction false} BitsAdd(c: bv32, j: nat, k: nat)
    ensures Bits(Bits(c, j), k) == Bits(c, j + k)
    decreases j
  {
    hide Step;
    if j > 0 { BitsAdd(Step(c), j - 1, k); }
  }

  lemma PutUp(c: bv32, b: bv8, y: bv32)
    ensures Xor(Xor(c, b as bv32), y << 8) == Xor(c, Put(b, y))
  {
    hide Xor;
    XorAssoc(c, b as bv32, y << 8);
  }

  /** Up to four bytes act on the state like one number added to it at the start. */
  lemma {:induction false} WordRun(c: bv32, data: seq<bv8>)
    requires |data| <= 4
    ensures Run(c, data) == Bits(Xor(c, Word(data)), 8 * |data|)
    decreases |data|
  {
    hide Bits, Put, Within, Up, Clear, Xor;
    if data == [] {
      XorSelf(c, c);
      XorComm(c, 0);
      NoBits(c);
    } else {
      var rest := Word(data[1..]);
      WordWithin(data[1..]);
      WithinThree(rest, |data| - 1);
      WordRun(Absorb(c, data[0]), data[1..]);
      UpByte(rest);
      BitsShift(Xor(c, data[0] as bv32), rest, 8);
      PutUp(c, data[0], rest);
      BitsAdd(Xor(c, Word(data)), 8, 8 * (|data| - 1));
    }
  }

  lemma NoBits(c: bv32)
    ensures Bits(c, 0) == c
  {
  }

  lemma Different(a: bv32, b: bv32)
    requires a != b
    ensures Flip(a) != Flip(b)
  {
    hide Flip;
    Twice(a);
    Twice(b);
  }

  /** Two buffers that differ in a stretch of at most four bytes. */
  lemma StretchDetected(before: seq<bv8>, a: seq<bv8>, b: seq<bv8>, after: seq<bv8>)
    requires |a| == |b| <= 4 && a != b
    ensures Crc(before + a + after) != Crc(before + b + after)
  {
    hide Run, Bits, Xor, Word, Flip;
    var s := Run(ONES, before);
    RunAppend(ONES, before + a, after);
    RunAppend(ONES, before + b, after);
    RunAppend(ONES, before, a);
    RunAppend(ONES, before, b);
    WordRun(s, a);
    WordRun(s, b);
    WordInjective(a, b);
    XorCancels(Word(a), Word(b), s);
    XorComm(Word(a), s);
    XorComm(Word(b), s);
    BitsInjective(Xor(s, Word(a)), Xor(s, Word(b)), 8 * |a|);
    RunInjective(Run(s, a), Run(s, b), after);
    Different(Run(ONES, before + a + after), Run(ONES, before + b + after));
  }

  lemma SameAround(x: seq<bv8>, y: seq<bv8>, i: nat, j: nat)
    requires i <= j <= |x| == |y| && forall k :: 0 <= k < |x| && !(i <= k < j) ==> x[k] == y[k]
    ensures x[..i] == y[..i] && x[j..] == y[j..]
  {
  }

  lemma DiffersWithin(x: seq<bv8>, y: seq<bv8>, i: nat, j: nat, d: nat)
    requires i <= d < j <= |x| == |y| && x[d] != y[d]
    ensures x[i..j] != y[i..j]
  {
    assert x[i..j][d - i] == x[d] && y[i..j][d - i] == y[d];
  }

  lemma InThree(s: seq<bv8>, i: nat, j: nat)
    requires i <= j <= |s|
    ensures s == s[..i] + s[i..j] + s[j..]
  {
  }

  /** Burst detection: buffers of equal length that differ, and differ only within
      four consecutive bytes, have different checksums. */
  lemma BurstDetected(x: seq<bv8>, y: seq<bv8>, i: nat)
    requires |x| == |y| && x != y
    requires forall k :: 0 <= k < |x| && !(i <= k < i + 4) ==> x[k] == y[k]
    ensures Crc(x) != Crc(y)
  {
    hide Crc;
    var d :| 0 <= d < |x| && x[d] != y[d];
    var j := if i + 4 <= |x| then i + 4 else |x|;
    InThree(x, i, j);
    InThree(y, i, j);
    SameAround(x, y, i, j);
    DiffersWithin(x, y, i, j, d);
    StretchDetected(x[..i], x[i..j], y[i..j], x[j..]);
  }

  lemma FiveDigits()
    ensures Run(ONES, [0x31, 0x32, 0x33, 0x34, 0x35]) == 0x340A_C5E3
  {
  }

  lemma FourDigits()
    ensures Run(0x340A_C5E3, [0x36, 0x37, 0x38, 0x39]) == 0x340B_C6D9 && Flip(0x340B_C6D9) == 0xCBF4_3926
  {
  }

  /** The check value of CRC-32, for the digits 1 to 9. */
  lemma CheckValue()
    ensures Crc([0x31, 0x32, 0x33, 0x34, 0x35, 0x36, 0x37, 0x38, 0x39]) == 0xCBF4_3926
  {
    hide Run, Flip;
    FiveDigits();
    FourDigits();
    RunAppend(ONES, [0x31, 0x32, 0x33, 0x34, 0x35], [0x36, 0x37, 0x38, 0x39]);
    assert [0x31, 0x32, 0x33, 0x34, 0x35] + [0x36, 0x37, 0x38, 0x39] ==
      [0x31 as bv8, 0x32, 0x33, 0x34, 0x35, 0x36, 0x37, 0x38, 0x39];
  }

  /** Four bytes is the exact length: a difference spread over five can go unnoticed. */
  lemma FiveBytesCanCollide()
    ensures Crc([0, 0, 0, 0, 0]) == Crc([0x01, 0x96, 0x30, 0x07, 0x77])
  {
  }
}
