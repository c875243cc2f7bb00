/** The node-local workload address allocator (src/workloads/mod.rs, `NodeIpAllocator`).

    Offsets are counted from the network address of the configured CIDR. Offset 4j+1 is
    the gateway and 4j+2 the workload end of /30 block j. */
module IpAllocator {
  import opened Base

  datatype Error = BadPrefix | DummySpace | Exhausted

  /** What the allocator holds; `held` is the source's `allocated`. */
  datatype Alloc = Alloc(base: u32, hostCount: u32, next: nat, free: set<u32>, held: map<u32, string>)

  /** First address of 240.0.0.0/4, the space kept for service identities. */
  const DUMMY_BASE: u32 := 0xF000_0000

  // ---------------------------------------------------------------- configuration

  /** `ip & (!0 << bits)`: the low bits cleared. */
  function ClearLow(ip: nat, bits: nat): (r: nat)
    ensures r <= ip < r + Pow2(bits)
    decreases bits
  {
    if bits == 0 then ip else 2 * ClearLow(ip / 2, bits - 1)
  }

  /** Clearing low bits keeps an address on its side of any boundary aligned to them. */
  lemma {:induction false} AlignedBoundary(ip: nat, edge: nat, bits: nat)
    requires ClearLow(edge, bits) == edge
    ensures ip >= edge <==> ClearLow(ip, bits) >= edge
    ensures ip < edge ==> ClearLow(ip, bits) + Pow2(bits) <= edge
  {
    if bits > 0 {
      AlignedBoundary(ip / 2, edge / 2, bits - 1);
    }
  }

  lemma {:induction false} DummyBaseAligned(bits: nat, shift: nat)
    requires bits <= shift
    ensures ClearLow(15 * Pow2(shift), bits) == 15 * Pow2(shift)
  {
    if bits > 0 {
      DummyBaseAligned(bits - 1, shift - 1);
      assert 15 * Pow2(shift) / 2 == 15 * Pow2(shift - 1);
    }
  }

  lemma {:induction false} ClearLowIdempotent(ip: nat, bits: nat)
    ensures ClearLow(ClearLow(ip, bits), bits) == ClearLow(ip, bits)
    decreases bits
  {
    hide Pow2;
    if bits > 0 {
      var half := ClearLow(ip / 2, bits - 1);
      ClearLowIdempotent(ip / 2, bits - 1);
      assert (2 * half) / 2 == half;
    }
  }

  lemma {:induction false} Pow2UpTo28(n: nat)
    requires n <= 28
    ensures Pow2(n) <= 0x1000_0000
    ensures n <= 24 ==> Pow2(n) <= 0x100_0000
    ensures n >= 4 ==> Pow2(n) >= 16 && Pow2(n) % 4 == 0
    ensures n == 28 ==> Pow2(n) == 0x1000_0000
  {
    hide Pow2;
    Pow2Of24And28();
    Pow2Monotone(n, 28);
    if n <= 24 { Pow2Monotone(n, 24); }
    if n >= 4 { Pow2Splits(4, n - 4); }
  }

  lemma Pow2Of4()
    ensures Pow2(4) == 16
  {
    assert Pow2(1) == 2 && Pow2(2) == 4;
  }

  lemma Pow2Of24And28()
    ensures Pow2(4) == 16 && Pow2(24) == 0x100_0000 && Pow2(28) == 0x1000_0000
  {
    hide Pow2;
    Pow2Of4();
    Pow2Byte();
    Pow2Of16();
    Pow2Splits(16, 8);
    Pow2Splits(24, 4);
  }

  /** An accepted CIDR: a whole number of /30 blocks, ending below the dummy space. */
  ghost predicate Geometry(a: Alloc) {
    && 16 <= a.hostCount <= 0x100_0000
    && a.hostCount % 4 == 0
    && a.base + a.hostCount <= DUMMY_BASE
  }

  /** A freshly configured allocator, or the reason the parsed CIDR is refused. */
  function New(ip: u32, prefix: u32): (r: Result<Alloc, Error>)
    ensures r.Ok? <==> 8 <= prefix <= 28 && ip < DUMMY_BASE
    ensures r.Ok? ==> Geometry(r.value) && r.value.free == {} && r.value.held == map[] && r.value.next == 1
    ensures r.Ok? ==> r.value.base <= ip < r.value.base + r.value.hostCount
    ensures r.Ok? ==> r.value.hostCount == Pow2(32 - prefix) && ClearLow(r.value.base, 32 - prefix) == r.value.base
  {
    if !(8 <= prefix <= 28) then Err(BadPrefix)
    else
      var base := ClearLow(ip, 32 - prefix);
      Pow2UpTo28(32 - prefix);
      Pow2UpTo28(28);
      DummyBaseAligned(32 - prefix, 28);
      AlignedBoundary(ip, DUMMY_BASE, 32 - prefix);
      ClearLowIdempotent(ip, 32 - prefix);
      if base / 0x1000_0000 == 0xF then Err(DummySpace)
      else Ok(Alloc(base, Pow2(32 - prefix), 1, {}, map[]))
  }

  // ---------------------------------------------------------------- operations

  function Gateway(pod: string): string { pod + ":gw" }

  predicate GwFree(pod: string) { !(|pod| >= 3 && pod[|pod| - 3..] == ":gw") }

  lemma GatewayLabels()
    ensures forall p, q {:trigger Gateway(p), Gateway(q)} :: Gateway(p) == Gateway(q) ==> p == q
    ensures forall p {:trigger Gateway(p)} :: !GwFree(Gateway(p)) && Gateway(p) != p
  {
    forall p, q {:trigger Gateway(p), Gateway(q)} | Gateway(p) == Gateway(q) ensures p == q {
      assert Gateway(p)[..|p|] == p && Gateway(q)[..|q|] == q;
    }
    forall p ensures !GwFree(Gateway(p)) && Gateway(p) != p {
      assert Gateway(p)[|Gateway(p)| - 3..] == ":gw";
    }
  }

  /** Offset `o` starts a /30 pair whose two ends are both free. */
  predicate Reusable(free: set<u32>, o: u32) { o % 4 == 1 && o in free && o + 1 in free }

  ghost function Least(s: set<u32>): (m: u32)
    requires s != {}
    ensures m in s && forall x | x in s :: m <= x
  {
    var x :| x in s;
    if s == {x} then x
    else
      assert s == {x} + (s - {x});
      var y := Least(s - {x});
      if x <= y then x else y
  }

  function Reusables(free: set<u32>): set<u32> { set o | o in free && Reusable(free, o) }

  /** The first offset at or after `n` that starts a /30 pair. */
  function Aligned(n: nat): (r: nat)
    ensures n <= r < n + 4 && r % 4 == 1
  {
    n + (5 - n % 4) % 4
  }

  /** The gateway offset the next pair request gets. */
  ghost function PairOffset(a: Alloc): Option<u32> {
    if Reusables(a.free) != {} then Some(Least(Reusables(a.free)))
    else if Aligned(a.next) + 1 >= a.hostCount - 1 then None
    else Some(Aligned(a.next))
  }

  ghost function AllocatePair(a: Alloc, pod: string): Alloc
  {
    match PairOffset(a)
    case None => a
    case Some(o) =>
      var held := a.held[o := Gateway(pod)][o + 1 := pod];
      if Reusables(a.free) != {} then a.(free := a.free - {o, o + 1}, held := held)
      else a.(next := o + 4, held := held)
  }

  function PairOf(a: Alloc, pod: string): set<u32> {
    set o | o in a.held && (a.held[o] == pod || a.held[o] == Gateway(pod))
  }

  function ReleasePair(a: Alloc, pod: string): Alloc {
    a.(free := a.free + PairOf(a, pod), held := a.held - PairOf(a, pod))
  }

  /** A single address: any free offset the hash set yields first, else the next unused one. */
  function OneOffset(a: Alloc, pick: u32): Option<u32> {
    if a.free != {} then Some(pick)
    else if a.next >= a.hostCount - 1 then None
    else Some(a.next)
  }

  function AllocateOne(a: Alloc, pod: string, pick: u32): Alloc
  {
    match OneOffset(a, pick)
    case None => a
    case Some(o) =>
      if a.free != {} then a.(free := a.free - {o}, held := a.held[o := pod])
      else a.(next := a.next + 1, held := a.held[o := pod])
  }

  function ReleaseOne(a: Alloc, pod: string): Alloc {
    var gone := set o | o in a.held && a.held[o] == pod;
    a.(free := a.free + gone, held := a.held - gone)
  }

  /** Which pair is granted: the lowest free /30 pair if one is free, else the first boundary not
      yet passed, unless its pair does not fit below the broadcast address. */
  lemma PairGranted(a: Alloc)
    ensures var free := exists o | o in a.free :: o % 4 == 1 && o + 1 in a.free;
            match PairOffset(a)
            case Some(g) =>
              && g % 4 == 1
              && if free then
                   && g in a.free && g + 1 in a.free
                   && forall o | o in a.free && o % 4 == 1 && o + 1 in a.free :: g <= o
                 else a.next <= g < a.next + 4 && g + 1 < a.hostCount - 1
            case None => !free && forall o | o >= a.next && o % 4 == 1 :: o + 1 >= a.hostCount - 1
  {
    hide Reusables, Least, Aligned;
    var free := exists o | o in a.free :: o % 4 == 1 && o + 1 in a.free;
    if free {
      var o :| o in a.free && o % 4 == 1 && o + 1 in a.free;
      ReusableIff(a.free, o);
    }
    if Reusables(a.free) != {} { ReusableIff(a.free, Least(Reusables(a.free))); }
    forall o | o in a.free && o % 4 == 1 && o + 1 in a.free ensures o in Reusables(a.free) { ReusableIff(a.free, o); }
  }

  /** Which single address is granted: any free one if one is free, else the next offset, unless
      that is the broadcast address. */
  lemma OneGranted(a: Alloc, pod: string, pick: u32)
    requires Safe(a) && Possible(a, One(pod, pick))
    ensures var granted := Granted(a, One(pod, pick));
            && granted == (if a.free != {} then {pick} else if a.next < a.hostCount - 1 then {a.next} else {})
            && (granted == {} <==> a.free == {} && a.next >= a.hostCount - 1)
  {
  }

  /** Returning a single address frees exactly the offsets under that id. */
  lemma OneReturned(a: Alloc, pod: string, o: u32)
    requires Safe(a)
    ensures var b := Apply(a, ReturnOne(pod));
            && (o in b.held <==> o in a.held && a.held[o] != pod) && (o in b.held ==> b.held[o] == a.held[o])
            && (o in b.free <==> o in a.free || (o in a.held && a.held[o] == pod))
            && b.next == a.next && b.base == a.base && b.hostCount == a.hostCount
  {
  }

  lemma ReusableIff(free: set<u32>, o: u32)
    ensures o in Reusables(free) <==> o in free && o % 4 == 1 && o + 1 in free
  {
  }

  // ---------------------------------------------------------------- runs

  datatype Op = Pair(pod: string) | ReturnPair(pod: string) | One(pod: string, pick: u32) | ReturnOne(pod: string)

  /** A hash set can only yield a member. */
  predicate Possible(a: Alloc, op: Op) { op.One? && a.free != {} ==> op.pick in a.free }

  ghost function Apply(a: Alloc, op: Op): Alloc {
    match op
    case Pair(pod) => AllocatePair(a, pod)
    case ReturnPair(pod) => ReleasePair(a, pod)
    case One(pod, pick) => AllocateOne(a, pod, pick)
    case ReturnOne(pod) => ReleaseOne(a, pod)
  }

  /** The offsets an operation hands out in a state. */
  ghost function Granted(a: Alloc, op: Op): set<u32> {
    match op
    case Pair(_) => if PairOffset(a).Some? then {PairOffset(a).value, PairOffset(a).value + 1} else {}
    case One(_, pick) => if OneOffset(a, pick).Some? then {OneOffset(a, pick).value} else {}
    case _ => {}
  }

  /** Every run of operations, oldest first, as the states it passes through. */
  ghost predicate Run(states: seq<Alloc>, ops: seq<Op>) {
    && |states| == |ops| + 1
    && (forall i | 0 <= i < |ops| :: Possible(states[i], ops[i]) && states[i + 1] == Apply(states[i], ops[i]))
  }

  /** What every mixture of single and pair operations keeps. */
  ghost predicate Safe(a: Alloc) {
    && Geometry(a)
    && 1 <= a.next <= a.hostCount + 1
    && a.free !! a.held.Keys
    && (forall o | o in a.free :: 1 <= o < a.next && o <= a.hostCount - 2)
    && (forall o | o in a.held :: 1 <= o < a.next && o <= a.hostCount - 2)
  }

  lemma SafeStep(a: Alloc, op: Op)
    requires Safe(a) && Possible(a, op)
    ensures Safe(Apply(a, op))
    ensures Granted(a, op) !! a.held.Keys && Granted(a, op) <= Apply(a, op).held.Keys
    ensures forall o | o in Granted(a, op) :: a.base < a.base + o < a.base + a.hostCount - 1 < DUMMY_BASE
  {
    assert forall o | o in Reusables(a.free) :: o in a.free && o + 1 in a.free;
  }

  /** In every mixed run no offset is both free and held, whatever is handed out next was
      held by nobody, and every address lies strictly between the network and broadcast
      addresses and below 240.0.0.0. */
  lemma {:induction false} MixedRunSafe(ip: u32, prefix: u32, states: seq<Alloc>, ops: seq<Op>, op: Op)
    requires New(ip, prefix).Ok? && Run(states, ops) && states[0] == New(ip, prefix).value
    ensures var a := states[|ops|];
            && a.free !! a.held.Keys
            && a.next + 4 < 0x1_0000_0000
            && (Possible(a, op) ==>
                  && Granted(a, op) !! a.held.Keys
                  && Granted(a, op) <= Apply(a, op).held.Keys
                  && forall o | o in Granted(a, op) :: a.base < a.base + o < a.base + a.hostCount - 1 < DUMMY_BASE)
            && Safe(a) && a.base == states[0].base && a.hostCount == states[0].hostCount
  {
    if ops != [] {
      var n := |ops| - 1;
      MixedRunSafe(ip, prefix, states[..n + 1], ops[..n], op);
      SafeStep(states[n], ops[n]);
    }
    if Possible(states[|ops|], op) { SafeStep(states[|ops|], op); }
  }

  // ---------------------------------------------------------------- pair-only runs

  /** Block `j` is wholly held by `pod`. */
  ghost predicate HeldBy(a: Alloc, j: nat, pod: string) {
    && 4 * j + 1 in a.held && a.held[4 * j + 1] == Gateway(pod)
    && 4 * j + 2 in a.held && a.held[4 * j + 2] == pod
  }

  ghost predicate Held(a: Alloc, j: nat) { exists pod :: HeldBy(a, j, pod) }

  ghost predicate WhollyFree(a: Alloc, j: nat) {
    4 * j + 1 in a.free && 4 * j + 2 in a.free
  }

  /** Block `j` is wholly free or wholly held by one pod. */
  ghost predicate Whole(a: Alloc, j: nat) {
    || WhollyFree(a, j)
    || (4 * j + 2 in a.held && GwFree(a.held[4 * j + 2]) && HeldBy(a, j, a.held[4 * j + 2]))
  }

  predicate BlockEnd(o: int) { o % 4 == 1 || o % 4 == 2 }

  /** What pair operations keep: the opened blocks are exactly the first few, each of them
      whole, and nothing else was ever opened. */
  ghost predicate Paired(a: Alloc) {
    && Safe(a)
    && a.next % 4 == 1
    && (forall j: nat | 4 * j + 1 < a.next :: Whole(a, j))
    && (forall o | o in a.free :: BlockEnd(o))
    && (forall o | o in a.held :: BlockEnd(o))
  }

  /** The blocks a later request could still be given. */
  ghost function Grantable(a: Alloc): set<nat> {
    set j: nat | 0 <= j < a.hostCount / 4 && (WhollyFree(a, j) || a.next <= 4 * j + 1)
  }

  lemma PairOffsetFacts(a: Alloc)
    requires Paired(a)
    ensures PairOffset(a).None? ==> a.free == {} && a.next == a.hostCount + 1
    ensures PairOffset(a).Some? ==>
              var j := PairOffset(a).value / 4;
              PairOffset(a).value == 4 * j + 1 && j in Grantable(a) && (WhollyFree(a, j) <==> Reusables(a.free) != {})
  {
    assert forall o | o in Reusables(a.free) :: Reusable(a.free, o);
    if o :| o in a.free {
      assert Whole(a, o / 4);
      assert 4 * (o / 4) + 1 in Reusables(a.free);
    }
  }

  /** The state a granted pair request leads to, seen from the block it hands out. */
  lemma AllocateShape(a: Alloc, pod: string)
    requires Paired(a) && PairOffset(a).Some?
    ensures var b, o := AllocatePair(a, pod), PairOffset(a).value;
            && o % 4 == 1 && b.held == a.held[o := Gateway(pod)][o + 1 := pod]
            && b.free == a.free - {o, o + 1} &&
                 (if o < a.next then b.next == a.next else o == a.next && b.next == o + 4)
            && b.base == a.base && b.hostCount == a.hostCount
  {
    PairOffsetFacts(a);
    var o := PairOffset(a).value;
    if Reusables(a.free) == {} {
      assert o !in a.free && o + 1 !in a.free;
      assert a.free - {o, o + 1} == a.free;
    }
  }

  lemma WholeAfterAllocate(a: Alloc, pod: string, j: nat)
    requires Paired(a) && GwFree(pod) && PairOffset(a).Some? && 4 * j + 1 < AllocatePair(a, pod).next
    ensures Whole(AllocatePair(a, pod), j)
    ensures j == PairOffset(a).value / 4 ==> HeldBy(AllocatePair(a, pod), j, pod)
    ensures j != PairOffset(a).value / 4 ==> (WhollyFree(AllocatePair(a, pod), j) <==> WhollyFree(a, j))
  {
    hide AllocatePair, PairOffset;
    AllocateShape(a, pod);
    assert Whole(a, j) || 4 * j + 1 == a.next;
    assert 4 * (PairOffset(a).value / 4) + 1 == PairOffset(a).value;
  }

  lemma PairedAllocate(a: Alloc, pod: string)
    requires Paired(a) && GwFree(pod)
    ensures Paired(AllocatePair(a, pod))
    ensures PairOffset(a).Some? ==>
              var j := PairOffset(a).value / 4;
              && (forall k: nat, q :: HeldBy(AllocatePair(a, pod), k, q) <==> HeldBy(a, k, q) || (k == j && q == pod))
              && Grantable(AllocatePair(a, pod)) == Grantable(a) - {j}
    ensures PairOffset(a).None? ==> AllocatePair(a, pod) == a
  {
    SafeStep(a, Pair(pod));
    if PairOffset(a).Some? {
      PairedAllocated(a, pod);
      GrantableAfterAllocate(a, pod);
      HeldAfterAllocate(a, pod);
    }
  }

  /** The requester gains exactly the granted block, and nobody else gains or loses one. */
  lemma HeldAfterAllocate(a: Alloc, pod: string)
    requires Paired(a) && PairOffset(a).Some?
    ensures forall k: nat, q ::
              HeldBy(AllocatePair(a, pod), k, q) <==> HeldBy(a, k, q) || (k == PairOffset(a).value / 4 && q == pod)
  {
    AllocateShape(a, pod);
    SafeStep(a, Pair(pod));
    GatewayLabels();
    hide AllocatePair, PairOffset, Safe, Whole, Gateway;
    var o := PairOffset(a).value;
    assert o in Granted(a, Pair(pod)) && o + 1 in Granted(a, Pair(pod));
    assert o == 4 * (o / 4) + 1;
  }

  lemma PairedAllocated(a: Alloc, pod: string)
    requires Paired(a) && GwFree(pod) && PairOffset(a).Some? && Safe(AllocatePair(a, pod))
    ensures Paired(AllocatePair(a, pod)) && HeldBy(AllocatePair(a, pod), PairOffset(a).value / 4, pod)
  {
    hide AllocatePair, PairOffset, Safe, Whole;
    var b, o := AllocatePair(a, pod), PairOffset(a).value;
    AllocateShape(a, pod);
    forall j: nat | 4 * j + 1 < b.next ensures Whole(b, j) { WholeAfterAllocate(a, pod, j); }
    WholeAfterAllocate(a, pod, o / 4);
  }

  lemma GrantableAfterAllocate(a: Alloc, pod: string)
    requires Paired(a) && GwFree(pod) && PairOffset(a).Some?
    ensures Grantable(AllocatePair(a, pod)) == Grantable(a) - {PairOffset(a).value / 4}
  {
    hide AllocatePair, PairOffset, Safe, Whole;
    var b, k := AllocatePair(a, pod), PairOffset(a).value / 4;
    AllocateShape(a, pod);
    forall j: nat | j < a.hostCount / 4 ensures j in Grantable(b) <==> j in Grantable(a) && j != k {
      if 4 * j + 1 < b.next { WholeAfterAllocate(a, pod, j); }
    }
  }

  lemma PairedRelease(a: Alloc, pod: string)
    requires Paired(a) && GwFree(pod)
    ensures Paired(ReleasePair(a, pod))
    ensures forall j: nat, q :: HeldBy(ReleasePair(a, pod), j, q) <==> q != pod && HeldBy(a, j, q)
    ensures Grantable(ReleasePair(a, pod)) == Grantable(a) + set j: nat | 0 <= j < a.hostCount / 4 && HeldBy(a, j, pod)
  {
    SafeStep(a, ReturnPair(pod));
    GatewayLabels();
    var b := ReleasePair(a, pod);
    forall j: nat | 4 * j + 1 < b.next ensures Whole(b, j) {
      assert Whole(a, j);
    }
    forall j: nat, q ensures HeldBy(b, j, q) <==> q != pod && HeldBy(a, j, q) {
      if 4 * j + 1 < a.next { assert Whole(a, j); }
    }
    forall j: nat | j < a.hostCount / 4 ensures j in Grantable(b) <==> j in Grantable(a) || HeldBy(a, j, pod) {
      if 4 * j + 1 < a.next { assert Whole(a, j); }
    }
  }

  /** The block ends below `n`. */
  function Ends(n: nat): (s: set<int>) { set o | 0 <= o < n && BlockEnd(o) }

  lemma {:induction false} EndsCount(k: nat)
    ensures |Ends(4 * k + 1)| == 2 * k
  {
    hide Ends;
    if k == 0 {
      NoEnds();
    } else {
      EndsCount(k - 1);
      EndsMore(k - 1);
      assert 4 * (k - 1) + 5 == 4 * k + 1;
      AddTwo(Ends(4 * (k - 1) + 1), 4 * (k - 1) + 1, 4 * (k - 1) + 2);
    }
  }

  lemma NoEnds()
    ensures Ends(1) == {}
  {
  }

  lemma EndsMore(k: nat)
    ensures Ends(4 * k + 5) == Ends(4 * k + 1) + {4 * k + 1, 4 * k + 2}
    ensures 4 * k + 1 !in Ends(4 * k + 1) && 4 * k + 2 !in Ends(4 * k + 1)
  {
    var more := Ends(4 * k + 1) + {4 * k + 1, 4 * k + 2};
    forall o | o in Ends(4 * k + 5) ensures o in more {
      if o >= 4 * k + 1 { assert o - 4 * k in {1, 2, 3, 4}; }
    }
    assert Ends(4 * k + 5) == more;
  }

  lemma AddTwo(s: set<int>, a: int, b: int)
    requires a !in s && b !in s && a != b
    ensures |s + {a, b}| == |s| + 2
  {
    assert s + {a, b} == s + {a} + {b};
  }

  lemma OpenedEnds(a: Alloc, o: int)
    requires Paired(a)
    ensures o in Ends(a.next) <==> o in a.free || o in a.held
  {
    if o in Ends(a.next) {
      assert Whole(a, o / 4);
      assert o == 4 * (o / 4) + 1 || o == 4 * (o / 4) + 2;
    }
  }

  lemma DisjointCount(s: set<int>, t: set<int>, ends: set<int>)
    requires s !! t && forall o :: o in ends <==> o in s || o in t
    ensures |s| + |t| == |ends|
  {
    forall o ensures o in s + t <==> o in ends {}
    assert s + t == ends;
  }

  lemma PairedCount(a: Alloc)
    requires Paired(a)
    ensures |a.free| + |a.held| == 2 * ((a.next - 1) / 4)
  {
    assert a.next == 4 * ((a.next - 1) / 4) + 1 && a.free !! a.held.Keys;
    hide Paired, Safe, Ends;
    EndsCount((a.next - 1) / 4);
    forall o ensures o in Ends(a.next) <==> o in a.free || o in a.held { OpenedEnds(a, o); }
    DisjointCount(a.free, a.held.Keys, Ends(a.next));
  }

  predicate PairOnly(op: Op) { (op.Pair? || op.ReturnPair?) && GwFree(op.pod) }

  lemma {:induction false} PairRunPaired(states: seq<Alloc>, ops: seq<Op>)
    requires Run(states, ops) && Paired(states[0])
    requires forall i | 0 <= i < |ops| :: PairOnly(ops[i])
    ensures Paired(states[|ops|]) && states[|ops|].hostCount == states[0].hostCount
  {
    if ops != [] {
      var n := |ops| - 1;
      PairRunPaired(states[..n + 1], ops[..n]);
      assert PairOnly(ops[n]);
      if ops[n].Pair? { PairedAllocate(states[n], ops[n].pod); } else { PairedRelease(states[n], ops[n].pod); }
    }
  }

  lemma RefusedIffFull(a: Alloc)
    requires Paired(a)
    ensures PairOffset(a).None? <==> forall j: nat | j < a.hostCount / 4 :: Held(a, j)
  {
    PairOffsetFacts(a);
    if PairOffset(a).None? {
      forall j: nat | j < a.hostCount / 4 ensures Held(a, j) {
        assert Whole(a, j);
        assert HeldBy(a, j, a.held[4 * j + 2]);
      }
    } else {
      var j := PairOffset(a).value / 4;
      assert j < a.hostCount / 4 && 4 * j + 1 !in a.held;
      assert !Held(a, j);
    }
  }

  lemma NewIsPaired(ip: u32, prefix: u32)
    requires New(ip, prefix).Ok?
    ensures Paired(New(ip, prefix).value) && New(ip, prefix).value.hostCount == Pow2(32 - prefix)
  {
    hide New;
  }

  lemma HeldInFull(a: Alloc, o: u32)
    requires Paired(a) && o in a.held
    ensures Held(a, o / 4)
  {
    assert Whole(a, o / 4);
    assert HeldBy(a, o / 4, a.held[4 * (o / 4) + 2]);
  }

  /** In every run of pair requests and returns by pods whose ids do not end in ":gw":
      every opened /30 is wholly free or wholly one pod's, the two counts add up to two
      offsets for each block ever opened, and a request fails exactly when all
      hostCount / 4 blocks are held. */
  lemma PairRunExclusive(ip: u32, prefix: u32, states: seq<Alloc>, ops: seq<Op>)
    requires New(ip, prefix).Ok? && Run(states, ops) && states[0] == New(ip, prefix).value
    requires forall i | 0 <= i < |ops| :: PairOnly(ops[i])
    ensures var a := states[|ops|];
            && (forall j: nat | 4 * j + 1 < a.next :: Whole(a, j))
            && (forall o | o in a.held :: Held(a, o / 4))
            && |a.free| + |a.held| == 2 * ((a.next - 1) / 4)
            && a.hostCount == Pow2(32 - prefix)
            && (PairOffset(a).None? <==> forall j: nat | j < a.hostCount / 4 :: Held(a, j))
  {
    NewIsPaired(ip, prefix);
    PairRunPaired(states, ops);
    var a := states[|ops|];
    assert forall j: nat | 4 * j + 1 < a.next :: Whole(a, j);
    hide Run, Paired, Whole, New, Held, PairOffset;
    PairedCount(a);
    RefusedIffFull(a);
    forall o | o in a.held ensures Held(a, o / 4) { HeldInFull(a, o); }
  }

  /** Returning a pair leaves every other pod's pair alone exactly when no other holder's id
      collides with the gateway label: none is "<pod>:gw", and `pod` is not "<holder>:gw". */
  lemma ReleaseIsolatedIff(a: Alloc, pod: string)
    ensures (forall j: nat, q | q != pod && HeldBy(a, j, q) :: HeldBy(ReleasePair(a, pod), j, q))
       <==> (forall j: nat, q | q != pod && HeldBy(a, j, q) :: q != Gateway(pod) && pod != Gateway(q))
  {
    GatewayLabels();
    forall j: nat, q | q != pod && HeldBy(a, j, q)
      ensures HeldBy(ReleasePair(a, pod), j, q) <==> q != Gateway(pod) && pod != Gateway(q)
    {
      assert 4 * j + 1 in PairOf(a, pod) <==> pod == Gateway(q);
      assert 4 * j + 2 in PairOf(a, pod) <==> q == Gateway(pod);
    }
  }

  // ---------------------------------------------------------------- singles among pairs

  /** Block `j` carries the gateway of `pod`'s pair. */
  ghost predicate GatewayIn(a: Alloc, j: nat, pod: string) { 4 * j + 1 in a.held && a.held[4 * j + 1] == Gateway(pod) }

  /** Nobody else holds an address in a /30 that carries a pair's gateway. */
  ghost predicate Exclusive(a: Alloc) {
    forall j: nat, pod | GatewayIn(a, j, pod) ::
      4 * j !in a.held && 4 * j + 3 !in a.held && (4 * j + 2 in a.held ==> a.held[4 * j + 2] == pod)
  }

  /** The address about to be granted is in a /30 that nobody else uses. */
  ghost predicate GrantClear(a: Alloc, op: Op) {
    match op
    case One(pod, pick) =>
      var o := OneOffset(a, pick);
      o.Some? ==> forall q | GatewayIn(a, o.value / 4, q) :: o.value % 4 == 2 && q == pod
    case Pair(pod) =>
      var o := PairOffset(a);
      o.Some? ==> o.value - 1 !in a.held && o.value + 2 !in a.held
    case _ => true
  }

  /** With single and pair requests mixed, a step keeps /30s exclusive exactly when what it is
      about to grant is clear; returns always do. */
  lemma ExclusiveStepIff(a: Alloc, op: Op)
    requires Safe(a) && Possible(a, op) && Exclusive(a) && GwFree(op.pod)
    ensures Exclusive(Apply(a, op)) <==> GrantClear(a, op)
  {
    GatewayLabels();
    hide PairOffset, OneOffset;
    match op {
      case One(pod, pick) => if OneOffset(a, pick).Some? { ExclusiveOne(a, pod, pick); }
      case Pair(pod) => if PairOffset(a).Some? { ExclusivePair(a, pod); }
      case ReturnPair(pod) => ExclusiveShrinks(a, ReleasePair(a, pod));
      case ReturnOne(pod) => ExclusiveShrinks(a, ReleaseOne(a, pod));
    }
  }

  lemma ExclusiveShrinks(a: Alloc, b: Alloc)
    requires Exclusive(a) && forall o | o in b.held :: o in a.held && b.held[o] == a.held[o]
    ensures Exclusive(b)
  {
    forall j: nat, q | GatewayIn(b, j, q)
      ensures 4 * j !in b.held && 4 * j + 3 !in b.held && (4 * j + 2 in b.held ==> b.held[4 * j + 2] == q)
    {
      assert GatewayIn(a, j, q);
    }
  }

  lemma ExclusiveOne(a: Alloc, pod: string, pick: u32)
    requires Safe(a) && Possible(a, One(pod, pick)) && Exclusive(a) && GwFree(pod) && OneOffset(a, pick).Some?
    ensures Exclusive(AllocateOne(a, pod, pick)) <==> GrantClear(a, One(pod, pick))
  {
    var o, b := OneOffset(a, pick).value, AllocateOne(a, pod, pick);
    assert b.held == a.held[o := pod] && o !in a.held;
    hide Safe, OneOffset, AllocateOne, Exclusive, Gateway;
    ExclusiveSingle(a, b, o, pod);
  }

  lemma ExclusiveSingle(a: Alloc, b: Alloc, o: u32, pod: string)
    requires Exclusive(a) && GwFree(pod) && o !in a.held && b.held == a.held[o := pod]
    ensures Exclusive(b) <==> forall q | GatewayIn(a, o / 4, q) :: o % 4 == 2 && q == pod
  {
    var j := o / 4;
    SameGateways(a, b, o, pod);
    if forall q | GatewayIn(a, j, q) :: o % 4 == 2 && q == pod {
      forall k: nat, q | GatewayIn(b, k, q)
        ensures 4 * k !in b.held && 4 * k + 3 !in b.held && (4 * k + 2 in b.held ==> b.held[4 * k + 2] == q)
      {
        assert GatewayIn(a, k, q);
        assert k == j || o < 4 * k || o > 4 * k + 3;
      }
    } else {
      var q :| GatewayIn(a, j, q) && !(o % 4 == 2 && q == pod);
      assert GatewayIn(b, j, q) && (o == 4 * j || o == 4 * j + 2 || o == 4 * j + 3);
    }
  }

  lemma SameGateways(a: Alloc, b: Alloc, o: u32, pod: string)
    requires GwFree(pod) && o !in a.held && b.held == a.held[o := pod]
    ensures forall j: nat, q :: GatewayIn(b, j, q) <==> GatewayIn(a, j, q)
  {
    GatewayLabels();
  }

  lemma ExclusivePair(a: Alloc, pod: string)
    requires Safe(a) && Exclusive(a) && GwFree(pod) && PairOffset(a).Some?
    ensures Exclusive(AllocatePair(a, pod)) <==> GrantClear(a, Pair(pod))
  {
    GatewayLabels();
    var o, b := PairOffset(a).value, AllocatePair(a, pod);
    PairGrant(a, pod);
    var j := o / 4;
    assert GatewayIn(b, j, pod);
    forall k: nat, q | k != j ensures GatewayIn(b, k, q) <==> GatewayIn(a, k, q) {}
    if o - 1 !in a.held && o + 2 !in a.held {
      forall k: nat, q | GatewayIn(b, k, q)
        ensures 4 * k !in b.held && 4 * k + 3 !in b.held && (4 * k + 2 in b.held ==> b.held[4 * k + 2] == q)
      {
        if k != j { assert GatewayIn(a, k, q); }
      }
    }
  }

  lemma PairGrant(a: Alloc, pod: string)
    requires Safe(a) && PairOffset(a).Some?
    ensures var o := PairOffset(a).value;
            o == 4 * (o / 4) + 1 && o !in a.held && o + 1 !in a.held &&
              AllocatePair(a, pod).held == a.held[o := Gateway(pod)][o + 1 := pod]
  {
    SafeStep(a, Pair(pod));
    assert forall o | o in Reusables(a.free) :: Reusable(a.free, o);
  }

  lemma ReuseAfterSingles(a: Alloc)
    requires a.free == {1, 2}
    ensures PairOffset(a) == Some(1)
  {
    assert Reusable(a.free, 1) && Reusables(a.free) == {1};
  }

  /** And a grant need not be clear: in this run from a configured /24 a single address is
      handed out inside a block another pod holds as its pair. */
  lemma MixingSharesABlock() returns (states: seq<Alloc>, ops: seq<Op>)
    ensures Run(states, ops) && New(0xAC1E_0000, 24) == Ok(states[0])
    ensures var last := states[|ops|]; HeldBy(last, 0, "p") && 3 in last.held && last.held[3] == "u"
  {
    hide Apply, Possible, New, Gateway;
    ops := [One("s", 0), One("t", 0), ReturnOne("s"), ReturnOne("t"), Pair("p"), One("u", 0)];
    var s0 := Slash24();
    var s1, s2, s3, s4 := SinglesGone(s0);
    var s5, s6 := PairThenSingle(s4);
    states := [s0, s1, s2, s3, s4, s5, s6];
  }

  /** And ids do collide with gateway labels: returning the pair of "a" takes the pair of
      "a:gw" apart. */
  lemma ReleaseCollides() returns (states: seq<Alloc>, ops: seq<Op>)
    ensures Run(states, ops) && New(0xAC1E_0000, 24) == Ok(states[0])
    ensures ops == [Pair("a"), Pair("a:gw"), ReturnPair("a")]
    ensures HeldBy(states[2], 1, "a:gw") && !HeldBy(states[3], 1, "a:gw")
  {
    hide Apply, New, Gateway;
    ops := [Pair("a"), Pair("a:gw"), ReturnPair("a")];
    var s0 := Slash24();
    var s1 := FirstPair(s0, 0, "a");
    var s2 := FirstPair(s1, 1, "a:gw");
    GatewayOfA();
    var s3 := PairGoes(s2);
    states := [s0, s1, s2, s3];
  }

  lemma FirstPair(a: Alloc, k: nat, id: string) returns (b: Alloc)
    requires a.hostCount == 256 && a.next == 4 * k + 1 && a.free == {} && k < 4
    ensures Goes(a, Pair(id), b) && b.hostCount == 256 && b.next == 4 * k + 5 && b.free == {}
    ensures b.held == a.held[4 * k + 1 := Gateway(id)][4 * k + 2 := id]
  {
    hide Gateway;
    assert Reusables(a.free) == {};
    b := AllocatePair(a, id);
  }

  lemma GatewayOfA()
    ensures Gateway("a") == "a:gw"
  {
  }

  lemma PairGoes(a: Alloc) returns (b: Alloc)
    requires 6 in a.held && a.held[6] == Gateway("a")
    ensures Goes(a, ReturnPair("a"), b) && 6 !in b.held
  {
    hide Gateway;
    b := ReleasePair(a, "a");
    assert 6 in PairOf(a, "a");
  }

  lemma Slash24() returns (a: Alloc)
    ensures New(0xAC1E_0000, 24) == Ok(a)
    ensures a.hostCount == 256 && a.next == 1 && a.free == {} && a.held == map[]
  {
    Pow2Byte();
    a := New(0xAC1E_0000, 24).value;
  }

  ghost predicate Goes(a: Alloc, op: Op, b: Alloc) { Possible(a, op) && b == Apply(a, op) }

  lemma SinglesGone(s0: Alloc) returns (s1: Alloc, s2: Alloc, s3: Alloc, s4: Alloc)
    requires s0.hostCount == 256 && s0.next == 1 && s0.free == {} && s0.held == map[]
    ensures Goes(s0, One("s", 0), s1) && Goes(s1, One("t", 0), s2)
    ensures Goes(s2, ReturnOne("s"), s3) && Goes(s3, ReturnOne("t"), s4)
    ensures s4.held == map[] && s4.free == {1, 2} && s4.next == 3 && s4.hostCount == 256
  {
    s1 := Apply(s0, One("s", 0));
    s2 := Apply(s1, One("t", 0));
    assert s2.held == map[1 := "s", 2 := "t"];
    s3 := Apply(s2, ReturnOne("s"));
    assert s3.held == map[2 := "t"] && s3.free == {1};
    s4 := Apply(s3, ReturnOne("t"));
  }

  lemma PairThenSingle(s4: Alloc) returns (s5: Alloc, s6: Alloc)
    requires s4.held == map[] && s4.free == {1, 2} && s4.next == 3 && s4.hostCount == 256
    ensures Goes(s4, Pair("p"), s5) && Goes(s5, One("u", 0), s6)
    ensures HeldBy(s6, 0, "p") && 3 in s6.held && s6.held[3] == "u"
  {
    ReuseAfterSingles(s4);
    hide Gateway, PairOffset;
    s5 := Apply(s4, Pair("p"));
    assert Reusable(s4.free, 1) && 1 in Reusables(s4.free);
    assert s5.free == {} && s5.held == map[1 := Gateway("p"), 2 := "p"] && s5.next == 3;
    s6 := Apply(s5, One("u", 0));
  }

  // ---------------------------------------------------------------- the object

  /** `candidates.sort_unstable()` over the members of a hash set. */
  method Sorted(s: set<u32>) returns (q: seq<u32>)
    ensures forall x :: x in q <==> x in s
    ensures forall i, j | 0 <= i < j < |q| :: q[i] < q[j]
  {
    q := [];
    var rest := s;
    while rest != {}
      invariant rest <= s
      invariant forall x :: x in q <==> x in s && x !in rest
      invariant forall i, j | 0 <= i < j < |q| :: q[i] < q[j]
      invariant forall i, y | 0 <= i < |q| && y in rest :: q[i] < y
    {
      var least :| least in rest;
      var todo := rest;
      while todo != {}
        invariant todo <= rest && least in rest
        invariant forall x | x in rest && x !in todo :: least <= x
      {
        var x :| x in todo;
        todo := todo - {x};
        if x < least { least := x; }
      }
      q, rest := q + [least], rest - {least};
    }
  }

  /** The reuse search of a pair request: the lowest pair both of whose ends are free. */
  method FirstReusable(free: set<u32>) returns (reuse: Option<u32>)
    ensures reuse == if Reusables(free) == {} then None else Some(Least(Reusables(free)))
  {
    var candidates := Sorted(free);
    for i := 0 to |candidates|
      invariant forall k | 0 <= k < i :: !Reusable(free, candidates[k])
    {
      var o := candidates[i];
      if o % 4 == 1 && o + 1 in free {
        assert o in Reusables(free);
        forall x | x in Reusables(free) ensures o <= x {
          var k :| 0 <= k < |candidates| && candidates[k] == x;
        }
        return Some(o);
      }
    }
    assert Reusables(free) == {};
    reuse := None;
  }

  /** Advance to the next /30 boundary. */
  method NextBoundary(n: u32) returns (o: u32)
    requires n + 4 < 0x1_0000_0000
    ensures o == Aligned(n)
  {
    o := n;
    while o % 4 != 1
      invariant n <= o <= Aligned(n)
      decreases Aligned(n) - o
    {
      o := o + 1;
    }
  }

  class NodeIpAllocator {
    const base: u32
    const hostCount: u32
    var nextOffset: u32
    var free: set<u32>
    var held: map<u32, string>

    ghost function State(): Alloc
      reads this
    {
      Alloc(base, hostCount, nextOffset, free, held)
    }

    ghost predicate Valid()
      reads this
    {
      Safe(State())
    }

    constructor (a: Alloc)
      requires a.free == {} && a.held == map[] && a.next == 1
      ensures State() == a
    {
      base, hostCount, nextOffset, free, held := a.base, a.hostCount, 1, {}, map[];
    }

    static method Configure(ip: u32, prefix: u32) returns (r: Result<NodeIpAllocator, Error>)
      ensures r.Ok? <==> New(ip, prefix).Ok?
      ensures r.Ok? ==> fresh(r.value) && r.value.Valid() && r.value.State() == New(ip, prefix).value
      ensures r.Err? ==> r.error == New(ip, prefix).error
    {
      match New(ip, prefix) {
        case Err(e) => r := Err(e);
        case Ok(a) =>
          var allocator := new NodeIpAllocator(a);
          r := Ok(allocator);
      }
    }

    method Allocate(pod: string) returns (r: Result<u32, Error>)
      requires Valid()
      modifies this
      ensures Valid()
      ensures r.Err? ==> r.error == Exhausted && OneOffset(old(State()), 0).None? && State() == old(State())
      ensures r.Ok? ==>
                var o := r.value - base;
                && 0 <= o && Possible(old(State()), One(pod, o))
                && OneOffset(old(State()), o) == Some(o)
                && State() == AllocateOne(old(State()), pod, o)
    {
      ghost var was := State();
      var offset: u32;
      if free != {} {
        var o :| o in free;
        free := free - {o};
        offset := o;
      } else {
        offset := nextOffset;
        if offset >= hostCount - 1 { return Err(Exhausted); }
        nextOffset := nextOffset + 1;
      }
      held := held[offset := pod];
      SafeStep(was, One(pod, offset));
      r := Ok(base + offset);
    }

    method Release(pod: string)
      requires Valid()
      modifies this
      ensures Valid() && State() == ReleaseOne(old(State()), pod)
    {
      ghost var gone := set o | o in held && held[o] == pod;
      var rest := held.Keys;
      while rest != {}
        invariant rest <= old(held).Keys
        invariant nextOffset == old(nextOffset)
        invariant free == old(free) + (gone - rest)
        invariant held == old(held) - (gone - rest)
      {
        var o :| o in rest;
        rest := rest - {o};
        if held[o] == pod {
          free, held := free + {o}, held - {o};
        }
      }
      assert gone - rest == gone;
      SafeStep(old(State()), ReturnOne(pod));
    }

    method AllocateP2pPair(pod: string) returns (r: Result<(u32, u32), Error>)
      requires Valid()
      modifies this
      ensures Valid() && State() == AllocatePair(old(State()), pod)
      ensures r == match PairOffset(old(State()))
                   case None => Err(Exhausted)
                   case Some(o) => Ok((base + o, base + o + 1))
    {
      ghost var was := State();
      SafeStep(was, Pair(pod));
      var reuse := FirstReusable(free);
      if reuse.Some? {
        var o := reuse.value;
        free := free - {o} - {o + 1};
        held := held[o := Gateway(pod)][o + 1 := pod];
        assert free == was.free - {o, o + 1};
        return Ok((base + o, base + o + 1));
      }
      var o := NextBoundary(nextOffset);
      if o + 1 >= hostCount - 1 { return Err(Exhausted); }
      nextOffset := o + 4;
      held := held[o := Gateway(pod)][o + 1 := pod];
      r := Ok((base + o, base + o + 1));
    }

    method ReleaseP2pPair(pod: string)
      requires Valid()
      modifies this
      ensures Valid() && State() == ReleasePair(old(State()), pod)
    {
      ghost var gone := PairOf(State(), pod);
      var rest := held.Keys;
      while rest != {}
        invariant rest <= old(held).Keys
        invariant nextOffset == old(nextOffset)
        invariant free == old(free) + (gone - rest)
        invariant held == old(held) - (gone - rest)
      {
        var o :| o in rest;
        rest := rest - {o};
        if held[o] == pod || held[o] == Gateway(pod) {
          free, held := free + {o}, held - {o};
        }
      }
      assert gone - rest == gone;
      SafeStep(old(State()), ReturnPair(pod));
    }
  }
}
