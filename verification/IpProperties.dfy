/** What every run of the subnet allocator keeps, and that its answers are exact. */
module IpProperties {
  import opened Wrappers
  import opened Bits
  import opened IpPrefixes
  import opened IpAllocation

  // Slots: the aligned blocks of one length that tile a network

  predicate FitsIn(bits: nat, network: IpPrefix) {
    network.bits <= bits <= BitLen(network.address.family)
  }

  function Slots(network: IpPrefix, bits: nat): nat
    requires FitsIn(bits, network)
  {
    Pow2(bits - network.bits)
  }

  function SlotSize(network: IpPrefix, bits: nat): (s: nat)
    requires FitsIn(bits, network)
    ensures s >= 1
  {
    Pow2(BitLen(network.address.family) - bits)
  }

  lemma {:induction false} SlotsTile(network: IpPrefix, bits: nat)
    requires FitsIn(bits, network)
    ensures SlotSize(network, bits) * Slots(network, bits) == Size(network)
  {
    Pow2Add(BitLen(network.address.family) - bits, bits - network.bits);
  }

  /** Where the `i`-th slot starts. */
  function SlotBase(network: IpPrefix, bits: nat, i: nat): nat
    requires FitsIn(bits, network)
  {
    if i == 0 then Base(network) else SlotBase(network, bits, i - 1) + SlotSize(network, bits)
  }

  lemma {:induction false} SlotBaseValue(network: IpPrefix, bits: nat, i: nat)
    requires FitsIn(bits, network)
    ensures SlotBase(network, bits, i) == Base(network) + SlotSize(network, bits) * i
  {
    hide Pow2;
    if i > 0 { SlotBaseValue(network, bits, i - 1); }
  }

  lemma {:induction false} SlotBaseOrder(network: IpPrefix, bits: nat, i: nat, j: nat)
    requires FitsIn(bits, network) && i < j
    ensures SlotBase(network, bits, i) + SlotSize(network, bits) <= SlotBase(network, bits, j)
    decreases j
  {
    if i < j - 1 { SlotBaseOrder(network, bits, i, j - 1); }
  }

  /** The `i`-th aligned block of a network, counted from its base. */
  function SlotAt(network: IpPrefix, bits: nat, i: nat): (r: IpPrefix)
    requires FitsIn(bits, network) && i < Slots(network, bits)
    ensures r.address.family == network.address.family && r.bits == bits
    ensures r.address.value == Base(r) == SlotBase(network, bits, i)
  {
    SlotFacts(network, bits, i);
    Prefix(Address(network.address.family, SlotBase(network, bits, i)), bits)
  }

  lemma {:induction false} SlotsEnd(network: IpPrefix, bits: nat)
    requires FitsIn(bits, network)
    ensures SlotBase(network, bits, Slots(network, bits)) == Base(network) + Size(network)
            <= Pow2(BitLen(network.address.family))
  {
    SlotsTile(network, bits);
    SlotBaseValue(network, bits, Slots(network, bits));
    BlockInWord(network);
  }

  lemma {:induction false} SlotFacts(network: IpPrefix, bits: nat, i: nat)
    requires FitsIn(bits, network) && i < Slots(network, bits)
    ensures Base(network) <= SlotBase(network, bits, i)
    ensures SlotBase(network, bits, i) + SlotSize(network, bits) <= Base(network) + Size(network)
            <= Pow2(BitLen(network.address.family))
    ensures SlotBase(network, bits, i) % SlotSize(network, bits) == 0
  {
    SlotsEnd(network, bits);
    SlotBaseOrder(network, bits, i, Slots(network, bits));
    if i > 0 { SlotBaseOrder(network, bits, 0, i); }
    NetworkBaseInSlots(network, bits);
    SlotBaseValue(network, bits, i);
    SlotArithmetic(Base(network), SlotSize(network, bits), i);
  }

  lemma SlotArithmetic(b: nat, s: nat, i: nat)
    requires s > 0 && b == s * (b / s)
    ensures (b + s * i) % s == 0
  {
    var k := b / s;
    assert b + s * i == s * (k + i);
    MulMod(s, k + i);
  }

  lemma SlotIndex(b: nat, s: nat, n: nat, v: nat) returns (i: nat)
    requires s > 0 && b == s * (b / s) && v % s == 0 && b <= v < b + s * n
    ensures i < n && v == b + s * i
  {
    FloorBounds(v, s);
    var k, m := b / s, v / s;
    if m < k { MulLe(s, m + 1, k); }
    i := m - k;
    assert s * m == s * k + s * i;
    if i >= n { MulLe(s, n, i); }
  }

  lemma {:induction false} NetworkBaseInSlots(network: IpPrefix, bits: nat)
    requires FitsIn(bits, network)
    ensures Base(network) == SlotSize(network, bits) * (Base(network) / SlotSize(network, bits))
  {
    var s, n := SlotSize(network, bits), Slots(network, bits);
    SlotsTile(network, bits);
    FloorBounds(network.address.value, Size(network));
    var k := network.address.value / Size(network);
    MulAssoc(s, n, k);
    DivUnique(Base(network), s, n * k);
  }

  lemma MulAssoc(a: int, b: int, c: int)
    ensures (a * b) * c == a * (b * c)
  {
  }

  /** A block the scan could grant: aligned, of the wanted length, and in the network. */
  ghost predicate Candidate(network: IpPrefix, bits: nat, q: IpPrefix) {
    q.bits == bits && q.address.value == Base(q) && Covers(network, q.address) && Covers(network, Top(q))
  }

  lemma {:induction false} SlotIsCandidate(network: IpPrefix, bits: nat, i: nat)
    requires FitsIn(bits, network) && i < Slots(network, bits)
    ensures Candidate(network, bits, SlotAt(network, bits, i))
  {
    SlotFacts(network, bits, i);
  }

  lemma {:induction false} CandidateIsSlot(network: IpPrefix, bits: nat, q: IpPrefix) returns (i: nat)
    requires FitsIn(bits, network) && Candidate(network, bits, q)
    ensures i < Slots(network, bits) && q == SlotAt(network, bits, i)
  {
    SlotsTile(network, bits);
    NetworkBaseInSlots(network, bits);
    BaseAligned(q);
    i := SlotIndex(Base(network), SlotSize(network, bits), Slots(network, bits), q.address.value);
    SlotBaseValue(network, bits, i);
  }

  // First fit

  /** Stepping past a slot lands on the next one, and past the last one outside the network. */
  lemma {:induction false} AfterSlot(network: IpPrefix, bits: nat, k: nat)
    requires FitsIn(bits, network) && k < Slots(network, bits)
    ensures var next := NextAddress(SlotAt(network, bits, k));
            if k + 1 < Slots(network, bits) then next == Some(SlotAt(network, bits, k + 1).address)
            else next.Some? ==> !Covers(network, next.value)
  {
    hide Pow2;
    SlotsEnd(network, bits);
    if k + 1 < Slots(network, bits) {
      SlotFacts(network, bits, k + 1);
    }
  }

  /** The scan, started at the `k`-th slot, stops at the first slot that nothing blocks. */
  lemma {:induction false} ScanFromSlot(network: IpPrefix, used: seq<IpPrefix>, bits: nat, k: nat)
    requires FitsIn(bits, network) && k < Slots(network, bits)
    ensures match Search(network, used, SlotAt(network, bits, k).address, bits)
            case None => forall i :: k <= i < Slots(network, bits) ==> Blocked(used, SlotAt(network, bits, i))
            case Some(p) =>
              exists j :: k <= j < Slots(network, bits) && p == SlotAt(network, bits, j) && !Blocked(used, p)
                && forall i :: k <= i < j ==> Blocked(used, SlotAt(network, bits, i))
    decreases Slots(network, bits) - k
  {
    hide Pow2, Blocked, Base, Size, Meets;
    SlotIsCandidate(network, bits, k);
    if Blocked(used, SlotAt(network, bits, k)) {
      AfterSlot(network, bits, k);
      if k + 1 < Slots(network, bits) {
        ScanFromSlot(network, used, bits, k + 1);
      }
    }
  }

  /**
    * First fit is exact: the granted block is a candidate that nothing blocks and no free candidate
    * lies below it, and the scan gives up exactly when every candidate is blocked.
    */
  lemma {:induction false} FirstFitExact(s: Allocator, bits: nat)
    requires s.network.address.value == Base(s.network) && FitsIn(bits, s.network)
    ensures s.AllocateSubnetLen(bits) == Err(NoAvailableSubnet)
            <==> forall q | Candidate(s.network, bits, q) :: Blocked(s.used, q)
    ensures s.AllocateSubnetLen(bits).Ok? ==>
              var (next, p) := s.AllocateSubnetLen(bits).value;
              && Candidate(s.network, bits, p) && !Blocked(s.used, p)
              && (forall q | Candidate(s.network, bits, q) && !Blocked(s.used, q) :: Base(p) <= Base(q))
              && next == Allocator(s.network, s.used + [p])
  {
    hide Pow2;
    var n := Slots(s.network, bits);
    ScanFromSlot(s.network, s.used, bits, 0);
    assert SlotAt(s.network, bits, 0).address == s.network.address;
    match Search(s.network, s.used, s.network.address, bits)
    case None =>
      forall q | Candidate(s.network, bits, q) ensures Blocked(s.used, q) {
        var i := CandidateIsSlot(s.network, bits, q);
      }
    case Some(p) =>
      var j :| 0 <= j < n && p == SlotAt(s.network, bits, j)
               && forall i :: 0 <= i < j ==> Blocked(s.used, SlotAt(s.network, bits, i));
      SlotIsCandidate(s.network, bits, j);
      forall q | Candidate(s.network, bits, q) && !Blocked(s.used, q) ensures Base(p) <= Base(q) {
        var i := CandidateIsSlot(s.network, bits, q);
        if j < i { SlotBaseOrder(s.network, bits, j, i); }
      }
  }

  // Runs

  datatype Request = ByLength(bits: nat) | Explicit(subnet: IpPrefix)

  /** One request; a refused one leaves the state alone. */
  function Step(s: Allocator, request: Request): Allocator {
    match request
    case ByLength(bits) => (match s.AllocateSubnetLen(bits) case Ok(grant) => grant.0 case Err(_) => s)
    case Explicit(subnet) => (match s.AllocateSubnet(subnet) case Ok(next) => next case Err(_) => s)
  }

  function Run(s: Allocator, requests: seq<Request>): Allocator {
    if requests == [] then s
    else Step(Run(s, requests[..|requests| - 1]), requests[|requests| - 1])
  }

  /** Blocks at different positions have no address in common. */
  ghost predicate PairwiseDisjoint(used: seq<IpPrefix>) {
    forall i, j :: 0 <= i < j < |used| ==> !Meets(used[i], used[j])
  }

  /** What `allocate_subnet` tests of a prefix: its own address and its last one. */
  predicate Accepted(network: IpPrefix, p: IpPrefix) {
    Covers(network, p.address) && Covers(network, Top(p))
  }

  ghost predicate Invariant(s: Allocator) {
    && s.network.address.value == Base(s.network)
    && PairwiseDisjoint(s.used)
    && forall i :: 0 <= i < |s.used| ==> Accepted(s.network, s.used[i])
  }

  /** In every reachable state the blocks are pairwise disjoint, of the network's family, and pass the tests. */
  lemma {:induction false} RunKeepsInvariant(network: IpPrefix, requests: seq<Request>)
    requires network.bits != 0
    ensures Invariant(Run(New(network).value, requests))
    ensures Run(New(network).value, requests).network == Masked(network)
  {
    if requests != [] {
      RunKeepsInvariant(network, requests[..|requests| - 1]);
      var s := Run(New(network).value, requests[..|requests| - 1]);
      StepKeepsInvariant(s, requests[|requests| - 1]);
    }
  }

  lemma {:induction false} StepKeepsInvariant(s: Allocator, request: Request)
    requires Invariant(s)
    ensures Invariant(Step(s, request)) && Step(s, request).network == s.network
  {
    match request
    case ByLength(bits) =>
      if FitsIn(bits, s.network) { FirstFitExact(s, bits); }
    case Explicit(_) =>
  }

  /**
    * The errors are exact: an explicit block is outside if its own address or its last one is, it overlaps if some
    * address is in it and in an allocated block, and otherwise it is granted; a length is refused if it does not fit.
    */
  lemma {:induction false} RefusedExactly(s: Allocator, subnet: IpPrefix, bits: nat)
    ensures s.AllocateSubnet(subnet) == Err(SubnetNotInNetwork) <==> !Accepted(s.network, subnet)
    ensures s.AllocateSubnet(subnet) == Err(SubnetOverlap)
            <==> && Accepted(s.network, subnet)
                 && exists i, a: IpAddr :: 0 <= i < |s.used| && Covers(s.used[i], a) && Covers(subnet, a)
    ensures s.AllocateSubnet(subnet).Err? ==> s.AllocateSubnet(subnet).error in {SubnetNotInNetwork, SubnetOverlap}
    ensures s.AllocateSubnet(subnet).Ok? ==> s.AllocateSubnet(subnet).value == s.(used := s.used + [subnet])
    ensures s.AllocateSubnetLen(bits) == Err(InvalidSubnetSize) <==> !FitsIn(bits, s.network)
    ensures s.AllocateSubnetLen(bits).Err? ==> s.AllocateSubnetLen(bits).error in {InvalidSubnetSize, NoAvailableSubnet}
  {
    hide Covers, Search;
    forall i | 0 <= i < |s.used| {
      MeetsIsIntersection(s.used[i], subnet);
    }
  }

  // Inside the network

  /** The whole block lies in the network. */
  ghost predicate Inside(network: IpPrefix, p: IpPrefix) {
    forall a: IpAddr :: Covers(p, a) ==> Covers(network, a)
  }

  /**
    * The two tests let a prefix reach below the network, but only one shorter than the network's:
    * an accepted block lies inside exactly when its length is at least the network's.
    */
  lemma {:induction false} AcceptedInsideIff(network: IpPrefix, p: IpPrefix)
    requires Accepted(network, p)
    ensures Inside(network, p) <==> p.bits >= network.bits
  {
    var w := BitLen(network.address.family);
    BlockInWord(p);
    if p.bits >= network.bits {
      BaseAligned(p);
      NetworkBaseInSlots(network, p.bits);
      AlignedBelow(Base(network), Size(p), p.address.value);
    } else {
      Pow2Strict(w - network.bits, w - p.bits);
      var base: IpAddr := Address(p.address.family, Base(p));
      assert Covers(p, base) && !Covers(network, base);
    }
  }

  lemma AlignedBelow(b: nat, s: nat, v: nat)
    requires s > 0 && b == s * (b / s) && b <= v
    ensures b <= v - v % s
  {
    FloorBounds(v, s);
    if v / s < b / s { MulLe(s, v / s + 1, b / s); } else { MulLe(s, b / s, v / s); }
  }

  lemma {:induction false} Pow2Strict(a: nat, b: nat)
    requires a < b
    ensures Pow2(a) < Pow2(b)
  {
    Pow2Monotone(a, b - 1);
  }

  /** 0.0.0.1/31 covers 0.0.0.0 as well, and yet the network 0.0.0.1/32 accepts it. */
  lemma {:induction false} ShorterPrefixEscapes()
    ensures var network := Prefix(Address(V4, 1), 32);
            var wider := Prefix(Address(V4, 1), 31);
            Accepted(network, wider) && !Inside(network, wider)
  {
    AcceptedInsideIff(Prefix(Address(V4, 1), 32), Prefix(Address(V4, 1), 31));
  }

  /** A prefix whose address is already masked never reaches out of the network that accepts it. */
  lemma {:induction false} MaskedIsInside(network: IpPrefix, p: IpPrefix)
    requires Accepted(network, p) && p.address.value == Base(p)
    ensures p.bits >= network.bits && Inside(network, p)
  {
    hide Pow2;
    var w := BitLen(network.address.family);
    if p.bits < network.bits { Pow2Strict(w - network.bits, w - p.bits); }
    AcceptedInsideIff(network, p);
  }

  // Conservation of addresses

  /** The addresses of a block, as numbers. */
  function Interval(low: nat, size: nat): (r: set<nat>)
    ensures forall a: nat :: a in r <==> low <= a < low + size
    ensures |r| == size
  {
    if size == 0 then {} else Interval(low, size - 1) + {low + size - 1}
  }

  function Addresses(used: seq<IpPrefix>): set<nat> {
    if used == [] then {} else Addresses(used[1..]) + Interval(Base(used[0]), Size(used[0]))
  }

  function TotalSize(used: seq<IpPrefix>): nat {
    if used == [] then 0 else TotalSize(used[1..]) + Size(used[0])
  }

  lemma {:induction false} AddressesFrom(used: seq<IpPrefix>, a: nat)
    requires a in Addresses(used)
    ensures exists i :: 0 <= i < |used| && a in Interval(Base(used[i]), Size(used[i]))
  {
    if a in Interval(Base(used[0]), Size(used[0])) {
    } else {
      AddressesFrom(used[1..], a);
      var i :| 0 <= i < |used[1..]| && a in Interval(Base(used[1..][i]), Size(used[1..][i]));
      assert used[1..][i] == used[i + 1];
    }
  }

  lemma {:induction false} ApartWhenDisjoint(p: IpPrefix, q: IpPrefix, a: nat)
    requires p.address.family == q.address.family && !Meets(p, q) && a in Interval(Base(q), Size(q))
    ensures a !in Interval(Base(p), Size(p))
  {
    hide Base, Size;
  }

  lemma {:induction false} DisjointSizesAdd(used: seq<IpPrefix>, family: Family)
    requires PairwiseDisjoint(used)
    requires forall i :: 0 <= i < |used| ==> used[i].address.family == family
    ensures |Addresses(used)| == TotalSize(used)
  {
    hide Pow2, Base, Size, Meets;
    if used != [] {
      var rest, first := used[1..], Interval(Base(used[0]), Size(used[0]));
      assert forall i :: 0 <= i < |rest| ==> rest[i] == used[i + 1];
      DisjointSizesAdd(rest, family);
      forall a | a in Addresses(rest) ensures a !in first {
        AddressesFrom(rest, a);
        var i :| 0 <= i < |rest| && a in Interval(Base(rest[i]), Size(rest[i]));
        ApartWhenDisjoint(used[0], used[i + 1], a);
      }
      assert Addresses(rest) !! first;
    }
  }

  /**
    * Blocks that are masked or no shorter than the network never hold more addresses, together, than the network
    * has.
    */
  lemma {:induction false} GrantsFitNetwork(s: Allocator)
    requires Invariant(s)
    requires forall i :: 0 <= i < |s.used| ==>
               s.used[i].bits >= s.network.bits || s.used[i].address.value == Base(s.used[i])
    ensures TotalSize(s.used) <= Size(s.network)
  {
    hide Pow2;
    DisjointSizesAdd(s.used, s.network.address.family);
    var all := Interval(Base(s.network), Size(s.network));
    forall a | a in Addresses(s.used) ensures a in all {
      AddressesFrom(s.used, a);
      var i :| 0 <= i < |s.used| && a in Interval(Base(s.used[i]), Size(s.used[i]));
      InsideEitherWay(s.network, s.used[i]);
      BlockInWord(s.used[i]);
      var address: IpAddr := Address(s.network.address.family, a);
      assert Covers(s.used[i], address);
    }
    SubsetSize(Addresses(s.used), all);
  }

  lemma {:induction false} InsideEitherWay(network: IpPrefix, p: IpPrefix)
    requires Accepted(network, p) && (p.bits >= network.bits || p.address.value == Base(p))
    ensures Inside(network, p)
  {
    AcceptedInsideIff(network, p);
    if p.address.value == Base(p) { MaskedIsInside(network, p); }
  }

  lemma {:induction false} SubsetSize(small: set<nat>, large: set<nat>)
    requires small <= large
    ensures |small| <= |large|
  {
    assert large == small + (large - small);
  }

  // Rebuilding

  lemma {:induction false} DistinctPositions(used: seq<IpPrefix>, p: IpPrefix)
    requires PairwiseDisjoint(used)
    ensures multiset(used)[p] <= 1
  {
    if |used| > 0 {
      var front, last := used[..|used| - 1], used[|used| - 1];
      assert used == front + [last];
      DistinctPositions(front, p);
      assert forall i :: 0 <= i < |front| ==> !Meets(used[i], last);
    }
  }

  /** Disjointness does not depend on the order of the list. */
  lemma {:induction false} DisjointInAnyOrder(used: seq<IpPrefix>, shuffled: seq<IpPrefix>)
    requires PairwiseDisjoint(used) && multiset(shuffled) == multiset(used)
    ensures PairwiseDisjoint(shuffled)
  {
    forall i, j | 0 <= i < j < |shuffled| ensures !Meets(shuffled[i], shuffled[j]) {
      var p, q := shuffled[i], shuffled[j];
      assert p in multiset(shuffled) && q in multiset(shuffled);
      assert p in used && q in used;
      if p == q {
        DistinctPositions(used, p);
        TwoPositions(shuffled, i, j);
      }
    }
  }

  lemma {:induction false} TwoPositions(s: seq<IpPrefix>, i: nat, j: nat)
    requires i < j < |s| && s[i] == s[j]
    ensures multiset(s)[s[i]] >= 2
  {
    assert s == s[..j] + [s[j]] + s[j + 1..];
    assert s[i] in s[..j];
  }

  /** Replaying a reachable allocation list, in any order, is accepted in full and rebuilds that list. */
  lemma {:induction false} RebuildSucceeds(network: IpPrefix, requests: seq<Request>, shuffled: seq<IpPrefix>)
    requires network.bits != 0
    ensures multiset(shuffled) == multiset(Run(New(network).value, requests).used) ==>
              WithAllocated(network, shuffled) == Ok(Allocator(Masked(network), shuffled))
  {
    if multiset(shuffled) != multiset(Run(New(network).value, requests).used) {
      return;
    }
    var s := Run(New(network).value, requests);
    RunKeepsInvariant(network, requests);
    DisjointInAnyOrder(s.used, shuffled);
    forall i | 0 <= i < |shuffled| ensures Accepted(s.network, shuffled[i]) {
      assert shuffled[i] in multiset(shuffled);
      assert shuffled[i] in s.used;
    }
    ReplayAll(Masked(network), shuffled, 0);
    assert shuffled[..0] == [] && shuffled[0..] == shuffled;
  }

  lemma {:induction false} ReplayAll(network: IpPrefix, subnets: seq<IpPrefix>, k: nat)
    requires k <= |subnets| && PairwiseDisjoint(subnets)
    requires forall i :: 0 <= i < |subnets| ==> Accepted(network, subnets[i])
    ensures Allocator(network, subnets[..k]).Replay(subnets[k..]) == Ok(Allocator(network, subnets))
    decreases |subnets| - k
  {
    if k == |subnets| {
      assert subnets[..k] == subnets;
    } else {
      ReplayAll(network, subnets, k + 1);
      assert subnets[..k + 1] == subnets[..k] + [subnets[k]];
      assert subnets[k..][1..] == subnets[k + 1..];
    }
  }

  // Capacity

  /** The state after `n` slots were granted from the bottom. */
  function Filled(network: IpPrefix, bits: nat, n: nat): Allocator
    requires FitsIn(bits, network) && n <= Slots(network, bits)
  {
    Allocator(network, seq(n, i requires 0 <= i < n => SlotAt(network, bits, i)))
  }

  lemma {:induction false} SlotsDisjoint(network: IpPrefix, bits: nat, i: nat, j: nat)
    requires FitsIn(bits, network) && i < Slots(network, bits) && j < Slots(network, bits)
    ensures Meets(SlotAt(network, bits, i), SlotAt(network, bits, j)) <==> i == j
  {
    if i < j { SlotBaseOrder(network, bits, i, j); }
    if j < i { SlotBaseOrder(network, bits, j, i); }
  }

  /** With the lowest `n` slots gone the next grant is the `n`-th one, until none is left. */
  lemma {:induction false} NextGrant(network: IpPrefix, bits: nat, n: nat)
    requires network.address.value == Base(network) && FitsIn(bits, network) && n <= Slots(network, bits)
    ensures Filled(network, bits, n).AllocateSubnetLen(bits) ==
            if n < Slots(network, bits) then Ok((Filled(network, bits, n + 1), SlotAt(network, bits, n)))
            else Err(NoAvailableSubnet)
  {
    var s := Filled(network, bits, n);
    FirstFitExact(s, bits);
    forall i | 0 <= i < Slots(network, bits) ensures Blocked(s.used, SlotAt(network, bits, i)) <==> i < n {
      forall k | 0 <= k < n ensures Meets(s.used[k], SlotAt(network, bits, i)) <==> k == i {
        SlotsDisjoint(network, bits, k, i);
      }
      if i < n { assert Meets(s.used[i], SlotAt(network, bits, i)); }
    }
    if n < Slots(network, bits) {
      SlotIsCandidate(network, bits, n);
      var p := s.AllocateSubnetLen(bits).value.1;
      var j := CandidateIsSlot(network, bits, p);
      if n < j { SlotBaseOrder(network, bits, n, j); }
      assert Filled(network, bits, n + 1).used == s.used + [p];
    } else {
      forall q | Candidate(network, bits, q) ensures Blocked(s.used, q) {
        var i := CandidateIsSlot(network, bits, q);
      }
    }
  }

  function Repeat(bits: nat, n: nat): seq<Request> {
    if n == 0 then [] else Repeat(bits, n - 1) + [ByLength(bits)]
  }

  /** The least of the two. */
  function Capped(n: nat, all: nat): nat {
    if n <= all then n else all
  }

  lemma {:induction false} FillStep(network: IpPrefix, bits: nat, n: nat)
    requires network.address.value == Base(network) && FitsIn(bits, network)
    ensures var all := Slots(network, bits);
            Step(Filled(network, bits, Capped(n, all)), ByLength(bits)) == Filled(network, bits, Capped(n + 1, all))
  {
    NextGrant(network, bits, Capped(n, Slots(network, bits)));
  }

  lemma {:induction false} FillsFromBelow(network: IpPrefix, bits: nat, n: nat)
    requires network.address.value == Base(network) && FitsIn(bits, network)
    ensures Run(Allocator(network, []), Repeat(bits, n)) == Filled(network, bits, Capped(n, Slots(network, bits)))
  {
    hide Pow2;
    if n > 0 {
      FillsFromBelow(network, bits, n - 1);
      FillStep(network, bits, n - 1);
      RunLast(Allocator(network, []), Repeat(bits, n - 1), ByLength(bits));
    }
  }

  lemma {:induction false} RunLast(s: Allocator, requests: seq<Request>, last: Request)
    ensures Run(s, requests + [last]) == Step(Run(s, requests), last)
  {
    assert (requests + [last])[..|requests|] == requests;
  }

  /** A fresh allocator grants exactly `Slots` blocks of one length, the `n`-th at `base + n * size`, then fails. */
  lemma {:induction false} Capacity(network: IpPrefix, bits: nat, n: nat)
    requires network.bits != 0 && FitsIn(bits, network)
    ensures var answer := Run(New(network).value, Repeat(bits, n)).AllocateSubnetLen(bits);
            if n < Slots(network, bits) then
              answer.Ok? && answer.value.1.address.value == Base(network) + SlotSize(network, bits) * n
            else answer == Err(NoAvailableSubnet)
  {
    hide Pow2;
    FillsFromBelow(Masked(network), bits, n);
    NextGrant(Masked(network), bits, Capped(n, Slots(network, bits)));
    SlotBaseValue(Masked(network), bits, n);
  }
}
