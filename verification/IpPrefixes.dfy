/** CIDR prefixes: masks and shifts, and the intervals of addresses they stand for. */
module IpPrefixes {
  import opened Bits

  datatype Family = V4 | V6

  function BitLen(family: Family): nat {
    match family
    case V4 => 32
    case V6 => 128
  }

  /** An address as its `u128` value; an IPv4 value keeps to 32 bits. */
  datatype RawAddress = Address(family: Family, value: nat)

  type IpAddr = a: RawAddress | a.value < Pow2(BitLen(a.family)) witness Address(V4, 0)

  /** A prefix keeps the address it was given, host bits included. */
  datatype RawPrefix = Prefix(address: IpAddr, bits: nat)

  type IpPrefix = p: RawPrefix | p.bits <= BitLen(p.address.family) witness Prefix(Address(V4, 0), 0)

  function AddressMask(family: Family): nat {
    Pow2(BitLen(family)) - 1
  }

  function PrefixMask(family: Family, bits: nat): nat
    requires bits <= BitLen(family)
  {
    if bits == 0 then 0
    else ShiftLeft(AddressMask(family), BitLen(family) - bits, BitLen(family))
  }

  /** The number of addresses a prefix covers. */
  function Size(p: IpPrefix): (s: nat)
    ensures s >= 1
  {
    Pow2(BitLen(p.address.family) - p.bits)
  }

  /** The lowest address a prefix covers, by arithmetic instead of masks. */
  function Base(p: IpPrefix): (b: nat)
    ensures b <= p.address.value < b + Size(p)
  {
    FloorBounds(p.address.value, Size(p));
    p.address.value - p.address.value % Size(p)
  }

  /** The interval of addresses that a prefix denotes. */
  predicate Covers(p: IpPrefix, a: IpAddr) {
    a.family == p.address.family && Base(p) <= a.value < Base(p) + Size(p)
  }

  /** The highest address a prefix covers. */
  function Top(p: IpPrefix): (r: IpAddr)
    ensures Covers(p, r)
  {
    BlockInWord(p);
    Address(p.address.family, Base(p) + Size(p) - 1)
  }

  function NetworkValue(p: IpPrefix): (r: nat)
    ensures r == Base(p)
  {
    hide Pow2;
    MaskIsLeadingOnes(p.address.family, p.bits);
    AndPrefixMask(p.address.value, BitLen(p.address.family), BitLen(p.address.family) - p.bits);
    And(p.address.value, PrefixMask(p.address.family, p.bits))
  }

  function Masked(p: IpPrefix): (r: IpPrefix)
    ensures r.bits == p.bits && r.address == Address(p.address.family, Base(p))
    ensures Base(r) == Base(p) && Size(r) == Size(p)
  {
    BaseAligned(p);
    Prefix(Address(p.address.family, NetworkValue(p)), p.bits)
  }

  predicate Contains(p: IpPrefix, a: IpAddr)
    ensures Contains(p, a) <==> Covers(p, a)
  {
    hide Pow2, And, PrefixMask, NetworkValue, Base, Size;
    p.address.family == a.family
    && (ContainsIsInterval(p, a); true)
    && And(a.value, PrefixMask(p.address.family, p.bits)) == NetworkValue(p)
  }

  /** The complement of the prefix mask, taken in a `wide`-bit word. */
  function HostMask(family: Family, bits: nat, wide: nat): (r: nat)
    requires bits <= BitLen(family) <= wide
    ensures r == Pow2(BitLen(family) - bits) - 1
  {
    HostMaskIsLowOnes(family, bits, wide);
    And(Pow2(wide) - 1 - PrefixMask(family, bits), AddressMask(family))
  }

  function LastValue(p: IpPrefix, wide: nat): (r: nat)
    requires BitLen(p.address.family) <= wide
    ensures r == Base(p) + Size(p) - 1
  {
    hide Pow2, And, Or, PrefixMask, NetworkValue, HostMask;
    OrHostOnes(p.address.value, BitLen(p.address.family), BitLen(p.address.family) - p.bits);
    Or(NetworkValue(p), HostMask(p.address.family, p.bits, wide))
  }

  function LastAddress(p: IpPrefix): (r: IpAddr)
    ensures r == Top(p)
  {
    BlockInWord(p);
    Address(p.address.family, LastValue(p, BitLen(V6)))
  }

  /** The two intervals share an address. */
  predicate Meets(p: IpPrefix, q: IpPrefix) {
    p.address.family == q.address.family && Base(p) < Base(q) + Size(q) && Base(q) < Base(p) + Size(p)
  }

  lemma {:induction false} MeetsIsIntersection(p: IpPrefix, q: IpPrefix)
    ensures Meets(p, q) <==> exists a: IpAddr :: Covers(p, a) && Covers(q, a)
  {
    if Meets(p, q) {
      BlockInWord(p);
      var a: IpAddr := Address(p.address.family, if Base(p) <= Base(q) then Base(q) else Base(p));
      assert Covers(p, a) && Covers(q, a);
    }
  }

  predicate Overlaps(p: IpPrefix, q: IpPrefix)
    ensures Overlaps(p, q) <==> Meets(p, q)
  {
    (p.address.family == q.address.family && Contains(p, Masked(q).address))
    || (p.address.family == q.address.family && Contains(q, Masked(p).address))
  }

  // Arithmetic of masks

  lemma {:induction false} MaskIsLeadingOnes(family: Family, bits: nat)
    requires bits <= BitLen(family)
    ensures Pow2(BitLen(family) - bits) <= Pow2(BitLen(family))
    ensures PrefixMask(family, bits) == Pow2(BitLen(family)) - Pow2(BitLen(family) - bits)
  {
    hide Pow2;
    ShiftOnes(BitLen(family) - bits, BitLen(family));
  }

  /** Complementing a prefix mask in a `wide`-bit word and cutting it to the family leaves the host bits. */
  lemma {:induction false} HostMaskIsLowOnes(family: Family, bits: nat, wide: nat)
    requires bits <= BitLen(family) <= wide
    ensures PrefixMask(family, bits) <= Pow2(wide) - 1
    ensures And(Pow2(wide) - 1 - PrefixMask(family, bits), AddressMask(family)) == Pow2(BitLen(family) - bits) - 1
  {
    hide Pow2;
    MaskIsLeadingOnes(family, bits);
    AndComplementMask(BitLen(family), wide, BitLen(family) - bits);
  }

  lemma {:induction false} BaseAligned(p: IpPrefix)
    ensures Base(p) % Size(p) == 0
  {
    var s := Size(p);
    FloorBounds(p.address.value, s);
    MulMod(s, p.address.value / s);
  }

  lemma {:induction false} ContainsIsInterval(p: IpPrefix, a: IpAddr)
    requires a.family == p.address.family
    ensures And(a.value, PrefixMask(p.address.family, p.bits)) == NetworkValue(p) <==> Covers(p, a)
  {
    hide Pow2, And, PrefixMask, NetworkValue;
    MaskIsLeadingOnes(p.address.family, p.bits);
    AndPrefixMask(a.value, BitLen(a.family), BitLen(a.family) - p.bits);
    BaseAligned(p);
    var s := Size(p);
    FloorBounds(p.address.value, s);
    FloorBounds(a.value, s);
    var k := p.address.value / s;
    if Covers(p, a) { DivUnique(a.value, s, k); }
  }

  /** A block never reaches past the top of its address space. */
  lemma {:induction false} BlockInWord(p: IpPrefix)
    ensures Base(p) + Size(p) <= Pow2(BitLen(p.address.family))
  {
    FloorFitsWord(p.address.value, BitLen(p.address.family), BitLen(p.address.family) - p.bits);
  }
}
