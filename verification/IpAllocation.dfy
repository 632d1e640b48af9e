/** The in-memory first-fit allocator: its state as a value, and the class that updates it in place. */
module IpAllocation {
  import opened Wrappers
  import opened Bits
  import opened IpPrefixes

  datatype IpError =
    | InvalidNetwork
    | InvalidSubnetSize
    | SubnetNotInNetwork
    | SubnetOverlap
    | NoAvailableSubnet
    | AllocatedSubnet(subnet: IpPrefix, source: IpError)

  /** Some allocated block meets `q`. */
  predicate Blocked(used: seq<IpPrefix>, q: IpPrefix) {
    exists i :: 0 <= i < |used| && Meets(used[i], q)
  }

  function New(network: IpPrefix): Result<Allocator, IpError> {
    if network.bits == 0 then Err(InvalidNetwork) else Ok(Allocator(Masked(network), []))
  }

  /** The address after the candidate block, if the family still has one. */
  function NextAddress(subnet: IpPrefix): (r: Option<IpAddr>)
    ensures r.Some? ==> r.value.value > subnet.address.value
  {
    var next := Base(subnet) + Size(subnet);
    if next < Pow2(BitLen(subnet.address.family)) then Some(Address(subnet.address.family, next)) else None
  }

  /** The scan from `address` upwards for the first candidate that no allocated block meets. */
  function Search(network: IpPrefix, used: seq<IpPrefix>, address: IpAddr, bits: nat): Option<IpPrefix>
    requires bits <= BitLen(address.family)
    decreases Pow2(BitLen(address.family)) - address.value
  {
    if !Covers(network, address) then None
    else
      var subnet := Prefix(address, bits);
      if !Blocked(used, subnet) then Some(subnet)
      else
        var next := NextAddress(subnet);
        if next.None? then None else Search(network, used, next.value, bits)
  }

  /** The state of the allocator, with what each request makes of it. */
  datatype Allocator = Allocator(network: IpPrefix, used: seq<IpPrefix>) {

    function AllocateSubnet(subnet: IpPrefix): Result<Allocator, IpError> {
      if !Covers(network, subnet.address) || !Covers(network, Top(subnet)) then Err(SubnetNotInNetwork)
      else if Blocked(used, subnet) then Err(SubnetOverlap)
      else Ok(Allocator(network, used + [subnet]))
    }

    function AllocateSubnetLen(bits: nat): Result<(Allocator, IpPrefix), IpError> {
      if bits < network.bits || bits > BitLen(network.address.family) then Err(InvalidSubnetSize)
      else
        match Search(network, used, network.address, bits)
        case Some(subnet) => Ok((Allocator(network, used + [subnet]), subnet))
        case None => Err(NoAvailableSubnet)
    }

    function Replay(subnets: seq<IpPrefix>): Result<Allocator, IpError>
      decreases |subnets|
    {
      if subnets == [] then Ok(this)
      else
        match AllocateSubnet(subnets[0])
        case Ok(next) => next.Replay(subnets[1..])
        case Err(error) => Err(AllocatedSubnet(subnets[0], error))
    }
  }

  function WithAllocated(network: IpPrefix, subnets: seq<IpPrefix>): Result<Allocator, IpError> {
    match New(network)
    case Ok(empty) => empty.Replay(subnets)
    case Err(error) => Err(error)
  }

  /** The allocator as the program holds it. */
  class Ipam {
    var network: IpPrefix
    var used: seq<IpPrefix>

    ghost function View(): Allocator
      reads this
    {
      Allocator(network, used)
    }

    constructor (network: IpPrefix)
      requires network.bits != 0
      ensures New(network) == Ok(View())
    {
      this.network := Masked(network);
      this.used := [];
    }

    method AnyOverlaps(subnet: IpPrefix) returns (found: bool)
      ensures found == Blocked(used, subnet)
    {
      hide Pow2;
      for i := 0 to |used|
        invariant forall j :: 0 <= j < i ==> !Meets(used[j], subnet)
      {
        if Overlaps(used[i], subnet) {
          return true;
        }
      }
      found := false;
    }

    method AllocateSubnetLen(bits: nat) returns (r: Result<IpPrefix, IpError>)
      modifies this`used
      ensures match old(View()).AllocateSubnetLen(bits)
              case Ok(grant) => View() == grant.0 && r == Ok(grant.1)
              case Err(error) => View() == old(View()) && r == Err(error)
    {
      hide Pow2, Covers, Base, Size, Blocked, Contains, LastAddress, And, Or;
      if bits < network.bits || bits > BitLen(network.address.family) {
        return Err(InvalidSubnetSize);
      }
      var address: IpAddr := network.address;
      while Contains(network, address)
        invariant address.family == network.address.family
        invariant used == old(used)
        invariant Search(network, used, network.address, bits) == Search(network, used, address, bits)
        decreases Pow2(BitLen(address.family)) - address.value
      {
        var subnet := Prefix(address, bits);
        var taken := AnyOverlaps(subnet);
        if !taken {
          used := used + [subnet];
          return Ok(subnet);
        }
        var last := LastAddress(subnet);
        if last.value + 1 > AddressMask(address.family) {
          break;
        }
        address := Address(address.family, last.value + 1);
      }
      r := Err(NoAvailableSubnet);
    }

    method AllocateSubnet(subnet: IpPrefix) returns (r: Result<(), IpError>)
      modifies this`used
      ensures match old(View()).AllocateSubnet(subnet)
              case Ok(next) => View() == next && r == Ok(())
              case Err(error) => View() == old(View()) && r == Err(error)
    {
      var last := LastAddress(subnet);
      if !Contains(network, subnet.address) || !Contains(network, last) {
        return Err(SubnetNotInNetwork);
      }
      var taken := AnyOverlaps(subnet);
      if taken {
        return Err(SubnetOverlap);
      }
      used := used + [subnet];
      r := Ok(());
    }
  }

  /** A new allocator for any network, or the refusal of one that covers everything. */
  method Create(network: IpPrefix) returns (r: Result<Ipam, IpError>)
    ensures match New(network)
            case Ok(state) => r.Ok? && fresh(r.value) && r.value.View() == state
            case Err(error) => r == Err(error)
    ensures r.Ok? ==> network.bits != 0 && r.value.used == [] && r.value.network == Masked(network)
  {
    if network.bits == 0 {
      return Err(InvalidNetwork);
    }
    var allocator := new Ipam(network);
    r := Ok(allocator);
  }

  method BuildWithAllocated(network: IpPrefix, subnets: seq<IpPrefix>) returns (r: Result<Ipam, IpError>)
    ensures match WithAllocated(network, subnets)
            case Ok(state) => r.Ok? && fresh(r.value) && r.value.View() == state
            case Err(error) => r == Err(error)
  {
    var created := Create(network);
    if created.Err? {
      return Err(created.error);
    }
    var allocator := created.value;
    var i := 0;
    while i < |subnets|
      invariant 0 <= i <= |subnets|
      invariant WithAllocated(network, subnets) == allocator.View().Replay(subnets[i..])
      invariant fresh(allocator)
    {
      var outcome := allocator.AllocateSubnet(subnets[i]);
      if outcome.Err? {
        return Err(AllocatedSubnet(subnets[i], outcome.error));
      }
      i := i + 1;
    }
    r := Ok(allocator);
  }
}
