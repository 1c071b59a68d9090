/** The pool of UE addresses: its construction from a subnet, and the queue it is afterwards. */
module IpPool {
  import opened Wrappers
  import opened Bits

  // ----- The pool as a value -----

  datatype Pool<!A> = Pool(free: seq<A>, inventory: map<nat, A>)

  datatype Op = Alloc(seid: nat) | Free(seid: nat)

  function Allocated<A>(p: Pool<A>, seid: nat): (p': Pool<A>) {
    if seid in p.inventory || p.free == [] then p
    else Pool(p.free[1..], p.inventory[seid := p.free[0]])
  }

  function Released<A>(p: Pool<A>, seid: nat): (p': Pool<A>) {
    if seid !in p.inventory then p
    else Pool(p.free + [p.inventory[seid]], p.inventory - {seid})
  }

  function Step<A>(p: Pool<A>, op: Op): (p': Pool<A>) {
    match op
    case Alloc(seid) => Allocated(p, seid)
    case Free(seid) => Released(p, seid)
  }

  function Run<A>(p: Pool<A>, ops: seq<Op>): (p': Pool<A>) {
    if ops == [] then p else Step(Run(p, ops[..|ops| - 1]), ops[|ops| - 1])
  }

  /** Free addresses and held ones partition a set: each address is free once or held once. */
  ghost predicate Partitions<A(!new)>(p: Pool<A>, all: set<A>) {
    && (forall i, j :: 0 <= i < j < |p.free| ==> p.free[i] != p.free[j])
    && (forall s, t :: s in p.inventory && t in p.inventory && s != t ==> p.inventory[s] != p.inventory[t])
    && (forall s :: s in p.inventory ==> p.inventory[s] !in p.free)
    && (forall a :: a in all <==> a in p.free || exists s :: s in p.inventory && p.inventory[s] == a)
  }

  lemma AllocKeepsPartition<A(!new)>(p: Pool<A>, all: set<A>, seid: nat)
    requires Partitions(p, all)
    ensures Partitions(Allocated(p, seid), all)
  {
    if seid !in p.inventory && p.free != [] {
      var q := Allocated(p, seid);
      assert p.free == [p.free[0]] + q.free;
      forall a
        ensures a in all <==> a in q.free || exists s :: s in q.inventory && q.inventory[s] == a
      {
        if a == p.free[0] {
          assert q.inventory[seid] == a;
        } else if s :| s in p.inventory && p.inventory[s] == a {
          assert q.inventory[s] == a;
        }
      }
    }
  }

  lemma ReleaseKeepsPartition<A(!new)>(p: Pool<A>, all: set<A>, seid: nat)
    requires Partitions(p, all)
    ensures Partitions(Released(p, seid), all)
  {
    if seid in p.inventory {
      var q := Released(p, seid);
      forall a
        ensures a in all <==> a in q.free || exists s :: s in q.inventory && q.inventory[s] == a
      {
        assert a in q.free <==> a in p.free || a == p.inventory[seid];
        if s :| s in p.inventory && p.inventory[s] == a && s != seid {
          assert q.inventory[s] == a;
        }
      }
    }
  }

  /** Conservation: over any run the free and the held addresses partition the same set. */
  lemma {:induction false} RunKeepsPartition<A(!new)>(p: Pool<A>, all: set<A>, ops: seq<Op>)
    requires Partitions(p, all)
    ensures Partitions(Run(p, ops), all)
  {
    if ops != [] {
      var n := |ops| - 1;
      RunKeepsPartition(p, all, ops[..n]);
      match ops[n]
      case Alloc(seid) => AllocKeepsPartition(Run(p, ops[..n]), all, seid);
      case Free(seid) => ReleaseKeepsPartition(Run(p, ops[..n]), all, seid);
    }
  }

  /** A session keeps its address until it is released. */
  lemma {:induction false} AddressIsKept<A>(p: Pool<A>, ops: seq<Op>, seid: nat)
    requires seid in p.inventory && Free(seid) !in ops
    ensures seid in Run(p, ops).inventory && Run(p, ops).inventory[seid] == p.inventory[seid]
  {
    if ops != [] {
      var n := |ops| - 1;
      assert ops[n] in ops;
      AddressIsKept(p, ops[..n], seid);
    }
  }

  /** How many operations of a run take an address out of the queue. */
  function FreshAllocs<A>(p: Pool<A>, ops: seq<Op>): (n: nat) {
    if ops == [] then 0
    else
      var before, last := Run(p, ops[..|ops| - 1]), ops[|ops| - 1];
      FreshAllocs(p, ops[..|ops| - 1]) +
      if last.Alloc? && last.seid !in before.inventory && before.free != [] then 1 else 0
  }

  /** An address in the queue moves up by one with each fresh allocation, and by nothing else. */
  lemma {:induction false} QueuePosition<A>(p: Pool<A>, ops: seq<Op>, i: nat)
    requires i < |p.free| && FreshAllocs(p, ops) <= i
    ensures i - FreshAllocs(p, ops) < |Run(p, ops).free|
    ensures Run(p, ops).free[i - FreshAllocs(p, ops)] == p.free[i]
  {
    if ops != [] {
      QueuePosition(p, ops[..|ops| - 1], i);
    }
  }

  /**
   First in, first out: an address released while n others are free is still free after any run
   with at most n fresh allocations.
   */
  lemma ReleasedAddressWaits<A>(p: Pool<A>, seid: nat, ops: seq<Op>)
    requires seid in p.inventory
    requires FreshAllocs(Released(p, seid), ops) <= |p.free|
    ensures p.inventory[seid] in Run(Released(p, seid), ops).free
  {
    QueuePosition(Released(p, seid), ops, |p.free|);
  }

  // ----- The pool as an object -----

  class IPPool<A(==)> {
    var freePool: seq<A>
    var inventory: map<nat, A>

    function State(): (p: Pool<A>)
      reads this
    {
      Pool(freePool, inventory)
    }

    constructor (addresses: seq<A>)
      ensures State() == Pool(addresses, map[])
    {
      freePool, inventory := addresses, map[];
    }

    method LookupOrAllocIP(seid: nat) returns (ip: Option<A>)
      modifies this
      ensures State() == Allocated(old(State()), seid)
      ensures ip.Some? ==> seid in inventory && inventory[seid] == ip.value
      ensures ip.None? <==> seid !in old(inventory) && old(freePool) == []
    {
      if seid in inventory {
        return Some(inventory[seid]);
      }
      if |freePool| == 0 {
        return None;
      }
      var address := freePool[0];
      freePool := freePool[1..];
      inventory := inventory[seid := address];
      return Some(address);
    }

    method Release(seid: nat) returns (ok: bool)
      modifies this
      ensures State() == Released(old(State()), seid)
      ensures ok <==> seid in old(inventory)
    {
      if seid !in inventory {
        return false;
      }
      var address := inventory[seid];
      inventory := inventory - {seid};
      freePool := freePool + [address];
      return true;
    }
  }

  // ----- Addresses -----

  type Byte = b: nat | b < 256

  type IP = seq<Byte>

  /** An address as a number, most significant byte first. */
  function Val(ip: IP): (v: nat) {
    if ip == [] then 0 else 256 * Val(ip[..|ip| - 1]) + ip[|ip| - 1]
  }

  function Pow256(n: nat): (r: nat)
    ensures r > 0
  {
    if n == 0 then 1 else 256 * Pow256(n - 1)
  }

  lemma {:induction false} ValBound(ip: IP)
    ensures Val(ip) < Pow256(|ip|)
  {
    if ip != [] {
      ValBound(ip[..|ip| - 1]);
    }
  }

  /** Distinct addresses of one length are distinct numbers. */
  lemma {:induction false} ValInjective(a: IP, b: IP)
    requires |a| == |b| && Val(a) == Val(b)
    ensures a == b
  {
    if a != [] {
      var n := |a| - 1;
      ValInjective(a[..n], b[..n]);
      assert a == a[..n] + [a[n]] && b == b[..n] + [b[n]];
    }
  }

  /** The successor of an address, with the carry the byte loop performs. */
  function Inc(ip: IP): (r: IP)
    ensures |r| == |ip|
  {
    if ip == [] then []
    else
      var n := |ip| - 1;
      if ip[n] == 255 then Inc(ip[..n]) + [0] else ip[..n] + [ip[n] + 1]
  }

  /** It is the next number, wrapping from all ones to zero. */
  lemma {:induction false} IncIsSuccessor(ip: IP)
    ensures Val(Inc(ip)) == if Val(ip) + 1 == Pow256(|ip|) then 0 else Val(ip) + 1
  {
    if ip != [] {
      var n := |ip| - 1;
      var r := Inc(ip);
      ValBound(ip[..n]);
      if ip[n] == 255 {
        IncIsSuccessor(ip[..n]);
        assert r[..n] == Inc(ip[..n]);
      } else {
        assert r[..n] == ip[..n];
      }
    }
  }

  method IncInPlace(ip: array<Byte>)
    modifies ip
    ensures ip[..] == Inc(old(ip[..]))
  {
    var j := ip.Length - 1;
    ghost var was := ip[..];
    assert was[..ip.Length] == was;
    while j >= 0
      invariant -1 <= j < ip.Length
      invariant ip[..j + 1] == was[..j + 1]
      invariant Inc(was) == Inc(was[..j + 1]) + ip[j + 1..]
    {
      IncPrefix(was, j);
      ghost var tail := ip[j + 1..];
      assert ip[j] == ip[..j + 1][j];
      var next: int := ip[j];
      ip[j] := (next + 1) % 256;
      assert ip[j..] == [ip[j]] + tail;
      assert ip[..j] == was[..j];
      if ip[j] > 0 {
        assert ip[..] == ip[..j] + [ip[j]] + tail;
        return;
      }
      j := j - 1;
    }
    assert ip[..] == ip[0..];
  }

  lemma IncPrefix(ip: IP, j: nat)
    requires j < |ip|
    ensures ip[j] == 255 ==> Inc(ip[..j + 1]) == Inc(ip[..j]) + [0]
    ensures ip[j] != 255 ==> Inc(ip[..j + 1]) == ip[..j] + [ip[j] + 1]
  {
    assert ip[..j + 1][..j] == ip[..j];
  }

  // ----- Subnets -----

  /** Byte i of the mask of a prefix length. */
  function MaskByte(prefix: nat, i: nat): (m: Byte) {
    if prefix >= 8 * i + 8 then 255
    else if prefix <= 8 * i then 0
    else
      Pow2Values();
      Pow2Monotone(8 * i + 8 - prefix, 8);
      256 - Pow2(8 * i + 8 - prefix)
  }

  /** The address with every bit past the prefix cleared. */
  function Masked(ip: IP, prefix: nat): (r: IP)
    ensures |r| == |ip|
    ensures forall i :: 0 <= i < |ip| ==> r[i] == And(ip[i], MaskByte(prefix, i))
  {
    seq(|ip|, i requires 0 <= i < |ip| => And(ip[i], MaskByte(prefix, i)))
  }

  predicate Contains(net: IP, prefix: nat, ip: IP) {
    |net| == |ip| && forall i :: 0 <= i < |ip| ==> And(net[i], MaskByte(prefix, i)) == And(ip[i], MaskByte(prefix, i))
  }

  lemma MaskedByte(x: Byte, prefix: nat, i: nat)
    ensures prefix >= 8 * i + 8 ==> And(x, MaskByte(prefix, i)) == x
    ensures prefix <= 8 * i ==> And(x, MaskByte(prefix, i)) == 0
    ensures 8 * i < prefix <= 8 * i + 8 ==> And(x, MaskByte(prefix, i)) == Rounded(x, 8 * i + 8 - prefix)
  {
    if prefix >= 8 * i + 8 {
      Pow2Values();
      AndAllOnes(x, 8);
    } else if 8 * i < prefix {
      PartlyMasked(x, 8 * i + 8 - prefix);
    }
  }

  lemma PartlyMasked(x: Byte, h: nat)
    requires h < 8
    ensures Pow2(h) <= 256 && And(x, 256 - Pow2(h)) == Rounded(x, h)
  {
    Pow2Values();
    AndPrefixMask(x, h, 8);
    RoundedIs(x, h);
  }

  lemma MultipleOfByte(v: nat, h: nat)
    requires h <= 8
    ensures (256 * v) % Pow2(h) == 0
  {
    Pow2Values();
    Pow2Adds(h, 8 - h);
    var m, k := Pow2(h), Pow2(8 - h);
    assert 256 * v == (k * v) * m;
    DivModUnique(256 * v, m, k * v, 0);
  }

  lemma MaskedSplit(ip: IP, prefix: nat)
    requires ip != []
    ensures var n := |ip| - 1;
            Val(Masked(ip, prefix)) == 256 * Val(Masked(ip[..n], prefix)) + And(ip[n], MaskByte(prefix, n))
  {
    var n := |ip| - 1;
    assert Masked(ip, prefix)[..n] == Masked(ip[..n], prefix);
  }

  lemma MaskedInLastByte(ip: IP, prefix: nat)
    requires ip != [] && 8 * (|ip| - 1) < prefix <= 8 * |ip|
    ensures Val(Masked(ip, prefix)) == Rounded(Val(ip), 8 * |ip| - prefix)
  {
    var n := |ip| - 1;
    assert Val(Masked(ip, prefix)) == 256 * Val(ip[..n]) + Rounded(ip[n], 8 * |ip| - prefix) by {
      MaskedSplit(ip, prefix);
      MaskedByte(ip[n], prefix, n);
      FullyMasked(ip[..n], prefix);
    }
    LastByteRounds(Val(ip[..n]), ip[n], 8 * |ip| - prefix);
  }

  lemma MaskedBeforeLastByte(ip: IP, prefix: nat)
    requires ip != [] && prefix <= 8 * (|ip| - 1)
    requires Val(Masked(ip[..|ip| - 1], prefix)) == Rounded(Val(ip[..|ip| - 1]), 8 * (|ip| - 1) - prefix)
    ensures Val(Masked(ip, prefix)) == Rounded(Val(ip), 8 * |ip| - prefix)
  {
    var n := |ip| - 1;
    MaskedSplit(ip, prefix);
    MaskedByte(ip[n], prefix, n);
    FrontRounds(Val(ip[..n]), ip[n], 8 * |ip| - prefix);
  }

  /** Masking an address rounds its number down to a multiple of the subnet's size. */
  lemma {:induction false} MaskedRoundsDown(ip: IP, prefix: nat)
    requires prefix <= 8 * |ip|
    ensures Val(Masked(ip, prefix)) == Rounded(Val(ip), 8 * |ip| - prefix)
  {
    if ip != [] {
      if prefix > 8 * (|ip| - 1) {
        MaskedInLastByte(ip, prefix);
      } else {
        MaskedRoundsDown(ip[..|ip| - 1], prefix);
        MaskedBeforeLastByte(ip, prefix);
      }
    }
  }

  lemma LastByteRounds(v: nat, x: Byte, h: nat)
    requires h <= 8
    ensures 256 * v + Rounded(x, h) == Rounded(256 * v + x, h)
  {
    RoundedIs(x, h);
    RoundedIs(256 * v + x, h);
    MultipleOfByte(v, h);
    RoundSum(256 * v, x, Pow2(h));
  }

  lemma FrontRounds(v: nat, x: Byte, h: nat)
    requires h >= 8
    ensures 256 * Rounded(v, h - 8) == Rounded(256 * v + x, h)
  {
    RoundedIs(v, h - 8);
    RoundedIs(256 * v + x, h);
    Pow2Values();
    Pow2Adds(8, h - 8);
    RoundScaled(v, x, 256, Pow2(h - 8));
  }

  lemma FullyMasked(ip: IP, prefix: nat)
    requires prefix >= 8 * |ip|
    ensures Masked(ip, prefix) == ip
  {
    forall i | 0 <= i < |ip|
      ensures Masked(ip, prefix)[i] == ip[i]
    {
      MaskedByte(ip[i], prefix, i);
    }
  }

  lemma ContainsIsEqualMasks(net: IP, prefix: nat, ip: IP)
    requires |net| == |ip|
    ensures Contains(net, prefix, ip) <==> Val(Masked(net, prefix)) == Val(Masked(ip, prefix))
  {
    if Val(Masked(net, prefix)) == Val(Masked(ip, prefix)) {
      ValInjective(Masked(net, prefix), Masked(ip, prefix));
      forall i | 0 <= i < |ip|
        ensures And(net[i], MaskByte(prefix, i)) == And(ip[i], MaskByte(prefix, i))
      {
        assert Masked(net, prefix)[i] == Masked(ip, prefix)[i];
      }
    }
    if Contains(net, prefix, ip) {
      assert Masked(net, prefix) == Masked(ip, prefix);
    }
  }

  lemma MaskedIsMultiple(net: IP, prefix: nat)
    requires prefix <= 8 * |net|
    ensures Val(Masked(net, prefix)) % Pow2(8 * |net| - prefix) == 0
  {
    MaskedRoundsDown(net, prefix);
    RoundedIsMultiple(Val(net), 8 * |net| - prefix);
  }

  /** Membership in a subnet is membership in an interval of numbers. */
  lemma ContainsIsInterval(net: IP, prefix: nat, ip: IP)
    requires |net| == |ip| && prefix <= 8 * |ip|
    ensures var base, size := Val(Masked(net, prefix)), Pow2(8 * |ip| - prefix);
            Contains(net, prefix, ip) <==> base <= Val(ip) < base + size
  {
    ContainsIsEqualMasks(net, prefix, ip);
    MaskedRoundsDown(ip, prefix);
    RoundedIs(Val(ip), 8 * |ip| - prefix);
    MaskedIsMultiple(net, prefix);
    AlignedBlock(Val(Masked(net, prefix)), Pow2(8 * |ip| - prefix), Val(ip));
  }

  /**
   Walks the subnet from its first address until the walk leaves it, and drops the network and
   the broadcast address. For addresses of any length and every prefix length from 1 up the walk
   ends, also where the successor of the last address wraps to zero, and gives the host addresses
   in ascending order.
   */
  method NewIPPool(cidr: IP, prefix: nat) returns (result: Result<seq<IP>>)
    requires 1 <= prefix <= 8 * |cidr|
    ensures result.Err? <==> prefix == 8 * |cidr|
    ensures result.Ok? ==>
              && |result.value| == Pow2(8 * |cidr| - prefix) - 2
              && forall i :: 0 <= i < |result.value| ==>
                               && |result.value[i]| == |cidr|
                               && Contains(cidr, prefix, result.value[i])
                               && Val(result.value[i]) == Val(Masked(cidr, prefix)) + 1 + i
  {
    SubnetFits(cidr, prefix);
    var first := Masked(cidr, prefix);
    var ip := new Byte[|cidr|](i requires 0 <= i < |cidr| => first[i]);
    assert ip[..] == first;
    var pool := Walk(cidr, prefix, ip, Val(first), Pow2(8 * |cidr| - prefix));
    if |pool| < 2 {
      return Err;
    }
    return Ok(pool[1..|pool| - 1]);
  }

  ghost predicate IsSubnet(cidr: IP, prefix: nat, base: nat, size: nat) {
    && 1 <= prefix <= 8 * |cidr| && base == Val(Masked(cidr, prefix)) && size == Pow2(8 * |cidr| - prefix)
    && base + size <= Pow256(|cidr|) && 2 * size <= Pow256(|cidr|)
  }

  /** The addresses from the one in ip on, up to the first that is not in the subnet. */
  method Walk(cidr: IP, prefix: nat, ip: array<Byte>, ghost base: nat, ghost size: nat) returns (pool: seq<IP>)
    requires IsSubnet(cidr, prefix, base, size) && ip.Length == |cidr| && Val(ip[..]) == base
    modifies ip
    ensures |pool| == size
    ensures forall i :: 0 <= i < |pool| ==> InWalk(cidr, prefix, pool[i], base + i)
  {
    pool := [];
    while Contains(cidr, prefix, ip[..])
      invariant |pool| <= size && AtStep(cidr, ip[..], base, |pool|)
      invariant forall i :: 0 <= i < |pool| ==> InWalk(cidr, prefix, pool[i], base + i)
      decreases size - |pool|
    {
      WalkStep(cidr, prefix, ip[..], base, size, |pool|);
      pool := pool + [ip[..]];
      IncInPlace(ip);
    }
    WalkEnds(cidr, prefix, ip[..], base, size, |pool|);
  }

  ghost predicate InWalk(cidr: IP, prefix: nat, ip: IP, number: nat) {
    |ip| == |cidr| && Contains(cidr, prefix, ip) && Val(ip) == number
  }

  /** The walk's address after n steps from base, in the address space. */
  ghost predicate AtStep(cidr: IP, ip: IP, base: nat, n: nat) {
    |ip| == |cidr| && Val(ip) == if base + n == Pow256(|cidr|) then 0 else base + n
  }

  lemma WalkStep(cidr: IP, prefix: nat, ip: IP, base: nat, size: nat, n: nat)
    requires IsSubnet(cidr, prefix, base, size) && n <= size
    requires AtStep(cidr, ip, base, n) && Contains(cidr, prefix, ip)
    ensures n < size && Val(ip) == base + n && AtStep(cidr, Inc(ip), base, n + 1)
  {
    ContainsIsInterval(cidr, prefix, ip);
    IncIsSuccessor(ip);
  }

  lemma WalkEnds(cidr: IP, prefix: nat, ip: IP, base: nat, size: nat, n: nat)
    requires IsSubnet(cidr, prefix, base, size) && n <= size
    requires AtStep(cidr, ip, base, n) && !Contains(cidr, prefix, ip)
    ensures n == size
  {
    ContainsIsInterval(cidr, prefix, ip);
  }

  lemma {:induction false} Pow256IsPow2(n: nat)
    ensures Pow256(n) == Pow2(8 * n)
  {
    Pow2Values();
    if n > 0 {
      Pow256IsPow2(n - 1);
      Pow2Adds(8, 8 * (n - 1));
    }
  }

  /** A subnet of at most half the address space ends at or below the top. */
  lemma SubnetFits(cidr: IP, prefix: nat)
    requires 1 <= prefix <= 8 * |cidr|
    ensures var base, size := Val(Masked(cidr, prefix)), Pow2(8 * |cidr| - prefix);
            IsSubnet(cidr, prefix, base, size) && (size < 2 <==> prefix == 8 * |cidr|)
  {
    var bits, base := 8 * |cidr|, Val(Masked(cidr, prefix));
    Pow2Values();
    Pow256IsPow2(|cidr|);
    Pow2Monotone(bits - prefix, bits - 1);
    Pow2Adds(1, bits - 1);
    MaskedIsMultiple(cidr, prefix);
    ValBound(Masked(cidr, prefix));
    assert Pow2(bits) % Pow2(bits) == 0;
    MultipleOfSmaller(Pow2(bits), bits - prefix, bits);
    MultipleBelow(base, Pow2(bits), Pow2(bits - prefix));
    if prefix < bits {
      Pow2Monotone(1, bits - prefix);
    }
  }

  /** The prefix length 0 is different: the walk never leaves the subnet, so it never ends. */
  lemma PrefixZeroNeverLeaves(cidr: IP, ip: IP)
    requires |cidr| == |ip|
    ensures Contains(cidr, 0, ip)
  {
    forall i | 0 <= i < |ip|
      ensures And(cidr[i], MaskByte(0, i)) == And(ip[i], MaskByte(0, i))
    {
      MaskedByte(cidr[i], 0, i);
      MaskedByte(ip[i], 0, i);
    }
  }
}
