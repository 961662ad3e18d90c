/**
 Address management: the predicates that partition the address space between tenants, and the
 allocation of a client address inside a server's subnet.

 Addresses are natural numbers below 2^32. A CIDR is given as its address and prefix length;
 splitting the text is left to the caller.
 */
module Ipam {
  import opened Common

  datatype Cidr = Cidr(address: nat, prefix: nat)

  datatype Network = Network(base: nat, prefix: nat)

  datatype IpamError = Malformed | HostBitsSet | PoolExhausted

  const ADDRESSES: nat := 0x1_0000_0000

  function Pow2(n: nat): (p: nat)
    ensures p >= 1
  {
    if n == 0 then 1 else 2 * Pow2(n - 1)
  }

  /** `a` with its lowest `bits` bits cleared. */
  function Mask(a: nat, bits: nat): nat {
    if bits == 0 then a else 2 * Mask(a / 2, bits - 1)
  }

  /** Number of addresses in a network of this prefix length. */
  function Size(prefix: nat): (p: nat)
    requires prefix <= 32
    ensures p >= 1
  {
    Pow2(32 - prefix)
  }

  /** A network is an aligned block of the address space: no host bit of its base is set. */
  predicate Valid(n: Network) {
    n.prefix <= 32 && Mask(n.base, 32 - n.prefix) == n.base < ADDRESSES
  }

  function Broadcast(n: Network): nat
    requires Valid(n)
  {
    n.base + Size(n.prefix) - 1
  }

  predicate Contains(n: Network, a: nat)
    requires Valid(n)
  {
    n.base <= a <= Broadcast(n)
  }

  /** `IPv4Network(value, strict=False)`: host bits are masked away. */
  function Masked(c: Cidr): (r: Result<Network, IpamError>)
    ensures r.Ok? ==> Valid(r.value) && r.value.prefix == c.prefix && Contains(r.value, c.address)
    ensures r.Err? <==> c.prefix > 32 || c.address >= ADDRESSES
  {
    if c.prefix > 32 || c.address >= ADDRESSES then Err(Malformed)
    else
      MaskBounds(c.address, 32 - c.prefix);
      MaskTwice(c.address, 32 - c.prefix);
      Ok(Network(Mask(c.address, 32 - c.prefix), c.prefix))
  }

  /** `_parse_pool`: host bits are refused. */
  function ParsePool(c: Cidr): (r: Result<Network, IpamError>)
    ensures r.Ok? ==> r.value == Network(c.address, c.prefix)
    ensures r.Ok? <==> Valid(Network(c.address, c.prefix))
  {
    if c.prefix > 32 || c.address >= ADDRESSES then Err(Malformed)
    else if Mask(c.address, 32 - c.prefix) != c.address then Err(HostBitsSet)
    else Ok(Network(c.address, c.prefix))
  }

  predicate SubnetOf(s: Network, p: Network)
    requires Valid(s) && Valid(p)
  {
    p.base <= s.base && Broadcast(s) <= Broadcast(p)
  }

  predicate Overlaps(a: Network, b: Network)
    requires Valid(a) && Valid(b)
  {
    Contains(b, a.base) || Contains(b, Broadcast(a)) || Contains(a, b.base) || Contains(a, Broadcast(b))
  }

  function SubnetInPool(subnet: Cidr, pool: Cidr): Result<bool, IpamError> {
    match ParsePool(subnet)
    case Err(e) => Err(e)
    case Ok(s) =>
      match ParsePool(pool)
      case Err(e) => Err(e)
      case Ok(p) => Ok(SubnetOf(s, p))
  }

  function PoolsOverlap(a: Cidr, b: Cidr): Result<bool, IpamError> {
    match ParsePool(a)
    case Err(e) => Err(e)
    case Ok(pa) =>
      match ParsePool(b)
      case Err(e) => Err(e)
      case Ok(pb) => Ok(Overlaps(pa, pb))
  }

  // ---------------------------------------------------------------------------
  // Blocks
  // ---------------------------------------------------------------------------

  /** `a` without its lowest `bits` bits. */
  function Shift(a: nat, bits: nat): nat {
    if bits == 0 then a else Shift(a / 2, bits - 1)
  }

  lemma {:induction false} MaskBounds(a: nat, bits: nat)
    ensures Mask(a, bits) <= a < Mask(a, bits) + Pow2(bits)
  {
    if bits != 0 { MaskBounds(a / 2, bits - 1); }
  }

  lemma {:induction false} MaskTwice(a: nat, bits: nat)
    ensures Mask(Mask(a, bits), bits) == Mask(a, bits)
  {
    if bits != 0 { MaskTwice(a / 2, bits - 1); }
  }

  /** A block is exactly the addresses that agree with its base above the host bits. */
  lemma {:induction false} BlockMembers(base: nat, bits: nat, x: nat)
    requires Mask(base, bits) == base
    ensures base <= x < base + Pow2(bits) <==> Shift(x, bits) == Shift(base, bits)
  {
    if bits != 0 {
      assert base == 2 * Mask(base / 2, bits - 1);
      BlockMembers(base / 2, bits - 1, x / 2);
    }
  }

  lemma {:induction false} ShiftTwice(a: nat, m: nat, n: nat)
    ensures Shift(a, m + n) == Shift(Shift(a, m), n)
  {
    if m != 0 { ShiftTwice(a / 2, m - 1, n); }
  }

  lemma {:induction false} BlockFits(base: nat, bits: nat, more: nat)
    requires Mask(base, bits) == base < Pow2(bits + more)
    ensures base + Pow2(bits) <= Pow2(bits + more)
  {
    if bits != 0 {
      BlockFits(base / 2, bits - 1, more);
    }
  }

  lemma AddressSpace()
    ensures Pow2(32) == ADDRESSES
  {
    assert Pow2(8) == 0x100;
    assert Pow2(16) == 0x1_0000;
    assert Pow2(24) == 0x100_0000;
  }

  /** No network reaches past the end of the address space. */
  lemma NetworkFits(n: Network)
    requires Valid(n)
    ensures Broadcast(n) < ADDRESSES
  {
    AddressSpace();
    BlockFits(n.base, 32 - n.prefix, n.prefix);
  }

  lemma ContainsIff(n: Network, x: nat)
    requires Valid(n)
    ensures Contains(n, x) <==> Shift(x, 32 - n.prefix) == Shift(n.base, 32 - n.prefix)
  {
    BlockMembers(n.base, 32 - n.prefix, x);
  }

  /** Two networks that share an address are nested. */
  lemma SharedMeansNested(wide: Network, narrow: Network, x: nat, y: nat)
    requires Valid(wide) && Valid(narrow) && wide.prefix <= narrow.prefix
    requires Contains(wide, x) && Contains(narrow, x) && Contains(narrow, y)
    ensures Contains(wide, y)
  {
    var wideBits, bits := 32 - wide.prefix, 32 - narrow.prefix;
    ContainsIff(wide, x);
    ContainsIff(wide, y);
    ContainsIff(narrow, x);
    ContainsIff(narrow, y);
    ShiftTwice(x, bits, wideBits - bits);
    ShiftTwice(y, bits, wideBits - bits);
  }

  // ---------------------------------------------------------------------------
  // What the predicates decide
  // ---------------------------------------------------------------------------

  ghost predicate Share(a: Network, b: Network)
    requires Valid(a) && Valid(b)
  {
    exists x :: Contains(a, x) && Contains(b, x)
  }

  lemma OverlapsDecidesSharing(a: Network, b: Network)
    requires Valid(a) && Valid(b)
    ensures Overlaps(a, b) <==> Share(a, b)
  {
    if Overlaps(a, b) {
      var x := if Contains(b, a.base) then a.base
               else if Contains(b, Broadcast(a)) then Broadcast(a)
               else if Contains(a, b.base) then b.base else Broadcast(b);
      assert Contains(a, x) && Contains(b, x);
    }
  }

  lemma SubnetOfDecidesContainment(s: Network, p: Network)
    requires Valid(s) && Valid(p)
    ensures SubnetOf(s, p) <==> forall x :: Contains(s, x) ==> Contains(p, x)
  {
    assert Contains(s, s.base) && Contains(s, Broadcast(s));
  }

  lemma NestedOrDisjoint(a: Network, b: Network)
    requires Valid(a) && Valid(b)
    ensures SubnetOf(a, b) || SubnetOf(b, a) || !Share(a, b)
  {
    if Share(a, b) {
      var x :| Contains(a, x) && Contains(b, x);
      var wide, narrow := a, b;
      if b.prefix < a.prefix {
        wide, narrow := b, a;
      }
      SharedMeansNested(wide, narrow, x, narrow.base);
      SharedMeansNested(wide, narrow, x, Broadcast(narrow));
    }
  }

  /** Pools accepted as disjoint keep their servers' addresses apart. */
  lemma PoolsSeparateClients(poolA: Cidr, poolB: Cidr, subnetA: Cidr, subnetB: Cidr, x: nat, y: nat)
    requires PoolsOverlap(poolA, poolB) == Ok(false)
    requires SubnetInPool(subnetA, poolA) == Ok(true) && SubnetInPool(subnetB, poolB) == Ok(true)
    requires Contains(ParsePool(subnetA).value, x) && Contains(ParsePool(subnetB).value, y)
    ensures x != y
  {
    var a, b := ParsePool(poolA).value, ParsePool(poolB).value;
    SubnetOfDecidesContainment(ParsePool(subnetA).value, a);
    SubnetOfDecidesContainment(ParsePool(subnetB).value, b);
    OverlapsDecidesSharing(a, b);
  }

  // ---------------------------------------------------------------------------
  // Allocation
  // ---------------------------------------------------------------------------

  /** Bounds of `network.hosts()`: a /31 has two hosts, a /32 one. */
  function FirstHost(n: Network): nat
    requires Valid(n)
  {
    if n.prefix >= 31 then n.base else n.base + 1
  }

  function LastHost(n: Network): int
    requires Valid(n)
  {
    if n.prefix >= 31 then Broadcast(n) else Broadcast(n) - 1
  }

  predicate IsHost(n: Network, a: nat)
    requires Valid(n)
  {
    FirstHost(n) <= a <= LastHost(n)
  }

  function Reserved(n: Network, serverIp: nat): set<nat>
    requires Valid(n)
  {
    {n.base, Broadcast(n), serverIp}
  }

  /** The lowest address from `lo` to `hi` that is not taken. */
  function LeastFree(lo: nat, hi: int, taken: set<nat>): (r: Option<nat>)
    ensures r.Some? ==> lo <= r.value <= hi && r.value !in taken
    ensures r.Some? ==> forall a :: lo <= a < r.value ==> a in taken
    ensures r.None? ==> forall a :: lo <= a <= hi ==> a in taken
    decreases hi - lo + 1
  {
    if lo > hi then None
    else if lo !in taken then Some(lo)
    else LeastFree(lo + 1, hi, taken)
  }

  /** The address `allocate_client_ip` hands out, given the addresses of the server's clients. */
  function Allocate(n: Network, serverIp: nat, used: set<nat>): Option<nat>
    requires Valid(n)
  {
    LeastFree(FirstHost(n), LastHost(n), used + Reserved(n, serverIp))
  }

  /** A host address of the network that nobody holds and nothing reserves. */
  predicate Free(n: Network, serverIp: nat, used: set<nat>, a: nat)
    requires Valid(n)
  {
    IsHost(n, a) && a !in used && a !in Reserved(n, serverIp)
  }

  /** Free is every address strictly inside the network that is neither the server's nor in use. */
  lemma FreeIff(n: Network, serverIp: nat, used: set<nat>, a: nat)
    requires Valid(n)
    ensures Free(n, serverIp, used, a) <==> n.base < a < Broadcast(n) && a != serverIp && a !in used
  {
    assert Reserved(n, serverIp) == {n.base, Broadcast(n), serverIp};
  }

  /** Allocation succeeds exactly when a host is free, and then returns the lowest one. */
  lemma AllocateIsLeastFreeHost(n: Network, serverIp: nat, used: set<nat>)
    requires Valid(n)
    ensures var r := Allocate(n, serverIp, used);
      && (r.None? ==> forall a: nat :: n.base < a < Broadcast(n) && a != serverIp ==> a in used)
      && (r.Some? ==> && n.base < r.value < Broadcast(n) < ADDRESSES && r.value != serverIp && r.value !in used
                      && forall a: nat :: n.base < a < r.value && a != serverIp ==> a in used)
  {
    NetworkFits(n);
    var r := Allocate(n, serverIp, used);
    var taken := used + Reserved(n, serverIp);
    forall a: nat | n.base < a < Broadcast(n) && a != serverIp && a !in used ensures r.Some? && r.value <= a {
      FreeIff(n, serverIp, used, a);
      assert a !in taken;
    }
    if r.Some? {
      assert r.value !in taken && Free(n, serverIp, used, r.value);
    }
  }

  /** What two hubs inside disjoint pools hand out never collides, whatever each has in use. */
  lemma AllocationsNeverCollide(
      poolA: Cidr, poolB: Cidr, subnetA: Cidr, subnetB: Cidr, serverA: nat, serverB: nat, usedA: set<nat>, usedB: set<nat>)
    requires PoolsOverlap(poolA, poolB) == Ok(false)
    requires SubnetInPool(subnetA, poolA) == Ok(true) && SubnetInPool(subnetB, poolB) == Ok(true)
    ensures Masked(subnetA).Ok? && Masked(subnetB).Ok?
    ensures var a, b := Allocate(Masked(subnetA).value, serverA, usedA), Allocate(Masked(subnetB).value, serverB, usedB);
      a.Some? && b.Some? ==> a.value != b.value
  {
    var a, b := Allocate(Masked(subnetA).value, serverA, usedA), Allocate(Masked(subnetB).value, serverB, usedB);
    if a.Some? && b.Some? {
      AllocateIsLeastFreeHost(Masked(subnetA).value, serverA, usedA);
      AllocateIsLeastFreeHost(Masked(subnetB).value, serverB, usedB);
      PoolsSeparateClients(poolA, poolB, subnetA, subnetB, a.value, b.value);
    }
  }

  function Addresses(rows: seq<Option<nat>>): set<nat> {
    set i | 0 <= i < |rows| && rows[i].Some? :: rows[i].value
  }

  /** `allocate_client_ip`: build the taken set row by row, then scan the hosts in order. */
  method AllocateClientIp(subnet: Cidr, serverIp: nat, rows: seq<Option<nat>>)
    returns (r: Result<nat, IpamError>)
    ensures Masked(subnet).Err? ==> r == Err(Masked(subnet).error)
    ensures Masked(subnet).Ok? ==>
      match Allocate(Masked(subnet).value, serverIp, Addresses(rows))
      case Some(a) => r == Ok(a)
      case None => r == Err(PoolExhausted)
  {
    if Masked(subnet).Err? {
      return Err(Masked(subnet).error);
    }
    var n := Masked(subnet).value;
    var taken := Reserved(n, serverIp);
    for i := 0 to |rows|
      invariant taken == Addresses(rows[..i]) + Reserved(n, serverIp)
    {
      assert rows[..i + 1] == rows[..i] + [rows[i]];
      AddressesSnoc(rows[..i], rows[i]);
      if rows[i].Some? {
        taken := taken + {rows[i].value};
      }
    }
    assert rows[..|rows|] == rows;
    var host := FirstHost(n);
    while host <= LastHost(n)
      invariant FirstHost(n) <= host
      invariant LeastFree(host, LastHost(n), taken) == LeastFree(FirstHost(n), LastHost(n), taken)
      decreases LastHost(n) - host + 1
    {
      if host !in taken {
        return Ok(host);
      }
      host := host + 1;
    }
    r := Err(PoolExhausted);
  }

  lemma AddressesSnoc(rows: seq<Option<nat>>, row: Option<nat>)
    ensures Addresses(rows + [row]) == Addresses(rows) + (if row.Some? then {row.value} else {})
  {
    var all := rows + [row];
    if row.Some? {
      assert all[|rows|] == row;
    }
    forall a | a in Addresses(rows) ensures a in Addresses(all) {
      var i :| 0 <= i < |rows| && rows[i].Some? && rows[i].value == a;
      assert all[i] == rows[i];
    }
  }
}
