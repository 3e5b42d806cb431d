/**
 Which addresses a reconnaissance scan sweeps: the clamp of wide subnets
 (backend/app/recon/interfaces.py:37-75, 143-169) and the target list
 (backend/app/recon/discovery.py:128-131, 158-195). IPv4 addresses are numbers below 2^32, networks
 are prefixes of them (RFC 4632, section 3.1).
 */
module ReconNetworks {
  import opened Common

  const MAX_PINGABLE_PREFIX := 22
  const ADDRESSES := 0x1_0000_0000

  datatype Ip = Ip(value: nat)

  predicate IsIp(a: Ip) { a.value < ADDRESSES }

  /** An address with a prefix length, as in 192.168.8.1/24. */
  datatype Cidr = Cidr(ip: Ip, prefix: nat)

  predicate IsCidr(c: Cidr) { IsIp(c.ip) && c.prefix <= 32 }

  function Pow2(n: nat): (r: nat)
    ensures r >= 1
  {
    if n == 0 then 1 else 2 * Pow2(n - 1)
  }

  /** The number of addresses in the network of a CIDR, and its first address. */
  function Size(c: Cidr): nat
    requires IsCidr(c)
  {
    Pow2(32 - c.prefix)
  }

  function Base(c: Cidr): int
    requires IsCidr(c)
  {
    c.ip.value / Size(c) * Size(c)
  }

  predicate InNetwork(c: Cidr, a: Ip)
    requires IsCidr(c)
  {
    Base(c) <= a.value < Base(c) + Size(c)
  }

  /** A host can have the address: not the network's own nor the broadcast address, except where
      the network is too small to have them. */
  predicate Usable(c: Cidr, a: Ip)
    requires IsCidr(c)
  {
    InNetwork(c, a) && (c.prefix >= 31 || (a.value != Base(c) && a.value != Base(c) + Size(c) - 1))
  }

  /** `scan_cidr`: subnets wider than /22 are clamped to the /24 around the Slate's address. */
  function ScanCidr(c: Cidr): Cidr
    requires IsCidr(c)
  {
    if c.prefix < MAX_PINGABLE_PREFIX then Cidr(Ip(Base(Cidr(c.ip, 24))), 24) else c
  }

  function Range(low: int, high: int): seq<Ip>
    requires 0 <= low
    decreases high - low
  {
    if low >= high then [] else [Ip(low)] + Range(low + 1, high)
  }

  /** `IPv4Network.hosts()`. */
  function Hosts(c: Cidr): seq<Ip>
    requires IsCidr(c)
  {
    BaseIs(c);
    if c.prefix >= 31 then Range(Base(c), Base(c) + Size(c)) else Range(Base(c) + 1, Base(c) + Size(c) - 1)
  }

  function Without(ips: seq<Ip>, a: Ip): seq<Ip> {
    if ips == [] then []
    else (if ips[0] == a then [] else [ips[0]]) + Without(ips[1..], a)
  }

  /** `_hosts_for_sweep`. */
  function Targets(c: Cidr): seq<Ip>
    requires IsCidr(c)
  {
    ScanIsCidr(c);
    Without(Hosts(ScanCidr(c)), c.ip)
  }

  // ---------------------------- prefix arithmetic ---------------------------- //

  lemma BaseIs(c: Cidr)
    requires IsCidr(c)
    ensures 0 <= Base(c) <= c.ip.value < Base(c) + Size(c)
  {
    RoundDown(c.ip.value, Size(c));
  }

  lemma RoundDown(x: nat, d: nat)
    requires d >= 1
    ensures 0 <= x / d * d <= x < x / d * d + d
  {
    var q, r := x / d, x % d;
    assert x == q * d + r;
    MulNonNegative(q, d);
  }

  lemma {:induction false} Pow2Splits(m: nat, n: nat)
    ensures Pow2(m + n) == Pow2(m) * Pow2(n)
  {
    if m > 0 {
      Pow2Splits(m - 1, n);
      assert Pow2(m + n) == 2 * (Pow2(m - 1) * Pow2(n));
    }
  }

  /** A longer prefix of the same address gives a network inside the shorter one's. */
  lemma LongerIsInside(a: Ip, short: nat, long: nat)
    requires IsIp(a) && short <= long <= 32
    ensures Base(Cidr(a, short)) <= Base(Cidr(a, long))
    ensures Base(Cidr(a, long)) + Size(Cidr(a, long)) <= Base(Cidr(a, short)) + Size(Cidr(a, short))
  {
    var big, small, k := Pow2(32 - short), Pow2(32 - long), Pow2(long - short);
    Pow2Splits(long - short, 32 - long);
    var x, q := a.value, a.value / big;
    BaseIs(Cidr(a, short));
    BaseIs(Cidr(a, long));
    MulAssociates(q, k, small);
    Whole(x, small, q * k);
    Whole(x, small, (q + 1) * k);
    MulAssociates(q + 1, k, small);
    MulSucc(q, big);
  }

  lemma MulAssociates(a: int, b: int, c: int)
    ensures a * (b * c) == (a * b) * c
  {
  }

  /** Rounding down to a multiple of `d` stays on the same side of every multiple. */
  lemma Whole(x: nat, d: nat, m: int)
    requires d >= 1
    ensures m * d <= x ==> m * d <= x / d * d
    ensures x < m * d ==> x / d * d + d <= m * d
  {
    var q := x / d;
    assert x == q * d + x % d;
    MultipleOutside(m - q, d);
    assert (m - q) * d == m * d - q * d;
    MultipleOutside(q - m, d);
  }

  lemma ScanIsCidr(c: Cidr)
    requires IsCidr(c)
    ensures IsCidr(ScanCidr(c))
  {
    BaseIs(Cidr(c.ip, 24));
  }

  /** Taking the base of a network again changes nothing. */
  lemma BaseOfBase(c: Cidr)
    requires IsCidr(c)
    ensures 0 <= Base(c) < ADDRESSES && Base(Cidr(Ip(Base(c)), c.prefix)) == Base(c)
  {
    BaseIs(c);
    DivisionIs(Base(c), Size(c), c.ip.value / Size(c), 0);
  }

  lemma SmallPowers()
    ensures Pow2(8) == 256 && Pow2(10) == 1024
  {
    assert Pow2(4) == 16;
    Pow2Splits(4, 4);
    Pow2Splits(2, 8);
  }

  lemma {:induction false} Pow2Grows(m: nat, n: nat)
    requires m <= n
    ensures Pow2(m) <= Pow2(n)
  {
    if m < n { Pow2Grows(m, n - 1); }
  }

  lemma SameQuarter(x: nat, y: nat)
    ensures y / 256 * 256 <= x < y / 256 * 256 + 256 <==> x / 256 == y / 256
  {
  }

  /** What is scanned is a network of at most 1024 addresses inside the declared one, the Slate's
      own among them; up to that size it is the declared network itself, and beyond it the addresses that
      share the first three octets of the Slate's. */
  lemma ScanIsBounded(c: Cidr)
    requires IsCidr(c)
    ensures var s := ScanCidr(c);
            && IsCidr(s) && InNetwork(s, c.ip) && Size(s) <= 1024
            && Base(c) <= Base(s) && Base(s) + Size(s) <= Base(c) + Size(c)
            && (Size(c) <= 1024 ==> s == c)
            && (Size(c) > 1024 ==> forall a :: InNetwork(s, a) <==> a.value / 256 == c.ip.value / 256)
  {
    SmallPowers();
    BaseIs(c);
    if c.prefix < MAX_PINGABLE_PREFIX {
      var own := Cidr(c.ip, 24);
      BaseOfBase(own);
      BaseIs(own);
      LongerIsInside(c.ip, c.prefix, 24);
      Pow2Grows(11, 32 - c.prefix);
      assert Pow2(11) == 2 * Pow2(10);
      forall a ensures InNetwork(ScanCidr(c), a) <==> a.value / 256 == c.ip.value / 256 {
        SameQuarter(a.value, c.ip.value);
      }
    } else {
      Pow2Grows(32 - c.prefix, 10);
    }
  }

  // ---------------------------- the sweep ---------------------------- //

  predicate Increasing(ips: seq<Ip>) { forall i, j | 0 <= i < j < |ips| :: ips[i].value < ips[j].value }

  lemma {:induction false} RangeIs(low: int, high: int)
    requires 0 <= low
    ensures forall a :: a in Range(low, high) <==> low <= a.value < high
    ensures Increasing(Range(low, high)) && |Range(low, high)| == Max(0, high - low)
    decreases high - low
  {
    if low < high {
      RangeIs(low + 1, high);
    }
  }

  lemma {:induction false} WithoutIs(ips: seq<Ip>, a: Ip)
    requires Increasing(ips)
    ensures forall b :: b in Without(ips, a) <==> b in ips && b != a
    ensures Increasing(Without(ips, a))
    ensures |Without(ips, a)| == |ips| - (if a in ips then 1 else 0)
  {
    if ips != [] {
      WithoutIs(ips[1..], a);
      forall b | b in Without(ips[1..], a) ensures ips[0].value < b.value {
        assert b in ips[1..];
      }
    }
  }

  /** `hosts()` lists the usable addresses in increasing order. */
  lemma HostsAreUsable(c: Cidr, a: Ip)
    requires IsCidr(c)
    ensures a in Hosts(c) <==> Usable(c, a)
    ensures Increasing(Hosts(c)) && |Hosts(c)| == if c.prefix >= 31 then Size(c) else Size(c) - 2
  {
    BaseIs(c);
    if c.prefix >= 31 {
      RangeIs(Base(c), Base(c) + Size(c));
    } else {
      RangeIs(Base(c) + 1, Base(c) + Size(c) - 1);
      Pow2Grows(1, 32 - c.prefix);
      assert Pow2(1) == 2;
    }
  }

  /** The sweep is complete and bounded: its targets are, each once, the usable addresses of the
      scanned network other than the Slate's, at most 1022 of them. */
  lemma TargetsAreComplete(c: Cidr)
    requires IsCidr(c)
    ensures IsCidr(ScanCidr(c))
    ensures forall a :: a in Targets(c) <==> Usable(ScanCidr(c), a) && a != c.ip
    ensures Increasing(Targets(c)) && |Targets(c)| <= 1022
  {
    var s := ScanCidr(c);
    ScanIsBounded(c);
    forall a ensures a in Hosts(s) <==> Usable(s, a) {
      HostsAreUsable(s, a);
    }
    HostsAreUsable(s, c.ip);
    Pow2Grows(32 - s.prefix, if s.prefix >= 31 then 1 else 10);
    SmallPowers();
    WithoutIs(Hosts(s), c.ip);
  }

  /** Where the declared network is small enough to sweep whole, every usable neighbour is pinged. */
  lemma SmallNetworksAreSwept(c: Cidr, a: Ip)
    requires IsCidr(c) && Size(c) <= 1024 && Usable(c, a) && a != c.ip
    ensures a in Targets(c)
  {
    ScanIsBounded(c);
    TargetsAreComplete(c);
  }

  /**
   * `ping_sweep`: the probes end in some order, each once, and those that answer are kept in that
   * order; the last report says that all are done.
   */
  method PingSweep(c: Cidr, order: seq<Ip>, answering: set<Ip>) returns (responders: seq<Ip>, reports: seq<(nat, nat)>)
    requires IsCidr(c) && multiset(order) == multiset(Targets(c))
    ensures forall a :: a in responders <==> a in Targets(c) && a in answering
    ensures NoDup(responders)
    ensures Targets(c) != [] ==> reports != [] && reports[|reports| - 1] == (|Targets(c)|, |Targets(c)|)
    ensures forall i, j | 0 <= i < j < |reports| :: reports[i].0 < reports[j].0
    ensures forall k | 0 <= k < |reports| ::
              reports[k].1 == |Targets(c)| && (reports[k].0 % 16 == 0 || reports[k].0 == |Targets(c)|)
    ensures |reports| == (|Targets(c)| + 15) / 16
  {
    TargetsAreComplete(c);
    SameElements(order, Targets(c));
    responders, reports := [], [];
    var done, total := 0, |order|;
    while done < total
      invariant 0 <= done <= total
      invariant forall a :: a in responders <==> a in order[..done] && a in answering
      invariant NoDup(responders)
      invariant forall k | 0 <= k < |reports| ::
                  reports[k].0 <= done && reports[k].1 == total && (reports[k].0 % 16 == 0 || reports[k].0 == total)
      invariant |reports| == if done == total then (total + 15) / 16 else done / 16
      invariant done == total && total > 0 ==> reports != [] && reports[|reports| - 1] == (total, total)
      invariant forall i, j | 0 <= i < j < |reports| :: reports[i].0 < reports[j].0
    {
      assert order[..done + 1] == order[..done] + [order[done]];
      if order[done] in answering { responders := responders + [order[done]]; }
      done := done + 1;
      if done % 16 == 0 || done == total { reports := reports + [(done, total)]; }
    }
    assert order[..total] == order;
  }

  lemma SameElements(a: seq<Ip>, b: seq<Ip>)
    requires multiset(a) == multiset(b) && Increasing(b)
    ensures |a| == |b| && (forall x :: x in a <==> x in b) && NoDup(a)
  {
    assert |multiset(a)| == |multiset(b)|;
    assert forall x :: x in a <==> x in multiset(a);
    assert forall x :: x in b <==> x in multiset(b);
    forall i, j | 0 <= i < j < |a| ensures a[i] != a[j] {
      if a[i] == a[j] {
        TwiceInSequence(a, i, j);
        OnceInIncreasing(b, a[i]);
      }
    }
  }

  lemma TwiceInSequence(a: seq<Ip>, i: nat, j: nat)
    requires i < j < |a| && a[i] == a[j]
    ensures multiset(a)[a[i]] >= 2
  {
    assert a == a[..j] + [a[j]] + a[j + 1..];
    assert a[i] in a[..j];
  }

  lemma {:induction false} OnceInIncreasing(b: seq<Ip>, x: Ip)
    requires Increasing(b)
    ensures multiset(b)[x] <= 1
  {
    if b != [] {
      OnceInIncreasing(b[1..], x);
      assert b == [b[0]] + b[1..];
      if b[0] == x {
        assert x !in b[1..];
      }
    }
  }

  // ---------------------------- octets ---------------------------- //

  /** The sort key of an address, its four octets, and how tuples of numbers compare. */
  datatype Octets = Octets(a: nat, b: nat, c: nat, d: nat)

  function OctetsOf(ip: Ip): Octets
    requires IsIp(ip)
  {
    Octets(ip.value / 0x100_0000, ip.value / 0x1_0000 % 256, ip.value / 256 % 256, ip.value % 256)
  }

  predicate Before(s: Octets, t: Octets) {
    || s.a < t.a
    || (s.a == t.a && (s.b < t.b || (s.b == t.b && (s.c < t.c || (s.c == t.c && s.d < t.d)))))
  }

  function Value(s: Octets): nat { s.a * 0x100_0000 + s.b * 0x1_0000 + s.c * 256 + s.d }

  lemma OctetsSpell(x: Ip)
    requires IsIp(x)
    ensures var s := OctetsOf(x); Value(s) == x.value && s.a < 256 && s.b < 256 && s.c < 256 && s.d < 256
  {
    var high := x.value / 256;
    assert x.value / 0x1_0000 == high / 256 && x.value / 0x100_0000 == high / 256 / 256;
    assert high == (high / 256 / 256) * 0x1_0000 + (high / 256 % 256) * 256 + high % 256;
  }

  /** Comparing octets one after the other orders addresses as numbers. */
  lemma OctetOrder(x: Ip, y: Ip)
    requires IsIp(x) && IsIp(y)
    ensures Before(OctetsOf(x), OctetsOf(y)) <==> x.value < y.value
    ensures OctetsOf(x) == OctetsOf(y) <==> x == y
  {
    OctetsSpell(x);
    OctetsSpell(y);
    ByOctets(OctetsOf(x), OctetsOf(y));
  }

  lemma ByOctets(s: Octets, t: Octets)
    requires s.a < 256 && s.b < 256 && s.c < 256 && s.d < 256 && t.a < 256 && t.b < 256 && t.c < 256 && t.d < 256
    ensures Before(s, t) <==> Value(s) < Value(t)
    ensures s == t <==> Value(s) == Value(t)
  {
  }
}
