/** IP addresses as numbers with a width, and CIDR prefixes over them
    (section 3.1 of RFC 4632). */
module Addresses {
  import opened Basics

  datatype Family = V4 | V6

  function Width(f: Family): nat { if f == V4 then 32 else 128 }

  datatype RawAddr = Addr(family: Family, value: nat)

  type Addr = a: RawAddr | a.value < Pow2(Width(a.family)) witness Addr(V4, 0)

  lemma ModBound(a: nat, m: nat)
    requires m > 0
    ensures 0 <= a % m <= a
  {
    if a < m { assert a % m == a; }
  }

  datatype RawPrefix = Prefix(addr: Addr, bits: nat) {
    /** The number of addresses the prefix covers. */
    function Span(): nat
      requires bits <= Width(addr.family)
    {
      Pow2(Width(addr.family) - bits)
    }

    predicate IsSingle() { bits == Width(addr.family) }

    function Masked(): RawPrefix
      requires bits <= Width(addr.family)
    {
      var host := addr.value % Span();
      assert 0 <= host <= addr.value by { ModBound(addr.value, Span()); }
      Prefix(Addr(addr.family, addr.value - host), bits)
    }

    predicate Contains(a: Addr)
      requires bits <= Width(addr.family)
    {
      a.family == addr.family && a.value / Span() == addr.value / Span()
    }
  }

  type Prefix = p: RawPrefix | p.bits <= Width(p.addr.family) witness Prefix(Addr(V4, 0), 0)

  /** netip.PrefixFrom(a, a.BitLen()). */
  function HostPrefix(a: Addr): (p: Prefix)
    ensures p.IsSingle() && p.Masked() == p
  {
    Prefix(a, Width(a.family))
  }

  /** A full-length prefix covers exactly its own address. */
  lemma SingleContains(p: Prefix, a: Addr)
    requires p.IsSingle()
    ensures p.Contains(a) <==> a == p.addr
  {
    assert Pow2(0) == 1;
  }
}
