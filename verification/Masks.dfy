/** Netmasks and wildcard masks as 32-bit words (netcli/internal/render/services.go). */
module Masks {
  import opened Basics

  /** The word of bitsToMask, with the leading `bits` bits set: all ones, shifted left. */
  function Mask(bits: nat): nat
    requires bits <= 32
  {
    if bits > 0 then (0xFFFF_FFFF * Pow2(32 - bits)) % 0x1_0000_0000 else 0
  }

  /** MaskToBits: the number of leading ones, if nothing but zeros follows them. */
  function MaskBits(m: nat): Option<nat> {
    if k :| 0 <= k <= 32 && m == Pow2(32) - Pow2(k) then
      Pow2Injective();
      Some(32 - k)
    else None
  }

  /** The mask `^m` of fmtAddr. */
  function Wildcard(bits: nat): nat
    requires bits <= 32
  {
    0xFFFF_FFFF - Mask(bits)
  }

  /** WildcardToBits: the prefix length whose mask is the complement, if there is one. */
  function WildcardBits(w: nat): Option<nat> {
    if k :| 0 <= k <= 32 && w == Pow2(k) - 1 then
      Pow2Injective();
      Some(32 - k)
    else None
  }

  /** The four numbers of the dotted form: m>>24, (m>>16)&0xff, (m>>8)&0xff, m&0xff. */
  function Octets(m: nat): (nat, nat, nat, nat) {
    (m / 0x100_0000, m / 0x1_0000 % 0x100, m / 0x100 % 0x100, m % 0x100)
  }

  lemma {:induction false} Pow2Increases(a: nat, b: nat)
    requires a < b
    ensures Pow2(a) < Pow2(b)
  {
    if a < b - 1 { Pow2Increases(a, b - 1); }
  }

  lemma Pow2Injective()
    ensures forall a: nat, b: nat :: Pow2(a) == Pow2(b) ==> a == b
  {
    forall a: nat, b: nat | Pow2(a) == Pow2(b) ensures a == b {
      if a < b { Pow2Increases(a, b); } else if b < a { Pow2Increases(b, a); }
    }
  }

  lemma Pow2Of32()
    ensures Pow2(32) == 0x1_0000_0000
  {
    assert Pow2(8) == 256;
    Pow2Add(8, 8);
    Pow2Add(16, 16);
  }

  lemma MaskIs(bits: nat)
    requires bits <= 32
    ensures Mask(bits) == Pow2(32) - Pow2(32 - bits) < 0x1_0000_0000
  {
    hide Pow2;
    var k := 32 - bits;
    Pow2Of32();
    if bits > 0 {
      Pow2Increases(k, 32);
      assert 0xFFFF_FFFF * Pow2(k) == 0x1_0000_0000 * (Pow2(k) - 1) + (0x1_0000_0000 - Pow2(k));
      ModUnique(0xFFFF_FFFF * Pow2(k), 0x1_0000_0000, Pow2(k) - 1, 0x1_0000_0000 - Pow2(k));
    }
  }

  /** A prefix length printed as a netmask is read back, and a netmask is read only as the prefix
      length that is printed like it. */
  lemma MaskRoundTrip(bits: nat, m: nat)
    requires bits <= 32
    ensures MaskBits(Mask(bits)) == Some(bits)
    ensures MaskBits(m) == Some(bits) ==> m == Mask(bits)
  {
    hide Pow2;
    MaskIs(bits);
    Pow2Injective();
  }

  /** The same for wildcard masks. */
  lemma WildcardRoundTrip(bits: nat)
    requires bits <= 32
    ensures Wildcard(bits) == Pow2(32 - bits) - 1 && WildcardBits(Wildcard(bits)) == Some(bits)
    ensures forall w :: WildcardBits(w) == Some(bits) ==> w == Wildcard(bits)
  {
    hide Pow2;
    MaskIs(bits);
    Pow2Of32();
    Pow2Injective();
  }

  /** The dotted form of a word is four bytes that determine it. */
  lemma OctetsDetermine(m: nat)
    requires m < 0x1_0000_0000
    ensures var (a, b, c, d) := Octets(m);
      a < 0x100 && b < 0x100 && c < 0x100 && d < 0x100 && m == ((a * 0x100 + b) * 0x100 + c) * 0x100 + d
  {
    assert m / 0x1_0000 == m / 0x100 / 0x100 && m / 0x100_0000 == m / 0x100 / 0x100 / 0x100;
  }
}
