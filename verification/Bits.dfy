/** The bits of an octet, as remainders and as masks. */
module Bits {

  lemma Next(b: bv8)
    requires b as int < 255
    ensures (b + 1) as int == b as int + 1
  {
  }

  lemma Back(b: bv8)
    ensures (b as int) as bv8 == b
  {
  }

  /** Counting up to the octet. */
  ghost function Octet(x: nat): (b: bv8)
    requires x < 256
    ensures b as int == x
  {
    if x == 0 then 0 else Next(Octet(x - 1)); Octet(x - 1) + 1
  }

  lemma OctetAsBits(x: nat)
    requires x < 256
    ensures (x as bv8) as int == x
  {
    Back(Octet(x));
  }

  lemma Low(x: bv8)
    ensures x as int % 2 == 1 <==> x & 0x01 != 0
  {
  }

  lemma Third(x: bv8)
    ensures x as int / 4 % 2 == 1 <==> x & 0x04 != 0
  {
  }

  lemma Seventh(x: bv8)
    ensures x as int / 64 % 2 == 1 <==> x & 0x40 != 0
  {
  }

  lemma High(x: bv8)
    ensures x as int / 128 == 1 <==> x & 0x80 != 0
  {
  }

  /** The masks 0x01, 0x04, 0x40 and 0x80 pick bits 0, 2, 6 and 7. */
  lemma Masks(x: int)
    requires 0 <= x < 256
    ensures x % 2 == 1 <==> x as bv8 & 0x01 != 0
    ensures x / 4 % 2 == 1 <==> x as bv8 & 0x04 != 0
    ensures x / 64 % 2 == 1 <==> x as bv8 & 0x40 != 0
    ensures x / 128 == 1 <==> x as bv8 & 0x80 != 0
  {
    OctetAsBits(x);
    Low(x as bv8);
    Third(x as bv8);
    Seventh(x as bv8);
    High(x as bv8);
  }
}
