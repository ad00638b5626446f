/** What an octet's bits and its number have to do with each other, for the headers of `WebSockets`. */
module Octets {
  lemma NextOctet(b: bv8)
    requires b < 255
    ensures (b + 1) as nat == b as nat + 1
  {
  }

  lemma OctetBound(b: bv8)
    ensures b as nat < 255 ==> b < 255
  {
  }

  lemma OctetOfNumber(b: bv8)
    ensures (b as nat) as bv8 == b
  {
  }

  /** Every number below 256 is some octet's. */
  lemma {:induction false} NumberOfOctet(n: nat) returns (b: bv8)
    requires n < 256
    ensures b as nat == n
  {
    b := 0;
    if n > 0 {
      var before := NumberOfOctet(n - 1);
      OctetBound(before);
      NextOctet(before);
      b := before + 1;
    }
  }

  lemma OctetRoundTrip(n: nat)
    requires n < 256
    ensures (n as bv8) as nat == n
  {
    var b := NumberOfOctet(n);
    OctetOfNumber(b);
  }

  lemma XorTwice(a: bv8, b: bv8)
    ensures (a ^ b) ^ b == a
  {
  }

  lemma NoMaskBit(b: bv8)
    ensures 0 | b == b
  {
  }

  lemma HeaderBits(fin: bool, opcode: bv8, masked: bool, code: nat)
    requires opcode <= 0x0F && code < 128
    ensures var h0 := (if fin then 0x80 else 0) | opcode;
      (h0 & 0x80 != 0 <==> fin) && h0 & 0x0F == opcode
    ensures var h1 := (if masked then 0x80 else 0) | (code as bv8);
      (h1 & 0x80 != 0 <==> masked) && (h1 & 0x7F) as nat == code
  {
    var b := code as bv8;
    OctetRoundTrip(code);
    assert b < 0x80;
    LowBits(b);
  }

  lemma LowBits(b: bv8)
    requires b < 0x80
    ensures (0x80 | b) & 0x7F == b && (0 | b) & 0x7F == b && (0x80 | b) & 0x80 != 0 && (0 | b) & 0x80 == 0
  {
  }

  lemma HighBit(b: bv8)
    ensures b & 0x80 != 0 <==> b as nat >= 128
  {
    if b >= 0x80 { AtLeast(b, 0x80); } else { Less(b, 0x80); }
    assert b & 0x80 != 0 <==> b >= 0x80;
  }

  lemma AtLeast(a: bv8, b: bv8)
    requires a >= b
    ensures a as nat >= b as nat
  {
  }

  lemma Less(a: bv8, b: bv8)
    requires a < b
    ensures (a as nat) < b as nat
  {
  }

  lemma LowSeven(b: bv8)
    ensures (b & 0x7F) as nat == b as nat % 128
  {
  }
}
