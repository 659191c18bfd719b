/** The numbers of LOC records (sections 2 and 3 of RFC 1876) on exact reals: sizes as
    mantissa and exponent, angles and altitudes, and their printed forms. */
module LocCodec {
  import opened Dns

  // ---- Rounding ----

  /** Python's round: to the nearest integer, ties to the even one. */
  function Round(x: real): int {
    var f := x.Floor;
    var d := x - f as real;
    if d < 0.5 then f else if d > 0.5 then f + 1 else if f % 2 == 0 then f else f + 1
  }

  lemma RoundIsNearest(x: real)
    ensures -0.5 <= Round(x) as real - x <= 0.5
  {
  }

  lemma RoundIsMonotone(x: real, y: real)
    requires x <= y
    ensures Round(x) <= Round(y)
  {
  }

  lemma RoundOfInt(n: int)
    ensures Round(n as real) == n
  {
  }

  // ---- Powers of ten ----

  function Pow10(n: nat): (p: nat)
    ensures p >= 1
  {
    if n == 0 then 1 else 10 * Pow10(n - 1)
  }

  /** m times ten to the e. */
  function Shift(m: real, e: nat): real {
    if e == 0 then m else 10.0 * Shift(m, e - 1)
  }

  lemma {:induction false} ShiftIsProduct(m: nat, e: nat)
    ensures Shift(m as real, e) == (m * Pow10(e)) as real
  {
    if e > 0 {
      ShiftIsProduct(m, e - 1);
      assert m * (10 * Pow10(e - 1)) == 10 * (m * Pow10(e - 1));
    }
  }

  lemma {:induction false} ShiftOrder(a: real, b: real, e: nat)
    ensures a <= b <==> Shift(a, e) <= Shift(b, e)
    ensures a < b <==> Shift(a, e) < Shift(b, e)
  {
    if e > 0 {
      ShiftOrder(a, b, e - 1);
    }
  }

  lemma {:induction false} ShiftGrows(b: real, e: nat, g: nat)
    requires b >= 0.0 && e <= g
    ensures 0.0 <= Shift(b, e) <= Shift(b, g)
    decreases g
  {
    if g > 0 {
      if e < g {
        ShiftGrows(b, e, g - 1);
      } else {
        ShiftGrows(b, e - 1, g - 1);
      }
    }
  }

  lemma {:induction false} ShiftTen(b: real, e: nat)
    ensures Shift(10.0 * b, e) == Shift(b, e + 1)
  {
    if e > 0 {
      ShiftTen(b, e - 1);
    }
  }

  lemma {:induction false} ShiftClose(n: real, m: real, e: nat)
    requires -0.5 <= n - m <= 0.5
    ensures -(Pow10(e) as real) <= 2.0 * (Shift(n, e) - Shift(m, e)) <= Pow10(e) as real
  {
    if e > 0 {
      ShiftClose(n, m, e - 1);
    }
  }

  // ---- Sizes ----

  /** What the scaling loop ends with: the mantissa and how often it divided by ten. */
  function Scale(mantissa: real): (r: (real, nat))
    ensures r.0 <= 9.0
    decreases if mantissa > 9.0 then mantissa.Floor else 0
  {
    if mantissa > 9.0 then
      var r := Scale(mantissa / 10.0);
      (r.0, r.1 + 1)
    else (mantissa, 0)
  }

  lemma {:induction false} ScaleIs(x: real)
    ensures var (m, e) := Scale(x);
            && Shift(m, e) == x
            && (e > 0 ==> m > 0.9)
    decreases if x > 9.0 then x.Floor else 0
  {
    if x > 9.0 {
      ScaleIs(x / 10.0);
    }
  }

  /** The size octet for a size in metres; None is the exception. */
  function SizeOctet(metres: real): Option<nat> {
    var (m, e) := Scale(metres * 100.0);
    var n := Round(m);
    if 1 <= n <= 9 && e <= 9 then Some(n * 16 + e) else None
  }

  /** encode_loc_size. */
  method EncodeLocSize(sizeMeters: real) returns (r: Option<nat>)
    ensures r == SizeOctet(sizeMeters)
  {
    var sizeCm := sizeMeters * 100.0;
    var exponent: nat := 0;
    var mantissa := sizeCm;
    while mantissa > 9.0
      invariant Scale(sizeCm) == (Scale(mantissa).0, Scale(mantissa).1 + exponent)
      decreases if mantissa > 9.0 then mantissa.Floor else 0
    {
      mantissa := mantissa / 10.0;
      exponent := exponent + 1;
    }
    var rounded := Round(mantissa);
    if rounded == 10 {
      assert false;
    }
    if !(1 <= rounded <= 9 && 0 <= exponent <= 9) {
      return None;
    }
    r := Some(rounded * 16 + exponent);
  }

  function Mantissa(octet: nat): nat {
    octet / 16 % 16
  }

  function Exponent(octet: nat): nat {
    octet % 16
  }

  /** The size in centimetres an octet stands for. */
  function SizeCm(octet: nat): nat {
    Mantissa(octet) * Pow10(Exponent(octet))
  }

  lemma SizeOctetParts(metres: real)
    requires SizeOctet(metres).Some?
    ensures var (m, e) := Scale(metres * 100.0);
            && Exponent(SizeOctet(metres).value) == e && Mantissa(SizeOctet(metres).value) == Round(m)
            && 1 <= Round(m) <= 9 && e <= 9
            && SizeCm(SizeOctet(metres).value) as real == Shift(Round(m) as real, e)
            && Shift(m, e) == metres * 100.0
  {
    var (m, e) := Scale(metres * 100.0);
    ScaleIs(metres * 100.0);
    ShiftIsProduct(Round(m), e);
  }

  /** A size that can be encoded comes back at most half of 10^exponent centimetres off. */
  lemma SizeError(metres: real)
    requires SizeOctet(metres).Some?
    ensures var octet := SizeOctet(metres).value;
            var p := Pow10(Exponent(octet)) as real;
            -p <= 2.0 * (SizeCm(octet) as real - metres * 100.0) <= p
  {
    var (m, e) := Scale(metres * 100.0);
    SizeOctetParts(metres);
    RoundIsNearest(m);
    ShiftClose(Round(m) as real, m, e);
  }

  /** Exponents grow with the size. */
  lemma {:induction false} ScaleOrder(x: real, y: real)
    requires x <= y
    ensures Scale(x).1 <= Scale(y).1
    decreases if x > 9.0 then x.Floor else 0
  {
    if x > 9.0 {
      ScaleOrder(x / 10.0, y / 10.0);
    }
  }

  lemma DigitsOrder(a: real, e: nat, b: real, g: nat)
    requires a <= 9.0 && 1.0 <= b && e < g
    ensures Shift(a, e) <= Shift(b, g)
  {
    ShiftOrder(a, 10.0 * b, e);
    ShiftTen(b, e);
    ShiftGrows(b, e + 1, g);
  }

  /** Encoding and decoding keeps the order of sizes. */
  lemma SizeOrder(a: real, b: real)
    requires a <= b && SizeOctet(a).Some? && SizeOctet(b).Some?
    ensures SizeCm(SizeOctet(a).value) <= SizeCm(SizeOctet(b).value)
  {
    var (m, e) := Scale(a * 100.0);
    var (n, g) := Scale(b * 100.0);
    SizeOctetParts(a);
    SizeOctetParts(b);
    ScaleOrder(a * 100.0, b * 100.0);
    if e == g {
      ShiftOrder(m, n, e);
      RoundIsMonotone(m, n);
      ShiftOrder(Round(m) as real, Round(n) as real, e);
    } else {
      DigitsOrder(Round(m) as real, e, Round(n) as real, g);
    }
  }

  lemma {:induction false} ScaleOfShift(m: real, e: nat)
    requires 1.0 <= m <= 9.0
    ensures Scale(Shift(m, e)) == (m, e)
  {
    if e > 0 {
      ShiftGrows(m, 0, e - 1);
      ScaleOfShift(m, e - 1);
      assert Shift(m, e) / 10.0 == Shift(m, e - 1);
    }
  }

  /** The octets RFC 1876 allows for sizes other than zero. */
  predicate IsSizeOctet(octet: nat) {
    octet < 256 && 1 <= Mantissa(octet) <= 9 && Exponent(octet) <= 9
  }

  lemma EncodeScaled(metres: real, m: nat, e: nat)
    requires 1 <= m <= 9 && e <= 9 && metres * 100.0 == (m * Pow10(e)) as real
    ensures SizeOctet(metres) == Some(m * 16 + e)
  {
    ShiftIsProduct(m, e);
    ScaleOfShift(m as real, e);
    RoundOfInt(m);
  }

  lemma OctetIs(octet: nat)
    requires octet < 256
    ensures Mantissa(octet) * 16 + Exponent(octet) == octet
  {
  }

  lemma ValidComesBack(octet: nat)
    requires IsSizeOctet(octet)
    ensures SizeOctet(SizeCm(octet) as real / 100.0) == Some(octet)
  {
    OctetIs(octet);
    EncodeScaled(SizeCm(octet) as real / 100.0, Mantissa(octet), Exponent(octet));
  }

  lemma InvalidIsLost(octet: nat)
    requires octet < 256 && !IsSizeOctet(octet)
    ensures SizeOctet(SizeCm(octet) as real / 100.0) != Some(octet)
  {
    var metres := SizeCm(octet) as real / 100.0;
    if SizeOctet(metres) == Some(octet) {
      SizeOctetParts(metres);
    }
  }

  /** Encoding what an octet stands for gives the octet back exactly for valid octets. */
  lemma SizeRoundTrip(octet: nat)
    requires octet < 256
    ensures SizeOctet(SizeCm(octet) as real / 100.0) == Some(octet) <==> IsSizeOctet(octet)
  {
    if IsSizeOctet(octet) {
      ValidComesBack(octet);
    } else {
      InvalidIsLost(octet);
    }
  }

  lemma {:induction false} ScaleAtMost(x: real, k: nat)
    ensures Scale(x).1 <= k <==> x <= Shift(9.0, k)
    decreases k
  {
    if x > 9.0 {
      if k > 0 {
        ScaleAtMost(x / 10.0, k - 1);
      }
    } else {
      ShiftGrows(9.0, 0, k);
    }
  }

  lemma NineBillion()
    ensures Shift(9.0, 9) == 9_000_000_000.0
  {
    assert Shift(9.0, 3) == 9_000.0;
    assert Shift(9.0, 6) == 9_000_000.0;
  }

  /** Exactly the sizes above half a centimetre and up to ninety thousand kilometres can be
      encoded. */
  lemma EncodableSizes(metres: real)
    ensures SizeOctet(metres).Some? <==> 0.5 < metres * 100.0 <= 9_000_000_000.0
  {
    var x := metres * 100.0;
    var (m, e) := Scale(x);
    ScaleIs(x);
    ScaleAtMost(x, 9);
    NineBillion();
    if e > 0 {
      ShiftOrder(0.9, m, e);
      ShiftGrows(0.9, 1, e);
    }
  }
}
