/** The 64 x 64 -> 128 bit multiply: the product split into two words, and the portable form that
    builds it from four 32-bit products. */
module Mult128 {
  import opened Words

  datatype Hash128 = Hash128(low64: u64, high64: u64)

  function Product(x: nat, y: nat): nat { x * y }

  /** What a native 128-bit product gives. */
  function Mult64to128(lhs: u64, rhs: u64): Hash128 {
    var product := Product(lhs as nat, rhs as nat);
    Hash128(Low64(product), Low64(product / TWO64))
  }

  function Mul128Fold64(lhs: u64, rhs: u64): u64 {
    var product := Mult64to128(lhs, rhs);
    product.low64 ^ product.high64
  }

  // ---- the portable form, on words held as naturals with every wrap-around written out ----

  function Wrap(x: nat): nat { x % TWO64 }

  function Low(x: nat): nat { x % TWO32 }

  function High(x: nat): nat { x / TWO32 }

  function Mult32to64(x: nat, y: nat): nat { Wrap(Low(x) * Low(y)) }

  /** The middle column. */
  function Cross(loLo: nat, hiLo: nat, loHi: nat): nat { Wrap(Wrap(High(loLo) + Low(hiLo)) + loHi) }

  function Upper(hiLo: nat, cross: nat, hiHi: nat): nat { Wrap(Wrap(High(hiLo) + High(cross)) + hiHi) }

  /** The shifted word and the masked one share no bit, so their `|` is their sum. */
  function Lower(cross: nat, loLo: nat): nat { Wrap(cross * TWO32) + Low(loLo) }

  datatype Words128 = Words128(low: nat, high: nat)

  function PortableMult(lhs: nat, rhs: nat): Words128 {
    var loLo := Mult32to64(Low(lhs), Low(rhs));
    var hiLo := Mult32to64(High(lhs), Low(rhs));
    var loHi := Mult32to64(Low(lhs), High(rhs));
    var hiHi := Mult32to64(High(lhs), High(rhs));
    var cross := Cross(loLo, hiLo, loHi);
    Words128(Lower(cross, loLo), Upper(hiLo, cross, hiHi))
  }

  const HALF_PRODUCT_MAX: nat := 0xFFFF_FFFE_0000_0001

  /** The final bitwise or of the halves is their sum. */
  lemma OrIsSum(cross: u64, loLo: u64)
    ensures (cross << 32) | (loLo & 0xFFFFFFFF) == (cross << 32) + (loLo & 0xFFFFFFFF)
  {
  }

  lemma MulBound(x: nat, y: nat, m: nat)
    requires x <= m && y <= m
    ensures x * y <= m * m
  {
    assert x * y <= m * y <= m * m;
  }

  /** A product of two halves fits a word and leaves room for two more halves. */
  lemma HalfProduct(x: nat, y: nat)
    requires x < TWO32 && y < TWO32
    ensures Mult32to64(x, y) == x * y <= HALF_PRODUCT_MAX
  {
    MulBound(x, y, TWO32 - 1);
  }

  /** None of the additions wraps. */
  lemma NoOverflow(loLo: nat, hiLo: nat, loHi: nat, hiHi: nat)
    requires loLo <= HALF_PRODUCT_MAX && hiLo <= HALF_PRODUCT_MAX
    requires loHi <= HALF_PRODUCT_MAX && hiHi <= HALF_PRODUCT_MAX
    ensures Cross(loLo, hiLo, loHi) == High(loLo) + Low(hiLo) + loHi
    ensures var cross := Cross(loLo, hiLo, loHi); Upper(hiLo, cross, hiHi) == High(hiLo) + High(cross) + hiHi
  {
  }

  lemma Shifted(cross: nat, loLo: nat)
    ensures Lower(cross, loLo) == (cross % TWO32) * TWO32 + Low(loLo)
  {
  }

  lemma GradeSchool(loLo: nat, hiLo: nat, loHi: nat, hiHi: nat)
    ensures var cross := High(loLo) + Low(hiLo) + loHi;
            var upper := High(hiLo) + High(cross) + hiHi;
            upper * TWO64 + (cross % TWO32) * TWO32 + Low(loLo) ==
            loLo + hiLo * TWO32 + loHi * TWO32 + hiHi * TWO64
  {
  }

  /** The columns add up to the grade-school sum of the four products. */
  lemma Columns(loLo: nat, hiLo: nat, loHi: nat, hiHi: nat)
    requires loLo <= HALF_PRODUCT_MAX && hiLo <= HALF_PRODUCT_MAX
    requires loHi <= HALF_PRODUCT_MAX && hiHi <= HALF_PRODUCT_MAX
    ensures var cross := Cross(loLo, hiLo, loHi);
            && Lower(cross, loLo) < TWO64
            && Upper(hiLo, cross, hiHi) * TWO64 + Lower(cross, loLo) ==
               loLo + hiLo * TWO32 + loHi * TWO32 + hiHi * TWO64
  {
    hide Cross, Upper, Lower;
    NoOverflow(loLo, hiLo, loHi, hiHi);
    Shifted(Cross(loLo, hiLo, loHi), loLo);
    GradeSchool(loLo, hiLo, loHi, hiHi);
  }

  lemma Expand(a: nat, b: nat, c: nat, d: nat)
    ensures (a * TWO32 + b) * (c * TWO32 + d) == b * d + (a * d) * TWO32 + (b * c) * TWO32 + (a * c) * TWO64
  {
    calc {
      (a * TWO32 + b) * (c * TWO32 + d);
      (a * TWO32) * (c * TWO32 + d) + b * (c * TWO32 + d);
      (a * TWO32) * (c * TWO32) + (a * TWO32) * d + (b * (c * TWO32) + b * d);
    }
    assert (a * TWO32) * (c * TWO32) == (a * c) * TWO64;
    assert (a * TWO32) * d == (a * d) * TWO32;
    assert b * (c * TWO32) == (b * c) * TWO32;
  }

  /** The portable multiply is exact. */
  lemma PortableExact(lhs: nat, rhs: nat)
    requires lhs < TWO64 && rhs < TWO64
    ensures PortableMult(lhs, rhs).high * TWO64 + PortableMult(lhs, rhs).low == Product(lhs, rhs)
    ensures PortableMult(lhs, rhs).low < TWO64
  {
    hide Cross, Upper, Lower, Mult32to64;
    var a, b, c, d := High(lhs), Low(lhs), High(rhs), Low(rhs);
    HalfProduct(b, d);
    HalfProduct(a, d);
    HalfProduct(b, c);
    HalfProduct(a, c);
    Columns(b * d, a * d, b * c, a * c);
    Expand(a, b, c, d);
    assert lhs == a * TWO32 + b && rhs == c * TWO32 + d;
  }

  lemma DivMod(x: nat, low: nat, high: nat)
    requires x == high * TWO64 + low && low < TWO64
    ensures x % TWO64 == low % TWO64 && x / TWO64 == high
  {
  }

  /** So it returns the same two words as the native product. */
  lemma PortableIsNative(lhs: u64, rhs: u64)
    ensures var r := PortableMult(lhs as nat, rhs as nat);
            Mult64to128(lhs, rhs) == Hash128(Low64(r.low), Low64(r.high))
  {
    hide PortableMult, Product;
    var r := PortableMult(lhs as nat, rhs as nat);
    PortableExact(lhs as nat, rhs as nat);
    DivMod(Product(lhs as nat, rhs as nat), r.low, r.high);
  }
}
