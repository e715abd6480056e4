/** Bitwise operators on words. */
module Bitwise {
  import opened Bytes

  /** ~a on words of `width` bits. */
  function BitNot(a: nat, width: nat): nat {
    if width == 0 then 0 else 1 - a % 2 + 2 * BitNot(a / 2, width - 1)
  }

  /** a & b on words of `width` bits. */
  function BitAnd(a: nat, b: nat, width: nat): nat {
    if width == 0 then 0 else (if a % 2 == 1 && b % 2 == 1 then 1 else 0) + 2 * BitAnd(a / 2, b / 2, width - 1)
  }

  /** a | b on words of `width` bits. */
  function BitOr(a: nat, b: nat, width: nat): nat {
    if width == 0 then 0 else (if a % 2 == 1 || b % 2 == 1 then 1 else 0) + 2 * BitOr(a / 2, b / 2, width - 1)
  }

  lemma {:induction false} AndCommutes(a: nat, b: nat, width: nat)
    ensures BitAnd(a, b, width) == BitAnd(b, a, width)
  {
    if width > 0 { AndCommutes(a / 2, b / 2, width - 1); }
  }

  lemma {:induction false} OrZero(a: nat, width: nat)
    requires a < Power(width)
    ensures BitOr(a, 0, width) == a
  {
    if width > 0 { OrZero(a / 2, width - 1); }
  }

  function Power(k: nat): (p: nat)
    ensures p > 0
  {
    if k == 0 then 1 else 2 * Power(k - 1)
  }

  lemma {:induction false} MaskOfOnes(x: nat, width: nat)
    requires x < Power(width)
    ensures BitAnd(BitNot(0, width), x, width) == x
  {
    if width > 0 {
      MaskOfOnes(x / 2, width - 1);
      assert BitNot(0, width) == 1 + 2 * BitNot(0, width - 1);
    }
  }

  lemma {:induction false} MaskClears(x: nat, k: nat, width: nat)
    requires k <= width && x < Power(width)
    ensures BitAnd(BitNot(Power(k) - 1, width), x, width) == x - x % Power(k)
  {
    hide BitAnd, BitNot, Power;
    if k == 0 {
      PowerOfNone();
      MaskOfOnes(x, width);
    } else {
      var half := Power(k - 1);
      PowerStep(k);
      PowerStep(width);
      MaskClears(x / 2, k - 1, width - 1);
      MaskHalves(x, half, width);
      HalvesModulo(x, half);
      Halves(x, x / 2 % half);
    }
  }

  lemma Halves(x: nat, m: nat)
    ensures 2 * (x / 2 - m) == x - (x % 2 + 2 * m)
  {
  }

  lemma PowerOfNone()
    ensures Power(0) == 1
  {
  }

  lemma PowerStep(k: nat)
    requires k > 0
    ensures Power(k) == 2 * Power(k - 1)
  {
  }

  lemma MaskHalves(x: nat, half: nat, width: nat)
    requires half > 0 && width > 0
    ensures BitAnd(BitNot(2 * half - 1, width), x, width) == 2 * BitAnd(BitNot(half - 1, width - 1), x / 2, width - 1)
  {
    assert (2 * half - 1) / 2 == half - 1 && (2 * half - 1) % 2 == 1;
  }

  lemma HalvesModulo(x: nat, half: nat)
    requires half > 0
    ensures x % (2 * half) == x % 2 + 2 * (x / 2 % half)
  {
    var q, m := x / 2 / half, x / 2 % half;
    assert x / 2 == half * q + m;
    assert x == (2 * half) * q + (x % 2 + 2 * m);
    DivModUnique(x, 2 * half, q, x % 2 + 2 * m);
  }

  lemma PowerOf32()
    ensures Power(32) == 0x1_0000_0000
  {
    assert Power(8) == 256 && Power(16) == 65536 && Power(24) == 0x100_0000;
  }
}
