/** Little-endian words over a byte sequence: what the typed-array views of one buffer share. */
module Bytes {
  type byte = x: int | 0 <= x < 256

  /** The number of values a word of `width` bytes can hold. */
  function Radix(width: nat): (r: nat)
    ensures r >= 1
  {
    if width == 0 then 1 else 256 * Radix(width - 1)
  }

  /** The unsigned little-endian word stored in `width` bytes from `at`. */
  function Word(mem: seq<byte>, at: nat, width: nat): (w: nat)
    requires at + width <= |mem|
    ensures w < Radix(width)
    decreases width
  {
    if width == 0 then 0 else mem[at] + 256 * Word(mem, at + 1, width - 1)
  }

  /** The word at `at` lies inside the buffer and reads as `w`. */
  predicate Holds(mem: seq<byte>, at: nat, width: nat, w: nat) {
    at + width <= |mem| && Word(mem, at, width) == w
  }

  /** Typed arrays store a number modulo the range of their element type. */
  function Wrap(value: int, width: nat): (w: nat)
    ensures w < Radix(width)
    ensures 0 <= value < Radix(width) ==> w == value
  {
    Modulo(value, Radix(width))
  }

  function Modulo(value: int, d: nat): (m: nat)
    requires d > 0
    ensures m < d
    ensures 0 <= value < d ==> m == value
  {
    value % d
  }

  /** Two's complement reading of a word. */
  function Signed(w: nat, width: nat): int
    requires w < Radix(width)
  {
    if 2 * w < Radix(width) then w else w - Radix(width)
  }

  /** Two's complement recovers every number in the signed range. */
  lemma SignedOfWrap(n: int, width: nat)
    requires 0 <= 2 * n + Radix(width) && 2 * n < Radix(width)
    ensures Signed(Wrap(n, width), width) == n
  {
    if n < 0 {
      DivModUnique(n, Radix(width), -1, n + Radix(width));
    }
  }

  lemma Widths()
    ensures Radix(1) == 0x100
    ensures Radix(2) == 0x1_0000
    ensures Radix(4) == 0x1_0000_0000
    ensures Radix(8) == 0x1_0000_0000_0000_0000
  {
    assert Radix(3) == 256 * Radix(2);
    assert Radix(5) == 256 * Radix(4);
    assert Radix(6) == 256 * Radix(5);
    assert Radix(7) == 256 * Radix(6);
  }

  /** Two memories hold the same bytes at every address of [lo, hi), which neither cuts short alone. */
  predicate Agree(m: seq<byte>, m': seq<byte>, lo: nat, hi: nat) {
    (|m| == |m'| || (hi <= |m| && hi <= |m'|)) && forall i :: lo <= i < hi && i < |m| && i < |m'| ==> m[i] == m'[i]
  }

  lemma AgreeWithin(m: seq<byte>, m': seq<byte>, lo: nat, hi: nat, lo': nat, hi': nat)
    requires Agree(m, m', lo, hi) && lo <= lo' && hi' <= hi
    ensures Agree(m, m', lo', hi')
  {
  }

  lemma {:induction false} WordFrame(m: seq<byte>, m': seq<byte>, at: nat, width: nat)
    requires Agree(m, m', at, at + width) && at + width <= |m| && at + width <= |m'|
    ensures Word(m, at, width) == Word(m', at, width)
    decreases width
  {
    if width > 0 {
      WordFrame(m, m', at + 1, width - 1);
    }
  }

  /** Storing digit by digit yields the word: the low byte first, then the rest. */
  lemma WordUnfold(mem: seq<byte>, at: nat, width: nat, value: int)
    requires width > 0 && at + width <= |mem|
    requires mem[at] == value % 256
    requires Word(mem, at + 1, width - 1) == Wrap(value / 256, width - 1)
    ensures Word(mem, at, width) == Wrap(value, width)
  {
    LowDigit(value, Radix(width - 1));
  }

  lemma LowDigit(value: int, r: nat)
    requires r > 0
    ensures value % (256 * r) == value % 256 + 256 * (value / 256 % r)
  {
    var q := value / 256;
    var k, m := q / r, q % r;
    QuotientAndRest(q, r);
    Regrouped(r, k);
    DivModUnique(value, 256 * r, k, value % 256 + 256 * m);
  }

  lemma QuotientAndRest(q: int, r: nat)
    requires r > 0
    ensures q == r * (q / r) + q % r && 0 <= q % r < r
  {
  }

  lemma Regrouped(r: nat, k: int)
    ensures 256 * (r * k) == (256 * r) * k
  {
  }

  lemma DivModUnique(value: int, d: int, q: int, m: int)
    requires d > 0 && value == d * q + m && 0 <= m < d
    ensures value % d == m
  {
    var e := q - value / d;
    assert d * e == d * q - d * (value / d);
    MultipleBelow(d, e);
  }

  lemma MultipleBelow(d: int, e: int)
    requires -d < d * e < d
    ensures e == 0
  {
  }
}
