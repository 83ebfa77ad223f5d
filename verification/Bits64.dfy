/** Bitwise operators of Go's int64, bit by bit on two's complement. */
module Bits64 {
  import opened Int64

  function Pow2(k: nat): (r: nat)
    ensures r > 0
  {
    if k == 0 then 1 else 2 * Pow2(k - 1)
  }

  /** The bit pattern of an int64, read as an unsigned number. */
  function Pattern(x: int): (r: nat) {
    x % MODULUS
  }

  function OrPattern(a: nat, b: nat): (r: nat) {
    if a == 0 && b == 0 then 0
    else 2 * OrPattern(a / 2, b / 2) + if a % 2 == 1 || b % 2 == 1 then 1 else 0
  }

  function AndPattern(a: nat, b: nat): (r: nat) {
    if a == 0 || b == 0 then 0
    else 2 * AndPattern(a / 2, b / 2) + if a % 2 == 1 && b % 2 == 1 then 1 else 0
  }

  /** `x | y`. */
  function Or(x: int, y: int): int {
    Wrap(OrPattern(Pattern(x), Pattern(y)))
  }

  /** `x & y`. */
  function And(x: int, y: int): int {
    Wrap(AndPattern(Pattern(x), Pattern(y)))
  }

  /** `x << k`. */
  function ShiftLeft(x: int, k: nat): int {
    Wrap(x * Pow2(k))
  }

  /** `x >> k`, the arithmetic shift. */
  function ShiftRight(x: int, k: nat): int {
    x / Pow2(k)
  }

  lemma {:induction false} OrZero(a: nat)
    ensures OrPattern(a, 0) == a
  {
    if a > 0 { OrZero(a / 2); }
  }

  /** Bits above position `k` and bits below it do not meet: or is addition. */
  lemma {:induction false} OrDisjoint(high: nat, low: nat, k: nat)
    requires low < Pow2(k)
    ensures OrPattern(high * Pow2(k), low) == high * Pow2(k) + low
  {
    if k == 0 {
      OrZero(high);
    } else {
      OrDisjoint(high, low / 2, k - 1);
      DoublePow2(high, k);
      OrEven(high * Pow2(k - 1), low);
    }
  }

  lemma DoublePow2(high: nat, k: nat)
    requires k > 0
    ensures high * Pow2(k) == 2 * (high * Pow2(k - 1))
  {
  }

  lemma OrEven(half: nat, low: nat)
    ensures OrPattern(2 * half, low) == 2 * OrPattern(half, low / 2) + low % 2
  {
    assert (2 * half) / 2 == half && (2 * half) % 2 == 0;
  }

  /** And with a mask of `k` ones keeps the `k` lowest bits. */
  lemma {:induction false} AndMask(a: nat, k: nat)
    ensures AndPattern(a, Pow2(k) - 1) == a % Pow2(k)
  {
    if k > 0 {
      AndMask(a / 2, k - 1);
      AndStep(a, Pow2(k - 1));
      ModHalf(a, Pow2(k - 1));
    }
  }

  lemma AndStep(a: nat, m: nat)
    requires m > 0
    ensures AndPattern(a, 2 * m - 1) == 2 * AndPattern(a / 2, m - 1) + a % 2
  {
    var b := 2 * m - 1;
    assert b / 2 == m - 1 && b % 2 == 1;
  }

  lemma ModHalf(a: nat, m: nat)
    requires m > 0
    ensures a % (2 * m) == 2 * ((a / 2) % m) + a % 2
  {
    var q, r := (a / 2) / m, (a / 2) % m;
    assert a == (2 * m) * q + (2 * r + a % 2) by {
      assert a / 2 == m * q + r;
    }
    ModUnique(a, 2 * m, q, 2 * r + a % 2);
  }

  lemma ModUnique(a: int, d: int, q: int, r: int)
    requires d > 0 && 0 <= r < d && a == d * q + r
    ensures a % d == r && a / d == q
  {
    var q', r' := a / d, a % d;
    assert a == d * q' + r';
    if q' > q {
      assert d * (q' - q) >= d by { MulAtLeast(d, q' - q); }
    } else if q' < q {
      assert d * (q - q') >= d by { MulAtLeast(d, q - q'); }
    }
  }

  lemma MulAtLeast(d: int, n: int)
    requires d > 0 && n >= 1
    ensures d * n >= d
  {
  }
}
