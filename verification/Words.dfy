/** Fixed-width machine words as bounded integers: truncation, sign extension and bitwise operators. */
module Words {
  const TWO_32: int := 0x1_0000_0000
  const TWO_64: int := 0x1_0000_0000_0000_0000

  type Word32 = x: int | 0 <= x < 0x1_0000_0000
  type Word64 = x: int | 0 <= x < 0x1_0000_0000_0000_0000

  function Pow2(n: nat): (p: nat)
    ensures p >= 1
  {
    if n == 0 then 1 else 2 * Pow2(n - 1)
  }

  type Byte = x: int | 0 <= x < 256

  function Min(a: int, b: int): int { if a < b then a else b }
  function Max(a: int, b: int): int { if a > b then a else b }

  /** The low half of a 64-bit register. */
  function Low(x: Word64): Word32 {
    x % TWO_32
  }

  /** The 64-bit register holding a 32-bit word sign-extended. */
  function SignExtend(x: Word32): Word64 {
    if x < 0x8000_0000 then x else x + (TWO_64 - TWO_32)
  }

  lemma Powers()
    ensures Pow2(31) == 0x8000_0000
    ensures Pow2(32) == TWO_32
    ensures Pow2(63) == 0x8000_0000_0000_0000
    ensures Pow2(64) == TWO_64
  {
    assert Pow2(8) == 256;
    assert Pow2(16) == 0x1_0000;
    assert Pow2(24) == 0x100_0000;
    assert Pow2(31) == 0x8000_0000;
    assert Pow2(40) == 0x100_0000_0000;
    assert Pow2(48) == 0x1_0000_0000_0000;
    assert Pow2(56) == 0x100_0000_0000_0000;
    assert Pow2(63) == 0x8000_0000_0000_0000;
  }

  datatype Bitwise = BAnd | BOr | BXor

  function Bit(op: Bitwise, x: int, y: int): int {
    match op
    case BAnd => if x == 1 && y == 1 then 1 else 0
    case BOr => if x == 1 || y == 1 then 1 else 0
    case BXor => if x == y then 0 else 1
  }

  /** The low n bits of a bitwise operator. */
  function Bits(op: Bitwise, x: nat, y: nat, n: nat): (r: nat)
    ensures r < Pow2(n)
  {
    if n == 0 then 0 else 2 * Bits(op, x / 2, y / 2, n - 1) + Bit(op, x % 2, y % 2)
  }

  lemma ModHalf(x: nat, p: nat)
    requires p >= 1
    ensures (x % (2 * p)) / 2 == (x / 2) % p
    ensures (x % (2 * p)) % 2 == x % 2
  {
    var q, r := x / (2 * p), x % (2 * p);
    assert x == 2 * p * q + r;
    assert 2 * p * q == 2 * (p * q);
    assert x / 2 == p * q + r / 2;
    assert r / 2 < p;
    ModUnique(x / 2, p, q, r / 2);
  }

  lemma ModDouble(x: nat, p: nat)
    requires p >= 1
    ensures x % (2 * p) == 2 * ((x / 2) % p) + x % 2
  {
    ModHalf(x, p);
    var c := x % (2 * p);
    assert c == 2 * (c / 2) + c % 2;
  }

  lemma ModUnique(x: int, d: int, q: int, r: int)
    requires d > 0 && 0 <= r < d && x == d * q + r
    ensures x % d == r && x / d == q
  {
    var e := q - x / d;
    assert d * e == d * q - d * (x / d);
    assert d * e == x % d - r;
    MulMonotone(d, e);
  }

  lemma MulMonotone(d: int, e: int)
    requires d > 0
    ensures e >= 1 ==> d * e >= d
    ensures e <= -1 ==> d * e <= -d
  {
    if e >= 1 {
      assert d * e == d + d * (e - 1);
    } else if e <= -1 {
      assert d * e == -d + d * (e + 1);
    }
  }

  lemma MulOrder(a: nat, b: nat, c: nat)
    ensures b <= c ==> a * b <= a * c
  {
  }

  /** A wide bitwise operator agrees, on its low k bits, with the narrow operator on truncated operands. */
  lemma {:induction false} BitsTruncate(op: Bitwise, x: nat, y: nat, n: nat, k: nat)
    requires k <= n
    ensures Bits(op, x, y, n) % Pow2(k) == Bits(op, x % Pow2(k), y % Pow2(k), k)
  {
    if k > 0 {
      BitsTruncate(op, x / 2, y / 2, n - 1, k - 1);
      ModHalf(x, Pow2(k - 1));
      ModHalf(y, Pow2(k - 1));
      var b := Bits(op, x, y, n);
      ModHalf(b, Pow2(k - 1));
      assert b / 2 == Bits(op, x / 2, y / 2, n - 1);
      assert b % 2 == Bit(op, x % 2, y % 2);
      var c := b % Pow2(k);
      assert c == 2 * (c / 2) + c % 2;
    }
  }

  /** Masking with 2^k - 1 is the remainder modulo 2^k. */
  lemma {:induction false} AndMask(x: nat, k: nat, n: nat)
    requires k <= n
    ensures Bits(BAnd, x, Pow2(k) - 1, n) == x % Pow2(k)
  {
    hide Bits;
    if k == 0 {
      AndZero(x, n);
      assert Pow2(k) == 1;
    } else {
      AndMask(x / 2, k - 1, n - 1);
      AndMaskStep(x, Pow2(k - 1), n);
    }
  }

  lemma AndMaskStep(x: nat, p: nat, n: nat)
    requires p >= 1 && n >= 1
    requires Bits(BAnd, x / 2, p - 1, n - 1) == (x / 2) % p
    ensures Bits(BAnd, x, 2 * p - 1, n) == x % (2 * p)
  {
    ModDouble(x, p);
    AndOnes(x, p, n);
  }

  lemma AndOnes(x: nat, p: nat, n: nat)
    requires p >= 1 && n >= 1
    ensures Bits(BAnd, x, 2 * p - 1, n) == 2 * Bits(BAnd, x / 2, p - 1, n - 1) + x % 2
  {
    assert 2 * p - 1 == 2 * (p - 1) + 1;
  }

  lemma {:induction false} AndZero(x: nat, n: nat)
    ensures Bits(BAnd, x, 0, n) == 0
  {
    if n > 0 {
      AndZero(x / 2, n - 1);
    }
  }

  // ---- single bits ------------------------------------------------------------------------------

  predicate BitAt(x: nat, k: nat) { if k == 0 then x % 2 == 1 else BitAt(x / 2, k - 1) }

  /** Bit k is what is left of k places, modulo two. */
  lemma {:induction false} BitIs(x: nat, k: nat)
    ensures BitAt(x, k) <==> x / Pow2(k) % 2 == 1
  {
    if k > 0 {
      BitIs(x / 2, k - 1);
      HalfThen(x, Pow2(k - 1));
    }
  }

  lemma HalfThen(x: int, p: nat)
    requires p >= 1
    ensures x / 2 / p == x / (2 * p)
  {
    var q, r := x / 2 / p, x / 2 % p;
    assert x / 2 == p * q + r;
    assert 2 * (p * q) == 2 * p * q;
    ModUnique(x, 2 * p, q, 2 * r + x % 2);
  }

  /** The bitwise operators work bit by bit. */
  lemma {:induction false} BitsAt(op: Bitwise, x: nat, y: nat, n: nat, k: nat)
    requires k < n
    ensures BitAt(Bits(op, x, y, n), k) <==>
      match op
      case BAnd => BitAt(x, k) && BitAt(y, k)
      case BOr => BitAt(x, k) || BitAt(y, k)
      case BXor => BitAt(x, k) != BitAt(y, k)
  {
    if k > 0 {
      BitsAt(op, x / 2, y / 2, n - 1, k - 1);
    }
  }

  /** Taking a number from all ones flips its bits. */
  lemma {:induction false} FlippedAt(x: nat, n: nat, k: nat)
    requires x < Pow2(n) && k < n
    ensures BitAt(Pow2(n) - 1 - x, k) <==> !BitAt(x, k)
  {
    HalfOfRest(x, Pow2(n - 1));
    if k > 0 {
      FlippedAt(x / 2, n - 1, k - 1);
    }
  }

  lemma HalfOfRest(x: nat, p: nat)
    requires x < 2 * p
    ensures (2 * p - 1 - x) / 2 == p - 1 - x / 2 && (2 * p - 1 - x) % 2 == 1 - x % 2
  {
    ModUnique(2 * p - 1 - x, 2, p - 1 - x / 2, 1 - x % 2);
  }
}
