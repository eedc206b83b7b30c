/** What the operators that guest and host share compute, in plain arithmetic. */
module Operators {
  import opened Words
  import opened HostOps

  /** The two's-complement reading of a word below m. */
  function Signed(x: nat, m: nat): int { if 2 * x < m then x else x - m }

  lemma {:induction false} ShiftRightIs(a: nat, n: nat)
    ensures ShiftRight(a, n) == a / Pow2(n)
    decreases n
  {
    if n > 0 {
      ShiftRightIs(a / 2, n - 1);
      HalfThen(a, Pow2(n - 1));
    }
  }

  lemma {:induction false} ShiftArithIs(a: int, n: nat)
    ensures ShiftArith(a, n) == a / Pow2(n)
    decreases n
  {
    if n > 0 {
      ShiftArithIs(a / 2, n - 1);
      HalfThen(a, Pow2(n - 1));
    }
  }

  lemma {:induction false} ShiftLeftIs(a: nat, n: nat, m: nat)
    requires a < m
    ensures ShiftLeft(a, n, m) == a * Pow2(n) % m
    decreases n
  {
    if n == 0 {
      ModUnique(a, m, 0, a);
    } else {
      ShiftLeftIs(2 * a % m, n - 1, m);
      ModTimes(2 * a, Pow2(n - 1), m);
      assert 2 * a * Pow2(n - 1) == a * Pow2(n);
    }
  }

  lemma ModTimes(x: nat, k: nat, m: nat)
    requires m > 0
    ensures x % m * k % m == x * k % m
  {
    var q, r := x / m, x % m;
    var s, t := r * k / m, r * k % m;
    assert x == m * q + r;
    Distribute(m, q, r, k);
    assert r * k == m * s + t;
    Gather(m, q * k, s);
    ModUnique(x * k, m, q * k + s, t);
  }

  lemma Distribute(m: nat, q: nat, r: nat, k: nat)
    ensures (m * q + r) * k == m * (q * k) + r * k
  {
  }

  lemma Gather(m: nat, a: nat, b: nat)
    ensures m * a + m * b == m * (a + b)
  {
  }

  lemma DivideBetween(x: int, p: int, h: int)
    requires p >= 1 && -h <= x < h
    ensures -h <= x / p < h
  {
    var q, r := x / p, x % p;
    Multiple(x, p);
    Scaled(p, q);
    Scaled(p, q + 1);
    Next(p, q);
  }

  lemma Multiple(x: int, p: int)
    requires p >= 1
    ensures x == p * (x / p) + x % p && 0 <= x % p < p
  {
  }

  lemma Scaled(p: int, q: int)
    requires p >= 1
    ensures q >= 0 ==> p * q >= q
    ensures q <= 0 ==> p * q <= q
  {
    if q >= 0 {
      assert p * q == q + (p - 1) * q;
    } else {
      assert p * q == q - (p - 1) * -q;
    }
  }

  lemma Next(p: int, q: int)
    ensures p * (q + 1) == p * q + p
  {
  }

  /** Bit k of the result of a bitwise operator. */
  predicate BitOf(op: Bitwise, a: bool, b: bool) {
    match op case BAnd => a && b case BOr => a || b case BXor => a != b
  }

  predicate Bitwisely(op: Bitwise, r: nat, a: nat, b: nat, n: nat) {
    forall k :: 0 <= k < n ==> (BitAt(r, k) <==> BitOf(op, BitAt(a, k), BitAt(b, k)))
  }

  lemma BitwiseIs(op: Bitwise, a: nat, b: nat, n: nat)
    ensures Bitwisely(op, Bits(op, a, b, n), a, b, n)
  {
    forall k | 0 <= k < n
      ensures BitAt(Bits(op, a, b, n), k) <==> BitOf(op, BitAt(a, k), BitAt(b, k))
    {
      BitsAt(op, a, b, n, k);
    }
  }

  /** An arithmetic right shift divides the signed value, rounding down. */
  lemma ShiftArithMeans(a: nat, n: nat, w: Width)
    requires a < Range(w)
    ensures var m := Range(w); Signed(ShiftArith(w.Read(a), n) % m, m) == Signed(a, m) / Pow2(n)
  {
    hide ShiftArith;
    var m := Range(w);
    var x := w.Read(a);
    ShiftArithIs(x, n);
    DivideBetween(x, Pow2(n), m / 2);
    var y := x / Pow2(n);
    ModUnique(y, m, if y < 0 then -1 else 0, if y < 0 then y + m else y);
  }

  /** How many words there are. */
  function Range(w: Width): nat { if w.W32? then 0x1_0000_0000 else 0x1_0000_0000_0000_0000 }

  /** Every operator, on words of either width. */
  lemma OperatorMeans(f: Fn, a: nat, b: nat, w: Width)
    requires a < Range(w) && b < Range(w)
    ensures var m, n, r := Range(w), b % w.Size(), Eval(f, a, b, w);
      match f
      case Add => r == (a + b) % m
      case Sub => r == (a - b) % m
      case And => Bitwisely(BAnd, r, a, b, w.Size())
      case Or => Bitwisely(BOr, r, a, b, w.Size())
      case Xor => Bitwisely(BXor, r, a, b, w.Size())
      case Shl => r == a * Pow2(n) % m
      case ShrU => r == a / Pow2(n)
      case ShrS => Signed(r, m) == Signed(a, m) / Pow2(n)
      case Lt => r == if Signed(a, m) < Signed(b, m) then 1 else 0
      case LtU => r == if a < b then 1 else 0
      case Eq => r == if a == b then 1 else 0
      case Ne => r == if a != b then 1 else 0
      case Ge => r == if Signed(a, m) >= Signed(b, m) then 1 else 0
      case Le => r == if Signed(a, m) <= Signed(b, m) then 1 else 0
      case Gt => r == if Signed(a, m) > Signed(b, m) then 1 else 0
  {
    hide Pow2, Bits, Bitwisely, ShiftLeft, ShiftRight, ShiftArith;
    var n := b % w.Size();
    match f
    case And => BitwiseIs(BAnd, a, b, w.Size());
    case Or => BitwiseIs(BOr, a, b, w.Size());
    case Xor => BitwiseIs(BXor, a, b, w.Size());
    case Shl => ShiftLeftIs(a, n, w.Modulus());
    case ShrU => ShiftRightIs(a, n);
    case ShrS => ShiftArithMeans(a, n, w);
    case _ =>
  }
}
