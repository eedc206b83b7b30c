/** The operators shared by the guest (32-bit) and the host (64-bit), and the host operation list. */
module HostOps {
  import opened Words

  datatype Fn = Add | Sub | And | Or | Xor | Shl | ShrU | ShrS | Lt | LtU | Eq | Ne | Ge | Le | Gt

  datatype Width = W32 | W64 {
    function Size(): nat { if W32? then 32 else 64 }

    function Modulus(): (m: int)
      ensures m == Pow2(Size())
    {
      Powers();
      if W32? then TWO_32 else TWO_64
    }

    function Read(x: int): int { if 2 * x >= Modulus() then x - Modulus() else x }
  }

  function Truth(b: bool): int { if b then 1 else 0 }

  /** What an operator computes on words of width w. Shift counts are taken modulo the width. */
  function Eval(f: Fn, a: nat, b: nat, w: Width): (r: nat)
    requires a < w.Modulus() && b < w.Modulus()
    ensures r < w.Modulus()
  {
    match f
    case Add => (a + b) % w.Modulus()
    case Sub => (a - b) % w.Modulus()
    case And => Bits(BAnd, a, b, w.Size())
    case Or => Bits(BOr, a, b, w.Size())
    case Xor => Bits(BXor, a, b, w.Size())
    case Shl => ShiftLeft(a, b % w.Size(), w.Modulus())
    case ShrU => ShiftRight(a, b % w.Size())
    case ShrS => ShiftArith(w.Read(a), b % w.Size()) % w.Modulus()
    case Lt => Truth(w.Read(a) < w.Read(b))
    case LtU => Truth(a < b)
    case Eq => Truth(a == b)
    case Ne => Truth(a != b)
    case Ge => Truth(w.Read(a) >= w.Read(b))
    case Le => Truth(w.Read(a) <= w.Read(b))
    case Gt => Truth(w.Read(a) > w.Read(b))
  }

  /** The guest's 32-bit operator. */
  function Alu(f: Fn, a: Word32, b: Word32): Word32 { Eval(f, a, b, W32) }

  /** The host's 64-bit operator. */
  function Wide(f: Fn, a: Word64, b: Word64): Word64 { Eval(f, a, b, W64) }

  /** Shifts move one bit position at a time; a division by two rounds down. */
  function ShiftLeft(a: nat, n: nat, m: nat): (r: nat)
    requires a < m
    ensures r < m
    decreases n
  {
    if n == 0 then a else ShiftLeft((2 * a) % m, n - 1, m)
  }

  function ShiftRight(a: nat, n: nat): (r: nat)
    ensures r <= a
    decreases n
  {
    if n == 0 then a else ShiftRight(a / 2, n - 1)
  }

  function ShiftArith(a: int, n: nat): int
    decreases n
  {
    if n == 0 then a else ShiftArith(a / 2, n - 1)
  }

  predicate IsSigned(x: Word64) { x == SignExtend(Low(x)) }

  predicate IsUnsigned(x: Word64) { x == Low(x) }

  /** Extending the low half keeps the low half, and extends it. */
  lemma ExtendedValue(x: Word64)
    ensures IsSigned(SignExtend(Low(x))) && Low(SignExtend(Low(x))) == Low(x)
    ensures IsUnsigned(Low(x)) && Low(Low(x)) == Low(x)
  {
  }

  lemma ZeroExtended()
    ensures IsSigned(0) && IsUnsigned(0)
  {
  }

  /** The shift count held in a register: its low five bits. */
  function Count(x: int): (n: Word32)
    ensures n < 32
  {
    x % 32
  }

  lemma CountLow(x: Word64)
    ensures Count(Low(x)) == Count(x)
  {
    AddMultiple(Low(x), 0x800_0000 * (x / TWO_32));
  }

  lemma AddMultiple(y: int, k: int)
    ensures (y + 32 * k) % 32 == y % 32
  {
  }

  /** The extension an operator needs before its wide result can be truncated to the narrow one. */
  predicate Extended(f: Fn, a: Word64, b: Word64) {
    match f
    case Add | Sub | And | Or | Xor => true
    case Shl => b < 32
    case ShrU => IsUnsigned(a) && b < 32
    case ShrS => IsSigned(a) && b < 32
    case LtU => (IsSigned(a) && IsSigned(b)) || (IsUnsigned(a) && IsUnsigned(b))
    case Lt | Eq | Ne | Ge | Le | Gt => IsSigned(a) && IsSigned(b)
  }

  /** A 64-bit host operation on suitably extended operands computes the 32-bit guest operation. */
  lemma Truncates(f: Fn, a: Word64, b: Word64)
    requires Extended(f, a, b)
    ensures Low(Wide(f, a, b)) == Alu(f, Low(a), Low(b))
  {
    match f
    case Add | Sub => SumLow(f, a, b);
    case And | Or | Xor => LogicLow(f, a, b);
    case Shl | ShrU | ShrS => ShiftLow(f, a, b);
    case Lt | LtU | Eq | Ne | Ge | Le | Gt => CompareLow(f, a, b);
  }

  lemma SumLow(f: Fn, a: Word64, b: Word64)
    requires f.Add? || f.Sub?
    ensures Low(Wide(f, a, b)) == Alu(f, Low(a), Low(b))
  {
    if f.Add? {
      SameResidue(a + b, Low(a) + Low(b), a / TWO_32 + b / TWO_32);
    } else {
      SameResidue(a - b, Low(a) - Low(b), a / TWO_32 - b / TWO_32);
    }
  }

  lemma SameResidue(x: int, y: int, q: int)
    requires x == q * TWO_32 + y
    ensures (x % TWO_64) % TWO_32 == y % TWO_32
  {
  }

  lemma LogicLow(f: Fn, a: Word64, b: Word64)
    requires f.And? || f.Or? || f.Xor?
    ensures Low(Wide(f, a, b)) == Alu(f, Low(a), Low(b))
  {
    BitsLow(if f.And? then BAnd else if f.Or? then BOr else BXor, a, b);
  }

  lemma ShiftLow(f: Fn, a: Word64, b: Word64)
    requires f.Shl? || f.ShrU? || f.ShrS?
    requires Extended(f, a, b)
    ensures Low(Wide(f, a, b)) == Alu(f, Low(a), Low(b))
  {
    SmallCount(b);
    if f.Shl? {
      ShiftLeftLow(a, b);
    } else if f.ShrU? {
      assert ShiftRight(a, b) <= a;
    } else {
      SignedRead(a);
      ArithLow(ShiftArith(W64.Read(a), b));
    }
  }

  lemma SmallCount(b: Word64)
    requires b < 32
    ensures b % 64 == b % 32 == b == Low(b)
  {
  }

  lemma ArithLow(x: int)
    ensures (x % TWO_64) % TWO_32 == x % TWO_32
  {
    SameResidue(x, x, 0);
  }

  lemma BitsLow(op: Bitwise, a: Word64, b: Word64)
    ensures Bits(op, a, b, 64) % TWO_32 == Bits(op, Low(a), Low(b), 32)
  {
    Powers();
    BitsTruncate(op, a, b, 64, 32);
  }

  lemma {:induction false} ShiftLeftLow(a: Word64, n: nat)
    ensures ShiftLeft(a, n, TWO_64) % TWO_32 == ShiftLeft(Low(a), n, TWO_32)
    decreases n
  {
    if n > 0 {
      ShiftLeftLow((2 * a) % TWO_64, n - 1);
      SameResidue(2 * a, 2 * Low(a), 2 * (a / TWO_32));
    }
  }

  lemma SignedRead(a: Word64)
    requires IsSigned(a)
    ensures W64.Read(a) == W32.Read(Low(a))
  {
  }

  lemma CompareLow(f: Fn, a: Word64, b: Word64)
    requires f.Lt? || f.LtU? || f.Eq? || f.Ne? || f.Ge? || f.Le? || f.Gt?
    requires Extended(f, a, b)
    ensures Low(Wide(f, a, b)) == Alu(f, Low(a), Low(b))
  {
    if !f.LtU? {
      SignedRead(a);
      SignedRead(b);
    }
  }
}
