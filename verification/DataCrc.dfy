/** The controller pak's data checksum as division of polynomials over GF(2). Bits are listed highest power first. */
module DataCrc {
  import opened Words

  /** Addition over GF(2), coefficient by coefficient. */
  function Xor(a: seq<bool>, b: seq<bool>): (c: seq<bool>)
    requires |a| == |b|
    ensures |c| == |a|
  {
    seq(|a|, k requires 0 <= k < |a| => a[k] != b[k])
  }

  function Zero(n: nat): (z: seq<bool>)
    ensures |z| == n
  {
    seq(n, _ => false)
  }

  /** x^7 + x^2 + 1 */
  function LowGenerator(): (g: seq<bool>)
    ensures |g| == 8
  {
    [true, false, false, false, false, true, false, true]
  }

  /** The generator x^8 + x^7 + x^2 + 1, or nothing. */
  function Generator(on: bool): (g: seq<bool>)
    ensures |g| == 9
  {
    if on then [true] + LowGenerator() else Zero(9)
  }

  /** The product of a polynomial with the generator. */
  function Times(q: seq<bool>): (p: seq<bool>)
    ensures |p| == |q| + 8
  {
    if q == [] then Zero(8)
    else Xor(Times(q[..|q| - 1]) + [false], Zero(|q| - 1) + Generator(q[|q| - 1]))
  }

  // ---- the shift register -----------------------------------------------------------------------

  function Shift(r: seq<bool>, bit: bool): (r': seq<bool>)
    requires |r| == 8
    ensures |r'| == 8
  {
    var s := r[1..] + [bit];
    if r[0] then Xor(s, LowGenerator()) else s
  }

  /** The register after the bits have been shifted in. */
  function Register(bits: seq<bool>): (r: seq<bool>)
    ensures |r| == 8
  {
    if bits == [] then Zero(8) else Shift(Register(bits[..|bits| - 1]), bits[|bits| - 1])
  }

  lemma XorAssoc(a: seq<bool>, b: seq<bool>, c: seq<bool>)
    requires |a| == |b| == |c|
    ensures Xor(a, Xor(b, c)) == Xor(Xor(a, b), c)
  {
  }

  lemma XorConcat(a: seq<bool>, b: seq<bool>, c: seq<bool>, d: seq<bool>)
    requires |a| == |c| && |b| == |d|
    ensures Xor(a + b, c + d) == Xor(a, c) + Xor(b, d)
  {
  }

  lemma XorZero(n: nat)
    ensures Xor(Zero(n), Zero(n)) == Zero(n)
    ensures forall b :: Xor([b], [false]) == [b] && Xor([false], [b]) == [b]
  {
  }

  lemma ZeroSnoc(n: nat)
    ensures Zero(n + 1) == Zero(n) + [false] && Zero(0) == []
  {
  }

  lemma TimesSnoc(q: seq<bool>, h: bool)
    ensures Times(q + [h]) == Xor(Times(q) + [false], Zero(|q|) + Generator(h))
  {
    hide Zero, Generator, Xor;
    assert (q + [h])[..|q|] == q;
  }

  /** Product plus remainder, before and after one more bit of the quotient. */
  lemma ProductStep(q: seq<bool>, h: bool, r: seq<bool>, s: seq<bool>, bit: bool)
    requires |r| == |s| == 8 && s + [bit] == Xor(Generator(h), [false] + r)
    ensures Xor(Times(q + [h]), Zero(|q| + 1) + r) == Xor(Times(q), Zero(|q|) + s) + [bit]
  {
    hide Times, Zero, Generator, Xor;
    var n, t, z := |q|, Times(q), Zero(|q|);
    TimesSnoc(q, h);
    ZeroSnoc(n);
    ConcatAssoc(z, [false], r);
    Regroup(t, z, Generator(h), [false] + r, s, bit);
  }

  lemma Regroup(t: seq<bool>, z: seq<bool>, g: seq<bool>, r: seq<bool>, s: seq<bool>, bit: bool)
    requires |g| == |r| == |s| + 1 && |t| == |z| + |s| && z == Zero(|z|) && s + [bit] == Xor(g, r)
    ensures Xor(Xor(t + [false], z + g), z + r) == Xor(t, z + s) + [bit]
  {
    hide Zero, Xor;
    XorAssoc(t + [false], z + g, z + r);
    XorConcat(z, g, z, r);
    XorZero(|z|);
    ConcatAssoc(z, s, [bit]);
    XorConcat(t, [false], z + s, [bit]);
  }

  lemma ConcatAssoc(a: seq<bool>, b: seq<bool>, c: seq<bool>)
    ensures (a + b) + c == a + (b + c)
  {
  }

  /** Shifting a bit in takes the generator away once if the bit shifted out was set. */
  lemma ShiftIsDivisionStep(r: seq<bool>, bit: bool)
    requires |r| == 8
    ensures r + [bit] == Xor(Generator(r[0]), [false] + Shift(r, bit))
  {
  }

  lemma RegisterStep(bits: seq<bool>)
    requires bits != []
    ensures Register(bits) == Shift(Register(bits[..|bits| - 1]), bits[|bits| - 1])
  {
  }

  /** The register holds the remainder of the bits read as a polynomial: they are a multiple of the
      generator plus it. */
  lemma {:induction false} RegisterIsRemainder(bits: seq<bool>) returns (q: seq<bool>)
    ensures Divides(bits, q, Register(bits))
  {
    hide Register, Divides;
    if bits == [] {
      q := [];
      NothingDivided();
    } else {
      var n := |bits| - 1;
      var q0 := RegisterIsRemainder(bits[..n]);
      q := q0 + [Register(bits[..n])[0]];
      RegisterStep(bits);
      DividesStep(bits[..n], q0, Register(bits[..n]), bits[n]);
      assert bits[..n] + [bits[n]] == bits;
    }
  }

  lemma NothingDivided()
    ensures Divides([], [], Register([]))
  {
    hide Register;
    RegisterNone();
    NothingLeft(Zero(8));
    assert Zero(8) + [] == Zero(8);
  }

  lemma DividesStep(bits: seq<bool>, q: seq<bool>, r: seq<bool>, bit: bool)
    requires Divides(bits, q, r)
    ensures Divides(bits + [bit], q + [r[0]], Shift(r, bit))
  {
    hide Times, Xor, Shift, Zero, Generator;
    ShiftIsDivisionStep(r, bit);
    ProductStep(q, r[0], Shift(r, bit), r, bit);
    ConcatAssoc(Zero(8), bits, [bit]);
  }

  /** Eight zeroes and the bits make a polynomial that is q times the generator plus r. */
  predicate Divides(bits: seq<bool>, q: seq<bool>, r: seq<bool>) {
    |q| == |bits| && |r| == 8 && Zero(8) + bits == Xor(Times(q), Zero(|bits|) + r)
  }

  /** No other remainder would do. */
  lemma {:induction false} RemainderUnique(q: seq<bool>, q': seq<bool>, r: seq<bool>, r': seq<bool>)
    requires |q| == |q'| && |r| == |r'| == 8
    requires Xor(Times(q), Zero(|q|) + r) == Xor(Times(q'), Zero(|q|) + r')
    ensures q == q' && r == r'
    decreases |q|
  {
    hide Times, Xor, Zero, Generator;
    if q == [] {
      NothingLeft(r);
      NothingLeft(r');
    } else {
      var n := |q| - 1;
      var p, p', h, h' := q[..n], q'[..n], q[n], q'[n];
      assert q == p + [h] && q' == p' + [h'];
      var w, w' := Xor(Generator(h), [false] + r), Xor(Generator(h'), [false] + r');
      ProductStep(p, h, r, w[..8], w[8]);
      ProductStep(p', h', r', w'[..8], w'[8]);
      var a, a' := Xor(Times(p), Zero(n) + w[..8]), Xor(Times(p'), Zero(n) + w'[..8]);
      assert (a + [w[8]])[..n + 8] == a && (a' + [w'[8]])[..n + 8] == a';
      assert (a + [w[8]])[n + 8] == w[8] && (a' + [w'[8]])[n + 8] == w'[8];
      RemainderUnique(p, p', w[..8], w'[..8]);
      assert w == w[..8] + [w[8]] && w' == w'[..8] + [w'[8]];
      Recover(h, r, h', r');
    }
  }

  /** The remainder of a division is one value. */
  lemma OneRemainder(bits: seq<bool>, q: seq<bool>, r: seq<bool>, q': seq<bool>, r': seq<bool>)
    requires Divides(bits, q, r) && Divides(bits, q', r')
    ensures r == r'
  {
    RemainderUnique(q, q', r, r');
  }

  lemma NothingLeft(r: seq<bool>)
    requires |r| == 8
    ensures Xor(Times([]), Zero(0) + r) == r
  {
  }

  /** Quotient bit and remainder can be read off what the last step divided. */
  lemma Recover(h: bool, r: seq<bool>, h': bool, r': seq<bool>)
    requires |r| == |r'| == 8 && Xor(Generator(h), [false] + r) == Xor(Generator(h'), [false] + r')
    ensures h == h' && r == r'
  {
    hide LowGenerator;
    var w, w' := Xor(Generator(h), [false] + r), Xor(Generator(h'), [false] + r');
    assert w[0] == h && w'[0] == h';
    forall k | 0 <= k < 8 ensures r[k] == r'[k] {
      assert w[k + 1] == w'[k + 1];
    }
  }

  // ---- algebra ----------------------------------------------------------------------------------

  /** The checksum is linear. */
  lemma {:induction false} RegisterLinear(a: seq<bool>, b: seq<bool>)
    requires |a| == |b|
    ensures Register(Xor(a, b)) == Xor(Register(a), Register(b))
  {
    if a == [] {
      assert Register([]) == Xor(Zero(8), Zero(8));
    } else {
      var n := |a| - 1;
      assert Xor(a, b)[..n] == Xor(a[..n], b[..n]);
      RegisterLinear(a[..n], b[..n]);
      ShiftLinear(Register(a[..n]), Register(b[..n]), a[n], b[n]);
    }
  }

  lemma ShiftLinear(r: seq<bool>, s: seq<bool>, a: bool, b: bool)
    requires |r| == |s| == 8
    ensures Shift(Xor(r, s), a != b) == Xor(Shift(r, a), Shift(s, b))
  {
  }

  /** The first eight bits are just loaded. */
  lemma {:induction false} RegisterLoads(n: nat, bits: seq<bool>)
    requires |bits| <= 8
    ensures Register(Zero(n) + bits) == Zero(8 - |bits|) + bits
    decreases n + |bits|
  {
    hide Register, Shift, Zero;
    var all := Zero(n) + bits;
    if bits != [] {
      var m := |bits| - 1;
      assert all[..|all| - 1] == Zero(n) + bits[..m];
      RegisterLoads(n, bits[..m]);
      RegisterStep(all);
      LoadStep(bits[..m], bits[m]);
      assert bits[..m] + [bits[m]] == bits;
    } else {
      assert all == Zero(n) && Zero(8) + bits == Zero(8);
      ZeroesLoad(n);
    }
  }

  lemma LoadStep(bits: seq<bool>, bit: bool)
    requires |bits| < 8
    ensures Shift(Zero(8 - |bits|) + bits, bit) == Zero(7 - |bits|) + (bits + [bit])
  {
    hide LowGenerator;
  }

  lemma {:induction false} ZeroesLoad(n: nat)
    ensures Register(Zero(n)) == Zero(8)
  {
    hide Register, Shift, Zero;
    if n == 0 {
      RegisterNone();
    } else {
      ZeroSnoc(n - 1);
      assert Zero(n)[..n - 1] == Zero(n - 1);
      ZeroesLoad(n - 1);
      RegisterStep(Zero(n));
      ShiftZero();
    }
  }

  lemma RegisterNone()
    ensures Register([]) == Zero(8) && Register(Zero(0)) == Zero(8)
  {
    assert Zero(0) == [];
  }

  /** Appending the remainder to a message leaves remainder zero. */
  lemma AppendedRegister(m: seq<bool>)
    ensures Register(m + Register(m + Zero(8))) == Zero(8)
    ensures Register(m + Register(m + Zero(8)) + Zero(8)) == Zero(8)
  {
    var c := Register(m + Zero(8));
    var z := Zero(|m|) + c;
    assert Xor(m + Zero(8), z) == m + c;
    RegisterLinear(m + Zero(8), z);
    RegisterLoads(|m|, c);
    assert Xor(c, c) == Zero(8);
    ZeroesKeep(m + c, 8);
  }

  lemma {:induction false} ZeroesKeep(m: seq<bool>, n: nat)
    requires Register(m) == Zero(8)
    ensures Register(m + Zero(n)) == Zero(8)
  {
    hide Register, Shift, Zero;
    if n == 0 {
      ZeroSnoc(0);
      assert m + Zero(0) == m;
    } else {
      ZeroesKeep(m, n - 1);
      ZeroSnoc(n - 1);
      RegisterStep(m + Zero(n));
      assert (m + Zero(n))[..|m| + n - 1] == m + Zero(n - 1);
      ShiftZero();
    }
  }

  lemma ShiftZero()
    ensures Shift(Zero(8), false) == Zero(8)
  {
    hide LowGenerator;
  }

  // ---- bytes ------------------------------------------------------------------------------------

  /** The low n bits of x, highest first. */
  function ToBits(x: nat, n: nat): (b: seq<bool>)
    ensures |b| == n
  {
    if n == 0 then [] else ToBits(x / 2, n - 1) + [x % 2 == 1]
  }

  /** Place k of the list is the bit with n - 1 - k places below it. */
  lemma {:induction false} ToBitsAt(x: nat, n: nat, k: nat)
    requires k < n
    ensures ToBits(x, n)[k] == (x / Pow2(n - 1 - k) % 2 == 1)
  {
    if k < n - 1 {
      ToBitsAt(x / 2, n - 1, k);
      HalfThen(x, Pow2(n - 2 - k));
    }
  }

  function BitsOf(data: seq<Byte>): (b: seq<bool>)
    ensures |b| == 8 * |data|
  {
    if data == [] then [] else BitsOf(data[..|data| - 1]) + ToBits(data[|data| - 1], 8)
  }

  lemma {:induction false} BitsAt(data: seq<Byte>, i: nat, k: nat)
    requires i < |data| && k < 8
    ensures BitsOf(data)[8 * i + k] == ToBits(data[i], 8)[k]
  {
    if i < |data| - 1 {
      BitsAt(data[..|data| - 1], i, k);
    }
  }

  lemma {:induction false} BitsInjective(x: nat, y: nat, n: nat)
    requires ToBits(x, n) == ToBits(y, n) && x < Pow2(n) && y < Pow2(n)
    ensures x == y
  {
    if n > 0 {
      var a, b := ToBits(x, n), ToBits(y, n);
      assert a[..n - 1] == ToBits(x / 2, n - 1) && b[..n - 1] == ToBits(y / 2, n - 1);
      assert a[n - 1] == (x % 2 == 1) && b[n - 1] == (y % 2 == 1);
      BitsInjective(x / 2, y / 2, n - 1);
    }
  }

  lemma {:induction false} XorBits(x: nat, y: nat, n: nat)
    ensures ToBits(Bits(BXor, x, y, n), n) == Xor(ToBits(x, n), ToBits(y, n))
  {
    if n > 0 {
      XorBits(x / 2, y / 2, n - 1);
    }
  }

  /** Dropping the highest bit. */
  lemma {:induction false} DropTop(x: nat, n: nat)
    requires x < Pow2(n + 1)
    ensures ToBits(x, n + 1)[0] == (x >= Pow2(n))
    ensures ToBits(x, n + 1)[1..] == ToBits(if x >= Pow2(n) then x - Pow2(n) else x, n)
  {
    if n > 0 {
      DropTop(x / 2, n - 1);
      var y := if x >= Pow2(n) then x - Pow2(n) else x;
      assert y / 2 == (if x / 2 >= Pow2(n - 1) then x / 2 - Pow2(n - 1) else x / 2);
      assert ToBits(x, n + 1) == ToBits(x / 2, n) + [x % 2 == 1];
    }
  }

  /** One step of the loop on the byte-sized remainder. */
  function Step(remainder: Byte, bit: bool): (r: Byte)
  {
    var shifted := (remainder * 2) % 256 + (if bit then 1 else 0);
    Powers8();
    if remainder >= 0x80 then Bits(BXor, shifted, 0x85, 8) else shifted
  }

  lemma Powers8()
    ensures Pow2(7) == 128 && Pow2(8) == 256
  {
  }

  lemma StepIsShift(remainder: Byte, bit: bool)
    ensures ToBits(Step(remainder, bit), 8) == Shift(ToBits(remainder, 8), bit)
  {
    hide ToBits, Bits, LowGenerator, Xor;
    Powers8();
    DropTop(remainder, 7);
    var low := if remainder >= 128 then remainder - 128 else remainder;
    var shifted := 2 * low + if bit then 1 else 0;
    assert (remainder * 2) % 256 == 2 * low;
    BitsSnoc(low, bit, 7);
    if remainder >= 128 {
      XorBits(shifted, 0x85, 8);
      GeneratorByte();
    }
  }

  lemma BitsSnoc(x: nat, bit: bool, n: nat)
    ensures ToBits(2 * x + (if bit then 1 else 0), n + 1) == ToBits(x, n) + [bit]
  {
  }

  lemma GeneratorByte()
    ensures ToBits(0x85, 8) == LowGenerator()
  {
    hide ToBits;
    BitsSnoc(0x42, true, 7);
    BitsSnoc(0x21, false, 6);
    BitsSnoc(0x10, true, 5);
    BitsSnoc(0x8, false, 4);
    BitsSnoc(0x4, false, 3);
    BitsSnoc(0x2, false, 2);
    BitsSnoc(0x1, false, 1);
    BitsSnoc(0x0, true, 0);
    NoBits(0);
  }

  lemma NoBits(x: nat)
    ensures ToBits(x, 0) == []
  {
  }

  /** The checksum loop: message bits, then eight zero bits. Its result is the remainder of M(x) * x^8
      divided by the generator. */
  method DataCRC(data: array<Byte>, length: nat) returns (remainder: Byte)
    requires 1 <= length <= data.Length
    ensures ToBits(remainder, 8) == Register(BitsOf(data[..length]) + Zero(8))
    ensures exists q :: Divides(BitsOf(data[..length]) + Zero(8), q, ToBits(remainder, 8))
  {
    hide Divides, Shift, Step, BitsOf, Zero, Register, ToBits;
    ghost var stream := BitsOf(data[..length]) + Zero(8);
    remainder := data[0];
    var iByte, bBit := 1, 0;
    FirstByte(data[..length]);
    while iByte <= length
      invariant 1 <= iByte && 0 <= bBit < 8 && 8 * iByte + bBit <= 8 * length + 8
      invariant ToBits(remainder, 8) == Register(stream[..8 * iByte + bBit])
      decreases 8 * length + 8 - (8 * iByte + bBit)
    {
      ghost var at := 8 * iByte + bBit;
      var bit := iByte < length && ToBits(data[iByte], 8)[bBit];
      assert bit == stream[at] by {
        if iByte < length {
          BitsAt(data[..length], iByte, bBit);
        } else {
          ZeroBit(8, bBit);
        }
      }
      RegisterStep(stream[..at + 1]);
      StepIsShift(remainder, bit);
      assert stream[..at + 1][..at] == stream[..at];
      remainder := Step(remainder, bit);
      bBit := bBit + 1;
      iByte := iByte + bBit / 8;
      bBit := bBit % 8;
    }
    assert stream[..8 * length + 8] == stream;
    ghost var q := RegisterIsRemainder(stream);
  }

  lemma ZeroBit(n: nat, k: nat)
    requires k < n
    ensures !Zero(n)[k]
  {
  }

  lemma FirstByte(data: seq<Byte>)
    requires data != []
    ensures ToBits(data[0], 8) == Register((BitsOf(data) + Zero(8))[..8])
  {
    var first := (BitsOf(data) + Zero(8))[..8];
    forall k | 0 <= k < 8 ensures first[k] == ToBits(data[0], 8)[k] {
      BitsAt(data, 0, k);
    }
    assert first == ToBits(data[0], 8);
    RegisterLoads(0, first);
    assert Zero(0) + first == first;
  }

  /** A message followed by its checksum has checksum zero. */
  lemma CheckedMessage(data: seq<Byte>, crc: Byte)
    requires ToBits(crc, 8) == Register(BitsOf(data) + Zero(8))
    ensures Register(BitsOf(data + [crc]) + Zero(8)) == ToBits(0, 8)
  {
    assert (data + [crc])[..|data|] == data;
    AppendedRegister(BitsOf(data));
    ZeroBits(8);
  }

  lemma {:induction false} ZeroBits(n: nat)
    ensures ToBits(0, n) == Zero(n)
  {
    if n > 0 {
      ZeroBits(n - 1);
    }
  }

  /** Checksums of messages of equal length add like the messages. */
  lemma ChecksumLinear(a: seq<Byte>, b: seq<Byte>, c: seq<Byte>)
    requires |a| == |b| == |c| && BitsOf(c) == Xor(BitsOf(a), BitsOf(b))
    ensures Register(BitsOf(c) + Zero(8)) == Xor(Register(BitsOf(a) + Zero(8)), Register(BitsOf(b) + Zero(8)))
  {
    hide BitsOf, Register, Xor, Zero;
    XorConcat(BitsOf(a), Zero(8), BitsOf(b), Zero(8));
    XorZero(8);
    RegisterLinear(BitsOf(a) + Zero(8), BitsOf(b) + Zero(8));
  }
}
