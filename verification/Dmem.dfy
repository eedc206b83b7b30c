/** Data memory: big-endian for the guest, kept in host words with the lowest byte first. */
module Dmem {
  import opened Words
  import opened HostOps
  import opened Operators

  const DMEM_SIZE: nat := 4096

  /** The host offset of the guest byte at an address, and the host offset of an aligned half-word or word. */
  function Flip(a: nat, with: nat): nat { Bits(BXor, a, with, 12) }

  lemma {:induction false} XorNothing(x: nat, n: nat)
    requires x < Pow2(n)
    ensures Bits(BXor, x, 0, n) == x
  {
    if n > 0 {
      XorNothing(x / 2, n - 1);
    }
  }

  lemma FlipIs(a: nat)
    requires a < DMEM_SIZE
    ensures Flip(a, 3) == a - a % 4 + (3 - a % 4)
    ensures a % 2 == 0 ==> Flip(a, 2) == Flip(a, 3) - 1
    ensures Flip(a, 0) == a
  {
    hide Bits;
    Quarter();
    TwoBits(a, 3);
    TwoBits(a, 2);
    XorNothing(a / 4, 10);
    XorNothing(a, 12);
  }

  lemma Quarter()
    ensures Pow2(10) == 1024 && Pow2(12) == 4096
  {
    assert Pow2(5) == 32;
    assert Pow2(8) == 256;
  }

  lemma BitsStep(x: nat, y: nat, n: nat)
    requires n > 0
    ensures Bits(BXor, x, y, n) == 2 * Bits(BXor, x / 2, y / 2, n - 1) + Bit(BXor, x % 2, y % 2)
  {
  }

  lemma TwoBits(a: nat, with: nat)
    requires with < 4
    ensures Bits(BXor, a, with, 12) ==
            4 * Bits(BXor, a / 4, 0, 10) + 2 * Bit(BXor, a / 2 % 2, with / 2) + Bit(BXor, a % 2, with % 2)
  {
    hide Bits, Bit;
    Halves(a);
    Halves(with);
    BitsStep(a, with, 12);
    BitsStep(a / 2, with / 2, 11);
  }

  lemma Halves(a: nat)
    ensures a / 2 / 2 == a / 4 && (a < 4 ==> a / 2 / 2 == 0)
  {
  }

  // ---- the guest's view -----------------------------------------------------------------------

  type Memory = m: seq<Byte> | |m| == DMEM_SIZE witness seq(DMEM_SIZE, _ => 0)

  /** n bytes from address a on, the first one highest; addresses wrap. */
  function ReadBig(m: Memory, a: nat, n: nat): nat {
    if n == 0 then 0 else 256 * ReadBig(m, a, n - 1) + m[(a + n - 1) % DMEM_SIZE]
  }

  function WriteBig(m: Memory, a: nat, n: nat, x: nat): Memory {
    if n == 0 then m else WriteBig(m, a, n - 1, x / 256)[(a + n - 1) % DMEM_SIZE := x % 256]
  }

  /** Byte k is one of the n bytes from a on. */
  predicate Covers(a: nat, n: nat, k: nat) {
    n > 0 && ((a + n - 1) % DMEM_SIZE == k || Covers(a, n - 1, k))
  }

  lemma {:induction false} ReadElsewhere(m: Memory, a: nat, n: nat, k: nat, b: Byte)
    requires k < DMEM_SIZE && !Covers(a, n, k)
    ensures ReadBig(m[k := b], a, n) == ReadBig(m, a, n)
  {
    if n > 0 {
      ReadElsewhere(m, a, n - 1, k, b);
    }
  }

  /** A load after a store of the same size gives the value, truncated. */
  lemma {:induction false} ReadWrite(m: Memory, a: nat, n: nat, x: nat)
    requires n <= 4
    ensures ReadBig(WriteBig(m, a, n, x), a, n) == x % Pow256(n)
  {
    if n > 0 {
      ReadWrite(m, a, n - 1, x / 256);
      var k := (a + n - 1) % DMEM_SIZE;
      NotCovered(a, n - 1, n - 1);
      ReadElsewhere(WriteBig(m, a, n - 1, x / 256), a, n - 1, k, x % 256);
      SplitRemainder(x, Pow256(n - 1));
    }
  }

  function Pow256(n: nat): (p: nat)
    ensures p >= 1
  {
    if n == 0 then 1 else 256 * Pow256(n - 1)
  }

  lemma {:induction false} NotCovered(a: nat, n: nat, j: nat)
    requires n <= j < 4
    ensures !Covers(a, n, (a + j) % DMEM_SIZE)
    decreases n
  {
    if n > 0 {
      NotCovered(a, n - 1, j);
      NearDiffer(a + n - 1, a + j);
    }
  }

  lemma NearDiffer(i: nat, j: nat)
    requires i < j < i + 4
    ensures i % DMEM_SIZE != j % DMEM_SIZE
  {
  }

  lemma SplitRemainder(x: nat, p: nat)
    requires p >= 1
    ensures 256 * ((x / 256) % p) + x % 256 == x % (256 * p)
  {
    var q, r := (x / 256) / p, (x / 256) % p;
    assert x / 256 == p * q + r;
    assert x == 256 * (p * q) + (256 * r + x % 256);
    assert 256 * (p * q) == (256 * p) * q;
    ModUnique(x, 256 * p, q, 256 * r + x % 256);
  }

  /** A store touches only the bytes it covers. */
  lemma {:induction false} WriteElsewhere(m: Memory, a: nat, n: nat, x: nat, k: nat)
    requires k < DMEM_SIZE && !Covers(a, n, k)
    ensures WriteBig(m, a, n, x)[k] == m[k]
  {
    if n > 0 {
      WriteElsewhere(m, a, n - 1, x / 256, k);
    }
  }

  // ---- the host's memory ----------------------------------------------------------------------

  /** The guest byte at each address. */
  function Guest(host: seq<Byte>): Memory
    requires |host| == DMEM_SIZE
  {
    seq(DMEM_SIZE, a requires 0 <= a < DMEM_SIZE => FlipBound(a); host[Flip(a, 3)])
  }

  lemma FlipBound(a: nat)
    requires a < DMEM_SIZE
    ensures Flip(a, 3) < DMEM_SIZE
  {
    FlipIs(a);
  }

  /** Host bytes from an offset on, the first one lowest. */
  function ReadLittle(host: seq<Byte>, off: nat, n: nat): nat
    requires off + n <= |host|
  {
    if n == 0 then 0 else ReadLittle(host, off, n - 1) + Pow256(n - 1) * host[off + n - 1]
  }

  function WriteLittle(host: seq<Byte>, off: nat, n: nat, x: nat): (h: seq<Byte>)
    requires off + n <= |host|
    ensures |h| == |host|
  {
    if n == 0 then host else WriteLittle(host, off, n - 1, x)[off + n - 1 := (x / Pow256(n - 1)) % 256]
  }

  predicate SizeOk(n: nat) { n == 1 || n == 2 || n == 4 }

  /** No bit of the alignment mask is set: 0, 1 or 3 for bytes, half-words and words. */
  predicate Aligned(a: nat, n: nat) { n == 1 || (n == 2 && a % 2 == 0) || (n == 4 && a % 4 == 0) }

  /** What the address of an aligned access of n bytes is flipped by. */
  function EndianFlip(n: nat): nat { if n == 1 then 3 else if n == 2 then 2 else 0 }

  lemma Powers256()
    ensures Pow256(0) == 1 && Pow256(1) == 0x100 && Pow256(2) == 0x1_0000 && Pow256(3) == 0x100_0000
    ensures Pow256(4) == TWO_32
  {
  }

  /** The aligned access finds the guest's value. */
  lemma AlignedRead(host: seq<Byte>, a: nat, n: nat)
    requires |host| == DMEM_SIZE && SizeOk(n) && a < DMEM_SIZE && Aligned(a, n)
    ensures Flip(a, EndianFlip(n)) + n <= DMEM_SIZE
    ensures ReadLittle(host, Flip(a, EndianFlip(n)), n) == ReadBig(Guest(host), a, n)
  {
    hide Flip, Pow256, ReadLittle, ReadBig, Guest;
    Powers256();
    if n == 1 {
      FlipIs(a);
      Read1(host, a);
    } else if n == 2 {
      FlipsOfPair(a);
      Read2(host, a);
    } else {
      FlipsOfFour(a);
      Read4(host, a);
    }
  }

  /** The two bytes of an aligned half-word change places. */
  lemma FlipsOfPair(a: nat)
    requires a < DMEM_SIZE && a % 2 == 0
    ensures Flip(a, 2) == Flip(a, 3) - 1 == Flip(a + 1, 3) && Flip(a, 3) < DMEM_SIZE
  {
    hide Flip;
    FlipIs(a);
    FlipIs(a + 1);
    NextInPair(a / 4, a % 4);
  }

  lemma NextInPair(q: nat, r: nat)
    requires r < 4 && (4 * q + r) % 2 == 0
    ensures r == 0 || r == 2
    ensures (4 * q + r + 1) % 4 == r + 1
  {
    ModUnique(4 * q + r, 2, 2 * q + r / 2, r % 2);
    ModUnique(4 * q + r + 1, 4, q, r + 1);
  }

  /** The four bytes of an aligned word come in the opposite order. */
  lemma FlipsOfFour(a: nat)
    requires a < DMEM_SIZE && a % 4 == 0
    ensures a + 3 < DMEM_SIZE && Flip(a, 0) == a == Flip(a + 3, 3)
    ensures Flip(a + 2, 3) == a + 1 && Flip(a + 1, 3) == a + 2 && Flip(a, 3) == a + 3
  {
    hide Flip;
    FlipIs(a);
    FlipIs(a + 1);
    FlipIs(a + 2);
    FlipIs(a + 3);
  }

  lemma Read1(host: seq<Byte>, a: nat)
    requires |host| == DMEM_SIZE && a < DMEM_SIZE && Flip(a, 3) < DMEM_SIZE && Pow256(0) == 1
    ensures ReadLittle(host, Flip(a, 3), 1) == ReadBig(Guest(host), a, 1)
  {
    hide Flip, Pow256;
    var f := Flip(a, 3);
    assert ReadLittle(host, f, 1) == ReadLittle(host, f, 0) + Pow256(0) * host[f];
    assert ReadBig(Guest(host), a, 1) == 256 * ReadBig(Guest(host), a, 0) + Guest(host)[a];
  }

  lemma Read2(host: seq<Byte>, a: nat)
    requires |host| == DMEM_SIZE && a + 1 < DMEM_SIZE && Pow256(0) == 1 && Pow256(1) == 0x100
    requires Flip(a, 3) < DMEM_SIZE && Flip(a + 1, 3) < DMEM_SIZE
    requires Flip(a, 2) == Flip(a, 3) - 1 == Flip(a + 1, 3)
    ensures ReadLittle(host, Flip(a, 2), 2) == ReadBig(Guest(host), a, 2)
  {
    hide Flip, Pow256;
    var f, g := Flip(a, 2), Guest(host);
    assert ReadLittle(host, f, 1) == ReadLittle(host, f, 0) + Pow256(0) * host[f];
    assert ReadLittle(host, f, 2) == ReadLittle(host, f, 1) + Pow256(1) * host[f + 1];
    assert ReadBig(g, a, 1) == 256 * ReadBig(g, a, 0) + g[a];
    assert ReadBig(g, a, 2) == 256 * ReadBig(g, a, 1) + g[a + 1];
  }

  lemma Read4(host: seq<Byte>, a: nat)
    requires |host| == DMEM_SIZE && a + 3 < DMEM_SIZE
    requires Pow256(0) == 1 && Pow256(1) == 0x100 && Pow256(2) == 0x1_0000 && Pow256(3) == 0x100_0000
    requires Flip(a, 0) == a == Flip(a + 3, 3)
    requires Flip(a + 2, 3) == a + 1 && Flip(a + 1, 3) == a + 2 && Flip(a, 3) == a + 3
    ensures ReadLittle(host, Flip(a, 0), 4) == ReadBig(Guest(host), a, 4)
  {
    hide Flip, Pow256;
    var g := Guest(host);
    assert ReadLittle(host, a, 1) == ReadLittle(host, a, 0) + Pow256(0) * host[a];
    assert ReadLittle(host, a, 2) == ReadLittle(host, a, 1) + Pow256(1) * host[a + 1];
    assert ReadLittle(host, a, 3) == ReadLittle(host, a, 2) + Pow256(2) * host[a + 2];
    assert ReadLittle(host, a, 4) == ReadLittle(host, a, 3) + Pow256(3) * host[a + 3];
    assert ReadBig(g, a, 1) == 256 * ReadBig(g, a, 0) + g[a];
    assert ReadBig(g, a, 2) == 256 * ReadBig(g, a, 1) + g[a + 1];
    assert ReadBig(g, a, 3) == 256 * ReadBig(g, a, 2) + g[a + 2];
    assert ReadBig(g, a, 4) == 256 * ReadBig(g, a, 3) + g[a + 3];
  }

  /** Writing the host byte of a guest address writes the guest byte, and no other. */
  lemma GuestWrite(host: seq<Byte>, b: nat, v: Byte)
    requires |host| == DMEM_SIZE && b < DMEM_SIZE && Flip(b, 3) < DMEM_SIZE
    ensures Guest(host[Flip(b, 3) := v]) == Guest(host)[b := v]
  {
    hide Flip;
    var m, m' := Guest(host)[b := v], Guest(host[Flip(b, 3) := v]);
    forall k | 0 <= k < DMEM_SIZE ensures m'[k] == m[k] {
      FlipIs(k);
      FlipIs(b);
    }
  }

  /** The aligned store writes the guest's bytes. */
  lemma AlignedWrite(host: seq<Byte>, a: nat, n: nat, x: nat)
    requires |host| == DMEM_SIZE && SizeOk(n) && a < DMEM_SIZE && Aligned(a, n)
    ensures Flip(a, EndianFlip(n)) + n <= DMEM_SIZE
    ensures Guest(WriteLittle(host, Flip(a, EndianFlip(n)), n, x)) == WriteBig(Guest(host), a, n, x)
  {
    hide Flip, Pow256, WriteLittle, WriteBig, Guest;
    Powers256();
    if n == 1 {
      FlipIs(a);
      Write1(host, a, x);
    } else if n == 2 {
      FlipsOfPair(a);
      Write2(host, a, x);
    } else {
      FlipsOfFour(a);
      Write4(host, a, x);
    }
  }

  lemma LittleStep(host: seq<Byte>, off: nat, n: nat, x: nat)
    requires n > 0 && off + n <= |host|
    ensures WriteLittle(host, off, n, x) == WriteLittle(host, off, n - 1, x)[off + n - 1 := (x / Pow256(n - 1)) % 256]
    ensures WriteLittle(host, off, 0, x) == host
  {
  }

  lemma BigStep(m: Memory, a: nat, n: nat, x: nat)
    requires n > 0
    ensures WriteBig(m, a, n, x) == WriteBig(m, a, n - 1, x / 256)[(a + n - 1) % DMEM_SIZE := x % 256]
    ensures WriteBig(m, a, 0, x / 256) == m
  {
  }

  lemma Write1(host: seq<Byte>, a: nat, x: nat)
    requires |host| == DMEM_SIZE && a < DMEM_SIZE && Flip(a, 3) < DMEM_SIZE && Pow256(0) == 1
    ensures Guest(WriteLittle(host, Flip(a, 3), 1, x)) == WriteBig(Guest(host), a, 1, x)
  {
    hide Flip, Pow256, WriteLittle, WriteBig, Guest;
    LittleStep(host, Flip(a, 3), 1, x);
    BigStep(Guest(host), a, 1, x);
    GuestWrite(host, a, x % 256);
  }

  lemma Write2(host: seq<Byte>, a: nat, x: nat)
    requires |host| == DMEM_SIZE && a + 1 < DMEM_SIZE && Pow256(0) == 1 && Pow256(1) == 0x100
    requires Flip(a, 3) < DMEM_SIZE && Flip(a, 2) == Flip(a, 3) - 1 == Flip(a + 1, 3)
    ensures Guest(WriteLittle(host, Flip(a, 2), 2, x)) == WriteBig(Guest(host), a, 2, x)
  {
    hide Flip, Pow256, WriteLittle, WriteBig, Guest;
    var f, g := Flip(a, 2), Guest(host);
    LittleStep(host, f, 1, x);
    LittleStep(host, f, 2, x);
    BigStep(g, a, 1, x / 256);
    BigStep(g, a, 2, x);
    GuestWrite(host, a + 1, x % 256);
    GuestWrite(host[f := x % 256], a, x / 256 % 256);
    assert g[a + 1 := x % 256][a := x / 256 % 256] == g[a := x / 256 % 256][a + 1 := x % 256];
  }

  lemma Write4(host: seq<Byte>, a: nat, x: nat)
    requires |host| == DMEM_SIZE && a + 3 < DMEM_SIZE
    requires Pow256(0) == 1 && Pow256(1) == 0x100 && Pow256(2) == 0x1_0000 && Pow256(3) == 0x100_0000
    requires Flip(a, 0) == a == Flip(a + 3, 3)
    requires Flip(a + 2, 3) == a + 1 && Flip(a + 1, 3) == a + 2 && Flip(a, 3) == a + 3
    ensures Guest(WriteLittle(host, Flip(a, 0), 4, x)) == WriteBig(Guest(host), a, 4, x)
  {
    hide Flip, Pow256, WriteLittle, WriteBig, Guest;
    var g := Guest(host);
    var x0: Byte, x1: Byte, x2: Byte, x3: Byte := x % 256, x / 0x100 % 256, x / 0x1_0000 % 256, x / 0x100_0000 % 256;
    LittleStep(host, a, 1, x);
    LittleStep(host, a, 2, x);
    LittleStep(host, a, 3, x);
    LittleStep(host, a, 4, x);
    Quotients(x);
    BigStep(g, a, 1, x / 256 / 256 / 256);
    BigStep(g, a, 2, x / 256 / 256);
    BigStep(g, a, 3, x / 256);
    BigStep(g, a, 4, x);
    GuestWrite(host, a + 3, x0);
    GuestWrite(host[a := x0], a + 2, x1);
    GuestWrite(host[a := x0][a + 1 := x1], a + 1, x2);
    GuestWrite(host[a := x0][a + 1 := x1][a + 2 := x2], a, x3);
    assert g[a + 3 := x0][a + 2 := x1][a + 1 := x2][a := x3] == g[a := x3][a + 1 := x2][a + 2 := x1][a + 3 := x0];
  }

  lemma Quotients(x: nat)
    ensures x / 256 / 256 == x / 0x1_0000 && x / 256 / 256 / 256 == x / 0x100_0000
  {
  }

  // ---- the emulated instructions --------------------------------------------------------------

  /** The low half of a register after a load: sign-extended, or not. */
  function Extend(x: nat, n: nat, signed: bool): int {
    if signed && 2 * x >= Pow256(n) then x + TWO_32 - Pow256(n) else x
  }

  /** A signed load keeps the two's-complement value, an unsigned one the number itself. */
  lemma ExtendMeans(x: nat, n: nat, signed: bool)
    requires SizeOk(n) && x < Pow256(n)
    ensures var v := Extend(x, n, signed);
      0 <= v < TWO_32 && if signed then Signed(v, TWO_32) == Signed(x, Pow256(n)) else v == x
  {
    Powers256();
  }

  /** Reading is big-endian, and addresses wrap. */
  lemma BigEndian(m: Memory, a: nat)
    ensures var b0: int, b1: int, b2: int, b3: int :=
              m[a % 4096], m[(a + 1) % 4096], m[(a + 2) % 4096], m[(a + 3) % 4096];
      && ReadBig(m, a, 1) == b0
      && ReadBig(m, a, 2) == 0x100 * b0 + b1
      && ReadBig(m, a, 4) == 0x100_0000 * b0 + 0x1_0000 * b1 + 0x100 * b2 + b3
  {
    assert ReadBig(m, a, 1) == 256 * ReadBig(m, a, 0) + m[a % DMEM_SIZE];
    assert ReadBig(m, a, 2) == 256 * ReadBig(m, a, 1) + m[(a + 1) % DMEM_SIZE];
    assert ReadBig(m, a, 3) == 256 * ReadBig(m, a, 2) + m[(a + 2) % DMEM_SIZE];
    assert ReadBig(m, a, 4) == 256 * ReadBig(m, a, 3) + m[(a + 3) % DMEM_SIZE];
  }

  lemma {:induction false} ReadBound(m: Memory, a: nat, n: nat)
    ensures ReadBig(m, a, n) < Pow256(n)
  {
    if n > 0 {
      ReadBound(m, a, n - 1);
    }
  }

  class DataMemory {
    const host: array<Byte>

    ghost predicate Valid() { host.Length == DMEM_SIZE }

    ghost function View(): Memory
      requires Valid()
      reads host
    {
      Guest(host[..])
    }

    constructor ()
      ensures Valid() && fresh(host)
    {
      host := new Byte[DMEM_SIZE](_ => 0);
    }

    /** The byte the guest sees at an address. */
    method ByteAt(a: nat) returns (b: Byte)
      requires Valid()
      ensures b == View()[a % DMEM_SIZE]
    {
      FlipBound(a % DMEM_SIZE);
      b := host[Flip(a % DMEM_SIZE, 3)];
    }

    method SetByteAt(a: nat, b: Byte)
      requires Valid()
      modifies host
      ensures View() == old(View())[a % DMEM_SIZE := b]
    {
      hide Guest;
      FlipBound(a % DMEM_SIZE);
      GuestWrite(host[..], a % DMEM_SIZE, b);
      host[Flip(a % DMEM_SIZE, 3)] := b;
      assert host[..] == old(host[..])[Flip(a % DMEM_SIZE, 3) := b];
    }

    /** Byte by byte, for addresses that are not aligned. */
    method UnalignedLoad(a: nat, n: nat) returns (x: nat)
      requires Valid() && (n == 2 || n == 4)
      ensures x == ReadBig(View(), a, n)
    {
      hide Guest;
      var b0 := ByteAt(a);
      var b1 := ByteAt(a + 1);
      ghost var m := View();
      assert ReadBig(m, a, 1) == b0;
      assert ReadBig(m, a, 2) == 256 * ReadBig(m, a, 1) + b1;
      x := b1 + 256 * (b0 as int);
      if n == 4 {
        var b2 := ByteAt(a + 2);
        var b3 := ByteAt(a + 3);
        assert ReadBig(m, a, 3) == 256 * ReadBig(m, a, 2) + b2;
        assert ReadBig(m, a, 4) == 256 * ReadBig(m, a, 3) + b3;
        x := 256 * (256 * x + b2) + b3;
      }
    }

    method UnalignedStore(a: nat, n: nat, x: nat)
      requires Valid() && (n == 2 || n == 4)
      modifies host
      ensures View() == WriteBig(old(View()), a, n, x)
    {
      hide Guest, WriteBig;
      ghost var m := View();
      if n == 2 {
        SetByteAt(a, x / 0x100 % 256);
        SetByteAt(a + 1, x % 256);
      } else {
        SetByteAt(a, x / 0x100_0000 % 256);
        SetByteAt(a + 1, x / 0x1_0000 % 256);
        SetByteAt(a + 2, x / 0x100 % 256);
        SetByteAt(a + 3, x % 256);
        Quotients(x);
        BigStep(m, a, 4, x);
        BigStep(m, a, 3, x / 256);
      }
      BigStep(m, a, 2, if n == 2 then x else x / 256 / 256);
      BigStep(m, a, 1, if n == 2 then x / 256 else x / 256 / 256 / 256);
    }

    /** LB, LBU, LH, LHU and LW: an aligned host access at a flipped address, else the byte-wise routine. */
    method Load(address: Word32, n: nat, signed: bool) returns (v: Word32)
      requires Valid() && SizeOk(n)
      ensures v == Extend(ReadBig(View(), address % DMEM_SIZE, n), n, signed)
      ensures var x := ReadBig(View(), address % DMEM_SIZE, n);
        if signed then Signed(v, TWO_32) == Signed(x, Pow256(n)) else v == x
    {
      hide Flip, ReadBig, ReadLittle, Guest;
      var a := address % DMEM_SIZE;
      var x;
      if !Aligned(a, n) {
        x := UnalignedLoad(a, n);
      } else {
        AlignedRead(host[..], a, n);
        x := ReadLittle(host[..], Flip(a, EndianFlip(n)), n);
      }
      ReadBound(View(), a, n);
      Powers256();
      ExtendMeans(x, n, signed);
      v := Extend(x, n, signed);
    }

    /** SB, SH and SW. */
    method Store(address: Word32, n: nat, x: Word32)
      requires Valid() && SizeOk(n)
      modifies host
      ensures View() == WriteBig(old(View()), address % DMEM_SIZE, n, x)
    {
      hide Flip, WriteBig, WriteLittle, Guest;
      var a := address % DMEM_SIZE;
      if !Aligned(a, n) {
        UnalignedStore(a, n, x);
      } else {
        AlignedWrite(host[..], a, n, x);
        var h := WriteLittle(host[..], Flip(a, EndianFlip(n)), n, x);
        forall k | 0 <= k < DMEM_SIZE {
          host[k] := h[k];
        }
        assert host[..] == h;
      }
    }
  }

  /** Storing a value and loading it back with any access of the same size gives it truncated, and extended as asked. */
  method StoreThenLoad(address: Word32, n: nat, x: Word32, signed: bool) returns (v: Word32)
    requires SizeOk(n)
    ensures v == Extend(x % Pow256(n), n, signed)
    ensures if signed then Signed(v, TWO_32) == Signed(x % Pow256(n), Pow256(n)) else v == x % Pow256(n)
  {
    var d := new DataMemory();
    d.Store(address, n, x);
    ghost var m := d.View();
    v := d.Load(address, n, signed);
    StoredValue(address % DMEM_SIZE, n, x);
  }

  lemma StoredValue(a: nat, n: nat, x: nat)
    requires n <= 4
    ensures forall m: Memory :: ReadBig(WriteBig(m, a, n, x), a, n) == x % Pow256(n)
  {
    forall m: Memory ensures ReadBig(WriteBig(m, a, n, x), a, n) == x % Pow256(n) {
      ReadWrite(m, a, n, x);
    }
  }
}
