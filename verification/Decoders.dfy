/** The three places that read an instruction word, each with its own switch: the scan for the end of a region,
    the marking of branch targets, and the emission of code. */
module Decoders {
  import opened Words
  import opened Options
  import opened Mips
  import opened RegionCode

  function Type(word: nat): nat { word / 0x400_0000 }
  function Rs(word: nat): nat { word / 0x20_0000 % 32 }
  function Rt(word: nat): nat { word / 0x1_0000 % 32 }

  predicate IsVector(word: nat) { word / 0x200_0000 == 0x25 }

  /** Where a relative branch at word address at leads, and where a jump leads. */
  function RelativeTo(word: nat, at: nat): nat { (at + 1 + word) % 1024 }
  function JumpTo(word: nat): nat { word % 1024 }

  /** The same with byte addresses. */
  function RelativeByte(word: nat, pc: nat): nat { (pc + 4 + word * 4) % 0x1000 / 4 * 4 }
  function JumpByte(word: nat): nat { word % 1024 * 4 }

  datatype ScanCase = Terminates | Breaks | Relative(target: nat) | Jump(target: nat) | Other

  /** As the scan for the end of a region reads it. */
  function ScanDecode(word: nat, at: nat): ScanCase {
    if IsVector(word) then Other else
    match Type(word)
    case 0 =>
      (match word % 64
       case 8 | 9 => Terminates
       case 13 => Breaks
       case _ => Other)
    case 1 =>
      (match Rt(word)
       case 0 | 1 | 17 | 16 => Relative(RelativeTo(word, at))
       case _ => Other)
    case 2 | 3 => Jump(JumpTo(word))
    case 4 | 5 | 6 | 7 => Relative(RelativeTo(word, at))
    case _ => Other
  }

  /** As the marking pass reads it: the target of a branch that may be a local goto. */
  function MarkDecode(word: nat, at: nat): Option<nat> {
    if IsVector(word) then None else
    match Type(word)
    case 1 =>
      (match Rt(word)
       case 0 | 1 | 17 | 16 => Some(RelativeTo(word, at))
       case _ => None)
    case 2 | 3 => Some(JumpTo(word))
    case 4 | 5 | 6 | 7 => Some(RelativeTo(word, at))
    case _ => None
  }

  /** As emission reads it, with byte addresses; next says that the delay slot carries a label. */
  function EmitDecode(word: nat, pc: nat, next: bool): Info {
    var relative := RelativeByte(word, pc);
    if IsVector(word) then NO_INFO else
    match Type(word)
    case 0 =>
      (match word % 64
       case 8 => Info(0, true, true, next, false)
       case 9 => Info(0, true, true, next, false)
       case 13 => NO_INFO.(handlesDelaySlot := true)
       case _ => NO_INFO)
    case 1 =>
      (match Rt(word)
       case 16 | 0 | 17 | 1 => Info(relative, false, true, true, false)
       case _ => NO_INFO)
    case 3 => Info(JumpByte(word), false, true, next, false)
    case 2 => Info(JumpByte(word), false, true, next, false)
    case 4 => Info(relative, false, true, true, false)
    case 5 => Info(relative, false, true, true, false)
    case 6 => Info(relative, false, true, Rs(word) != 0, false)
    case 7 => if Rs(word) == 0 then NO_INFO else Info(relative, false, true, true, false)
    case _ => NO_INFO
  }

  /** The test for more than zero of register 0, which emission skips. */
  predicate IsMeaningless(word: nat) { Type(word) == 7 && Rs(word) == 0 }

  /** The three switches agree for every word, wherever it stands. Scan and marking see the same direct branches and
      targets; emission sees them too, but for one that never branches; the terminating cases are the same. */
  lemma DecodersAgree(word: nat, at: nat, next: bool)
    ensures var scan, mark, emit := ScanDecode(word, at), MarkDecode(word, at), EmitDecode(word, 4 * at, next);
      && (scan.Relative? || scan.Jump? <==> mark.Some?)
      && (mark.Some? ==> scan.target == mark.value)
      && (emit.branch && !emit.indirect <==> mark.Some? && !IsMeaningless(word))
      && (emit.branch && !emit.indirect ==> emit.branchTarget == 4 * mark.value)
      && (emit.indirect <==> scan.Terminates?)
      && (emit.handlesDelaySlot <==> scan.Breaks?)
  {
    hide Type, Rs, Rt, IsVector, RelativeTo, RelativeByte;
    BytesAndWords(word, at);
  }

  /** The byte-address and the word-address formulas agree. */
  lemma BytesAndWords(word: nat, at: nat)
    ensures RelativeByte(word, 4 * at) == 4 * RelativeTo(word, at) && JumpByte(word) == 4 * JumpTo(word)
  {
    var s := at + 1 + word;
    assert 4 * at + 4 + word * 4 == 4 * s;
    QuadMod(s);
  }

  /** The fields of an instruction are where the switches look for them. */
  lemma RawFields(i: Instr)
    ensures Raw(i) < TWO_32 && Type(Raw(i)) == i.op
    ensures Rs(Raw(i)) == i.rs && Rt(Raw(i)) == i.rt && Raw(i) % 64 == i.funct
    ensures IsVector(Raw(i)) ==> i.op == 18
  {
    hide Raw;
    var x := Raw(i);
    FieldsBelow(i);
    Quotient(x, 0x400_0000, i.op, i.rs * 0x20_0000 + i.rt * 0x1_0000 + i.imm);
    Quotient(x, 0x20_0000, i.op * 32 + i.rs, i.rt * 0x1_0000 + i.imm);
    ModUnique(i.op * 32 + i.rs, 32, i.op, i.rs);
    Quotient(x, 0x1_0000, (i.op * 32 + i.rs) * 32 + i.rt, i.imm);
    ModUnique((i.op * 32 + i.rs) * 32 + i.rt, 32, i.op * 32 + i.rs, i.rt);
    ModUnique(x, 64, i.op * 0x10_0000 + i.rs * 0x8000 + i.rt * 0x400 + i.rd * 32 + i.sa, i.funct);
    Quotient(x, 0x200_0000, i.op * 2 + i.rs / 16, i.rs % 16 * 0x20_0000 + i.rt * 0x1_0000 + i.imm);
  }

  lemma FieldsBelow(i: Instr)
    ensures Raw(i) == i.op * 0x400_0000 + i.rs * 0x20_0000 + i.rt * 0x1_0000 + i.imm
    ensures i.op < 64 && i.rs < 32 && i.rt < 32 && i.imm < 0x1_0000 && i.funct < 64
    ensures i.imm == 64 * (i.rd * 32 + i.sa) + i.funct
  {
  }

  lemma Quotient(x: nat, d: nat, q: nat, r: nat)
    requires d > 0 && x == q * d + r && r < d
    ensures x / d == q
  {
    ModUnique(x, d, q, r);
  }

  /** Reading the word of an instruction gives what its fields say. */
  lemma DecodeRaw(i: Instr, at: nat, next: bool)
    ensures MarkDecode(Raw(i), at) == if IsDirect(i) then Some(WordTarget(i, at)) else None
    ensures EmitDecode(Raw(i), 4 * at, next) == InfoOf(i, at, next)
    ensures ScanDecode(Raw(i), at) ==
      if IsIndirect(i) then Terminates
      else if IsBreak(i) then Breaks
      else if IsRelative(i) then Relative(WordTarget(i, at))
      else if IsJump(i) then Jump(WordTarget(i, at))
      else Other
  {
    hide Raw, Type, Rs, Rt, IsVector, RelativeTo, JumpTo, RelativeByte, JumpByte, WordTarget, ByteTarget;
    RawFields(i);
    Targets(i, at);
  }

  lemma Targets(i: Instr, at: nat)
    ensures WordTarget(i, at) == if IsJump(i) then JumpTo(Raw(i)) else RelativeTo(Raw(i), at)
    ensures ByteTarget(i, 4 * at) == if IsJump(i) then JumpByte(Raw(i)) else RelativeByte(Raw(i), 4 * at)
  {
    hide Raw;
  }
}
