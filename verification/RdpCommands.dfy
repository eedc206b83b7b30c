/** Where the opcode sits in the first word of a display processor command. */
module RdpCommands {
  import opened Words

  const SYNC_FULL: nat := 0x29

  function Opcode(word: Word32): nat { word / 0x100_0000 % 64 }

  /** The number is in the six low bits of the first byte; the two bits above and the 24 below do not matter. */
  lemma OpcodeMeans(top: nat, op: nat, rest: nat)
    requires top < 4 && op < 64 && rest < 0x100_0000
    ensures top * 0x4000_0000 + op * 0x100_0000 + rest < TWO_32
    ensures Opcode(top * 0x4000_0000 + op * 0x100_0000 + rest) == op
  {
    ModUnique(top * 0x4000_0000 + op * 0x100_0000 + rest, 0x100_0000, top * 64 + op, rest);
    ModUnique(top * 64 + op, 64, top, op);
  }
}
