/** ARM branch decoding, proved against the architecture's own encodings. */
module Arm {
  import opened ArmTypes
  import opened Common

  // ---------------------------------------------------------------------------
  // The decoders, as the source tries them
  // ---------------------------------------------------------------------------

  function CondOf(insn: bv32): bv4 {
    (insn >> 28) as bv4
  }

  function BDisp(insn: bv32): bv32 {
    SignExt((insn & 0xff_ffff) << 2, 26)
  }

  function BLXDisp(insn: bv32): bv32 {
    SignExt(((insn & 0xff_ffff) << 2) | (((insn >> 24) & 1) << 1), 26)
  }

  function GetB(insn: bv32): Option<BranchInfo> {
    if insn & 0x0e00_0000 != 0x0a00_0000 then None
    else if CondOf(insn) == 15 then Some(BranchInfo(BLX_i, COND_AL, 0, None, BLXDisp(insn) + 8, false, 1))
    else if (insn >> 24) & 1 == 1 then Some(BranchInfo(BL_i, CondOf(insn), 0, None, BDisp(insn) + 8, false, 1))
    else Some(BranchInfo(B_i, CondOf(insn), 0, None, BDisp(insn) + 8, false, 1))
  }

  function GetBX(insn: bv32): Option<BranchInfo> {
    if insn & 0x0fff_ffd0 == 0x012f_ff10
    then Some(BranchInfo(if insn & 0x20 != 0 then BLX_r else BX_r, CondOf(insn), (insn & 0xf) as bv4, None, 0, false, 1))
    else None
  }

  /** An 8-bit value rotated right by twice a 4-bit count. */
  function ExpandImmediate(v: bv32): bv32 {
    RotateRight(v & 0xff, ((v >> 8) & 0xf) << 1)
  }

  function RotateRight(value: bv32, rotate: bv32): bv32
    requires rotate <= 32
  {
    (value >> rotate) | (value << (32 - rotate))
  }

  function Opcode(insn: bv32): bv32 {
    (insn >> 21) & 0xf
  }

  /** The type of the comparisons, which share their space with moves to a status
      register, is never set; nor is the register of a moved constant. */
  predicate Untyped(op: bv32) {
    8 <= op <= 11
  }

  function ALUImmediate(insn: bv32): BranchInfo {
    if Opcode(insn) == 2
    then BranchInfo(SUB_pc, CondOf(insn), ((insn >> 16) & 0xf) as bv4, None, ExpandImmediate(insn & 0xfff), false, 1)
    else BranchInfo(if Untyped(Opcode(insn)) || Opcode(insn) == 13 then Unset_type else ALU_pc, CondOf(insn), 0, None, 0, false, 1)
  }

  /** The displacement of a subtraction is its shift count, whatever is shifted. */
  function ALURegister(insn: bv32): BranchInfo {
    if Opcode(insn) == 2
    then BranchInfo(SUB_pc, CondOf(insn), ((insn >> 16) & 0xf) as bv4, None, (insn >> 7) & 0x1f, false, 1)
    else if Opcode(insn) == 13 && (insn >> 5) & 0x7f == 0
    then BranchInfo(MOV_pc, CondOf(insn), (insn & 0xf) as bv4, None, 0, false, 1)
    else BranchInfo(if Untyped(Opcode(insn)) then Unset_type else ALU_pc, CondOf(insn), 0, None, 0, false, 1)
  }

  /** Data processing into pc. The operations the stepper does not evaluate are one
      kind, a move of a shifted register among them. */
  function GetALU_pc(insn: bv32): Option<BranchInfo> {
    if insn & 0x0e00_f000 == 0x0200_f000 then Some(ALUImmediate(insn))
    else if insn & 0x0e00_f010 == 0x0000_f000 then Some(ALURegister(insn))
    else None
  }

  /** Zero without indexing; else the immediate, negated unless U is set. */
  function LDRDisp(insn: bv32): bv32 {
    if (insn >> 24) & 1 != 1 then 0
    else if (insn >> 23) & 1 == 0 then -(insn & 0xfff)
    else insn & 0xfff
  }

  /** Register offsets: only left shifts are evaluated. Whether the offset is to be
      subtracted is noted and not used. */
  function LDRRegister(insn: bv32): BranchInfo {
    var rn := ((insn >> 16) & 0xf) as bv4;
    if (insn >> 24) & 1 != 1 then BranchInfo(LDR_pc, CondOf(insn), rn, None, 0, false, 1)
    else if (insn >> 5) & 3 == 0 then BranchInfo(LDR_reg_pc, CondOf(insn), rn, Some((insn & 0xf) as bv4), (insn >> 7) & 0x1f, true, 1)
    else BranchInfo(ALU_pc, CondOf(insn), 0, None, 0, false, 1)
  }

  function GetLDR_pc(insn: bv32): Option<BranchInfo> {
    if insn & 0x0e50_f000 == 0x0410_f000
    then Some(BranchInfo(LDR_pc, CondOf(insn), ((insn >> 16) & 0xf) as bv4, None, LDRDisp(insn), false, 1))
    else if insn & 0x0e50_f010 == 0x0610_f000
    then Some(LDRRegister(insn))
    else None
  }

  /** All four addressing modes take the displacement of increment-after. */
  function GetLDM_pc(insn: bv32): Option<BranchInfo> {
    var op := insn & 0x0fd0_8000;
    if op == 0x0890_8000 || op == 0x0810_8000 || op == 0x0990_8000 || op == 0x0910_8000 then
      var rn := ((insn >> 16) & 0xf) as bv4;
      var pop := insn & 0x0fd0_0000 == 0x0890_0000 && (insn >> 21) & 1 == 1 && rn == 13;
      Some(BranchInfo(if pop then POP_pc else LDM_pc, CondOf(insn), rn, None, ListBytes((insn & 0x7fff) as bv16), false, 1))
    else None
  }

  /** The first decoder that claims the word. */
  function Decode(insn: bv32): Option<BranchInfo> {
    OrElse(GetB(insn), OrElse(GetBX(insn), OrElse(GetALU_pc(insn), OrElse(GetLDR_pc(insn), GetLDM_pc(insn)))))
  }

  // ---------------------------------------------------------------------------
  // The architecture's encodings
  // ---------------------------------------------------------------------------
  //
  // Offsets are relative to the address of the instruction plus 8. One-bit fields are
  // words below 2.

  predicate Fits26(off: bv32) { off & 0xfe00_0000 == 0 || off & 0xfe00_0000 == 0xfe00_0000 }

  function EncodeB(cond: bv4, link: bv32, off: bv32): bv32 {
    ((cond as bv32) << 28) | 0x0a00_0000 | (link << 24) | ((off >> 2) & 0xff_ffff)
  }

  function EncodeBLX(off: bv32): bv32 {
    0xfa00_0000 | (((off >> 1) & 1) << 24) | ((off >> 2) & 0xff_ffff)
  }

  function EncodeBX(cond: bv4, link: bv32, rm: bv4): bv32 {
    ((cond as bv32) << 28) | 0x012f_ff10 | (link << 5) | (rm as bv32)
  }

  function EncodeLDR(cond: bv4, index: bv32, add: bv32, writeback: bv32, rn: bv4, imm12: bv32): bv32 {
    ((cond as bv32) << 28) | 0x0410_f000 | (index << 24) | (add << 23) | (writeback << 21)
    | ((rn as bv32) << 16) | imm12
  }

  /** LDMIA with pc in the list; `list` is the rest of it. */
  function EncodeLDM(cond: bv4, writeback: bv32, rn: bv4, list: bv16): bv32 {
    ((cond as bv32) << 28) | 0x0890_8000 | (writeback << 21) | ((rn as bv32) << 16) | (list as bv32)
  }

  /** MOV pc, Rm. */
  function EncodeMOV(cond: bv4, rm: bv4): bv32 {
    ((cond as bv32) << 28) | 0x01a0_f000 | (rm as bv32)
  }

  /** SUB pc, Rn, #const. */
  function EncodeSUB(cond: bv4, rn: bv4, imm12: bv32): bv32 {
    ((cond as bv32) << 28) | 0x0240_f000 | ((rn as bv32) << 16) | imm12
  }

  /** LDR pc, [Rn, Rm, LSL #imm5]. */
  function EncodeLDRReg(cond: bv4, writeback: bv32, rn: bv4, rm: bv4, imm5: bv32): bv32 {
    ((cond as bv32) << 28) | 0x0790_f000 | (writeback << 21) | ((rn as bv32) << 16) | (imm5 << 7) | (rm as bv32)
  }

  // ---------------------------------------------------------------------------
  // Decoding inverts encoding
  // ---------------------------------------------------------------------------

  lemma Disp26(off: bv32)
    requires Fits26(off)
    ensures SignExt(off & 0x3ff_ffff, 26) == off
  {
    if off & 0xfe00_0000 == 0 { Disp26Pos(off); } else { Disp26Neg(off); }
  }

  lemma Disp26Pos(off: bv32)
    requires off & 0xfe00_0000 == 0
    ensures SignExt(off & 0x3ff_ffff, 26) == off
  {
    assert ((off & 0x3ff_ffff) << 6) & 0x8000_0000 == 0;
  }

  lemma Disp26Neg(off: bv32)
    requires off & 0xfe00_0000 == 0xfe00_0000
    ensures SignExt(off & 0x3ff_ffff, 26) == off
  {
    assert ((off & 0x3ff_ffff) << 6) & 0x8000_0000 != 0;
  }

  // For each form: what its fields hold, what such fields decode to, and the two
  // together.

  predicate HoldsB(insn: bv32, cond: bv4, link: bv32, n: bv32) {
    insn & 0x0e00_0000 == 0x0a00_0000 && (insn >> 24) & 1 == link && CondOf(insn) == cond && (insn & 0xff_ffff) << 2 == n
  }

  lemma FieldsB(cond: bv4, link: bv32, off: bv32, insn: bv32)
    requires link <= 1 && off & 3 == 0 && insn == EncodeB(cond, link, off)
    ensures HoldsB(insn, cond, link, off & 0x3ff_ffff)
  {
  }

  lemma DecodesB(cond: bv4, link: bv32, off: bv32, n: bv32, insn: bv32)
    requires cond != 15 && HoldsB(insn, cond, link, n) && SignExt(n, 26) == off
    ensures Decode(insn) == Some(BranchInfo(if link == 1 then BL_i else B_i, cond, 0, None, off + 8, false, 1))
  {
    assert BDisp(insn) == off;
  }

  lemma BInverts(cond: bv4, link: bv32, off: bv32, insn: bv32)
    requires cond != 15 && link <= 1 && Fits26(off) && off & 3 == 0 && insn == EncodeB(cond, link, off)
    ensures Decode(insn) == Some(BranchInfo(if link == 1 then BL_i else B_i, cond, 0, None, off + 8, false, 1))
  {
    FieldsB(cond, link, off, insn);
    Disp26(off);
    DecodesB(cond, link, off, off & 0x3ff_ffff, insn);
  }

  predicate HoldsBLX(insn: bv32, n: bv32) {
    insn & 0x0e00_0000 == 0x0a00_0000 && CondOf(insn) == 15 && ((insn & 0xff_ffff) << 2) | (((insn >> 24) & 1) << 1) == n
  }

  lemma FieldsBLX(off: bv32, insn: bv32)
    requires off & 1 == 0 && insn == EncodeBLX(off)
    ensures HoldsBLX(insn, off & 0x3ff_ffff)
  {
  }

  lemma BLXDispOf(off: bv32, n: bv32, insn: bv32)
    requires HoldsBLX(insn, n) && SignExt(n, 26) == off
    ensures BLXDisp(insn) == off
  {
  }

  lemma DecodesBLX(insn: bv32)
    requires insn & 0x0e00_0000 == 0x0a00_0000 && CondOf(insn) == 15
    ensures Decode(insn) == Some(BranchInfo(BLX_i, COND_AL, 0, None, BLXDisp(insn) + 8, false, 1))
  {
  }

  lemma BLXInverts(off: bv32, insn: bv32)
    requires Fits26(off) && off & 1 == 0 && insn == EncodeBLX(off)
    ensures Decode(insn) == Some(BranchInfo(BLX_i, COND_AL, 0, None, off + 8, false, 1))
  {
    FieldsBLX(off, insn);
    Disp26(off);
    BLXDispOf(off, off & 0x3ff_ffff, insn);
    DecodesBLX(insn);
  }

  predicate HoldsBX(insn: bv32, cond: bv4, link: bv32, rm: bv4) {
    && insn & 0x0e00_0000 != 0x0a00_0000 && insn & 0x0fff_ffd0 == 0x012f_ff10
    && (insn & 0x20 != 0 <==> link == 1) && CondOf(insn) == cond && (insn & 0xf) as bv4 == rm
  }

  lemma FieldsBX(cond: bv4, link: bv32, rm: bv4, insn: bv32)
    requires link <= 1 && insn == EncodeBX(cond, link, rm)
    ensures HoldsBX(insn, cond, link, rm)
  {
  }

  lemma BXInverts(cond: bv4, link: bv32, rm: bv4, insn: bv32)
    requires link <= 1 && insn == EncodeBX(cond, link, rm)
    ensures Decode(insn) == Some(BranchInfo(if link == 1 then BLX_r else BX_r, cond, rm, None, 0, false, 1))
  {
    FieldsBX(cond, link, rm, insn);
  }

  predicate HoldsLDR(insn: bv32, cond: bv4, index: bv32, add: bv32, rn: bv4, imm12: bv32) {
    && insn & 0x0e50_f000 == 0x0410_f000 && CondOf(insn) == cond && ((insn >> 16) & 0xf) as bv4 == rn
    && (insn >> 24) & 1 == index && (insn >> 23) & 1 == add && insn & 0xfff == imm12
  }

  lemma FieldsLDR(cond: bv4, index: bv32, add: bv32, writeback: bv32, rn: bv4, imm12: bv32, insn: bv32)
    requires index <= 1 && add <= 1 && writeback <= 1 && imm12 <= 0xfff
    requires insn == EncodeLDR(cond, index, add, writeback, rn, imm12)
    ensures HoldsLDR(insn, cond, index, add, rn, imm12)
  {
    assert insn & 0x0e50_f000 == 0x0410_f000 && CondOf(insn) == cond && ((insn >> 16) & 0xf) as bv4 == rn;
    assert (insn >> 24) & 1 == index && (insn >> 23) & 1 == add && insn & 0xfff == imm12;
  }

  lemma OnlyLDR(insn: bv32)
    requires insn & 0x0e50_f000 == 0x0410_f000
    ensures insn & 0x0e00_0000 != 0x0a00_0000 && insn & 0x0fff_ffd0 != 0x012f_ff10
    ensures insn & 0x0e00_f000 != 0x0200_f000 && insn & 0x0e00_f010 != 0x0000_f000
  {
  }

  lemma DecodesLDR(cond: bv4, index: bv32, add: bv32, rn: bv4, imm12: bv32, insn: bv32)
    requires HoldsLDR(insn, cond, index, add, rn, imm12)
    ensures Decode(insn)
         == Some(BranchInfo(LDR_pc, cond, rn, None, if index == 0 then 0 else if add == 1 then imm12 else -imm12, false, 1))
  {
    OnlyLDR(insn);
    LDRDispOf(index, add, imm12, insn);
  }

  lemma LDRDispOf(index: bv32, add: bv32, imm12: bv32, insn: bv32)
    requires (insn >> 24) & 1 == index && (insn >> 23) & 1 == add && insn & 0xfff == imm12
    ensures LDRDisp(insn) == if index == 0 then 0 else if add == 1 then imm12 else -imm12
  {
  }

  lemma LDRInverts(cond: bv4, index: bv32, add: bv32, writeback: bv32, rn: bv4, imm12: bv32, insn: bv32)
    requires index <= 1 && add <= 1 && writeback <= 1 && imm12 <= 0xfff
    requires insn == EncodeLDR(cond, index, add, writeback, rn, imm12)
    ensures Decode(insn)
         == Some(BranchInfo(LDR_pc, cond, rn, None, if index == 0 then 0 else if add == 1 then imm12 else -imm12, false, 1))
  {
    FieldsLDR(cond, index, add, writeback, rn, imm12, insn);
    DecodesLDR(cond, index, add, rn, imm12, insn);
  }

  predicate HoldsLDM(insn: bv32, cond: bv4, writeback: bv32, rn: bv4, list: bv16) {
    && insn & 0x0fd0_8000 == 0x0890_8000 && insn & 0x0fd0_0000 == 0x0890_0000 && CondOf(insn) == cond
    && (insn >> 21) & 1 == writeback && (insn & 0x7fff) as bv16 == list && ((insn >> 16) & 0xf) as bv4 == rn
  }

  lemma FieldsLDM(cond: bv4, writeback: bv32, rn: bv4, list: bv16, insn: bv32)
    requires writeback <= 1 && list < 0x8000 && insn == EncodeLDM(cond, writeback, rn, list)
    ensures HoldsLDM(insn, cond, writeback, rn, list)
  {
    assert insn & 0x0fd0_8000 == 0x0890_8000 && insn & 0x0fd0_0000 == 0x0890_0000 && CondOf(insn) == cond;
    assert (insn >> 21) & 1 == writeback && (insn & 0x7fff) as bv16 == list && ((insn >> 16) & 0xf) as bv4 == rn;
  }

  lemma OnlyLDM(insn: bv32)
    requires insn & 0x0fd0_8000 == 0x0890_8000
    ensures insn & 0x0e00_0000 != 0x0a00_0000 && insn & 0x0fff_ffd0 != 0x012f_ff10
    ensures insn & 0x0e00_f000 != 0x0200_f000 && insn & 0x0e00_f010 != 0x0000_f000
    ensures insn & 0x0e50_f000 != 0x0410_f000 && insn & 0x0e50_f010 != 0x0610_f000
  {
  }

  lemma DecodesLDM(cond: bv4, writeback: bv32, rn: bv4, list: bv16, insn: bv32)
    requires HoldsLDM(insn, cond, writeback, rn, list)
    ensures Decode(insn)
         == Some(BranchInfo(if writeback == 1 && rn == 13 then POP_pc else LDM_pc, cond, rn, None, ListBytes(list), false, 1))
  {
    OnlyLDM(insn);
  }

  lemma LDMInverts(cond: bv4, writeback: bv32, rn: bv4, list: bv16, insn: bv32)
    requires writeback <= 1 && list < 0x8000 && insn == EncodeLDM(cond, writeback, rn, list)
    ensures Decode(insn)
         == Some(BranchInfo(if writeback == 1 && rn == 13 then POP_pc else LDM_pc, cond, rn, None, ListBytes(list), false, 1))
  {
    FieldsLDM(cond, writeback, rn, list, insn);
    DecodesLDM(cond, writeback, rn, list, insn);
  }

  predicate HoldsMOV(insn: bv32, cond: bv4, rm: bv4) {
    && insn & 0x0e00_0000 != 0x0a00_0000 && insn & 0x0fff_ffd0 != 0x012f_ff10 && insn & 0x0e00_f000 != 0x0200_f000
    && insn & 0x0e00_f010 == 0x0000_f000 && Opcode(insn) == 13 && (insn >> 5) & 0x7f == 0
    && CondOf(insn) == cond && (insn & 0xf) as bv4 == rm
  }

  lemma FieldsMOV(cond: bv4, rm: bv4, insn: bv32)
    requires insn == EncodeMOV(cond, rm)
    ensures HoldsMOV(insn, cond, rm)
  {
    assert insn & 0x0e00_0000 != 0x0a00_0000 && insn & 0x0fff_ffd0 != 0x012f_ff10 && insn & 0x0e00_f000 != 0x0200_f000;
    assert insn & 0x0e00_f010 == 0x0000_f000 && Opcode(insn) == 13 && (insn >> 5) & 0x7f == 0;
    assert CondOf(insn) == cond && (insn & 0xf) as bv4 == rm;
  }

  lemma DecodesMOV(cond: bv4, rm: bv4, insn: bv32)
    requires HoldsMOV(insn, cond, rm)
    ensures Decode(insn) == Some(BranchInfo(MOV_pc, cond, rm, None, 0, false, 1))
  {
  }

  lemma MOVInverts(cond: bv4, rm: bv4, insn: bv32)
    requires insn == EncodeMOV(cond, rm)
    ensures Decode(insn) == Some(BranchInfo(MOV_pc, cond, rm, None, 0, false, 1))
  {
    FieldsMOV(cond, rm, insn);
    DecodesMOV(cond, rm, insn);
  }

  predicate HoldsSUB(insn: bv32, cond: bv4, rn: bv4, imm12: bv32) {
    && insn & 0x0e00_0000 != 0x0a00_0000 && insn & 0x0fff_ffd0 != 0x012f_ff10 && insn & 0x0e00_f000 == 0x0200_f000
    && Opcode(insn) == 2 && CondOf(insn) == cond && ((insn >> 16) & 0xf) as bv4 == rn && insn & 0xfff == imm12
  }

  lemma FieldsSUB(cond: bv4, rn: bv4, imm12: bv32, insn: bv32)
    requires imm12 <= 0xfff && insn == EncodeSUB(cond, rn, imm12)
    ensures HoldsSUB(insn, cond, rn, imm12)
  {
    assert insn & 0x0e00_0000 != 0x0a00_0000 && insn & 0x0fff_ffd0 != 0x012f_ff10 && insn & 0x0e00_f000 == 0x0200_f000;
    assert Opcode(insn) == 2 && CondOf(insn) == cond && ((insn >> 16) & 0xf) as bv4 == rn && insn & 0xfff == imm12;
  }

  lemma DecodesSUB(cond: bv4, rn: bv4, imm12: bv32, insn: bv32)
    requires HoldsSUB(insn, cond, rn, imm12)
    ensures Decode(insn) == Some(BranchInfo(SUB_pc, cond, rn, None, ExpandImmediate(imm12), false, 1))
  {
  }

  lemma SUBInverts(cond: bv4, rn: bv4, imm12: bv32, insn: bv32)
    requires imm12 <= 0xfff && insn == EncodeSUB(cond, rn, imm12)
    ensures Decode(insn) == Some(BranchInfo(SUB_pc, cond, rn, None, ExpandImmediate(imm12), false, 1))
  {
    FieldsSUB(cond, rn, imm12, insn);
    DecodesSUB(cond, rn, imm12, insn);
  }

  predicate HoldsLDRReg(insn: bv32, cond: bv4, rn: bv4, rm: bv4, imm5: bv32) {
    && insn & 0x0e50_f010 == 0x0610_f000 && (insn >> 24) & 1 == 1 && (insn >> 5) & 3 == 0
    && CondOf(insn) == cond && ((insn >> 16) & 0xf) as bv4 == rn && (insn & 0xf) as bv4 == rm && (insn >> 7) & 0x1f == imm5
  }

  lemma FieldsLDRReg(cond: bv4, writeback: bv32, rn: bv4, rm: bv4, imm5: bv32, insn: bv32)
    requires writeback <= 1 && imm5 <= 31 && insn == EncodeLDRReg(cond, writeback, rn, rm, imm5)
    ensures HoldsLDRReg(insn, cond, rn, rm, imm5)
  {
    assert insn & 0x0e50_f010 == 0x0610_f000 && (insn >> 24) & 1 == 1 && (insn >> 5) & 3 == 0;
    assert CondOf(insn) == cond && ((insn >> 16) & 0xf) as bv4 == rn;
    assert (insn & 0xf) as bv4 == rm && (insn >> 7) & 0x1f == imm5;
  }

  lemma OnlyLDRReg(insn: bv32)
    requires insn & 0x0e50_f010 == 0x0610_f000
    ensures insn & 0x0e00_0000 != 0x0a00_0000 && insn & 0x0fff_ffd0 != 0x012f_ff10 && insn & 0x0e50_f000 != 0x0410_f000
    ensures insn & 0x0e00_f000 != 0x0200_f000 && insn & 0x0e00_f010 != 0x0000_f000
  {
  }

  lemma DecodesLDRReg(cond: bv4, rn: bv4, rm: bv4, imm5: bv32, insn: bv32)
    requires HoldsLDRReg(insn, cond, rn, rm, imm5)
    ensures Decode(insn) == Some(BranchInfo(LDR_reg_pc, cond, rn, Some(rm), imm5, true, 1))
  {
    OnlyLDRReg(insn);
  }

  lemma LDRRegInverts(cond: bv4, writeback: bv32, rn: bv4, rm: bv4, imm5: bv32, insn: bv32)
    requires writeback <= 1 && imm5 <= 31 && insn == EncodeLDRReg(cond, writeback, rn, rm, imm5)
    ensures Decode(insn) == Some(BranchInfo(LDR_reg_pc, cond, rn, Some(rm), imm5, true, 1))
  {
    FieldsLDRReg(cond, writeback, rn, rm, imm5, insn);
    DecodesLDRReg(cond, rn, rm, imm5, insn);
  }

  // Instructions that do not write pc.

  /** Data processing, loads and stores with another destination than pc, and whatever
      else lies among them. */
  predicate OtherDestination(insn: bv32) {
    (insn & 0x0c00_0000 == 0 || insn & 0x0c00_0000 == 0x0400_0000) && insn & 0xf000 != 0xf000
  }

  /** Not r15 in the four bits at the shift. */
  predicate NotPC(insn: bv32, at: bv32)
    requires at <= 28
  {
    (insn >> at) & 0xf != 0xf
  }

  /** Data processing with a constant, a register shifted by a constant, or by a register
      where none is pc. Compares set the flags and have no destination; moves have no
      first operand; and 16 bits can be moved into either half of a register. */
  predicate IsDataProcessing(insn: bv32) {
    && insn & 0x0c00_0000 == 0
    && (insn & 0x0200_0000 != 0 || insn & 0x10 == 0
        || (insn & 0x90 == 0x10 && NotPC(insn, 0) && NotPC(insn, 8) && NotPC(insn, 16)))
    && (if insn & 0x0180_0000 == 0x0100_0000 then insn & 0x0010_f000 == 0x0010_0000 || insn & 0x0fb0_0000 == 0x0300_0000
        else insn & 0x01a0_0000 != 0x01a0_0000 || insn & 0x000f_0000 == 0)
  }

  /** A load or store of a word or a byte at a constant or register offset. If it writes
      its base back, that is neither pc nor the register transferred. */
  predicate IsTransfer(insn: bv32) {
    && insn & 0x0c00_0000 == 0x0400_0000
    && (insn & 0x0200_0000 == 0 || (insn & 0x10 == 0 && NotPC(insn, 0)))
    && (insn & 0x0120_0000 == 0x0100_0000 || (NotPC(insn, 16) && (insn >> 16) & 0xf != (insn >> 12) & 0xf))
  }

  /** The conditional instructions that go on to the next one, whether or not they are
      carried out. */
  predicate CannotBranch(insn: bv32) {
    NotPC(insn, 28) && insn & 0xf000 != 0xf000 && (IsDataProcessing(insn) || IsTransfer(insn))
  }

  lemma PlainMasks(insn: bv32)
    requires OtherDestination(insn)
    ensures insn & 0x0e00_0000 != 0x0a00_0000 && insn & 0x0fff_ffd0 != 0x012f_ff10
    ensures insn & 0x0e00_f000 != 0x0200_f000 && insn & 0x0e00_f010 != 0x0000_f000
    ensures insn & 0x0e50_f000 != 0x0410_f000 && insn & 0x0e50_f010 != 0x0610_f000
    ensures insn & 0x0fd0_8000 != 0x0890_8000 && insn & 0x0fd0_8000 != 0x0810_8000
    ensures insn & 0x0fd0_8000 != 0x0990_8000 && insn & 0x0fd0_8000 != 0x0910_8000
  {
  }

  lemma PlainIsUnclaimed(insn: bv32)
    requires OtherDestination(insn)
    ensures Decode(insn) == None
  {
    PlainMasks(insn);
  }

  /** Breakpoints, traps, calls to a monitor or hypervisor and exception returns are not
      among them: they do not go on to the next instruction. */
  lemma TrapsAreNotPlain(insn: bv32)
    ensures insn & 0x0ff0_00f0 == 0x07f0_00f0 || insn & 0x0f90_00f0 == 0x0100_0070 || insn & 0x0f90_00f0 == 0x0100_0060 ==>
              !CannotBranch(insn)
  {
  }
}
