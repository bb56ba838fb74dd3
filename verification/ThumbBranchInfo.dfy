/** What the ARM code shares: memory, registers and decoded branches. */
module ArmTypes {
  import opened Common

  /** Byte-addressed memory; reading an unmapped byte fails. */
  datatype Memory = Memory(bytes: bv32 -> bv8, mapped: bv32 -> bool)

  /** Addresses wrap around. */
  function Plus(a: bv32, b: bv32): bv32 {
    a + b
  }

  /** Registers r0 to r15. */
  type Registers = bv4 -> bv32

  function ReadByte(m: Memory, a: bv32): Option<bv8> {
    if m.mapped(a) then Some(m.bytes(a)) else None
  }

  function ReadHalf(m: Memory, a: bv32): Option<bv16> {
    if m.mapped(a) && m.mapped(a + 1)
    then Some((m.bytes(a) as bv16) | ((m.bytes(a + 1) as bv16) << 8))
    else None
  }

  function ReadWord(m: Memory, a: bv32): Option<bv32> {
    match (ReadHalf(m, a), ReadHalf(m, a + 2))
    case (Some(low), Some(high)) => Some((low as bv32) | ((high as bv32) << 16))
    case _ => None
  }

  datatype BranchKind =
    | B_i | Bcc_i | CB_i | BX_r | BL_i | BLX_i | BLX_r | MOV_pc | LDR_pc | LDM_pc | POP_pc | SUB_pc | TBB | TBH | ALU_pc
    | LDR_reg_pc | Unset_type

  /** A decoded branch: registers where the kind uses them, displacement, and the
      shift of reg2 when `shifted`. `reg2` is None for -1. */
  datatype BranchInfo = BranchInfo(kind: BranchKind, cond: bv4, reg1: bv4, reg2: Option<bv4>, disp: bv32, shifted: bool, align: bv32)

  const COND_AL: bv4 := 14

  /** Decoders are tried in turn. */
  function OrElse(a: Option<BranchInfo>, b: Option<BranchInfo>): Option<BranchInfo> {
    if a.Some? then a else b
  }

  /** Two's complement sign extension of the low `size` bits, as a left shift and an
      arithmetic right shift. */
  function SignExt(n: bv32, size: bv6): bv32
    requires 0 < size <= 32
  {
    var sh := 32 - size;
    var x := n << sh;
    if x & 0x8000_0000 == 0 then x >> sh else !((!x) >> sh)
  }

  /** Number of bits set among the low n. */
  function PopLow(x: bv16, n: nat): (count: nat)
    ensures count <= n
  {
    if n == 0 then 0 else (if x & 1 == 1 then 1 else 0) + PopLow(x >> 1, n - 1)
  }

  function PopCount(x: bv16): (count: nat)
    ensures count <= 16
  {
    PopLow(x, 16)
  }

  /** Register r is in the list: shifting r times brings its bit down. */
  predicate InList(list: bv16, r: nat) {
    if r == 0 then list & 1 == 1 else InList(list >> 1, r - 1)
  }

  /** The numbers below n with the property. */
  function Below(p: nat -> bool, n: nat): set<nat> {
    set r: nat | r < n && p(r)
  }

  function Member(list: bv16): nat -> bool {
    (r: nat) => InList(list, r)
  }

  /** The registers of the list. */
  function ListSet(list: bv16): set<nat> {
    Below(Member(list), 16)
  }

  lemma BelowOneMore(p: nat -> bool, n: nat)
    ensures |Below(p, n + 1)| == |Below(p, n)| + if p(n) then 1 else 0
  {
    assert Below(p, n + 1) == Below(p, n) + if p(n) then {n} else {};
  }

  function Shifted(x: bv16, k: nat): bv16 {
    if k == 0 then x else Shifted(x >> 1, k - 1)
  }

  lemma {:induction false} ShiftedOneMore(x: bv16, k: nat)
    ensures Shifted(x, k + 1) == Shifted(x, k) >> 1
  {
    if k > 0 {
      ShiftedOneMore(x >> 1, k - 1);
    }
  }

  lemma {:induction false} ShiftedBit(x: bv16, k: nat)
    ensures InList(x, k) <==> Shifted(x, k) & 1 == 1
  {
    if k > 0 {
      ShiftedBit(x >> 1, k - 1);
    }
  }

  lemma PopStep(x: bv16, y: bv16, n: nat)
    requires n > 0 && y == x >> 1
    ensures PopLow(x, n) == (if x & 1 == 1 then 1 else 0) + PopLow(y, n - 1)
  {
  }

  /** The bits shifted out so far are the registers below. */
  lemma {:induction false} CountsBelow(x: bv16, k: nat)
    requires k <= 16
    ensures PopCount(x) == |Below(Member(x), k)| + PopLow(Shifted(x, k), 16 - k)
  {
    if k == 0 {
      assert Below(Member(x), 0) == {};
    } else {
      CountsBelow(x, k - 1);
      BelowOneMore(Member(x), k - 1);
      ShiftedBit(x, k - 1);
      ShiftedOneMore(x, k - 1);
      PopStep(Shifted(x, k - 1), Shifted(x, k), 17 - k);
    }
  }

  /** The bits counted are the registers of the list, for every list. */
  lemma PopCountIs(x: bv16)
    ensures PopCount(x) == |ListSet(x)|
  {
    CountsBelow(x, 16);
  }

  predicate Meets(x: bv16, mask: bv16) {
    x & mask != 0
  }

  lemma FirstMask(x: bv16)
    ensures Meets(x, 1) <==> x & 1 == 1
  {
  }

  lemma HalfMask(x: bv16, mask: bv16, y: bv16, half: bv16)
    requires mask & 1 == 0 && y == x >> 1 && half == mask >> 1
    ensures Meets(y, half) <==> Meets(x, mask)
  {
  }

  /** A bit by its mask. */
  lemma {:induction false} MaskedBit(x: bv16, mask: bv16, r: nat)
    requires IsTop(mask, r + 1)
    ensures InList(x, r) <==> Meets(x, mask)
    decreases r
  {
    if r == 0 {
      FirstMask(x);
    } else {
      HalfMask(x, mask, x >> 1, mask >> 1);
      MaskedBit(x >> 1, mask >> 1, r - 1);
    }
  }

  /** Nothing is set from bit n up. */
  predicate Fits(x: bv16, n: nat) {
    if n == 0 then x == 0 else Fits(x >> 1, n - 1)
  }

  lemma {:induction false} FitsBelow(x: bv16, top: bv16, n: nat)
    requires IsTop(top, n) && x < top
    ensures Fits(x, n - 1)
    decreases n
  {
    if n > 1 {
      HalfLess(x, top);
      FitsBelow(x >> 1, top >> 1, n - 1);
    }
  }

  lemma HalfLess(x: bv16, top: bv16)
    requires top & 1 == 0 && x < top
    ensures x >> 1 < top >> 1
  {
  }

  lemma HalfOr(x: bv16, top: bv16)
    requires top & 1 == 0
    ensures (x | top) >> 1 == (x >> 1) | (top >> 1) && (x | top) & 1 == x & 1
  {
  }

  /** The loop that shifts the bits out one by one. */
  method CountBits(bits: bv16) returns (count: nat)
    ensures count == PopCount(bits) == |ListSet(bits)|
  {
    PopCountIs(bits);
    TopOf16();
    assert bits >> 1 < 0x8000;
    FitsBelow(bits >> 1, 0x8000, 16);
    count := 0;
    var regs := bits;
    ghost var left: nat := 16;
    while regs != 0
      invariant Fits(regs, left) && count + PopLow(regs, left) == PopCount(bits)
      decreases left
    {
      count := count + (if regs & 1 == 1 then 1 else 0);
      regs := regs >> 1;
      left := left - 1;
    }
    PopOfZero(left);
  }

  lemma {:induction false} PopOfZero(n: nat)
    ensures PopLow(0, n) == 0
  {
    if n > 0 {
      assert (0 as bv16) >> 1 == 0;
      PopOfZero(n - 1);
    }
  }

  /** `top` is bit n - 1. */
  predicate IsTop(top: bv16, n: nat) {
    if n <= 1 then n == 1 && top == 1 else top & 1 == 0 && IsTop(top >> 1, n - 1)
  }

  lemma TopOf16()
    ensures IsTop(0x8000, 16)
  {
    assert IsTop(0x4, 3) by { assert IsTop(0x2, 2); }
    assert IsTop(0x10, 5) by { assert IsTop(0x8, 4); }
    assert IsTop(0x40, 7) by { assert IsTop(0x20, 6); }
    assert IsTop(0x100, 9) by { assert IsTop(0x80, 8); }
    assert IsTop(0x400, 11) by { assert IsTop(0x200, 10); }
    assert IsTop(0x1000, 13) by { assert IsTop(0x800, 12); }
    assert IsTop(0x4000, 15) by { assert IsTop(0x2000, 14); }
  }

  lemma {:induction false} PopWithTop(x: bv16, top: bv16, n: nat)
    requires IsTop(top, n) && x < top
    ensures PopLow(x | top, n) == PopLow(x, n) + 1
    decreases n
  {
    if n == 1 {
      assert x == 0 && (x | top) & 1 == 1;
    } else {
      HalfOr(x, top);
      HalfLess(x, top);
      PopWithTop(x >> 1, top >> 1, n - 1);
    }
  }

  lemma PopCountOfTop(x: bv16)
    requires x < 0x8000
    ensures PopCount(x | 0x8000) == PopCount(x) + 1
  {
    TopOf16();
    PopWithTop(x, 0x8000, 16);
  }

  /** Bytes taken by the words of a register list. */
  function ListBytes(list: bv16): bv32 {
    (PopCount(list) * 4) as bv32
  }

  lemma TopCounts(list: bv16)
    requires list & 0x8000 == 0x8000
    ensures PopCount(list) >= 1
  {
    var rest := list & 0x7fff;
    assert rest < 0x8000 && rest | 0x8000 == list;
    PopCountOfTop(rest);
  }

  /** Offset of the last of them, when there is one for r15. */
  function LastWord(list: bv16): bv32
    requires list & 0x8000 == 0x8000
  {
    TopCounts(list);
    ((PopCount(list) - 1) * 4) as bv32
  }
}

/** Thumb branch decoding, proved against the architecture's own encodings. */
module Thumb {
  import opened ArmTypes
  import opened Common

  predicate IsThumb1(h: bv16) {
    h & 0xe000 != 0xe000 || h & 0x1800 == 0
  }

  function InstSize(h: bv16): bv32 {
    if IsThumb1(h) then 2 else 4
  }

  /** An instruction is 32 bits long exactly when its top five bits are 11101,
      11110 or 11111. */
  lemma InstSizeMeans(h: bv16)
    ensures InstSize(h) == 4 <==> (h >> 11) == 0x1d || (h >> 11) == 0x1e || (h >> 11) == 0x1f
  {
  }

  // ---------------------------------------------------------------------------
  // The decoders, as the source tries them
  // ---------------------------------------------------------------------------

  function Plain(kind: BranchKind, disp: bv32): BranchInfo {
    BranchInfo(kind, COND_AL, 0, None, disp, false, 1)
  }

  function WithReg(kind: BranchKind, reg1: bv4, disp: bv32): BranchInfo {
    BranchInfo(kind, COND_AL, reg1, None, disp, false, 1)
  }

  function MakeT2BranchDisp(s: bv32, j1: bv32, j2: bv32, immHSize: bv6, immH: bv32, immLSize: bv6, immL: bv32,
                            zeroPad: bv6, xorValues: bool): bv32
    requires immHSize <= 10 && immLSize <= 11 && zeroPad <= 2
  {
    var i1 := if xorValues then (if j1 ^ s == 0 then 1 else 0) else j2;
    var i2 := if xorValues then (if j2 ^ s == 0 then 1 else 0) else j1;
    var disp := ((((((((s << 1) | i1) << 1) | i2) << immHSize) | immH) << immLSize) | immL) << zeroPad;
    SignExt(disp, 3 + immHSize + immLSize + zeroPad)
  }

  function S(h0: bv16): bv32 { ((h0 >> 10) & 1) as bv32 }
  function J1(h1: bv16): bv32 { ((h1 >> 13) & 1) as bv32 }
  function J2(h1: bv16): bv32 { ((h1 >> 11) & 1) as bv32 }

  function GetB_N(h0: bv16): Option<BranchInfo> {
    if h0 & 0xf800 == 0xe000 then Some(Plain(B_i, SignExt(((h0 & 0x7ff) << 1) as bv32, 12) + 4)) else None
  }

  function GetBcc_N(h0: bv16): Option<BranchInfo> {
    if h0 & 0xf000 == 0xd000 && h0 & 0x0f00 < 0x0e00
    then Some(Plain(Bcc_i, SignExt(((h0 & 0xff) << 1) as bv32, 9) + 4).(cond := ((h0 >> 8) & 0xf) as bv4))
    else None
  }

  function GetBX(h0: bv16): Option<BranchInfo> {
    if h0 & 0xff80 == 0x4700 then Some(WithReg(BX_r, ((h0 >> 3) & 0xf) as bv4, 0)) else None
  }

  function GetBLX_r(h0: bv16): Option<BranchInfo> {
    if h0 & 0xff80 == 0x4780 then Some(WithReg(BLX_r, ((h0 >> 3) & 0xf) as bv4, 0)) else None
  }

  function GetMOV_pc(h0: bv16): Option<BranchInfo> {
    if h0 & 0xff87 == 0x4687 then Some(WithReg(MOV_pc, ((h0 >> 3) & 0xf) as bv4, 0)) else None
  }

  function GetPOP_pc(h0: bv16): Option<BranchInfo> {
    if h0 & 0xff00 == 0xbd00 then Some(WithReg(POP_pc, 13, ListBytes(h0 & 0xff))) else None
  }

  function LongDisp(h0: bv16, h1: bv16): bv32 {
    MakeT2BranchDisp(S(h0), J1(h1), J2(h1), 10, (h0 & 0x3ff) as bv32, 11, (h1 & 0x7ff) as bv32, 1, true)
  }

  function GetB_W(h0: bv16, h1: bv16): Option<BranchInfo> {
    if h0 & 0xf800 == 0xf000 && h1 & 0xd000 == 0x9000 then Some(Plain(B_i, LongDisp(h0, h1) + 4)) else None
  }

  /** j1 and j2 change places when they are not combined with s. */
  function GetBcc_W(h0: bv16, h1: bv16): Option<BranchInfo> {
    if h0 & 0xf800 == 0xf000 && h0 & 0x0380 != 0x0380 && h1 & 0xd000 == 0x8000
    then
      var disp := MakeT2BranchDisp(S(h0), J1(h1), J2(h1), 6, (h0 & 0x3f) as bv32, 11, (h1 & 0x7ff) as bv32, 1, false);
      Some(Plain(Bcc_i, disp + 4).(cond := ((h0 >> 6) & 0xf) as bv4))
    else None
  }

  function GetBL(h0: bv16, h1: bv16): Option<BranchInfo> {
    if h0 & 0xf800 == 0xf000 && h1 & 0xd000 == 0xd000 then Some(Plain(BL_i, LongDisp(h0, h1) + 4)) else None
  }

  function GetBLX_i(h0: bv16, h1: bv16): Option<BranchInfo> {
    if h0 & 0xf800 == 0xf000 && h1 & 0xd000 == 0xc000
    then
      var disp := MakeT2BranchDisp(S(h0), J1(h1), J2(h1), 10, (h0 & 0x3ff) as bv32, 10, ((h1 >> 1) & 0x3ff) as bv32, 2, true);
      Some(Plain(BLX_i, disp + 2).(align := 4))
    else None
  }

  function GetCBZ(h0: bv16): Option<BranchInfo> {
    if h0 & 0xf500 == 0xb100
    then Some(Plain(CB_i, (((((h0 >> 9) & 1) << 5) | ((h0 >> 3) & 0x1f)) << 1) as bv32 + 4))
    else None
  }

  function GetLDR_pc(h0: bv16, h1: bv16): Option<BranchInfo> {
    if h0 & 0xfff0 == 0xf8d0 && h1 & 0xf000 == 0xf000 then
      Some(WithReg(LDR_pc, (h0 & 0xf) as bv4, (h1 & 0xfff) as bv32))
    else if h0 & 0xff7f == 0xf85f && h1 & 0xf000 == 0xf000 then
      var disp := (h1 & 0xfff) as bv32;
      Some(WithReg(LDR_pc, 15, if (h0 >> 7) & 1 == 0 then -disp else disp))
    else if h0 & 0xfff0 == 0xf850 && h1 & 0xffc0 == 0xf000 then
      var shift := ((h1 >> 4) & 3) as bv32;
      Some(BranchInfo(LDR_pc, COND_AL, (h0 & 0xf) as bv4, Some((h1 & 0xf) as bv4), shift, shift != 0, 1))
    else if h0 & 0xfff0 == 0xf850 && h1 & 0xf800 == 0xf800 then
      var disp := (h1 & 0xff) as bv32;
      Some(WithReg(LDR_pc, (h0 & 0xf) as bv4,
                   if (h1 >> 10) & 1 == 0 then 0 else if (h1 >> 9) & 1 == 0 then -disp else disp))
    else None
  }

  /** The saved pc is the last of the words loaded. */
  function GetLDM_pc(h0: bv16, h1: bv16): Option<BranchInfo> {
    if h0 & 0xffd0 == 0xe890 && h1 & 0x8000 == 0x8000 then
      var rn := (h0 & 0xf) as bv4;
      Some(WithReg(if (h0 >> 5) & 1 == 1 && rn == 13 then POP_pc else LDM_pc, rn, LastWord(h1)))
    else None
  }

  function GetSUBS_pc_lr(h0: bv16, h1: bv16): Option<BranchInfo> {
    if h0 == 0xf3de && h1 & 0xff00 == 0x8f00 then Some(WithReg(SUB_pc, (h0 & 0xf) as bv4, (h1 & 0xff) as bv32)) else None
  }

  function GetTBB(h0: bv16, h1: bv16): Option<BranchInfo> {
    if h0 & 0xfff0 == 0xe8d0 && h1 & 0xfff0 == 0xf000
    then Some(BranchInfo(BranchKind.TBB, COND_AL, (h0 & 0xf) as bv4, Some((h1 & 0xf) as bv4), 0, false, 1))
    else None
  }

  function GetTBH(h0: bv16, h1: bv16): Option<BranchInfo> {
    if h0 & 0xfff0 == 0xe8d0 && h1 & 0xfff0 == 0xf010
    then Some(BranchInfo(BranchKind.TBH, COND_AL, (h0 & 0xf) as bv4, Some((h1 & 0xf) as bv4), 1, false, 1))
    else None
  }

  /** The first decoder that claims the halfwords. */
  function Decode(h0: bv16, h1: bv16): Option<BranchInfo> {
    OrElse(GetB_N(h0), OrElse(GetBcc_N(h0), OrElse(GetBL(h0, h1), OrElse(GetBLX_r(h0), OrElse(GetBX(h0),
    OrElse(GetMOV_pc(h0), OrElse(GetPOP_pc(h0), OrElse(GetB_W(h0, h1), OrElse(GetBcc_W(h0, h1), OrElse(GetBLX_i(h0, h1),
    OrElse(GetCBZ(h0), OrElse(GetLDR_pc(h0, h1), OrElse(GetLDM_pc(h0, h1), OrElse(GetSUBS_pc_lr(h0, h1),
    OrElse(GetTBB(h0, h1), GetTBH(h0, h1))))))))))))))))
  }

  // ---------------------------------------------------------------------------
  // The architecture's encodings
  // ---------------------------------------------------------------------------
  //
  // Encodings of the ARMv7-A/R manual: A8.8.18 (B), A8.8.25 (BL, BLX immediate),
  // A8.8.29 (CBNZ, CBZ), A8.8.26-27 (BLX register, BX), A8.8.131 (POP), A8.8.58 (LDM),
  // A8.8.62-66 (LDR), A8.8.236 (TBB, TBH). Offsets are as the assembler writes them:
  // relative to the address of the instruction plus 4.

  /** All bits from the sign bit of a 9-, 12-, 21- or 25-bit number up agree. */
  predicate Fits9(off: bv32) { off & 0xffff_ff00 == 0 || off & 0xffff_ff00 == 0xffff_ff00 }
  predicate Fits12(off: bv32) { off & 0xffff_f800 == 0 || off & 0xffff_f800 == 0xffff_f800 }
  predicate Fits21(off: bv32) { off & 0xfff0_0000 == 0 || off & 0xfff0_0000 == 0xfff0_0000 }
  predicate Fits25(off: bv32) { off & 0xff00_0000 == 0 || off & 0xff00_0000 == 0xff00_0000 }

  function Flag(b: bool): bv16 { if b then 1 else 0 }

  function Low16(x: bv32): bv16 { (x & 0xffff) as bv16 }

  function EncodeBccN(cond: bv4, off: bv32): bv16 {
    0xd000 | ((cond as bv16) << 8) | Low16((off >> 1) & 0xff)
  }

  function EncodeBN(off: bv32): bv16 {
    0xe000 | Low16((off >> 1) & 0x7ff)
  }

  /** cond, S:J2:J1:imm6:imm11:0 */
  function EncodeBccW(cond: bv4, off: bv32): (bv16, bv16) {
    (0xf000 | ((cond as bv16) << 6) | Low16((((off >> 20) & 1) << 10) | ((off >> 12) & 0x3f)),
     0x8000 | Low16((((off >> 18) & 1) << 13) | (((off >> 19) & 1) << 11) | ((off >> 1) & 0x7ff)))
  }

  /** S:I1:I2:imm10, where J1 = NOT(I1) EOR S and so for J2. */
  function LongHigh(off: bv32): bv16 {
    0xf000 | Low16((((off >> 24) & 1) << 10) | ((off >> 12) & 0x3ff))
  }

  function LongLow(off: bv32): bv32 {
    var s := (off >> 24) & 1;
    ((((off >> 23) & 1) ^ 1 ^ s) << 13) | ((((off >> 22) & 1) ^ 1 ^ s) << 11)
  }

  function EncodeBW(off: bv32): (bv16, bv16) {
    (LongHigh(off), 0x9000 | Low16(LongLow(off) | ((off >> 1) & 0x7ff)))
  }

  function EncodeBL(off: bv32): (bv16, bv16) {
    (LongHigh(off), 0xd000 | Low16(LongLow(off) | ((off >> 1) & 0x7ff)))
  }

  function EncodeBLX(off: bv32): (bv16, bv16) {
    (LongHigh(off), 0xc000 | Low16(LongLow(off) | (((off >> 2) & 0x3ff) << 1)))
  }

  function EncodeCB(nonzero: bool, rn: bv4, off: bv32): bv16 {
    0xb100 | (Flag(nonzero) << 11) | Low16((((off >> 6) & 1) << 9) | (((off >> 1) & 0x1f) << 3)) | (rn as bv16)
  }

  function EncodeBX(rm: bv4): bv16 { 0x4700 | ((rm as bv16) << 3) }

  function EncodeBLXReg(rm: bv4): bv16 { 0x4780 | ((rm as bv16) << 3) }

  function EncodeMOVPc(rm: bv4): bv16 { 0x4687 | ((rm as bv16) << 3) }

  function EncodePOPPc(list: bv16): bv16 { 0xbd00 | list }

  function EncodeLDMPc(writeback: bool, rn: bv4, list: bv16): (bv16, bv16) {
    (0xe890 | (Flag(writeback) << 5) | (rn as bv16), list | 0x8000)
  }

  function EncodeLDRImm12(rn: bv4, imm12: bv16): (bv16, bv16) {
    (0xf8d0 | (rn as bv16), 0xf000 | imm12)
  }

  function EncodeLDRImm8(rn: bv4, index: bool, add: bool, writeback: bool, imm8: bv16): (bv16, bv16) {
    (0xf850 | (rn as bv16), 0xf800 | (Flag(index) << 10) | (Flag(add) << 9) | (Flag(writeback) << 8) | imm8)
  }

  function EncodeLDRReg(rn: bv4, rm: bv4, shift: bv16): (bv16, bv16) {
    (0xf850 | (rn as bv16), 0xf000 | (shift << 4) | (rm as bv16))
  }

  function EncodeTBB(rn: bv4, rm: bv4): (bv16, bv16) {
    (0xe8d0 | (rn as bv16), 0xf000 | (rm as bv16))
  }

  function EncodeTBH(rn: bv4, rm: bv4): (bv16, bv16) {
    (0xe8d0 | (rn as bv16), 0xf010 | (rm as bv16))
  }

  // ---------------------------------------------------------------------------
  // Displacements
  // ---------------------------------------------------------------------------

  // The displacements. Positive and negative ones are separate lemmas because each
  // is then a plain identity between bit patterns.

  lemma Disp9(off: bv32, h: bv16)
    requires Fits9(off) && off & 1 == 0 && h & 0xff == Low16((off >> 1) & 0xff)
    ensures SignExt(((h & 0xff) << 1) as bv32, 9) == off
  {
    if off & 0xffff_ff00 == 0 { Disp9Pos(off, h); } else { Disp9Neg(off, h); }
  }

  lemma Disp9Pos(off: bv32, h: bv16)
    requires off & 0xffff_ff00 == 0 && off & 1 == 0 && h & 0xff == Low16((off >> 1) & 0xff)
    ensures SignExt(((h & 0xff) << 1) as bv32, 9) == off
  {
    var n := ((h & 0xff) << 1) as bv32;
    assert n == off && (n << 23) & 0x8000_0000 == 0;
  }

  lemma Disp9Neg(off: bv32, h: bv16)
    requires off & 0xffff_ff00 == 0xffff_ff00 && off & 1 == 0 && h & 0xff == Low16((off >> 1) & 0xff)
    ensures SignExt(((h & 0xff) << 1) as bv32, 9) == off
  {
    var n := ((h & 0xff) << 1) as bv32;
    assert n == off & 0x1ff && (n << 23) & 0x8000_0000 != 0;
  }

  lemma Disp12(off: bv32, h: bv16)
    requires Fits12(off) && off & 1 == 0 && h & 0x7ff == Low16((off >> 1) & 0x7ff)
    ensures SignExt(((h & 0x7ff) << 1) as bv32, 12) == off
  {
    if off & 0xffff_f800 == 0 { Disp12Pos(off, h); } else { Disp12Neg(off, h); }
  }

  lemma Disp12Pos(off: bv32, h: bv16)
    requires off & 0xffff_f800 == 0 && off & 1 == 0 && h & 0x7ff == Low16((off >> 1) & 0x7ff)
    ensures SignExt(((h & 0x7ff) << 1) as bv32, 12) == off
  {
    var n := ((h & 0x7ff) << 1) as bv32;
    assert n == off && (n << 20) & 0x8000_0000 == 0;
  }

  lemma Disp12Neg(off: bv32, h: bv16)
    requires off & 0xffff_f800 == 0xffff_f800 && off & 1 == 0 && h & 0x7ff == Low16((off >> 1) & 0x7ff)
    ensures SignExt(((h & 0x7ff) << 1) as bv32, 12) == off
  {
    var n := ((h & 0x7ff) << 1) as bv32;
    assert n == off & 0xfff && (n << 20) & 0x8000_0000 != 0;
  }

  lemma SignExt21Of(off: bv32)
    requires Fits21(off)
    ensures SignExt(off & 0x1f_ffff, 21) == off
  {
    if off & 0xfff0_0000 == 0 { SignExt21Pos(off); } else { SignExt21Neg(off); }
  }

  lemma SignExt21Pos(off: bv32)
    requires off & 0xfff0_0000 == 0
    ensures SignExt(off & 0x1f_ffff, 21) == off
  {
    assert ((off & 0x1f_ffff) << 11) & 0x8000_0000 == 0;
  }

  lemma SignExt21Neg(off: bv32)
    requires off & 0xfff0_0000 == 0xfff0_0000
    ensures SignExt(off & 0x1f_ffff, 21) == off
  {
    assert ((off & 0x1f_ffff) << 11) & 0x8000_0000 != 0;
  }

  lemma SignExt25Of(off: bv32)
    requires Fits25(off)
    ensures SignExt(off & 0x1ff_ffff, 25) == off
  {
    if off & 0xff00_0000 == 0 { SignExt25Pos(off); } else { SignExt25Neg(off); }
  }

  lemma SignExt25Pos(off: bv32)
    requires off & 0xff00_0000 == 0
    ensures SignExt(off & 0x1ff_ffff, 25) == off
  {
    assert ((off & 0x1ff_ffff) << 7) & 0x8000_0000 == 0;
  }

  lemma SignExt25Neg(off: bv32)
    requires off & 0xff00_0000 == 0xff00_0000
    ensures SignExt(off & 0x1ff_ffff, 25) == off
  {
    assert ((off & 0x1ff_ffff) << 7) & 0x8000_0000 != 0;
  }

  /** The twenty-one bits S:J2:J1:imm6:imm11:0. */
  lemma Join21(off: bv32)
    requires off & 1 == 0
    ensures var s, j1, j2 := (off >> 20) & 1, (off >> 18) & 1, (off >> 19) & 1;
            ((((((((s << 1) | j2) << 1) | j1) << 6) | ((off >> 12) & 0x3f)) << 11) | ((off >> 1) & 0x7ff)) << 1 == off & 0x1f_ffff
  {
  }

  /** The twenty-five bits S:I1:I2:imm10:imm11:0. */
  lemma Join25(off: bv32)
    requires off & 1 == 0
    ensures var s, i1, i2 := (off >> 24) & 1, (off >> 23) & 1, (off >> 22) & 1;
            ((((((((s << 1) | i1) << 1) | i2) << 10) | ((off >> 12) & 0x3ff)) << 11) | ((off >> 1) & 0x7ff)) << 1 == off & 0x1ff_ffff
  {
  }

  /** The same with imm10H:imm10L:00 for BLX. */
  lemma Join25By4(off: bv32)
    requires off & 3 == 0
    ensures var s, i1, i2 := (off >> 24) & 1, (off >> 23) & 1, (off >> 22) & 1;
            ((((((((s << 1) | i1) << 1) | i2) << 10) | ((off >> 12) & 0x3ff)) << 10) | ((off >> 2) & 0x3ff)) << 2 == off & 0x1ff_ffff
  {
  }

  /** I = NOT(J EOR S) undoes J = NOT(I) EOR S. */
  lemma UnXor(i: bv32, s: bv32)
    requires i <= 1 && s <= 1
    ensures (if (i ^ 1 ^ s) ^ s == 0 then 1 else 0) == i
  {
  }

  lemma Disp21(off: bv32)
    requires Fits21(off) && off & 1 == 0
    ensures MakeT2BranchDisp((off >> 20) & 1, (off >> 18) & 1, (off >> 19) & 1, 6, (off >> 12) & 0x3f, 11, (off >> 1) & 0x7ff, 1, false) == off
  {
    Join21(off);
    SignExt21Of(off);
  }

  lemma Disp25(off: bv32)
    requires Fits25(off) && off & 1 == 0
    ensures var s := (off >> 24) & 1;
            MakeT2BranchDisp(s, ((off >> 23) & 1) ^ 1 ^ s, ((off >> 22) & 1) ^ 1 ^ s, 10, (off >> 12) & 0x3ff, 11, (off >> 1) & 0x7ff, 1, true) == off
  {
    Join25(off);
    UnXor((off >> 23) & 1, (off >> 24) & 1);
    UnXor((off >> 22) & 1, (off >> 24) & 1);
    SignExt25Of(off);
  }

  lemma Disp25By4(off: bv32)
    requires Fits25(off) && off & 3 == 0
    ensures var s := (off >> 24) & 1;
            MakeT2BranchDisp(s, ((off >> 23) & 1) ^ 1 ^ s, ((off >> 22) & 1) ^ 1 ^ s, 10, (off >> 12) & 0x3ff, 10, (off >> 2) & 0x3ff, 2, true) == off
  {
    Join25By4(off);
    UnXor((off >> 23) & 1, (off >> 24) & 1);
    UnXor((off >> 22) & 1, (off >> 24) & 1);
    SignExt25Of(off);
  }

  // Each form: its own decoder claims it, and none before does.

  lemma DecodesBccN(cond: bv4, off: bv32, h0: bv16, h1: bv16)
    requires cond < 14 && SignExt(((h0 & 0xff) << 1) as bv32, 9) == off
    requires h0 & 0xf000 == 0xd000 && (h0 >> 8) & 0xf == cond as bv16
    ensures Decode(h0, h1) == Some(Plain(Bcc_i, off + 4).(cond := cond))
  {
    assert h0 & 0x0f00 < 0x0e00;
  }

  lemma DecodesBN(off: bv32, h0: bv16, h1: bv16)
    requires h0 & 0xf800 == 0xe000 && SignExt(((h0 & 0x7ff) << 1) as bv32, 12) == off
    ensures Decode(h0, h1) == Some(Plain(B_i, off + 4))
  {
  }

  lemma DecodesBccW(cond: bv4, off: bv32, h0: bv16, h1: bv16)
    requires cond < 14 && (h0 >> 6) & 0xf == cond as bv16 && h0 & 0xf800 == 0xf000 && h1 & 0xd000 == 0x8000
    requires MakeT2BranchDisp(S(h0), J1(h1), J2(h1), 6, (h0 & 0x3f) as bv32, 11, (h1 & 0x7ff) as bv32, 1, false) == off
    ensures Decode(h0, h1) == Some(Plain(Bcc_i, off + 4).(cond := cond))
  {
    NotAllSet(cond, h0);
    LongExclusive(h0, h1);
  }

  lemma DecodesBW(off: bv32, h0: bv16, h1: bv16)
    requires h0 & 0xf800 == 0xf000 && h1 & 0xd000 == 0x9000 && LongDisp(h0, h1) == off
    ensures Decode(h0, h1) == Some(Plain(B_i, off + 4))
  {
  }

  lemma DecodesBL(off: bv32, h0: bv16, h1: bv16)
    requires h0 & 0xf800 == 0xf000 && h1 & 0xd000 == 0xd000 && LongDisp(h0, h1) == off
    ensures Decode(h0, h1) == Some(Plain(BL_i, off + 4))
  {
  }

  lemma DecodesBLX(off: bv32, h0: bv16, h1: bv16)
    requires h0 & 0xf800 == 0xf000 && h1 & 0xd000 == 0xc000
    requires MakeT2BranchDisp(S(h0), J1(h1), J2(h1), 10, (h0 & 0x3ff) as bv32, 10, ((h1 >> 1) & 0x3ff) as bv32, 2, true) == off
    ensures Decode(h0, h1) == Some(Plain(BLX_i, off + 2).(align := 4))
  {
  }

  lemma DecodesCB(off: bv32, h0: bv16, h1: bv16)
    requires h0 & 0xf500 == 0xb100 && (((((h0 >> 9) & 1) << 5) | ((h0 >> 3) & 0x1f)) << 1) as bv32 == off
    ensures Decode(h0, h1) == Some(Plain(CB_i, off + 4))
  {
  }

  lemma DecodesBX(rm: bv4, h0: bv16, h1: bv16)
    requires h0 == 0x4700 | ((rm as bv16) << 3)
    ensures Decode(h0, h1) == Some(WithReg(BX_r, rm, 0))
  {
  }

  lemma DecodesBLXr(rm: bv4, h0: bv16, h1: bv16)
    requires h0 == 0x4780 | ((rm as bv16) << 3)
    ensures Decode(h0, h1) == Some(WithReg(BLX_r, rm, 0))
  {
  }

  lemma DecodesMOV(rm: bv4, h0: bv16, h1: bv16)
    requires h0 == 0x4687 | ((rm as bv16) << 3)
    ensures Decode(h0, h1) == Some(WithReg(MOV_pc, rm, 0))
  {
  }

  lemma DecodesPOP(list: bv16, h0: bv16, h1: bv16)
    requires list <= 0xff && h0 == 0xbd00 | list
    ensures Decode(h0, h1) == Some(WithReg(POP_pc, 13, ListBytes(list)))
  {
    assert h0 & 0xff == list;
  }

  lemma DecodesLDM(w: bv16, rn: bv4, list: bv16, h0: bv16, h1: bv16)
    requires w <= 1 && list < 0x8000 && h0 == 0xe890 | (w << 5) | (rn as bv16) && h1 == list | 0x8000
    ensures Decode(h0, h1) == Some(WithReg(if w == 1 && rn == 13 then POP_pc else LDM_pc, rn, ListBytes(list)))
  {
    LDMFields(w, rn, list, h0, h1);
    LDMClaims(h0, h1);
    PopCountOfTop(list);
  }

  lemma LDMMasks(h0: bv16)
    requires h0 & 0xffd0 == 0xe890
    ensures h0 & 0xf800 != 0xe000 && h0 & 0xf000 != 0xd000 && h0 & 0xff80 != 0x4780 && h0 & 0xff80 != 0x4700
    ensures h0 & 0xff87 != 0x4687 && h0 & 0xff00 != 0xbd00 && h0 & 0xf500 != 0xb100 && h0 & 0xf800 != 0xf000
    ensures h0 & 0xfff0 != 0xf8d0 && h0 & 0xff7f != 0xf85f && h0 & 0xfff0 != 0xf850
  {
  }

  lemma LDMIsNotShort(h0: bv16)
    requires h0 & 0xffd0 == 0xe890
    ensures NoShort(h0)
  {
    LDMMasks(h0);
  }

  lemma LDMClaims(h0: bv16, h1: bv16)
    requires h0 & 0xffd0 == 0xe890 && h1 & 0x8000 == 0x8000
    ensures Decode(h0, h1) == GetLDM_pc(h0, h1)
  {
    LDMMasks(h0);
    LDMIsNotShort(h0);
  }

  lemma LDMFields(w: bv16, rn: bv4, list: bv16, h0: bv16, h1: bv16)
    requires w <= 1 && list < 0x8000 && h0 == 0xe890 | (w << 5) | (rn as bv16) && h1 == list | 0x8000
    ensures (h0 >> 5) & 1 == w && (h0 & 0xf) as bv4 == rn && h0 & 0xffd0 == 0xe890 && h1 & 0x8000 == 0x8000
  {
  }

  lemma DecodesLDRImm12(rn: bv4, imm12: bv16, h0: bv16, h1: bv16)
    requires imm12 <= 0xfff && h0 == 0xf8d0 | (rn as bv16) && h1 == 0xf000 | imm12
    ensures Decode(h0, h1) == Some(WithReg(LDR_pc, rn, imm12 as bv32))
  {
    assert h1 & 0xfff == imm12 && (h0 & 0xf) as bv4 == rn;
  }

  /** No decoder before the last form of LDR claims these halfwords. */
  lemma OnlyLDRImm8(rn: bv4, h0: bv16, h1: bv16)
    requires rn != 15 && h0 == 0xf850 | (rn as bv16) && h1 & 0xf800 == 0xf800
    ensures Decode(h0, h1) == GetLDR_pc(h0, h1) && GetLDR_pc(h0, h1).Some?
    ensures h0 & 0xfff0 == 0xf850 && h0 & 0xff7f != 0xf85f && (h0 & 0xf) as bv4 == rn && h1 & 0xffc0 != 0xf000
  {
  }

  lemma DecodesLDRImm8(rn: bv4, imm8: bv16, h0: bv16, h1: bv16)
    requires rn != 15 && h0 == 0xf850 | (rn as bv16) && h1 & 0xf800 == 0xf800 && h1 & 0xff == imm8
    ensures Decode(h0, h1)
         == Some(WithReg(LDR_pc, rn, if (h1 >> 10) & 1 == 0 then 0 else if (h1 >> 9) & 1 == 0 then -(imm8 as bv32) else imm8 as bv32))
  {
    OnlyLDRImm8(rn, h0, h1);
  }

  lemma DecodesLDRReg(rn: bv4, rm: bv4, shift: bv16, h0: bv16, h1: bv16)
    requires rn != 15 && shift <= 3 && h0 == 0xf850 | (rn as bv16) && h1 == 0xf000 | (shift << 4) | (rm as bv16)
    ensures Decode(h0, h1) == Some(BranchInfo(LDR_pc, COND_AL, rn, Some(rm), shift as bv32, shift != 0, 1))
  {
    assert (h1 >> 4) & 3 == shift && (h1 & 0xf) as bv4 == rm && (h0 & 0xf) as bv4 == rn;
  }

  lemma DecodesTBB(rn: bv4, rm: bv4, h0: bv16, h1: bv16)
    requires h0 == 0xe8d0 | (rn as bv16) && h1 == 0xf000 | (rm as bv16)
    ensures Decode(h0, h1) == Some(BranchInfo(BranchKind.TBB, COND_AL, rn, Some(rm), 0, false, 1))
  {
  }

  lemma DecodesTBH(rn: bv4, rm: bv4, h0: bv16, h1: bv16)
    requires h0 == 0xe8d0 | (rn as bv16) && h1 == 0xf010 | (rm as bv16)
    ensures Decode(h0, h1) == Some(BranchInfo(BranchKind.TBH, COND_AL, rn, Some(rm), 1, false, 1))
  {
  }

  // The fields of each long encoding, read back.

  lemma FieldsBccN(cond: bv4, off: bv32, h: bv16)
    requires h == EncodeBccN(cond, off)
    ensures h & 0xf000 == 0xd000 && (h >> 8) & 0xf == cond as bv16 && h & 0xff == Low16((off >> 1) & 0xff)
  {
  }

  lemma FieldsBN(off: bv32, h: bv16)
    requires h == EncodeBN(off)
    ensures h & 0xf800 == 0xe000 && h & 0x7ff == Low16((off >> 1) & 0x7ff)
  {
  }

  lemma FieldsBccW(cond: bv4, off: bv32, h0: bv16, h1: bv16)
    requires (h0, h1) == EncodeBccW(cond, off)
    ensures (h0 >> 6) & 0xf == cond as bv16 && h0 & 0xf800 == 0xf000 && h1 & 0xd000 == 0x8000
    ensures S(h0) == (off >> 20) & 1 && J1(h1) == (off >> 18) & 1 && J2(h1) == (off >> 19) & 1
    ensures (h0 & 0x3f) as bv32 == (off >> 12) & 0x3f && (h1 & 0x7ff) as bv32 == (off >> 1) & 0x7ff
  {
  }

  /** The halfwords hold this offset in their S, J1, J2 and imm10 fields, and `low`
      in the bottom eleven bits. */
  predicate HoldsLong(h0: bv16, h1: bv16, op: bv16, off: bv32, low: bv32) {
    var s := (off >> 24) & 1;
    && h0 & 0xf800 == 0xf000 && h1 & 0xd000 == op && S(h0) == s
    && J1(h1) == ((off >> 23) & 1) ^ 1 ^ s && J2(h1) == ((off >> 22) & 1) ^ 1 ^ s
    && (h0 & 0x3ff) as bv32 == (off >> 12) & 0x3ff && (h1 & 0x7ff) as bv32 == low
    && ((h1 >> 1) & 0x3ff) as bv32 == (low >> 1) & 0x3ff
  }

  lemma FieldsHigh(off: bv32, h0: bv16)
    requires h0 == LongHigh(off)
    ensures h0 & 0xf800 == 0xf000 && S(h0) == (off >> 24) & 1 && (h0 & 0x3ff) as bv32 == (off >> 12) & 0x3ff
  {
  }

  lemma FieldsLower(op: bv16, off: bv32, low: bv32, h1: bv16)
    requires op & 0xd000 == op && low & 0x7ff == low && h1 == op | Low16(LongLow(off) | low)
    ensures h1 & 0xd000 == op && (h1 & 0x7ff) as bv32 == low && ((h1 >> 1) & 0x3ff) as bv32 == (low >> 1) & 0x3ff
  {
  }

  lemma FieldsJ(op: bv16, off: bv32, low: bv32, h1: bv16)
    requires op & 0xd000 == op && low & 0x7ff == low && h1 == op | Low16(LongLow(off) | low)
    ensures var s := (off >> 24) & 1; J1(h1) == ((off >> 23) & 1) ^ 1 ^ s && J2(h1) == ((off >> 22) & 1) ^ 1 ^ s
  {
  }

  lemma FieldsLong(op: bv16, off: bv32, low: bv32, h0: bv16, h1: bv16)
    requires op & 0xd000 == op && low & 0x7ff == low && h0 == LongHigh(off) && h1 == op | Low16(LongLow(off) | low)
    ensures HoldsLong(h0, h1, op, off, low)
  {
    FieldsHigh(off, h0);
    FieldsLower(op, off, low, h1);
    FieldsJ(op, off, low, h1);
  }

  lemma LongDispOf(op: bv16, off: bv32, h0: bv16, h1: bv16)
    requires Fits25(off) && off & 1 == 0 && HoldsLong(h0, h1, op, off, (off >> 1) & 0x7ff)
    ensures LongDisp(h0, h1) == off
  {
    Disp25(off);
  }

  lemma BLXDispOf(off: bv32, h0: bv16, h1: bv16)
    requires Fits25(off) && off & 3 == 0 && HoldsLong(h0, h1, 0xc000, off, ((off >> 2) & 0x3ff) << 1)
    ensures MakeT2BranchDisp(S(h0), J1(h1), J2(h1), 10, (h0 & 0x3ff) as bv32, 10, ((h1 >> 1) & 0x3ff) as bv32, 2, true) == off
  {
    LowFields(off);
    Disp25By4(off);
  }

  lemma LowFields(off: bv32)
    ensures ((off >> 1) & 0x7ff) & 0x7ff == (off >> 1) & 0x7ff
    ensures (((off >> 2) & 0x3ff) << 1) & 0x7ff == ((off >> 2) & 0x3ff) << 1
    ensures ((((off >> 2) & 0x3ff) << 1) >> 1) & 0x3ff == (off >> 2) & 0x3ff
  {
  }

  lemma FieldsBW(off: bv32, h0: bv16, h1: bv16)
    requires (h0, h1) == EncodeBW(off)
    ensures HoldsLong(h0, h1, 0x9000, off, (off >> 1) & 0x7ff)
  {
    LowFields(off);
    FieldsLong(0x9000, off, (off >> 1) & 0x7ff, h0, h1);
  }

  lemma FieldsBL(off: bv32, h0: bv16, h1: bv16)
    requires (h0, h1) == EncodeBL(off)
    ensures HoldsLong(h0, h1, 0xd000, off, (off >> 1) & 0x7ff)
  {
    LowFields(off);
    FieldsLong(0xd000, off, (off >> 1) & 0x7ff, h0, h1);
  }

  lemma FieldsBLX(off: bv32, h0: bv16, h1: bv16)
    requires (h0, h1) == EncodeBLX(off)
    ensures HoldsLong(h0, h1, 0xc000, off, ((off >> 2) & 0x3ff) << 1)
  {
    LowFields(off);
    FieldsLong(0xc000, off, ((off >> 2) & 0x3ff) << 1, h0, h1);
  }

  lemma FieldsCB(nz: bv16, rn: bv4, off: bv32, h: bv16)
    requires nz <= 1 && rn < 8 && off <= 126 && off & 1 == 0
    requires h == 0xb100 | (nz << 11) | Low16((((off >> 6) & 1) << 9) | (((off >> 1) & 0x1f) << 3)) | (rn as bv16)
    ensures h & 0xf500 == 0xb100 && (((((h >> 9) & 1) << 5) | ((h >> 3) & 0x1f)) << 1) as bv32 == off
  {
  }

  lemma FieldsLDRImm8(p: bv16, u: bv16, w: bv16, imm8: bv16, h: bv16)
    requires imm8 <= 0xff && p <= 1 && u <= 1 && w <= 1 && h == 0xf800 | (p << 10) | (u << 9) | (w << 8) | imm8
    ensures h & 0xf800 == 0xf800 && h & 0xff == imm8 && (h >> 10) & 1 == p && (h >> 9) & 1 == u
  {
  }

  // ---------------------------------------------------------------------------
  // One decoder at most
  // ---------------------------------------------------------------------------

  /** No decoder but those of the four long branches claims the halfwords. */
  predicate NoOther(h0: bv16, h1: bv16) {
    NoShort(h0) && NoLoad(h0, h1) && GetSUBS_pc_lr(h0, h1).None? && GetTBB(h0, h1).None? && GetTBH(h0, h1).None?
  }

  predicate NoShort(h0: bv16) {
    && GetB_N(h0).None? && GetBcc_N(h0).None? && GetBLX_r(h0).None? && GetBX(h0).None?
    && GetMOV_pc(h0).None? && GetPOP_pc(h0).None? && GetCBZ(h0).None?
  }

  predicate NoLoad(h0: bv16, h1: bv16) {
    GetLDR_pc(h0, h1).None? && GetLDM_pc(h0, h1).None?
  }

  lemma LongMasks(h0: bv16)
    requires h0 & 0xf800 == 0xf000
    ensures h0 & 0xf800 != 0xe000 && h0 & 0xf000 != 0xd000 && h0 & 0xff80 != 0x4780 && h0 & 0xff80 != 0x4700
    ensures h0 & 0xff87 != 0x4687 && h0 & 0xff00 != 0xbd00 && h0 & 0xf500 != 0xb100
    ensures h0 & 0xfff0 != 0xf8d0 && h0 & 0xff7f != 0xf85f && h0 & 0xfff0 != 0xf850 && h0 & 0xffd0 != 0xe890 && h0 & 0xfff0 != 0xe8d0
  {
  }

  lemma LongIsNotShort(h0: bv16)
    requires h0 & 0xf800 == 0xf000
    ensures NoShort(h0)
  {
    LongMasks(h0);
  }

  lemma LongIsNoLoad(h0: bv16, h1: bv16)
    requires h0 & 0xf800 == 0xf000
    ensures NoLoad(h0, h1)
  {
    LongMasks(h0);
  }

  lemma LongIsNoTable(h0: bv16, h1: bv16)
    requires h0 & 0xf800 == 0xf000
    ensures GetTBB(h0, h1).None? && GetTBH(h0, h1).None?
  {
    LongMasks(h0);
  }

  lemma OnlyLong(h0: bv16, h1: bv16)
    requires h0 & 0xf800 == 0xf000 && GetSUBS_pc_lr(h0, h1).None?
    ensures NoOther(h0, h1)
  {
    LongIsNotShort(h0);
    LongIsNoLoad(h0, h1);
    LongIsNoTable(h0, h1);
  }

  /** Each of the four patterns excludes the other three, and `SUBS pc, lr`. */
  lemma LongExclusive(h0: bv16, h1: bv16)
    requires h0 & 0xf800 == 0xf000
    ensures h1 & 0xd000 == 0x9000 ==> NoOther(h0, h1) && GetBL(h0, h1) == GetBcc_W(h0, h1) == GetBLX_i(h0, h1) == None
    ensures h1 & 0xd000 == 0xd000 ==> NoOther(h0, h1) && GetB_W(h0, h1) == GetBcc_W(h0, h1) == GetBLX_i(h0, h1) == None
    ensures h1 & 0xd000 == 0xc000 ==> NoOther(h0, h1) && GetB_W(h0, h1) == GetBcc_W(h0, h1) == GetBL(h0, h1) == None
    ensures h1 & 0xd000 == 0x8000 && h0 & 0x0380 != 0x0380 ==>
              NoOther(h0, h1) && GetB_W(h0, h1) == GetBL(h0, h1) == GetBLX_i(h0, h1) == None
  {
    if GetSUBS_pc_lr(h0, h1).None? {
      OnlyLong(h0, h1);
    }
  }

  // ---------------------------------------------------------------------------
  // Decoding inverts encoding
  // ---------------------------------------------------------------------------
  //
  // Each form decodes to what it says, whatever halfword follows a short one: no
  // other decoder in the chain claims it first. `h0` and `h1` are the halfwords read.

  lemma BccNInverts(cond: bv4, off: bv32, h0: bv16, h1: bv16)
    requires cond < 14 && Fits9(off) && off & 1 == 0 && h0 == EncodeBccN(cond, off)
    ensures Decode(h0, h1) == Some(Plain(Bcc_i, off + 4).(cond := cond))
  {
    FieldsBccN(cond, off, h0);
    Disp9(off, h0);
    DecodesBccN(cond, off, h0, h1);
  }

  lemma BNInverts(off: bv32, h0: bv16, h1: bv16)
    requires Fits12(off) && off & 1 == 0 && h0 == EncodeBN(off)
    ensures Decode(h0, h1) == Some(Plain(B_i, off + 4))
  {
    FieldsBN(off, h0);
    Disp12(off, h0);
    DecodesBN(off, h0, h1);
  }

  lemma NotAllSet(cond: bv4, h0: bv16)
    requires cond < 14 && (h0 >> 6) & 0xf == cond as bv16
    ensures h0 & 0x0380 != 0x0380
  {
  }

  lemma BccWInverts(cond: bv4, off: bv32, h0: bv16, h1: bv16)
    requires cond < 14 && Fits21(off) && off & 1 == 0 && (h0, h1) == EncodeBccW(cond, off)
    ensures Decode(h0, h1) == Some(Plain(Bcc_i, off + 4).(cond := cond))
    ensures NoOther(h0, h1) && GetB_W(h0, h1) == GetBL(h0, h1) == GetBLX_i(h0, h1) == None
  {
    FieldsBccW(cond, off, h0, h1);
    NotAllSet(cond, h0);
    LongExclusive(h0, h1);
    Disp21(off);
    DecodesBccW(cond, off, h0, h1);
  }

  lemma BWInverts(off: bv32, h0: bv16, h1: bv16)
    requires Fits25(off) && off & 1 == 0 && (h0, h1) == EncodeBW(off)
    ensures Decode(h0, h1) == Some(Plain(B_i, off + 4))
    ensures NoOther(h0, h1) && GetBL(h0, h1) == GetBcc_W(h0, h1) == GetBLX_i(h0, h1) == None
  {
    FieldsBW(off, h0, h1);
    LongExclusive(h0, h1);
    LongDispOf(0x9000, off, h0, h1);
    DecodesBW(off, h0, h1);
  }

  lemma BLInverts(off: bv32, h0: bv16, h1: bv16)
    requires Fits25(off) && off & 1 == 0 && (h0, h1) == EncodeBL(off)
    ensures Decode(h0, h1) == Some(Plain(BL_i, off + 4))
    ensures NoOther(h0, h1) && GetB_W(h0, h1) == GetBcc_W(h0, h1) == GetBLX_i(h0, h1) == None
  {
    FieldsBL(off, h0, h1);
    LongExclusive(h0, h1);
    LongDispOf(0xd000, off, h0, h1);
    DecodesBL(off, h0, h1);
  }

  lemma BLXInverts(off: bv32, h0: bv16, h1: bv16)
    requires Fits25(off) && off & 3 == 0 && (h0, h1) == EncodeBLX(off)
    ensures Decode(h0, h1) == Some(Plain(BLX_i, off + 2).(align := 4))
    ensures NoOther(h0, h1) && GetB_W(h0, h1) == GetBcc_W(h0, h1) == GetBL(h0, h1) == None
  {
    FieldsBLX(off, h0, h1);
    LongExclusive(h0, h1);
    BLXDispOf(off, h0, h1);
    DecodesBLX(off, h0, h1);
  }

  lemma CBInverts(nonzero: bool, rn: bv4, off: bv32, h0: bv16, h1: bv16)
    requires rn < 8 && off <= 126 && off & 1 == 0 && h0 == EncodeCB(nonzero, rn, off)
    ensures Decode(h0, h1) == Some(Plain(CB_i, off + 4))
  {
    FieldsCB(Flag(nonzero), rn, off, h0);
    DecodesCB(off, h0, h1);
  }

  lemma LDMInverts(writeback: bool, rn: bv4, list: bv16, h0: bv16, h1: bv16)
    requires list < 0x8000 && (h0, h1) == EncodeLDMPc(writeback, rn, list)
    ensures Decode(h0, h1) == Some(WithReg(if writeback && rn == 13 then POP_pc else LDM_pc, rn, ListBytes(list)))
  {
    DecodesLDM(Flag(writeback), rn, list, h0, h1);
  }

  lemma LDRImm8Inverts(rn: bv4, index: bool, add: bool, writeback: bool, imm8: bv16, h0: bv16, h1: bv16)
    requires rn != 15 && imm8 <= 0xff && (h0, h1) == EncodeLDRImm8(rn, index, add, writeback, imm8)
    ensures Decode(h0, h1)
         == Some(WithReg(LDR_pc, rn, if !index then 0 else if add then imm8 as bv32 else -(imm8 as bv32)))
  {
    FieldsLDRImm8(Flag(index), Flag(add), Flag(writeback), imm8, h1);
    DecodesLDRImm8(rn, imm8, h0, h1);
  }
}
