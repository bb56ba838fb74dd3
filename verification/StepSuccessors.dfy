/** The architecture's own next instruction, and that a step stops there. */
module Successors {
  import opened ArmTypes
  import opened Common
  import opened SingleStep
  import Arm
  import Thumb

  // ---------------------------------------------------------------------------
  // Conditions
  // ---------------------------------------------------------------------------

  /** The condition flags. */
  datatype Flags = Flags(n: bool, z: bool, c: bool, v: bool)

  /** ConditionPassed of the architecture. */
  predicate Holds(cond: bv4, f: Flags) {
    if cond == 0 then f.z
    else if cond == 1 then !f.z
    else if cond == 2 then f.c
    else if cond == 3 then !f.c
    else if cond == 4 then f.n
    else if cond == 5 then !f.n
    else if cond == 6 then f.v
    else if cond == 7 then !f.v
    else if cond == 8 then f.c && !f.z
    else if cond == 9 then !(f.c && !f.z)
    else if cond == 10 then f.n == f.v
    else if cond == 11 then f.n != f.v
    else if cond == 12 then !f.z && f.n == f.v
    else if cond == 13 then !(!f.z && f.n == f.v)
    else true
  }

  // ---------------------------------------------------------------------------
  // Thumb
  // ---------------------------------------------------------------------------

  /** The Thumb instructions covered. `Plain` is any 16-bit instruction of the classes
      that cannot write pc. */
  datatype ThumbInsn =
    | BccN(cond: bv4, off: bv32)
    | BccW(cond: bv4, off: bv32)
    | BN(off: bv32)
    | BW(off: bv32)
    | BL(off: bv32)
    | BLX(off: bv32)
    | CB(nonzero: bool, rn: bv4, off: bv32)
    | BX(rm: bv4)
    | BLXr(rm: bv4)
    | MOVpc(rm: bv4)
    | POPpc(list: bv16)
    | LDMpc(writeback: bool, rn: bv4, list: bv16)
    | LDRImm12(rn: bv4, imm12: bv16)
    | LDRImm8(rn: bv4, index: bool, add: bool, writeback: bool, imm8: bv16)
    | LDRReg(rn: bv4, rm: bv4, shift: bv16)
    | TableB(rn: bv4, rm: bv4)
    | TableH(rn: bv4, rm: bv4)
    | Plain(h: bv16)

  /** Shift, add, subtract, move, compare, data processing on low registers, loads and
      stores of low registers, address generation, and multiple loads and stores of low
      registers. */
  predicate CannotBranch(h: bv16) {
    h & 0xc000 == 0 || h & 0xfc00 == 0x4000 || h & 0xf800 == 0x4800 || h & 0xf000 == 0x5000
    || h & 0xe000 == 0x6000 || h & 0xe000 == 0x8000 || h & 0xf000 == 0xa000 || (h & 0xf000 == 0xc000 && h & 0xff != 0)
  }

  // For each form: the fields are in range and the instruction is defined, predictable
  // and not another one, and the halfwords are its encoding. Loads relative to pc are
  // left out.

  predicate Listed(list: bv16, r: bv4) {
    InList(list, r as nat)
  }

  predicate IsBccN(cond: bv4, off: bv32, h0: bv16, h1: bv16) {
    cond < 14 && Thumb.Fits9(off) && off & 1 == 0 && h0 == Thumb.EncodeBccN(cond, off)
  }

  predicate IsBccW(cond: bv4, off: bv32, h0: bv16, h1: bv16) {
    cond < 14 && Thumb.Fits21(off) && off & 1 == 0 && (h0, h1) == Thumb.EncodeBccW(cond, off)
  }

  predicate IsBN(off: bv32, h0: bv16, h1: bv16) {
    Thumb.Fits12(off) && off & 1 == 0 && h0 == Thumb.EncodeBN(off)
  }

  predicate IsBW(off: bv32, h0: bv16, h1: bv16) {
    Thumb.Fits25(off) && off & 1 == 0 && (h0, h1) == Thumb.EncodeBW(off)
  }

  predicate IsBL(off: bv32, h0: bv16, h1: bv16) {
    Thumb.Fits25(off) && off & 1 == 0 && (h0, h1) == Thumb.EncodeBL(off)
  }

  predicate IsBLX(off: bv32, h0: bv16, h1: bv16) {
    Thumb.Fits25(off) && off & 3 == 0 && (h0, h1) == Thumb.EncodeBLX(off)
  }

  predicate IsCB(nonzero: bool, rn: bv4, off: bv32, h0: bv16, h1: bv16) {
    rn < 8 && off <= 126 && off & 1 == 0 && h0 == Thumb.EncodeCB(nonzero, rn, off)
  }

  predicate IsBX(rm: bv4, h0: bv16, h1: bv16) {
    h0 == Thumb.EncodeBX(rm)
  }

  predicate IsBLXr(rm: bv4, h0: bv16, h1: bv16) {
    rm != 15 && h0 == Thumb.EncodeBLXReg(rm)
  }

  predicate IsMOVpc(rm: bv4, h0: bv16, h1: bv16) {
    h0 == Thumb.EncodeMOVPc(rm)
  }

  predicate IsPOPpc(list: bv16, h0: bv16, h1: bv16) {
    list <= 0xff && h0 == Thumb.EncodePOPPc(list)
  }

  predicate IsLDMpc(writeback: bool, rn: bv4, list: bv16, h0: bv16, h1: bv16) {
    rn != 15 && list < 0x2000 && list != 0 && (writeback ==> !Listed(list, rn)) && (h0, h1) == Thumb.EncodeLDMPc(writeback, rn, list)
  }

  predicate IsLDRImm12(rn: bv4, imm12: bv16, h0: bv16, h1: bv16) {
    rn != 15 && imm12 <= 0xfff && (h0, h1) == Thumb.EncodeLDRImm12(rn, imm12)
  }

  predicate IsLDRImm8(rn: bv4, index: bool, add: bool, writeback: bool, imm8: bv16, h0: bv16, h1: bv16) {
    rn != 15 && imm8 <= 0xff && (writeback || (index && !add)) && (h0, h1) == Thumb.EncodeLDRImm8(rn, index, add, writeback, imm8)
  }

  predicate IsLDRReg(rn: bv4, rm: bv4, shift: bv16, h0: bv16, h1: bv16) {
    rn != 15 && rm != 13 && rm != 15 && shift <= 3 && (h0, h1) == Thumb.EncodeLDRReg(rn, rm, shift)
  }

  predicate IsTableB(rn: bv4, rm: bv4, h0: bv16, h1: bv16) {
    rn != 13 && rm != 13 && rm != 15 && (h0, h1) == Thumb.EncodeTBB(rn, rm)
  }

  predicate IsTableH(rn: bv4, rm: bv4, h0: bv16, h1: bv16) {
    rn != 13 && rm != 13 && rm != 15 && (h0, h1) == Thumb.EncodeTBH(rn, rm)
  }

  predicate IsPlain(h: bv16, h0: bv16, h1: bv16) {
    CannotBranch(h) && h0 == h
  }

  /** The halfwords of the instruction; after a short one any may follow. */
  predicate Encodes(i: ThumbInsn, h0: bv16, h1: bv16) {
    match i
    case BccN(cond, off) => IsBccN(cond, off, h0, h1)
    case BccW(cond, off) => IsBccW(cond, off, h0, h1)
    case BN(off) => IsBN(off, h0, h1)
    case BW(off) => IsBW(off, h0, h1)
    case BL(off) => IsBL(off, h0, h1)
    case BLX(off) => IsBLX(off, h0, h1)
    case CB(nonzero, rn, off) => IsCB(nonzero, rn, off, h0, h1)
    case BX(rm) => IsBX(rm, h0, h1)
    case BLXr(rm) => IsBLXr(rm, h0, h1)
    case MOVpc(rm) => IsMOVpc(rm, h0, h1)
    case POPpc(list) => IsPOPpc(list, h0, h1)
    case LDMpc(writeback, rn, list) => IsLDMpc(writeback, rn, list, h0, h1)
    case LDRImm12(rn, imm12) => IsLDRImm12(rn, imm12, h0, h1)
    case LDRImm8(rn, index, add, writeback, imm8) => IsLDRImm8(rn, index, add, writeback, imm8, h0, h1)
    case LDRReg(rn, rm, shift) => IsLDRReg(rn, rm, shift, h0, h1)
    case TableB(rn, rm) => IsTableB(rn, rm, h0, h1)
    case TableH(rn, rm) => IsTableH(rn, rm, h0, h1)
    case Plain(h) => IsPlain(h, h0, h1)
  }

  function Branching(taken: bool, pc: bv32, off: bv32, size: bv32): Option<Next> {
    Some(Next(if taken then pc + 4 + off else Plus(pc, size), true))
  }

  function Exchanging(pc: bv32, off: bv32): Option<Next> {
    Some(Next(Plus((pc + 4) & 0xffff_fffc, off), false))
  }

  /** Whether CBZ, or CBNZ, branches. */
  predicate Tests(nonzero: bool, x: bv32) {
    (x == 0) != nonzero
  }

  /** A register as an instruction reads it: r15 is pc plus 4. */
  function ReadThumb(regs: Registers, pc: bv32, r: bv4): bv32 {
    if r == 15 then pc + 4 else regs(r)
  }

  function Moving(x: bv32): Option<Next> {
    Some(Next(x & 0xffff_fffe, true))
  }

  function Less(x: bv32, y: bv32): bv32 {
    x - y
  }

  /** A word for each of n registers. */
  function Words(n: nat): bv32 {
    if n == 0 then 0 else Words(n - 1) + 4
  }

  /** pc lies above the other words of the list. */
  function PCWord(base: bv32, list: bv16): bv32 {
    Plus(base, Words(|ListSet(list)|))
  }

  /** A left shift of at most three places, as a multiple. */
  function Multiple(x: bv32, shift: bv16): bv32 {
    if shift == 0 then x else if shift == 1 then 2 * x else if shift == 2 then 4 * x else 8 * x
  }

  function LeftShift(x: bv32, n: bv32): bv32 {
    if n <= 31 then x << n else 0
  }

  /** Eight bits rotated right by 2n: from n = 4 on they only move to bit 32 - 2n. */
  function Rotated(x: bv32, n: bv32): bv32 {
    if n == 0 then x
    else if n == 1 then (x >> 2) | (x << 30)
    else if n == 2 then (x >> 4) | (x << 28)
    else if n == 3 then (x >> 6) | (x << 26)
    else LeftShift(x, 32 - (n + n))
  }

  /** A modified constant: eight bits, rotated right by twice the other four. */
  function Constant(imm12: bv32): bv32 {
    Rotated(imm12 & 0xff, (imm12 >> 8) & 0xf)
  }

  /** The word at an address, loaded into pc; at an unaligned one that is unpredictable. */
  function LoadWritePC(m: Memory, a: bv32): Option<Next> {
    match ReadWord(m, a)
    case Some(w) => if a & 3 == 0 then BXWritePC(w) else None
    case None => None
  }

  function Widen(x: bv16): bv32 {
    x as bv32
  }

  function ByteEntry(m: Memory, regs: Registers, pc: bv32, rn: bv4, rm: bv4): Option<bv8> {
    ReadByte(m, Plus(TableBase(regs, pc, rn), regs(rm)))
  }

  function HalfEntry(m: Memory, regs: Registers, pc: bv32, rn: bv4, rm: bv4): Option<bv16> {
    ReadHalf(m, Plus(TableBase(regs, pc, rn), regs(rm) << 1))
  }

  function ByteTable(pc: bv32, entry: Option<bv8>): Option<Next> {
    match entry
    case Some(e) => Some(Next(Plus(pc + 4, (e as bv32) << 1), true))
    case None => None
  }

  function HalfTable(pc: bv32, entry: Option<bv16>): Option<Next> {
    match entry
    case Some(e) => Some(Next(Plus(pc + 4, (e as bv32) << 1), true))
    case None => None
  }

  function Following(pc: bv32): Option<Next> {
    Some(Next(Plus(pc, 2), true))
  }

  /** Where the instruction goes; None when a load fails or the target is unpredictable. */
  function ThumbNext(i: ThumbInsn, regs: Registers, f: Flags, m: Memory, pc: bv32): Option<Next> {
    match i
    case BccN(cond, off) => Branching(Holds(cond, f), pc, off, 2)
    case BccW(cond, off) => Branching(Holds(cond, f), pc, off, 4)
    case BN(off) => Branching(true, pc, off, 2)
    case BW(off) => Branching(true, pc, off, 4)
    case BL(off) => Branching(true, pc, off, 4)
    case BLX(off) => Exchanging(pc, off)
    case CB(nonzero, rn, off) => Branching(Tests(nonzero, regs(rn)), pc, off, 2)
    case BX(rm) => BXWritePC(ReadThumb(regs, pc, rm))
    case BLXr(rm) => BXWritePC(ReadThumb(regs, pc, rm))
    case MOVpc(rm) => Moving(ReadThumb(regs, pc, rm))
    case POPpc(list) => LoadWritePC(m, PCWord(regs(13), list))
    case LDMpc(_, rn, list) => LoadWritePC(m, PCWord(regs(rn), list))
    case LDRImm12(rn, imm12) => LoadWritePC(m, Plus(regs(rn), Widen(imm12)))
    case LDRImm8(rn, index, add, _, imm8) => LoadWritePC(m, Plus(regs(rn), Indexed(index, add, Widen(imm8))))
    case LDRReg(rn, rm, shift) => LoadWritePC(m, Plus(regs(rn), Multiple(regs(rm), shift)))
    case TableB(rn, rm) => ByteTable(pc, ByteEntry(m, regs, pc, rn, rm))
    case TableH(rn, rm) => HalfTable(pc, HalfEntry(m, regs, pc, rn, rm))
    case Plain(_) => Following(pc)
  }

  predicate IsEven(x: bv32) {
    x & 1 == 0
  }

  predicate TopSet(entry: Option<bv16>) {
    entry.Some? && entry.value >= 0x8000
  }

  /** The instructions the plan gets wrong: BX and MOV from pc, MOV of an even address,
      and a halfword table entry with its top bit set. */
  predicate Missed(i: ThumbInsn, regs: Registers, m: Memory, pc: bv32) {
    match i
    case BX(rm) => rm == 15
    case MOVpc(rm) => rm == 15 || IsEven(regs(rm))
    case TableH(rn, rm) => TopSet(HalfEntry(m, regs, pc, rn, rm))
    case _ => false
  }

  /** A breakpoint for n is among those asked for. */
  predicate Covers(o: Outcome, n: Next) {
    o.Planned? && At(n) in Placed(o.plan)
  }

  lemma OneCovers(o: Outcome, n: Next)
    requires StopsAt(o, n)
    ensures Covers(o, n)
  {
  }

  lemma BothCovered(o: Outcome, n: Next, other: Next)
    requires StopsAtEither(o, n, other)
    ensures Covers(o, n) && Covers(o, other)
  {
  }

  lemma OnlyOneCovers(o: Outcome, n: Next, other: Next)
    requires StopsAt(o, n)
    ensures Covers(o, other) <==> n == other
  {
  }

  /** What every case starts from. */
  predicate Fetched(regs: Registers, m: Memory, pc: bv32, h0: bv16, h1: bv16) {
    pc & 1 == 0 && regs(15) == pc && Fetch(m, pc) == Some((h0, h1))
  }

  lemma CoverBccN(regs: Registers, m: Memory, pc: bv32, cond: bv4, off: bv32, taken: bool, h0: bv16, h1: bv16)
    requires Fetched(regs, m, pc, h0, h1) && IsBccN(cond, off, h0, h1)
    ensures Covers(ThumbPlan(m, regs, pc), Branching(taken, pc, off, 2).value)
  {
    BccNCovered(m, regs, pc, cond, off, h0, h1);
    Targets(pc, off);
    BothCovered(ThumbPlan(m, regs, pc), Next(pc + 4 + off, true), Next(pc + 2, true));
  }

  lemma CoverBccW(regs: Registers, m: Memory, pc: bv32, cond: bv4, off: bv32, taken: bool, h0: bv16, h1: bv16)
    requires Fetched(regs, m, pc, h0, h1) && IsBccW(cond, off, h0, h1)
    ensures Covers(ThumbPlan(m, regs, pc), Branching(taken, pc, off, 4).value)
  {
    BccWCovered(m, regs, pc, cond, off, h0, h1);
    Targets(pc, off);
    BothCovered(ThumbPlan(m, regs, pc), Next(pc + 4 + off, true), Next(pc + 4, true));
  }

  lemma CoverCB(regs: Registers, m: Memory, pc: bv32, nonzero: bool, rn: bv4, off: bv32, taken: bool, h0: bv16, h1: bv16)
    requires Fetched(regs, m, pc, h0, h1) && IsCB(nonzero, rn, off, h0, h1)
    ensures Covers(ThumbPlan(m, regs, pc), Branching(taken, pc, off, 2).value)
  {
    CBCovered(m, regs, pc, nonzero, rn, off, h0, h1);
    Targets(pc, off);
    BothCovered(ThumbPlan(m, regs, pc), Next(pc + 4 + off, true), Next(pc + 2, true));
  }

  lemma CoverBN(regs: Registers, m: Memory, pc: bv32, off: bv32, h0: bv16, h1: bv16)
    requires Fetched(regs, m, pc, h0, h1) && IsBN(off, h0, h1)
    ensures Covers(ThumbPlan(m, regs, pc), Branching(true, pc, off, 2).value)
  {
    BNCovered(m, regs, pc, off, h0, h1);
    OneCovers(ThumbPlan(m, regs, pc), Next(pc + 4 + off, true));
  }

  lemma CoverBW(regs: Registers, m: Memory, pc: bv32, off: bv32, h0: bv16, h1: bv16)
    requires Fetched(regs, m, pc, h0, h1) && IsBW(off, h0, h1)
    ensures Covers(ThumbPlan(m, regs, pc), Branching(true, pc, off, 4).value)
  {
    BWCovered(m, regs, pc, off, h0, h1);
    OneCovers(ThumbPlan(m, regs, pc), Next(pc + 4 + off, true));
  }

  lemma CoverBL(regs: Registers, m: Memory, pc: bv32, off: bv32, h0: bv16, h1: bv16)
    requires Fetched(regs, m, pc, h0, h1) && IsBL(off, h0, h1)
    ensures Covers(ThumbPlan(m, regs, pc), Branching(true, pc, off, 4).value)
  {
    BLCovered(m, regs, pc, off, h0, h1);
    BothCovered(ThumbPlan(m, regs, pc), Next(pc + 4 + off, true), Next(pc + 4, true));
  }

  lemma CoverBLX(regs: Registers, m: Memory, pc: bv32, off: bv32, h0: bv16, h1: bv16)
    requires Fetched(regs, m, pc, h0, h1) && IsBLX(off, h0, h1)
    ensures Covers(ThumbPlan(m, regs, pc), Exchanging(pc, off).value)
  {
    BLXCovered(m, regs, pc, off, h0, h1);
    BothCovered(ThumbPlan(m, regs, pc), Exchanging(pc, off).value, Next(pc + 4, true));
  }

  lemma CoverBX(regs: Registers, m: Memory, pc: bv32, rm: bv4, n: Next, h0: bv16, h1: bv16)
    requires Fetched(regs, m, pc, h0, h1) && IsBX(rm, h0, h1) && BXWritePC(ReadThumb(regs, pc, rm)) == Some(n)
    ensures Covers(ThumbPlan(m, regs, pc), n) <==> rm != 15
  {
    BXCovered(m, regs, pc, rm, n, h0, h1);
    if rm == 15 {
      BXPcPlan(m, regs, pc, h0, h1);
      NotTheSame(pc);
      OnlyOneCovers(ThumbPlan(m, regs, pc), Next(pc, false), n);
    } else {
      OneCovers(ThumbPlan(m, regs, pc), n);
    }
  }

  lemma CoverBLXr(regs: Registers, m: Memory, pc: bv32, rm: bv4, n: Next, h0: bv16, h1: bv16)
    requires Fetched(regs, m, pc, h0, h1) && IsBLXr(rm, h0, h1) && BXWritePC(ReadThumb(regs, pc, rm)) == Some(n)
    ensures Covers(ThumbPlan(m, regs, pc), n)
  {
    BLXrCovered(m, regs, pc, rm, n, h0, h1);
    BothCovered(ThumbPlan(m, regs, pc), n, Next(pc + 2, true));
  }

  lemma MovedOnce(o: Outcome, w: bv32)
    requires StopsAt(o, Next(Even(w), Odd(w)))
    ensures Covers(o, Moving(w).value) <==> Odd(w)
  {
    OnlyOneCovers(o, Next(Even(w), Odd(w)), Next(Even(w), true));
  }

  lemma CoverMOV(regs: Registers, m: Memory, pc: bv32, rm: bv4, w: bv32, h0: bv16, h1: bv16)
    requires Fetched(regs, m, pc, h0, h1) && IsMOVpc(rm, h0, h1) && rm != 15 && regs(rm) == w
    ensures Covers(ThumbPlan(m, regs, pc), Moving(w).value) <==> Odd(w)
  {
    ClearLow(w);
    MOVPlan(m, regs, pc, rm, w, Even(w), h0, h1);
    MovedOnce(ThumbPlan(m, regs, pc), w);
  }

  lemma CoverMOVPc(regs: Registers, m: Memory, pc: bv32, w: bv32, h0: bv16, h1: bv16)
    requires Fetched(regs, m, pc, h0, h1) && IsMOVpc(15, h0, h1)
    ensures !Covers(ThumbPlan(m, regs, pc), Moving(w).value)
  {
    ClearLow(pc);
    MOVPlan(m, regs, pc, 15, pc, pc, h0, h1);
    OnlyOneCovers(ThumbPlan(m, regs, pc), Next(pc, false), Moving(w).value);
  }

  lemma CoverPOPpc(regs: Registers, m: Memory, pc: bv32, list: bv16, w: bv32, n: Next, h0: bv16, h1: bv16)
    requires Fetched(regs, m, pc, h0, h1) && IsPOPpc(list, h0, h1)
    requires ReadWord(m, Plus(regs(13), ListBytes(list))) == Some(w) && BXWritePC(w) == Some(n)
    ensures Covers(ThumbPlan(m, regs, pc), n)
  {
    POPCovered(m, regs, pc, list, w, n, h0, h1);
    OneCovers(ThumbPlan(m, regs, pc), n);
  }

  lemma CoverLDMpc(regs: Registers, m: Memory, pc: bv32, writeback: bool, rn: bv4, list: bv16, w: bv32, n: Next, h0: bv16, h1: bv16)
    requires Fetched(regs, m, pc, h0, h1) && IsLDMpc(writeback, rn, list, h0, h1)
    requires ReadWord(m, Plus(regs(rn), ListBytes(list))) == Some(w) && BXWritePC(w) == Some(n)
    ensures Covers(ThumbPlan(m, regs, pc), n)
  {
    LDMCovered(m, regs, pc, writeback, rn, list, w, n, h0, h1);
    OneCovers(ThumbPlan(m, regs, pc), n);
  }

  lemma CoverLDRImm12(regs: Registers, m: Memory, pc: bv32, rn: bv4, imm12: bv16, w: bv32, n: Next, h0: bv16, h1: bv16)
    requires Fetched(regs, m, pc, h0, h1) && IsLDRImm12(rn, imm12, h0, h1)
    requires ReadWord(m, Plus(regs(rn), Widen(imm12))) == Some(w) && BXWritePC(w) == Some(n)
    ensures Covers(ThumbPlan(m, regs, pc), n)
  {
    LDRImm12Covered(m, regs, pc, rn, imm12, w, n, h0, h1);
    OneCovers(ThumbPlan(m, regs, pc), n);
  }

  lemma CoverLDRImm8(regs: Registers, m: Memory, pc: bv32, rn: bv4, index: bool, add: bool, writeback: bool, imm8: bv16, w: bv32, n: Next, h0: bv16, h1: bv16)
    requires Fetched(regs, m, pc, h0, h1) && IsLDRImm8(rn, index, add, writeback, imm8, h0, h1)
    requires ReadWord(m, Plus(regs(rn), Indexed(index, add, Widen(imm8)))) == Some(w) && BXWritePC(w) == Some(n)
    ensures Covers(ThumbPlan(m, regs, pc), n)
  {
    LDRImm8Covered(m, regs, pc, rn, index, add, writeback, imm8, w, n, h0, h1);
    OneCovers(ThumbPlan(m, regs, pc), n);
  }

  lemma CoverLDRReg(regs: Registers, m: Memory, pc: bv32, rn: bv4, rm: bv4, shift: bv16, w: bv32, n: Next, h0: bv16, h1: bv16)
    requires Fetched(regs, m, pc, h0, h1) && IsLDRReg(rn, rm, shift, h0, h1)
    requires ReadWord(m, Plus(regs(rn), ShiftLeft(regs(rm), Widen(shift)))) == Some(w) && BXWritePC(w) == Some(n)
    ensures Covers(ThumbPlan(m, regs, pc), n)
  {
    LDRRegCovered(m, regs, pc, rn, rm, shift, w, n, h0, h1);
    OneCovers(ThumbPlan(m, regs, pc), n);
  }

  lemma CoverTableB(regs: Registers, m: Memory, pc: bv32, rn: bv4, rm: bv4, entry: bv8, offset: bv32, h0: bv16, h1: bv16)
    requires Fetched(regs, m, pc, h0, h1) && IsTableB(rn, rm, h0, h1) && ByteEntry(m, regs, pc, rn, rm) == Some(entry)
    requires offset == (entry as bv32) << 1
    ensures Covers(ThumbPlan(m, regs, pc), Next(Plus(pc + 4, offset), true))
  {
    TBBCovered(m, regs, pc, rn, rm, entry, offset, h0, h1);
    OneCovers(ThumbPlan(m, regs, pc), Next(Plus(pc + 4, offset), true));
  }

  lemma TableOnce(o: Outcome, pc: bv32, read: bv32, offset: bv32)
    requires StopsAt(o, Next(Plus(pc + 4, read), true))
    ensures Covers(o, Next(Plus(pc + 4, offset), true)) <==> read == offset
  {
    if read != offset {
      Cancel(pc + 4, read, offset);
    }
    OnlyOneCovers(o, Next(Plus(pc + 4, read), true), Next(Plus(pc + 4, offset), true));
  }

  lemma PlainMasks(h: bv16)
    requires CannotBranch(h)
    ensures h & 0xf000 != 0xb000 && h & 0xf000 != 0xd000 && h & 0xf000 != 0xe000 && h & 0xf000 != 0xf000 && h & 0xfc00 != 0x4400
  {
  }

  lemma PlainIsShort(h: bv16)
    requires h & 0xf000 != 0xb000 && h & 0xf000 != 0xe000 && h & 0xf000 != 0xf000
    ensures !IsIT(h) && Thumb.InstSize(h) == 2
  {
  }

  lemma PlainPatterns(h: bv16)
    requires h & 0xf000 != 0xb000 && h & 0xf000 != 0xe000 && h & 0xf000 != 0xf000 && h & 0xfc00 != 0x4400
    ensures h & 0xf800 != 0xe000 && h & 0xf800 != 0xf000 && h & 0xff80 != 0x4780 && h & 0xff80 != 0x4700
    ensures h & 0xff87 != 0x4687 && h & 0xff00 != 0xbd00 && h & 0xf500 != 0xb100 && h != 0xf3de
    ensures h & 0xfff0 != 0xf8d0 && h & 0xff7f != 0xf85f && h & 0xfff0 != 0xf850 && h & 0xffd0 != 0xe890 && h & 0xfff0 != 0xe8d0
  {
  }

  lemma PlainIsNotShort(h: bv16)
    requires h & 0xf800 != 0xe000 && h & 0xf000 != 0xd000 && h & 0xff80 != 0x4780 && h & 0xff80 != 0x4700
    requires h & 0xff87 != 0x4687 && h & 0xff00 != 0xbd00 && h & 0xf500 != 0xb100
    ensures Thumb.NoShort(h)
  {
  }

  lemma PlainIsNoLoad(h: bv16, h1: bv16)
    requires h & 0xfff0 != 0xf8d0 && h & 0xff7f != 0xf85f && h & 0xfff0 != 0xf850 && h & 0xffd0 != 0xe890
    ensures Thumb.NoLoad(h, h1)
  {
  }

  lemma PlainIsNoTable(h: bv16, h1: bv16)
    requires h != 0xf3de && h & 0xfff0 != 0xe8d0
    ensures Thumb.GetSUBS_pc_lr(h, h1).None? && Thumb.GetTBB(h, h1).None? && Thumb.GetTBH(h, h1).None?
  {
  }

  lemma PlainIsNotLong(h: bv16, h1: bv16)
    requires h & 0xf800 != 0xf000
    ensures Thumb.GetBL(h, h1).None? && Thumb.GetB_W(h, h1).None? && Thumb.GetBcc_W(h, h1).None? && Thumb.GetBLX_i(h, h1).None?
  {
  }

  /** No decoder claims such a halfword, whatever follows it. */
  lemma PlainIsUnclaimed(h: bv16, h1: bv16)
    requires CannotBranch(h)
    ensures Thumb.Decode(h, h1) == None
  {
    PlainMasks(h);
    PlainPatterns(h);
    PlainIsNotShort(h);
    PlainIsNoLoad(h, h1);
    PlainIsNoTable(h, h1);
    PlainIsNotLong(h, h1);
  }

  lemma CoverPlain(regs: Registers, m: Memory, pc: bv32, h: bv16, h0: bv16, h1: bv16)
    requires Fetched(regs, m, pc, h0, h1) && IsPlain(h, h0, h1)
    ensures Covers(ThumbPlan(m, regs, pc), Following(pc).value)
  {
    PlainMasks(h0);
    PlainIsShort(h0);
    PlainIsUnclaimed(h0, h1);
    StraightCovered(m, regs, pc, h0, h1);
    OneCovers(ThumbPlan(m, regs, pc), Next(Plus(pc, 2), true));
  }

  lemma LoadedFrom(m: Memory, a: bv32, n: Next) returns (w: bv32)
    requires LoadWritePC(m, a) == Some(n)
    ensures ReadWord(m, a) == Some(w) && BXWritePC(w) == Some(n)
  {
    w := ReadWord(m, a).value;
  }

  // The planner's arithmetic is the architecture's.

  lemma PCWordIs(base: bv32, list: bv16)
    ensures PCWord(base, list) == Plus(base, ListBytes(list))
  {
    PopCountIs(list);
    ListBytesAre(list, PopCount(list));
  }

  lemma FourMore(x: bv32)
    requires x <= 60
    ensures (x + 4) as nat == x as nat + 4
  {
  }

  lemma StaysSmall(x: bv32)
    requires x as nat <= 60
    ensures x <= 60
  {
  }

  lemma {:induction false} WordsValue(n: nat)
    requires n <= 16
    ensures Words(n) as nat == n * 4
  {
    if n > 0 {
      WordsValue(n - 1);
      StaysSmall(Words(n - 1));
      FourMore(Words(n - 1));
    }
  }

  lemma ValueBack(w: bv32, k: nat)
    requires w as nat == k <= 64
    ensures w == k as bv32
  {
  }

  lemma WordsAre(n: nat)
    requires n <= 16
    ensures Words(n) == (n * 4) as bv32
  {
    WordsValue(n);
    ValueBack(Words(n), n * 4);
  }

  lemma ListBytesAre(list: bv16, n: nat)
    requires n == PopCount(list)
    ensures ListBytes(list) == Words(n)
  {
    WordsAre(n);
  }

  lemma Doubled(x: bv32)
    ensures 2 * x == x << 1 && 4 * x == x << 2 && 8 * x == x << 3
  {
  }

  lemma SameCount(shift: bv16, n: bv32)
    requires shift <= 3 && n == shift as bv32
    ensures (n == 0 <==> shift == 0) && (n == 1 <==> shift == 1) && (n == 2 <==> shift == 2)
  {
  }

  lemma MultipleIs(x: bv32, shift: bv16, n: bv32)
    requires shift <= 3 && n == shift as bv32
    ensures Multiple(x, shift) == ShiftLeft(x, n)
  {
    Doubled(x);
    SameCount(shift, n);
  }

  lemma LeftShiftIs(x: bv32, n: bv32)
    requires n <= 31
    ensures LeftShift(x, n) == ShiftAny(x, n)
  {
  }

  lemma NoneWraps(x: bv32, b: bv32)
    requires x <= 0xff && 8 <= b <= 30
    ensures (x >> b) | (x << (32 - b)) == x << (32 - b)
  {
  }

  lemma MovesOnly(x: bv32, b: bv32)
    requires x <= 0xff && 8 <= b <= 30
    ensures Arm.RotateRight(x, b) == LeftShift(x, 32 - b)
  {
    NoneWraps(x, b);
  }

  lemma RotatedFar(x: bv32, n: bv32, b: bv32)
    requires x <= 0xff && 3 < n <= 15 && b == n + n && 8 <= b <= 30
    ensures Rotated(x, n) == Arm.RotateRight(x, b)
  {
    MovesOnly(x, b);
  }

  lemma RotatedNear(x: bv32)
    ensures Rotated(x, 0) == Arm.RotateRight(x, 0) && Rotated(x, 1) == Arm.RotateRight(x, 2)
    ensures Rotated(x, 2) == Arm.RotateRight(x, 4) && Rotated(x, 3) == Arm.RotateRight(x, 6)
  {
  }

  lemma DoubleCount(n: bv32, b: bv32)
    requires n <= 15 && b == n << 1
    ensures b == n + n && b <= 30 && (n > 3 ==> b >= 8) && (n <= 3 ==> n == 0 || n == 1 || n == 2 || n == 3)
  {
  }

  lemma RotatedIs(x: bv32, n: bv32, b: bv32)
    requires n <= 15 && x <= 0xff && b == n << 1 && b <= 30
    ensures Rotated(x, n) == Arm.RotateRight(x, b)
  {
    DoubleCount(n, b);
    if n > 3 {
      RotatedFar(x, n, b);
    } else {
      RotatedNear(x);
    }
  }

  lemma ConstantFields(imm12: bv32, value: bv32, n: bv32, b: bv32)
    requires value == imm12 & 0xff && n == (imm12 >> 8) & 0xf && b == n << 1
    ensures value <= 0xff && n <= 15 && b <= 30
  {
  }

  lemma ConstantIs(imm12: bv32)
    ensures Constant(imm12) == Arm.ExpandImmediate(imm12)
  {
    var value, n := imm12 & 0xff, (imm12 >> 8) & 0xf;
    ConstantFields(imm12, value, n, n << 1);
    RotatedIs(value, n, n << 1);
  }

  lemma ReadsRegister(regs: Registers, pc: bv32, r: bv4)
    requires r != 15
    ensures ReadThumb(regs, pc, r) == regs(r)
  {
  }

  lemma MOVIsExact(regs: Registers, m: Memory, pc: bv32, rm: bv4, h0: bv16, h1: bv16)
    requires Fetched(regs, m, pc, h0, h1) && IsMOVpc(rm, h0, h1)
    ensures Covers(ThumbPlan(m, regs, pc), Moving(ReadThumb(regs, pc, rm)).value) <==> !(rm == 15 || IsEven(regs(rm)))
  {
    if rm == 15 {
      CoverMOVPc(regs, m, pc, ReadThumb(regs, pc, rm), h0, h1);
    } else {
      ReadsRegister(regs, pc, rm);
      CoverMOV(regs, m, pc, rm, regs(rm), h0, h1);
    }
  }

  lemma TableBIsExact(regs: Registers, m: Memory, pc: bv32, rn: bv4, rm: bv4, n: Next, h0: bv16, h1: bv16)
    requires Fetched(regs, m, pc, h0, h1) && IsTableB(rn, rm, h0, h1) && ByteTable(pc, ByteEntry(m, regs, pc, rn, rm)) == Some(n)
    ensures Covers(ThumbPlan(m, regs, pc), n)
  {
    var entry := ByteEntry(m, regs, pc, rn, rm).value;
    CoverTableB(regs, m, pc, rn, rm, entry, (entry as bv32) << 1, h0, h1);
  }

  lemma HalfNext(pc: bv32, entry: bv16, offset: bv32)
    requires offset == (entry as bv32) << 1
    ensures HalfTable(pc, Some(entry)) == Some(Next(Plus(pc + 4, offset), true))
  {
  }

  /** The entry as read and as meant, doubled. */
  lemma EntryValues(entry: bv16) returns (read: bv32, doubled: bv32, offset: bv32)
    ensures offset == (entry as bv32) << 1
    ensures read == Signed(entry) && doubled == read << 1 && (doubled == offset <==> entry < 0x8000)
  {
    read := Signed(entry);
    doubled := read << 1;
    offset := (entry as bv32) << 1;
    EntrySign(entry);
  }

  lemma EntryFacts(pc: bv32, entry: bv16) returns (read: bv32, doubled: bv32, offset: bv32)
    ensures HalfTable(pc, Some(entry)) == Some(Next(Plus(pc + 4, offset), true))
    ensures read == Signed(entry) && doubled == read << 1 && (doubled == offset <==> entry < 0x8000)
  {
    read, doubled, offset := EntryValues(entry);
    HalfNext(pc, entry, offset);
  }

  lemma TableHStops(regs: Registers, m: Memory, pc: bv32, rn: bv4, rm: bv4, entry: bv16, read: bv32, doubled: bv32, h0: bv16, h1: bv16)
    requires Fetched(regs, m, pc, h0, h1) && IsTableH(rn, rm, h0, h1) && HalfEntry(m, regs, pc, rn, rm) == Some(entry)
    requires read == Signed(entry) && doubled == read << 1
    ensures StopsAt(ThumbPlan(m, regs, pc), Next(Plus(pc + 4, doubled), true))
  {
    TBHPlan(m, regs, pc, rn, rm, entry, read, doubled, h0, h1);
  }

  /** Where a table branch stops, and where it should. */
  lemma TableHFacts(regs: Registers, m: Memory, pc: bv32, rn: bv4, rm: bv4, entry: bv16, h0: bv16, h1: bv16)
    returns (doubled: bv32, offset: bv32)
    requires Fetched(regs, m, pc, h0, h1) && IsTableH(rn, rm, h0, h1) && HalfEntry(m, regs, pc, rn, rm) == Some(entry)
    ensures StopsAt(ThumbPlan(m, regs, pc), Next(Plus(pc + 4, doubled), true))
    ensures HalfTable(pc, Some(entry)) == Some(Next(Plus(pc + 4, offset), true)) && (doubled == offset <==> entry < 0x8000)
  {
    var read;
    read, doubled, offset := EntryFacts(pc, entry);
    TableHStops(regs, m, pc, rn, rm, entry, read, doubled, h0, h1);
  }

  lemma TableHIsExact(regs: Registers, m: Memory, pc: bv32, rn: bv4, rm: bv4, n: Next, h0: bv16, h1: bv16)
    requires Fetched(regs, m, pc, h0, h1) && IsTableH(rn, rm, h0, h1) && HalfTable(pc, HalfEntry(m, regs, pc, rn, rm)) == Some(n)
    ensures Covers(ThumbPlan(m, regs, pc), n) <==> !TopSet(HalfEntry(m, regs, pc, rn, rm))
  {
    var entry := HalfEntry(m, regs, pc, rn, rm).value;
    var doubled, offset := TableHFacts(regs, m, pc, rn, rm, entry, h0, h1);
    TableOnce(ThumbPlan(m, regs, pc), pc, doubled, offset);
  }

  predicate IsLoad(i: ThumbInsn) {
    i.POPpc? || i.LDMpc? || i.LDRImm12? || i.LDRImm8? || i.LDRReg?
  }

  predicate IsConditional(i: ThumbInsn) {
    i.BccN? || i.BccW? || i.CB?
  }

  predicate IsDirect(i: ThumbInsn) {
    i.BN? || i.BW? || i.BL? || i.BLX?
  }

  lemma ConditionalCovers(i: ThumbInsn, regs: Registers, f: Flags, m: Memory, pc: bv32, h0: bv16, h1: bv16, n: Next)
    requires Fetched(regs, m, pc, h0, h1) && Encodes(i, h0, h1) && ThumbNext(i, regs, f, m, pc) == Some(n)
    requires IsConditional(i)
    ensures Covers(ThumbPlan(m, regs, pc), n)
  {
    match i
    case BccN(cond, off) => CoverBccN(regs, m, pc, cond, off, Holds(cond, f), h0, h1);
    case BccW(cond, off) => CoverBccW(regs, m, pc, cond, off, Holds(cond, f), h0, h1);
    case CB(nonzero, rn, off) => CoverCB(regs, m, pc, nonzero, rn, off, Tests(nonzero, regs(rn)), h0, h1);
  }

  lemma DirectCovers(i: ThumbInsn, regs: Registers, f: Flags, m: Memory, pc: bv32, h0: bv16, h1: bv16, n: Next)
    requires Fetched(regs, m, pc, h0, h1) && Encodes(i, h0, h1) && ThumbNext(i, regs, f, m, pc) == Some(n)
    requires IsDirect(i)
    ensures Covers(ThumbPlan(m, regs, pc), n)
  {
    match i
    case BN(off) => CoverBN(regs, m, pc, off, h0, h1);
    case BW(off) => CoverBW(regs, m, pc, off, h0, h1);
    case BL(off) => CoverBL(regs, m, pc, off, h0, h1);
    case BLX(off) => CoverBLX(regs, m, pc, off, h0, h1);
  }

  lemma LoadCovers(i: ThumbInsn, regs: Registers, f: Flags, m: Memory, pc: bv32, h0: bv16, h1: bv16, n: Next)
    requires Fetched(regs, m, pc, h0, h1) && Encodes(i, h0, h1) && ThumbNext(i, regs, f, m, pc) == Some(n)
    requires IsLoad(i)
    ensures Covers(ThumbPlan(m, regs, pc), n)
  {
    match i
    case POPpc(list) =>
      PCWordIs(regs(13), list);
      var w := LoadedFrom(m, Plus(regs(13), ListBytes(list)), n);
      CoverPOPpc(regs, m, pc, list, w, n, h0, h1);
    case LDMpc(writeback, rn, list) =>
      PCWordIs(regs(rn), list);
      var w := LoadedFrom(m, Plus(regs(rn), ListBytes(list)), n);
      CoverLDMpc(regs, m, pc, writeback, rn, list, w, n, h0, h1);
    case LDRImm12(rn, imm12) =>
      var w := LoadedFrom(m, Plus(regs(rn), Widen(imm12)), n);
      CoverLDRImm12(regs, m, pc, rn, imm12, w, n, h0, h1);
    case LDRImm8(rn, index, add, writeback, imm8) =>
      var w := LoadedFrom(m, Plus(regs(rn), Indexed(index, add, Widen(imm8))), n);
      CoverLDRImm8(regs, m, pc, rn, index, add, writeback, imm8, w, n, h0, h1);
    case LDRReg(rn, rm, shift) =>
      MultipleIs(regs(rm), shift, Widen(shift));
      var w := LoadedFrom(m, Plus(regs(rn), ShiftLeft(regs(rm), Widen(shift))), n);
      CoverLDRReg(regs, m, pc, rn, rm, shift, w, n, h0, h1);
  }

  lemma OthersCover(i: ThumbInsn, regs: Registers, f: Flags, m: Memory, pc: bv32, h0: bv16, h1: bv16, n: Next)
    requires Fetched(regs, m, pc, h0, h1) && Encodes(i, h0, h1) && ThumbNext(i, regs, f, m, pc) == Some(n)
    requires !IsConditional(i) && !IsDirect(i) && !IsLoad(i)
    ensures Covers(ThumbPlan(m, regs, pc), n) <==> !Missed(i, regs, m, pc)
  {
    match i
    case BX(rm) => CoverBX(regs, m, pc, rm, n, h0, h1);
    case BLXr(rm) => CoverBLXr(regs, m, pc, rm, n, h0, h1);
    case MOVpc(rm) => MOVIsExact(regs, m, pc, rm, h0, h1);
    case TableB(rn, rm) => TableBIsExact(regs, m, pc, rn, rm, n, h0, h1);
    case TableH(rn, rm) => TableHIsExact(regs, m, pc, rn, rm, n, h0, h1);
    case Plain(h) => CoverPlain(regs, m, pc, h, h0, h1);
  }

  lemma SimpleCovers(i: ThumbInsn, regs: Registers, f: Flags, m: Memory, pc: bv32, h0: bv16, h1: bv16, n: Next)
    requires Fetched(regs, m, pc, h0, h1) && Encodes(i, h0, h1) && ThumbNext(i, regs, f, m, pc) == Some(n)
    requires IsConditional(i) || IsDirect(i) || IsLoad(i)
    ensures Covers(ThumbPlan(m, regs, pc), n)
  {
    if IsConditional(i) {
      ConditionalCovers(i, regs, f, m, pc, h0, h1, n);
    } else if IsDirect(i) {
      DirectCovers(i, regs, f, m, pc, h0, h1, n);
    } else {
      LoadCovers(i, regs, f, m, pc, h0, h1, n);
    }
  }

  lemma SimpleIsNotMissed(i: ThumbInsn, regs: Registers, m: Memory, pc: bv32)
    requires IsConditional(i) || IsDirect(i) || IsLoad(i)
    ensures !Missed(i, regs, m, pc)
  {
  }

  /** The theorem for Thumb state: whatever the registers, flags and memory, the
      architecture's next instruction is among the breakpoints asked for, with the size
      that tells its state, exactly when the instruction is not one of those missed. */
  lemma ThumbStepCovers(i: ThumbInsn, regs: Registers, f: Flags, m: Memory, pc: bv32, h0: bv16, h1: bv16, n: Next)
    requires Fetched(regs, m, pc, h0, h1) && Encodes(i, h0, h1) && ThumbNext(i, regs, f, m, pc) == Some(n)
    ensures Covers(ThumbPlan(m, regs, pc), n) <==> !Missed(i, regs, m, pc)
  {
    if IsConditional(i) || IsDirect(i) || IsLoad(i) {
      SimpleCovers(i, regs, f, m, pc, h0, h1, n);
      SimpleIsNotMissed(i, regs, m, pc);
    } else {
      OthersCover(i, regs, f, m, pc, h0, h1, n);
    }
  }

  // ---------------------------------------------------------------------------
  // ARM
  // ---------------------------------------------------------------------------

  /** The ARM instructions covered. `ARMPlain` is data processing, or a load or store of
      a word or byte, with another destination than pc. */
  datatype ARMInsn =
    | ARMB(cond: bv4, link: bv32, off: bv32)
    | ARMBLX(off: bv32)
    | ARMBX(cond: bv4, link: bv32, rm: bv4)
    | ARMMOV(cond: bv4, rm: bv4)
    | ARMSUB(cond: bv4, rn: bv4, imm12: bv32)
    | ARMLDR(cond: bv4, index: bv32, add: bv32, writeback: bv32, rn: bv4, imm12: bv32)
    | ARMLDRReg(cond: bv4, writeback: bv32, rn: bv4, rm: bv4, imm5: bv32)
    | ARMLDM(cond: bv4, writeback: bv32, rn: bv4, list: bv16)
    | ARMPlain(word: bv32)

  predicate IsARMB(cond: bv4, link: bv32, off: bv32, insn: bv32) {
    cond != 15 && link <= 1 && Arm.Fits26(off) && off & 3 == 0 && insn == Arm.EncodeB(cond, link, off)
  }

  predicate IsARMBLX(off: bv32, insn: bv32) {
    Arm.Fits26(off) && off & 1 == 0 && insn == Arm.EncodeBLX(off)
  }

  predicate IsARMBX(cond: bv4, link: bv32, rm: bv4, insn: bv32) {
    cond != 15 && link <= 1 && rm != 15 && insn == Arm.EncodeBX(cond, link, rm)
  }

  predicate IsARMMOV(cond: bv4, rm: bv4, insn: bv32) {
    cond != 15 && rm != 15 && insn == Arm.EncodeMOV(cond, rm)
  }

  predicate IsARMSUB(cond: bv4, rn: bv4, imm12: bv32, insn: bv32) {
    cond != 15 && rn != 15 && imm12 <= 0xfff && insn == Arm.EncodeSUB(cond, rn, imm12)
  }

  predicate IsARMLDR(cond: bv4, index: bv32, add: bv32, writeback: bv32, rn: bv4, imm12: bv32, insn: bv32) {
    && cond != 15 && rn != 15 && index <= 1 && add <= 1 && writeback <= index && imm12 <= 0xfff
    && insn == Arm.EncodeLDR(cond, index, add, writeback, rn, imm12)
  }

  predicate IsARMLDRReg(cond: bv4, writeback: bv32, rn: bv4, rm: bv4, imm5: bv32, insn: bv32) {
    && cond != 15 && rn != 15 && rm != 15 && writeback <= 1 && imm5 <= 31
    && insn == Arm.EncodeLDRReg(cond, writeback, rn, rm, imm5)
  }

  predicate IsARMLDM(cond: bv4, writeback: bv32, rn: bv4, list: bv16, insn: bv32) {
    && cond != 15 && rn != 15 && writeback <= 1 && list < 0x8000 && (writeback == 1 ==> !Listed(list, rn))
    && insn == Arm.EncodeLDM(cond, writeback, rn, list)
  }

  predicate IsARMPlain(word: bv32, insn: bv32) {
    Arm.CannotBranch(word) && insn == word
  }

  predicate EncodesARM(i: ARMInsn, insn: bv32) {
    match i
    case ARMB(cond, link, off) => IsARMB(cond, link, off, insn)
    case ARMBLX(off) => IsARMBLX(off, insn)
    case ARMBX(cond, link, rm) => IsARMBX(cond, link, rm, insn)
    case ARMMOV(cond, rm) => IsARMMOV(cond, rm, insn)
    case ARMSUB(cond, rn, imm12) => IsARMSUB(cond, rn, imm12, insn)
    case ARMLDR(cond, index, add, writeback, rn, imm12) => IsARMLDR(cond, index, add, writeback, rn, imm12, insn)
    case ARMLDRReg(cond, writeback, rn, rm, imm5) => IsARMLDRReg(cond, writeback, rn, rm, imm5, insn)
    case ARMLDM(cond, writeback, rn, list) => IsARMLDM(cond, writeback, rn, list, insn)
    case ARMPlain(word) => IsARMPlain(word, insn)
  }

  function FallThrough(pc: bv32): Option<Next> {
    Some(Next(Plus(pc, 4), false))
  }

  function ARMJump(pc: bv32, off: bv32, thumb: bool): Option<Next> {
    Some(Next(pc + 8 + off, thumb))
  }

  predicate IsSet(bit: bv32) {
    bit == 1
  }

  /** Where it goes when its condition holds. */
  function ARMTaken(i: ARMInsn, regs: Registers, m: Memory, pc: bv32): Option<Next> {
    match i
    case ARMB(_, _, off) => ARMJump(pc, off, false)
    case ARMBLX(off) => ARMJump(pc, off, true)
    case ARMBX(_, _, rm) => BXWritePC(regs(rm))
    case ARMMOV(_, rm) => BXWritePC(regs(rm))
    case ARMSUB(_, rn, imm12) => BXWritePC(Less(regs(rn), Constant(imm12)))
    case ARMLDR(_, index, add, _, rn, imm12) => LoadWritePC(m, Plus(regs(rn), Indexed(IsSet(index), IsSet(add), imm12)))
    case ARMLDRReg(_, _, rn, rm, imm5) => LoadWritePC(m, Plus(regs(rn), LeftShift(regs(rm), imm5)))
    case ARMLDM(_, _, rn, list) => LoadWritePC(m, PCWord(regs(rn), list))
    case ARMPlain(_) => FallThrough(pc)
  }

  function CondOfInsn(i: ARMInsn): bv4 {
    if i.ARMBLX? || i.ARMPlain? then COND_AL else i.cond
  }

  /** Where the instruction goes; None when a load fails or the target is unpredictable. */
  function ARMNext(i: ARMInsn, regs: Registers, f: Flags, m: Memory, pc: bv32): Option<Next> {
    if Holds(CondOfInsn(i), f) then ARMTaken(i, regs, m, pc) else FallThrough(pc)
  }

  predicate ARMFetched(m: Memory, pc: bv32, insn: bv32) {
    pc & 3 == 0 && ReadWord(m, pc) == Some(insn)
  }

  /** A branch that may fall through has both successors covered. */
  lemma EitherWay(o: Outcome, always: bool, n: Next, next: Next)
    requires StopsFor(o, always, n, next)
    ensures Covers(o, n) && (!always ==> Covers(o, next))
  {
  }

  /** A load that cannot be carried out. */
  predicate Unreadable(i: ARMInsn, regs: Registers, m: Memory) {
    match i
    case ARMLDR(_, index, add, _, rn, imm12) => ReadWord(m, Plus(regs(rn), Indexed(IsSet(index), IsSet(add), imm12))).None?
    case ARMLDRReg(_, _, rn, rm, imm5) => ReadWord(m, Plus(regs(rn), LeftShift(regs(rm), imm5))).None?
    case ARMLDM(_, _, rn, list) => ReadWord(m, PCWord(regs(rn), list)).None?
    case _ => false
  }

  // When the condition holds.

  lemma TakenB(regs: Registers, m: Memory, pc: bv32, cond: bv4, link: bv32, off: bv32, insn: bv32)
    requires ARMFetched(m, pc, insn) && IsARMB(cond, link, off, insn)
    ensures Covers(ARMPlan(m, regs, pc), ARMJump(pc, off, false).value)
  {
    ARMBCovered(m, regs, pc, cond, link, off, insn);
    EitherWay(ARMPlan(m, regs, pc), cond == COND_AL && link == 0, ARMJump(pc, off, false).value, FallThrough(pc).value);
  }

  lemma TakenBLX(regs: Registers, m: Memory, pc: bv32, off: bv32, insn: bv32)
    requires ARMFetched(m, pc, insn) && IsARMBLX(off, insn)
    ensures Covers(ARMPlan(m, regs, pc), ARMJump(pc, off, true).value)
  {
    ARMBLXCovered(m, regs, pc, off, insn);
    BothCovered(ARMPlan(m, regs, pc), ARMJump(pc, off, true).value, FallThrough(pc).value);
  }

  lemma TakenBX(regs: Registers, m: Memory, pc: bv32, cond: bv4, link: bv32, rm: bv4, n: Next, insn: bv32)
    requires ARMFetched(m, pc, insn) && IsARMBX(cond, link, rm, insn) && BXWritePC(regs(rm)) == Some(n)
    ensures Covers(ARMPlan(m, regs, pc), n)
  {
    ARMBXCovered(m, regs, pc, cond, link, rm, n, insn);
    EitherWay(ARMPlan(m, regs, pc), cond == COND_AL && link == 0, n, FallThrough(pc).value);
  }

  lemma TakenMOV(regs: Registers, m: Memory, pc: bv32, cond: bv4, rm: bv4, n: Next, insn: bv32)
    requires ARMFetched(m, pc, insn) && IsARMMOV(cond, rm, insn) && BXWritePC(regs(rm)) == Some(n)
    ensures Covers(ARMPlan(m, regs, pc), n)
  {
    ARMMOVCovered(m, regs, pc, cond, rm, n, insn);
    EitherWay(ARMPlan(m, regs, pc), cond == COND_AL, n, FallThrough(pc).value);
  }

  lemma TakenSUB(regs: Registers, m: Memory, pc: bv32, cond: bv4, rn: bv4, imm12: bv32, n: Next, insn: bv32)
    requires ARMFetched(m, pc, insn) && IsARMSUB(cond, rn, imm12, insn)
    requires BXWritePC(Less(regs(rn), Constant(imm12))) == Some(n)
    ensures Covers(ARMPlan(m, regs, pc), n)
  {
    ConstantIs(imm12);
    ARMSUBCovered(m, regs, pc, cond, rn, imm12, n, insn);
    EitherWay(ARMPlan(m, regs, pc), cond == COND_AL, n, FallThrough(pc).value);
  }

  lemma TakenLDR(regs: Registers, m: Memory, pc: bv32, cond: bv4, index: bv32, add: bv32, writeback: bv32, rn: bv4, imm12: bv32,
                 n: Next, insn: bv32)
    requires ARMFetched(m, pc, insn) && IsARMLDR(cond, index, add, writeback, rn, imm12, insn)
    requires LoadWritePC(m, Plus(regs(rn), Indexed(IsSet(index), IsSet(add), imm12))) == Some(n)
    ensures Covers(ARMPlan(m, regs, pc), n)
  {
    var w := LoadedFrom(m, Plus(regs(rn), Indexed(IsSet(index), IsSet(add), imm12)), n);
    ARMLDRCovered(m, regs, pc, cond, index, add, writeback, rn, imm12, w, n, insn);
    EitherWay(ARMPlan(m, regs, pc), cond == COND_AL, n, FallThrough(pc).value);
  }

  lemma TakenLDRReg(regs: Registers, m: Memory, pc: bv32, cond: bv4, writeback: bv32, rn: bv4, rm: bv4, imm5: bv32, n: Next, insn: bv32)
    requires ARMFetched(m, pc, insn) && IsARMLDRReg(cond, writeback, rn, rm, imm5, insn)
    requires LoadWritePC(m, Plus(regs(rn), LeftShift(regs(rm), imm5))) == Some(n)
    ensures Covers(ARMPlan(m, regs, pc), n)
  {
    LeftShiftIs(regs(rm), imm5);
    var w := LoadedFrom(m, Plus(regs(rn), ShiftAny(regs(rm), imm5)), n);
    ARMLDRRegCovered(m, regs, pc, cond, writeback, rn, rm, imm5, w, n, insn);
    EitherWay(ARMPlan(m, regs, pc), cond == COND_AL, n, FallThrough(pc).value);
  }

  lemma TakenLDM(regs: Registers, m: Memory, pc: bv32, cond: bv4, writeback: bv32, rn: bv4, list: bv16, n: Next, insn: bv32)
    requires ARMFetched(m, pc, insn) && IsARMLDM(cond, writeback, rn, list, insn)
    requires LoadWritePC(m, PCWord(regs(rn), list)) == Some(n)
    ensures Covers(ARMPlan(m, regs, pc), n)
  {
    PCWordIs(regs(rn), list);
    var w := LoadedFrom(m, Plus(regs(rn), ListBytes(list)), n);
    ARMLDMCovered(m, regs, pc, cond, writeback, rn, list, w, n, insn);
    EitherWay(ARMPlan(m, regs, pc), cond == COND_AL, n, FallThrough(pc).value);
  }

  lemma TakenPlain(regs: Registers, m: Memory, pc: bv32, word: bv32, insn: bv32)
    requires ARMFetched(m, pc, insn) && IsARMPlain(word, insn)
    ensures Covers(ARMPlan(m, regs, pc), FallThrough(pc).value)
  {
    Arm.PlainIsUnclaimed(insn);
    ARMStraightCovered(m, regs, pc, insn);
    OneCovers(ARMPlan(m, regs, pc), FallThrough(pc).value);
  }

  // When it does not: the instruction falls through, and the next one is covered unless
  // a load that will not happen cannot be read.

  function RelativeInfo(cond: bv4, link: bv32, off: bv32): BranchInfo {
    BranchInfo(if link == 1 then BL_i else B_i, cond, 0, None, off + 8, false, 1)
  }

  function RegisterInfo(cond: bv4, link: bv32, rm: bv4): BranchInfo {
    BranchInfo(if link == 1 then BLX_r else BX_r, cond, rm, None, 0, false, 1)
  }

  function LoadInfo(cond: bv4, index: bv32, add: bv32, rn: bv4, imm12: bv32): BranchInfo {
    BranchInfo(LDR_pc, cond, rn, None, Indexed(IsSet(index), IsSet(add), imm12), false, 1)
  }

  function ListInfo(cond: bv4, writeback: bv32, rn: bv4, list: bv16): BranchInfo {
    BranchInfo(if writeback == 1 && rn == 13 then POP_pc else LDM_pc, cond, rn, None, ListBytes(list), false, 1)
  }

  /** What the instruction decodes to, for the forms with a condition. */
  function InfoOf(i: ARMInsn): BranchInfo
    requires !i.ARMBLX? && !i.ARMPlain?
  {
    match i
    case ARMB(cond, link, off) => RelativeInfo(cond, link, off)
    case ARMBX(cond, link, rm) => RegisterInfo(cond, link, rm)
    case ARMMOV(cond, rm) => BranchInfo(MOV_pc, cond, rm, None, 0, false, 1)
    case ARMSUB(cond, rn, imm12) => BranchInfo(SUB_pc, cond, rn, None, Arm.ExpandImmediate(imm12), false, 1)
    case ARMLDR(cond, index, add, _, rn, imm12) => LoadInfo(cond, index, add, rn, imm12)
    case ARMLDRReg(cond, _, rn, rm, imm5) => BranchInfo(LDR_reg_pc, cond, rn, Some(rm), imm5, true, 1)
    case ARMLDM(cond, writeback, rn, list) => ListInfo(cond, writeback, rn, list)
  }

  lemma DecodesB(cond: bv4, link: bv32, off: bv32, insn: bv32)
    requires IsARMB(cond, link, off, insn)
    ensures Arm.Decode(insn) == Some(RelativeInfo(cond, link, off))
  {
    Arm.BInverts(cond, link, off, insn);
  }

  lemma DecodesBX(cond: bv4, link: bv32, rm: bv4, insn: bv32)
    requires IsARMBX(cond, link, rm, insn)
    ensures Arm.Decode(insn) == Some(RegisterInfo(cond, link, rm))
  {
    Arm.BXInverts(cond, link, rm, insn);
  }

  lemma DecodesLDR(cond: bv4, index: bv32, add: bv32, writeback: bv32, rn: bv4, imm12: bv32, insn: bv32)
    requires IsARMLDR(cond, index, add, writeback, rn, imm12, insn)
    ensures Arm.Decode(insn) == Some(LoadInfo(cond, index, add, rn, imm12))
  {
    Arm.LDRInverts(cond, index, add, writeback, rn, imm12, insn);
  }

  lemma DecodesLDM(cond: bv4, writeback: bv32, rn: bv4, list: bv16, insn: bv32)
    requires IsARMLDM(cond, writeback, rn, list, insn)
    ensures Arm.Decode(insn) == Some(ListInfo(cond, writeback, rn, list))
  {
    Arm.LDMInverts(cond, writeback, rn, list, insn);
  }

  lemma DecodesARM(i: ARMInsn, insn: bv32)
    requires EncodesARM(i, insn) && !i.ARMBLX? && !i.ARMPlain?
    ensures Arm.Decode(insn) == Some(InfoOf(i))
  {
    match i
    case ARMB(cond, link, off) => DecodesB(cond, link, off, insn);
    case ARMBX(cond, link, rm) => DecodesBX(cond, link, rm, insn);
    case ARMMOV(cond, rm) => Arm.MOVInverts(cond, rm, insn);
    case ARMSUB(cond, rn, imm12) => Arm.SUBInverts(cond, rn, imm12, insn);
    case ARMLDR(cond, index, add, writeback, rn, imm12) => DecodesLDR(cond, index, add, writeback, rn, imm12, insn);
    case ARMLDRReg(cond, writeback, rn, rm, imm5) => Arm.LDRRegInverts(cond, writeback, rn, rm, imm5, insn);
    case ARMLDM(cond, writeback, rn, list) => DecodesLDM(cond, writeback, rn, list, insn);
  }

  lemma LoadTarget(regs: Registers, m: Memory, pc: bv32, cond: bv4, index: bv32, add: bv32, rn: bv4, imm12: bv32)
    ensures ARMBranch(m, regs, pc, LoadInfo(cond, index, add, rn, imm12)).To?
       <==> ReadWord(m, Plus(regs(rn), Indexed(IsSet(index), IsSet(add), imm12))).Some?
  {
  }

  lemma ListTarget(regs: Registers, m: Memory, pc: bv32, cond: bv4, writeback: bv32, rn: bv4, list: bv16)
    ensures ARMBranch(m, regs, pc, ListInfo(cond, writeback, rn, list)).To?
       <==> ReadWord(m, PCWord(regs(rn), list)).Some?
  {
    PCWordIs(regs(rn), list);
  }

  lemma ShiftTarget(regs: Registers, m: Memory, pc: bv32, cond: bv4, rn: bv4, rm: bv4, imm5: bv32)
    requires imm5 <= 31
    ensures ARMBranch(m, regs, pc, BranchInfo(LDR_reg_pc, cond, rn, Some(rm), imm5, true, 1)).To?
       <==> ReadWord(m, Plus(regs(rn), LeftShift(regs(rm), imm5))).Some?
  {
    LeftShiftIs(regs(rm), imm5);
  }

  lemma DirectTarget(regs: Registers, m: Memory, pc: bv32, info: BranchInfo)
    requires info.kind in {B_i, BL_i, BX_r, BLX_r, MOV_pc, SUB_pc}
    ensures ARMBranch(m, regs, pc, info).To?
  {
  }

  /** Its target can be computed unless it is a load that cannot be read. */
  lemma TargetIsThere(i: ARMInsn, regs: Registers, m: Memory, pc: bv32, insn: bv32)
    requires !i.ARMBLX? && !i.ARMPlain? && EncodesARM(i, insn)
    ensures InfoOf(i).cond == i.cond
    ensures ARMBranch(m, regs, pc, InfoOf(i)).To? <==> !Unreadable(i, regs, m)
  {
    match i
    case ARMLDR(cond, index, add, _, rn, imm12) => LoadTarget(regs, m, pc, cond, index, add, rn, imm12);
    case ARMLDRReg(cond, _, rn, rm, imm5) => ShiftTarget(regs, m, pc, cond, rn, rm, imm5);
    case ARMLDM(cond, writeback, rn, list) => ListTarget(regs, m, pc, cond, writeback, rn, list);
    case ARMB(_, _, _) => DirectTarget(regs, m, pc, InfoOf(i));
    case ARMBX(_, _, _) => DirectTarget(regs, m, pc, InfoOf(i));
    case ARMMOV(_, _) => DirectTarget(regs, m, pc, InfoOf(i));
    case ARMSUB(_, _, _) => DirectTarget(regs, m, pc, InfoOf(i));
  }

  lemma NotTaken(i: ARMInsn, regs: Registers, f: Flags, m: Memory, pc: bv32, insn: bv32)
    requires ARMFetched(m, pc, insn) && EncodesARM(i, insn) && !Holds(CondOfInsn(i), f)
    ensures Covers(ARMPlan(m, regs, pc), FallThrough(pc).value) <==> !Unreadable(i, regs, m)
  {
    DecodesARM(i, insn);
    TargetIsThere(i, regs, m, pc, insn);
    FourIsEven(pc);
    ARMTargets(pc, 0);
    ARMFallsThrough(m, regs, pc, InfoOf(i), insn);
  }

  lemma Taken(i: ARMInsn, regs: Registers, m: Memory, pc: bv32, insn: bv32, n: Next)
    requires ARMFetched(m, pc, insn) && EncodesARM(i, insn) && ARMTaken(i, regs, m, pc) == Some(n)
    ensures Covers(ARMPlan(m, regs, pc), n)
  {
    match i
    case ARMB(cond, link, off) => TakenB(regs, m, pc, cond, link, off, insn);
    case ARMBLX(off) => TakenBLX(regs, m, pc, off, insn);
    case ARMBX(cond, link, rm) => TakenBX(regs, m, pc, cond, link, rm, n, insn);
    case ARMMOV(cond, rm) => TakenMOV(regs, m, pc, cond, rm, n, insn);
    case ARMSUB(cond, rn, imm12) => TakenSUB(regs, m, pc, cond, rn, imm12, n, insn);
    case ARMLDR(cond, index, add, writeback, rn, imm12) => TakenLDR(regs, m, pc, cond, index, add, writeback, rn, imm12, n, insn);
    case ARMLDRReg(cond, writeback, rn, rm, imm5) => TakenLDRReg(regs, m, pc, cond, writeback, rn, rm, imm5, n, insn);
    case ARMLDM(cond, writeback, rn, list) => TakenLDM(regs, m, pc, cond, writeback, rn, list, n, insn);
    case ARMPlain(word) => TakenPlain(regs, m, pc, word, insn);
  }

  lemma TakenIsReadable(i: ARMInsn, regs: Registers, m: Memory, pc: bv32)
    requires ARMTaken(i, regs, m, pc).Some?
    ensures !Unreadable(i, regs, m)
  {
  }

  /** The theorem for ARM state: the architecture's next instruction is among the
      breakpoints asked for, with the size that tells its state, exactly when the
      instruction is not a load that cannot be read and will not happen. */
  lemma ARMStepCovers(i: ARMInsn, regs: Registers, f: Flags, m: Memory, pc: bv32, insn: bv32, n: Next)
    requires ARMFetched(m, pc, insn) && EncodesARM(i, insn) && ARMNext(i, regs, f, m, pc) == Some(n)
    ensures Covers(ARMPlan(m, regs, pc), n) <==> !Unreadable(i, regs, m)
  {
    if Holds(CondOfInsn(i), f) {
      Taken(i, regs, m, pc, insn, n);
      TakenIsReadable(i, regs, m, pc);
    } else {
      NotTaken(i, regs, f, m, pc, insn);
    }
  }

  // ---------------------------------------------------------------------------
  // Next instructions lie at even addresses
  // ---------------------------------------------------------------------------

  lemma WrittenIsEven(w: bv32, n: Next)
    requires BXWritePC(w) == Some(n)
    ensures n.pc & 1 == 0
  {
    ExchangeMeans(w, n);
  }

  lemma LoadedIsEven(m: Memory, a: bv32, n: Next)
    requires LoadWritePC(m, a) == Some(n)
    ensures n.pc & 1 == 0
  {
    WrittenIsEven(ReadWord(m, a).value, n);
  }

  lemma BranchingIsEven(taken: bool, pc: bv32, off: bv32, size: bv32)
    requires pc & 1 == 0 && off & 1 == 0 && (size == 2 || size == 4)
    ensures Branching(taken, pc, off, size).value.pc & 1 == 0
  {
    Targets(pc, off);
  }

  lemma ByteTableIsEven(pc: bv32, entry: bv8)
    requires pc & 1 == 0
    ensures ByteTable(pc, Some(entry)).value.pc & 1 == 0
  {
    DoubledIsEven(entry as bv32);
    EntryIsEven(pc, (entry as bv32) << 1);
  }

  lemma HalfTableIsEven(pc: bv32, entry: bv16)
    requires pc & 1 == 0
    ensures HalfTable(pc, Some(entry)).value.pc & 1 == 0
  {
    DoubledIsEven(entry as bv32);
    EntryIsEven(pc, (entry as bv32) << 1);
  }

  lemma DirectIsEven(i: ThumbInsn, regs: Registers, f: Flags, m: Memory, pc: bv32, h0: bv16, h1: bv16)
    requires pc & 1 == 0 && Encodes(i, h0, h1) && (IsConditional(i) || IsDirect(i)) && ThumbNext(i, regs, f, m, pc).Some?
    ensures ThumbNext(i, regs, f, m, pc).value.pc & 1 == 0
  {
    match i
    case BccN(cond, off) => BranchingIsEven(Holds(cond, f), pc, off, 2);
    case BccW(cond, off) => BranchingIsEven(Holds(cond, f), pc, off, 4);
    case CB(nonzero, rn, off) => BranchingIsEven(Tests(nonzero, regs(rn)), pc, off, 2);
    case BN(off) => BranchingIsEven(true, pc, off, 2);
    case BW(off) => BranchingIsEven(true, pc, off, 4);
    case BL(off) => BranchingIsEven(true, pc, off, 4);
    case BLX(off) => RoundedIsEven(pc + 4, off);
  }

  /** Every load is a load from somewhere. */
  lemma LoadSource(i: ThumbInsn, regs: Registers, f: Flags, m: Memory, pc: bv32, n: Next) returns (a: bv32)
    requires IsLoad(i) && ThumbNext(i, regs, f, m, pc) == Some(n)
    ensures LoadWritePC(m, a) == Some(n)
  {
    match i
    case POPpc(list) => a := PCWord(regs(13), list);
    case LDMpc(_, rn, list) => a := PCWord(regs(rn), list);
    case LDRImm12(rn, imm12) => a := Plus(regs(rn), Widen(imm12));
    case LDRImm8(rn, index, add, _, imm8) => a := Plus(regs(rn), Indexed(index, add, Widen(imm8)));
    case LDRReg(rn, rm, shift) => a := Plus(regs(rn), Multiple(regs(rm), shift));
  }

  lemma LoadIsEven(i: ThumbInsn, regs: Registers, f: Flags, m: Memory, pc: bv32, n: Next)
    requires IsLoad(i) && ThumbNext(i, regs, f, m, pc) == Some(n)
    ensures n.pc & 1 == 0
  {
    var a := LoadSource(i, regs, f, m, pc, n);
    LoadedIsEven(m, a, n);
  }

  lemma OtherIsEven(i: ThumbInsn, regs: Registers, f: Flags, m: Memory, pc: bv32, n: Next)
    requires pc & 1 == 0 && !IsConditional(i) && !IsDirect(i) && !IsLoad(i) && ThumbNext(i, regs, f, m, pc) == Some(n)
    ensures n.pc & 1 == 0
  {
    match i
    case BX(rm) => WrittenIsEven(ReadThumb(regs, pc, rm), n);
    case BLXr(rm) => WrittenIsEven(ReadThumb(regs, pc, rm), n);
    case MOVpc(rm) => ClearLow(ReadThumb(regs, pc, rm));
    case TableB(rn, rm) => ByteTableIsEven(pc, ByteEntry(m, regs, pc, rn, rm).value);
    case TableH(rn, rm) => HalfTableIsEven(pc, HalfEntry(m, regs, pc, rn, rm).value);
    case Plain(h) => Targets(pc, 0);
  }

  lemma ThumbNextIsEven(i: ThumbInsn, regs: Registers, f: Flags, m: Memory, pc: bv32, h0: bv16, h1: bv16, n: Next)
    requires pc & 1 == 0 && Encodes(i, h0, h1) && ThumbNext(i, regs, f, m, pc) == Some(n)
    ensures n.pc & 1 == 0
  {
    if IsConditional(i) || IsDirect(i) {
      DirectIsEven(i, regs, f, m, pc, h0, h1);
    } else if IsLoad(i) {
      LoadIsEven(i, regs, f, m, pc, n);
    } else {
      OtherIsEven(i, regs, f, m, pc, n);
    }
  }

  lemma JumpIsEven(pc: bv32, off: bv32, thumb: bool)
    requires pc & 1 == 0 && off & 1 == 0
    ensures ARMJump(pc, off, thumb).value.pc & 1 == 0 && FallThrough(pc).value.pc & 1 == 0
  {
    ARMTargets(pc, off);
  }

  lemma TakenIsEven(i: ARMInsn, regs: Registers, m: Memory, pc: bv32, insn: bv32, n: Next)
    requires pc & 1 == 0 && EncodesARM(i, insn) && ARMTaken(i, regs, m, pc) == Some(n)
    ensures n.pc & 1 == 0
  {
    match i
    case ARMB(_, _, off) =>
      FourIsEven(off);
      JumpIsEven(pc, off, false);
    case ARMBLX(off) => JumpIsEven(pc, off, true);
    case ARMBX(_, _, rm) => WrittenIsEven(regs(rm), n);
    case ARMMOV(_, rm) => WrittenIsEven(regs(rm), n);
    case ARMSUB(_, rn, imm12) => WrittenIsEven(Less(regs(rn), Constant(imm12)), n);
    case ARMLDR(_, index, add, _, rn, imm12) => LoadedIsEven(m, Plus(regs(rn), Indexed(IsSet(index), IsSet(add), imm12)), n);
    case ARMLDRReg(_, _, rn, rm, imm5) => LoadedIsEven(m, Plus(regs(rn), LeftShift(regs(rm), imm5)), n);
    case ARMLDM(_, _, rn, list) => LoadedIsEven(m, PCWord(regs(rn), list), n);
    case ARMPlain(_) => JumpIsEven(pc, 0, false);
  }

  lemma ARMNextIsEven(i: ARMInsn, regs: Registers, f: Flags, m: Memory, pc: bv32, insn: bv32, n: Next)
    requires pc & 3 == 0 && EncodesARM(i, insn) && ARMNext(i, regs, f, m, pc) == Some(n)
    ensures n.pc & 1 == 0
  {
    FourIsEven(pc);
    if Holds(CondOfInsn(i), f) {
      TakenIsEven(i, regs, m, pc, insn, n);
    } else {
      JumpIsEven(pc, 0, false);
    }
  }
}
