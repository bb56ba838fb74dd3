/** Single stepping without hardware support: breakpoints at every instruction that
    can come next. */
module SingleStep {
  import opened ArmTypes
  import opened Common
  import Arm
  import Thumb

  // ---------------------------------------------------------------------------
  // What is planned
  // ---------------------------------------------------------------------------

  /** The value an address variable holds before it is set. */
  const UNSET: bv32 := 0xffff_ffff

  datatype Plan = Plan(link: bool, nextPC: bv32, nextSize: nat, branchPC: bv32, branchSize: nat)

  /** `OutOfBounds` is a walk past the end of the halfwords read; `Undefined` is the use
      of a branch type or register that was never set. */
  datatype Outcome = Planned(plan: Plan) | Unsupported | ReadFailed | OutOfBounds | Undefined

  /** Where a branch goes; size 0 leaves the state to the low bit of the target. */
  datatype Branch = To(pc: bv32, size: nat) | Failing(outcome: Outcome)

  predicate Links(kind: BranchKind) {
    kind == BL_i || kind == BLX_i || kind == BLX_r
  }

  function AlignUp(x: bv32, alignment: bv32): bv32 {
    (x + (alignment - 1)) & !(alignment - 1)
  }

  function Loaded(m: Memory, a: bv32): Branch {
    match ReadWord(m, a)
    case Some(w) => To(w, 0)
    case None => Failing(ReadFailed)
  }

  /** Shifts of up to three bits are all that the decoders ask for. */
  function ShiftLeft(x: bv32, n: bv32): bv32 {
    if n == 0 then x else if n == 1 then x << 1 else if n == 2 then x << 2 else x << 3
  }

  function LDRAddress(regs: Registers, info: BranchInfo): bv32 {
    match info.reg2
    case Some(r) => Plus(regs(info.reg1), if info.shifted then ShiftLeft(regs(r), info.disp) else Plus(regs(r), info.disp))
    case None => Plus(regs(info.reg1), info.disp)
  }

  function TableAddress(regs: Registers, info: BranchInfo): bv32 {
    var base := if info.reg1 == 15 then Plus(regs(info.reg1), 4) else regs(info.reg1);
    match info.reg2
    case Some(r) => Plus(base, ShiftLeft(regs(r), info.disp))
    case None => base
  }

  /** A halfword read into a signed variable and widened. */
  function Signed(h: bv16): bv32 {
    if h < 0x8000 then h as bv32 else (h as bv32) | 0xffff_0000
  }

  /** A table entry read into a signed 16-bit variable that held zero. */
  function TableOffset(m: Memory, kind: BranchKind, a: bv32): Option<bv32> {
    if kind == TBB then
      match ReadByte(m, a)
      case Some(b) => Some(b as bv32)
      case None => None
    else
      match ReadHalf(m, a)
      case Some(h) => Some(Signed(h))
      case None => None
  }

  function Relative(pc: bv32, info: BranchInfo, size: nat): Branch {
    To(Plus(pc, info.disp), size)
  }

  function Aligned(pc: bv32, info: BranchInfo): Branch {
    To(AlignUp(Plus(pc, info.disp), info.align), 4)
  }

  function Register(regs: Registers, info: BranchInfo): Branch {
    To(regs(info.reg1), 0)
  }

  function Subtracted(regs: Registers, info: BranchInfo): Branch {
    To(Minus(regs(info.reg1), info.disp), 0)
  }

  function LoadedWord(m: Memory, regs: Registers, info: BranchInfo): Branch {
    Loaded(m, LDRAddress(regs, info))
  }

  /** The decoders ask for shifts of up to 31 bits. */
  function ShiftAny(x: bv32, n: bv32): bv32 {
    if n < 32 then x << n else 0
  }

  function ShiftedAddress(regs: Registers, info: BranchInfo): bv32 {
    match info.reg2
    case Some(r) => Plus(regs(info.reg1), ShiftAny(regs(r), info.disp))
    case None => regs(info.reg1)
  }

  function LoadedShifted(m: Memory, regs: Registers, info: BranchInfo): Branch {
    Loaded(m, ShiftedAddress(regs, info))
  }

  function LoadedLast(m: Memory, regs: Registers, info: BranchInfo): Branch {
    Loaded(m, Plus(regs(info.reg1), info.disp))
  }

  function Table(m: Memory, regs: Registers, pc: bv32, info: BranchInfo): Branch {
    match TableOffset(m, info.kind, TableAddress(regs, info))
    case Some(offset) => To(Plus(pc + 4, offset << 1), 2)
    case None => Failing(ReadFailed)
  }

  function ThumbBranch(m: Memory, regs: Registers, pc: bv32, info: BranchInfo): Branch {
    match info.kind
    case B_i | BL_i | Bcc_i | CB_i => Relative(pc, info, 2)
    case BX_r | BLX_r | MOV_pc => Register(regs, info)
    case LDR_pc => LoadedWord(m, regs, info)
    case LDM_pc | POP_pc => LoadedLast(m, regs, info)
    case BLX_i => Aligned(pc, info)
    case SUB_pc => Subtracted(regs, info)
    case TBB | TBH => Table(m, regs, pc, info)
    case ALU_pc | LDR_reg_pc | Unset_type => Failing(Unsupported)
  }

  function ARMBranch(m: Memory, regs: Registers, pc: bv32, info: BranchInfo): Branch {
    match info.kind
    case B_i | BL_i | Bcc_i => Relative(pc, info, 4)
    case BX_r | BLX_r | MOV_pc => Register(regs, info)
    case LDR_pc => LoadedWord(m, regs, info)
    case LDR_reg_pc => LoadedShifted(m, regs, info)
    case LDM_pc | POP_pc => LoadedLast(m, regs, info)
    case BLX_i => Relative(pc, info, 2)
    case SUB_pc => Subtracted(regs, info)
    case Unset_type => Failing(Undefined)
    case ALU_pc | CB_i | TBB | TBH => Failing(Unsupported)
  }

  predicate Odd(w: bv32) {
    w & 1 == 1
  }

  function Even(w: bv32): bv32 {
    w & 0xffff_fffe
  }

  /** The low bit of a loaded target chooses the state, and is cleared. */
  function Exchange(b: Branch): Branch {
    if b.To? && b.size == 0 then To(Even(b.pc), if Odd(b.pc) then 2 else 4) else b
  }

  function Complete(link: bool, next: Option<bv32>, nextSize: nat, b: Branch): Outcome {
    match Exchange(b)
    case Failing(o) => o
    case To(pc, size) =>
      match next
      case Some(n) => Planned(Plan(link, n, nextSize, pc, size))
      case None => Planned(Plan(link, UNSET, 0, pc, size))
  }

  function Straight(pc: bv32, size: nat): Outcome {
    Planned(Plan(false, pc, size, UNSET, 0))
  }

  /** The two halfwords at pc, when the eight bytes read there are mapped. */
  function Fetch(m: Memory, pc: bv32): Option<(bv16, bv16)> {
    match (ReadHalf(m, pc), ReadHalf(m, pc + 2))
    case (Some(h0), Some(h1)) => if ReadWord(m, pc + 4).Some? then Some((h0, h1)) else None
    case _ => None
  }

  predicate IsIT(h: bv16) {
    h & 0xff00 == 0xbf00 && h & 0x00ff != 0
  }

  function ThumbPlanFor(m: Memory, regs: Registers, pc: bv32, info: BranchInfo, size: bv32): Outcome {
    var stays := info.kind == Bcc_i || info.kind == CB_i || Links(info.kind);
    Complete(Links(info.kind), if stays then Some(Plus(pc, size)) else None, 2, ThumbBranch(m, regs, pc, info))
  }

  function ThumbPlan(m: Memory, regs: Registers, pc: bv32): Outcome {
    match Fetch(m, pc)
    case None => ReadFailed
    case Some((h0, h1)) =>
      if IsIT(h0) then ITPlan(m, pc + 2, ITCount(h0))
      else
        match Thumb.Decode(h0, h1)
        case None => Straight(Plus(pc, Thumb.InstSize(h0)), 2)
        case Some(info) => ThumbPlanFor(m, regs, pc, info, Thumb.InstSize(h0))
  }

  function ARMPlanFor(m: Memory, regs: Registers, pc: bv32, info: BranchInfo): Outcome {
    var stays := info.cond != COND_AL || Links(info.kind);
    Complete(Links(info.kind), if stays then Some(Plus(pc, 4)) else None, 4, ARMBranch(m, regs, pc, info))
  }

  function ARMPlan(m: Memory, regs: Registers, pc: bv32): Outcome {
    match ReadWord(m, pc)
    case None => ReadFailed
    case Some(insn) =>
      match Arm.Decode(insn)
      case None => Straight(Plus(pc, 4), 4)
      case Some(info) => ARMPlanFor(m, regs, pc, info)
  }

  // ---------------------------------------------------------------------------
  // Skipping an IT block
  // ---------------------------------------------------------------------------

  /** One past the index of the lowest set bit; 0 when there is none. */
  function FFS(x: bv16, bits: nat): (i: nat)
    ensures i <= bits
  {
    if bits == 0 then 0
    else if x & 1 == 1 then 1
    else
      var rest := FFS(x >> 1, bits - 1);
      if rest == 0 then 0 else rest + 1
  }

  function ITCount(h: bv16): (n: nat)
    ensures 1 <= n <= 5
  {
    5 - FFS(h & 0xf, 4)
  }

  /** The address k halfwords past a. */
  function Past(a: bv32, k: nat): bv32 {
    if k == 0 then a else Past(a, k - 1) + 2
  }

  /** The n halfwords at a, if all are mapped. */
  function ReadHalves(m: Memory, a: bv32, n: nat): (r: Option<seq<bv16>>)
    ensures r.Some? ==> |r.value| == n
  {
    if n == 0 then Some([])
    else
      match (ReadHalves(m, a, n - 1), ReadHalf(m, Past(a, n - 1)))
      case (Some(hs), Some(h)) => Some(hs + [h])
      case _ => None
  }

  function Halves(h: bv16): nat {
    if Thumb.IsThumb1(h) then 1 else 2
  }

  /** Halfwords taken by n instructions from index `at`; None when the walk reads past
      the end of the buffer. */
  function Skip(hs: seq<bv16>, n: nat, at: nat): (r: Option<nat>)
    decreases n
  {
    if n == 0 then Some(at)
    else if at >= |hs| then None
    else Skip(hs, n - 1, at + Halves(hs[at]))
  }

  function ITPlan(m: Memory, a: bv32, count: nat): Outcome {
    match ReadHalves(m, a, 8)
    case None => ReadFailed
    case Some(hs) =>
      match Skip(hs, count, 0)
      case None => OutOfBounds
      case Some(k) => Straight(Past(a, k), 2)
  }

  /** The loop over the instructions of the block. */
  method SkipBlock(hs: seq<bv16>, count: nat) returns (skip: Option<nat>)
    ensures skip == Skip(hs, count, 0)
  {
    var at: nat := 0;
    for n := 0 to count
      invariant Skip(hs, count, 0) == Skip(hs, count - n, at)
    {
      if at >= |hs| {
        return None;
      }
      at := at + Halves(hs[at]);
    }
    return Some(at);
  }

  /** The address after n instructions, each as long as its own first halfword says;
      None if one of them cannot be read. */
  function AddressAfter(read: bv32 -> Option<bv16>, a: bv32, n: nat): Option<bv32>
    decreases n
  {
    if n == 0 then Some(a)
    else
      match read(a)
      case None => None
      case Some(h) => AddressAfter(read, a + Thumb.InstSize(h), n - 1)
  }

  lemma {:induction false} HalvesAre(m: Memory, a: bv32, n: nat, k: nat)
    requires ReadHalves(m, a, n).Some? && k < n
    ensures ReadHalf(m, Past(a, k)) == Some(ReadHalves(m, a, n).value[k])
  {
    if k < n - 1 {
      HalvesAre(m, a, n - 1, k);
    }
  }

  lemma PastShort(a: bv32, k: nat)
    ensures Past(a, k + 1) == Past(a, k) + 2
  {
  }

  lemma PastTwice(a: bv32, k: nat)
    ensures Past(a, k + 2) == (Past(a, k) + 2) + 2
  {
    PastShort(a, k);
    PastShort(a, k + 1);
  }

  lemma PastLong(a: bv32, k: nat)
    ensures Past(a, k + 2) == Past(a, k) + 4
  {
    PastTwice(a, k);
    TwoTwos(Past(a, k));
  }

  lemma PastOne(a: bv32, k: nat, h: bv16)
    ensures Past(a, k + Halves(h)) == Past(a, k) + Thumb.InstSize(h)
  {
    if Thumb.IsThumb1(h) {
      assert Halves(h) == 1 && Thumb.InstSize(h) == 2;
      PastShort(a, k);
    } else {
      assert Halves(h) == 2 && Thumb.InstSize(h) == 4;
      PastLong(a, k);
    }
  }

  lemma TwoTwos(x: bv32)
    ensures (x + 2) + 2 == x + 4
  {
  }

  predicate Mirrors(hs: seq<bv16>, read: bv32 -> Option<bv16>, a: bv32) {
    forall k: nat :: k < |hs| ==> read(Past(a, k)) == Some(hs[k])
  }

  lemma WalkOne(read: bv32 -> Option<bv16>, a: bv32, h: bv16, n: nat)
    requires n > 0 && read(a) == Some(h)
    ensures AddressAfter(read, a, n) == AddressAfter(read, a + Thumb.InstSize(h), n - 1)
  {
    if Thumb.IsThumb1(h) {
      assert Thumb.InstSize(h) == 2;
    } else {
      assert Thumb.InstSize(h) == 4;
    }
  }

  /** Walking the buffer is walking memory. */
  lemma {:induction false} SkipIsWalk(read: bv32 -> Option<bv16>, a: bv32, hs: seq<bv16>, n: nat, at: nat)
    requires Mirrors(hs, read, a) && Skip(hs, n, at).Some?
    ensures AddressAfter(read, Past(a, at), n) == Some(Past(a, Skip(hs, n, at).value))
    decreases n
  {
    if n > 0 {
      var h := hs[at];
      PastOne(a, at, h);
      WalkOne(read, Past(a, at), h, n);
      SkipIsWalk(read, a, hs, n - 1, at + Halves(h));
    }
  }

  /** The walk stays in a buffer that has room for n long instructions. */
  lemma {:induction false} SkipStays(hs: seq<bv16>, n: nat, at: nat)
    requires at + 2 * n <= |hs|
    ensures Skip(hs, n, at).Some? && at + n <= Skip(hs, n, at).value <= at + 2 * n
    decreases n
  {
    if n > 0 {
      SkipStays(hs, n - 1, at + Halves(hs[at]));
    }
  }

  /** The mask has a bit set exactly when the count is one to four; otherwise the
      opcode is a hint and the count is five. */
  lemma ITCountMeans(h: bv16)
    ensures h & 0xf != 0 <==> ITCount(h) <= 4
    ensures h & 0xf != 0 ==> ITCount(h) == 4 - TrailingZeros(h)
  {
    var x := h & 0xf;
    MaskBits(h, x);
    assert FFS(x, 4) == if x & 1 == 1 then 1 else if FFS(x >> 1, 3) == 0 then 0 else FFS(x >> 1, 3) + 1;
    assert FFS(x >> 1, 3) == if (x >> 1) & 1 == 1 then 1 else if FFS(x >> 1 >> 1, 2) == 0 then 0 else FFS(x >> 1 >> 1, 2) + 1;
    assert FFS(x >> 1 >> 1, 2) == if (x >> 1 >> 1) & 1 == 1 then 1 else if FFS(x >> 1 >> 1 >> 1, 1) == 0 then 0 else 2;
    assert FFS(x >> 1 >> 1 >> 1, 1) == if (x >> 1 >> 1 >> 1) & 1 == 1 then 1 else 0;
  }

  lemma MaskBits(h: bv16, x: bv16)
    requires x == h & 0xf
    ensures x & 1 == 1 <==> h & 1 == 1
    ensures (x >> 1) & 1 == 1 <==> h & 2 == 2
    ensures (x >> 1 >> 1) & 1 == 1 <==> h & 4 == 4
    ensures (x >> 1 >> 1 >> 1) & 1 == 1 <==> h & 8 == 8
    ensures x != 0 <==> h & 1 == 1 || h & 2 == 2 || h & 4 == 4 || h & 8 == 8
  {
  }

  /** Unset bits below the lowest set one of a mask. */
  function TrailingZeros(h: bv16): nat {
    if h & 1 == 1 then 0 else if h & 2 == 2 then 1 else if h & 4 == 4 then 2 else 3
  }

  function Reader(m: Memory): bv32 -> Option<bv16> {
    a => ReadHalf(m, a)
  }

  lemma MirrorsMemory(m: Memory, a: bv32, hs: seq<bv16>)
    requires ReadHalves(m, a, 8) == Some(hs)
    ensures Mirrors(hs, Reader(m), a)
  {
    forall k: nat | k < |hs| ensures Reader(m)(Past(a, k)) == Some(hs[k]) {
      HalvesAre(m, a, 8, k);
    }
  }

  /** With a bit set in the mask the plan is one breakpoint, just after as many
      instructions as the mask says. */
  lemma ITPlanIs(m: Memory, a: bv32, h0: bv16)
    requires h0 & 0xf != 0 && ReadHalves(m, a, 8).Some?
    ensures AddressAfter(Reader(m), a, 4 - TrailingZeros(h0)).Some?
    ensures ITPlan(m, a, ITCount(h0)) == Straight(AddressAfter(Reader(m), a, 4 - TrailingZeros(h0)).value, 2)
  {
    var hs := ReadHalves(m, a, 8).value;
    var n := ITCount(h0);
    ITCountMeans(h0);
    SkipStays(hs, n, 0);
    MirrorsMemory(m, a, hs);
    SkipIsWalk(Reader(m), a, hs, n, 0);
  }

  lemma ITSkipsBlock(m: Memory, regs: Registers, pc: bv32, h0: bv16, h1: bv16)
    requires Fetch(m, pc) == Some((h0, h1)) && IsIT(h0) && h0 & 0xf != 0 && ReadHalves(m, pc + 2, 8).Some?
    ensures AddressAfter(Reader(m), pc + 2, 4 - TrailingZeros(h0)).Some?
    ensures ThumbPlan(m, regs, pc) == Straight(AddressAfter(Reader(m), pc + 2, 4 - TrailingZeros(h0)).value, 2)
  {
    ITPlanIs(m, pc + 2, h0);
  }

  /** Any halfword from 0xbf01 to 0xbfff is taken for an IT instruction, hints included. */
  lemma ITIs(h: bv16)
    ensures IsIT(h) <==> 0xbf01 <= h <= 0xbfff
  {
  }

  lemma HintMask(h: bv16)
    requires 0xbf01 <= h <= 0xbfff && h & 0xf == 0
    ensures IsIT(h)
  {
    ITIs(h);
  }

  /** So a hint is stepped over together with the five instructions after it, unless they
      do not fit in the halfwords read. */
  lemma HintSkipsFive(m: Memory, regs: Registers, pc: bv32, h0: bv16, h1: bv16, hs: seq<bv16>)
    requires Fetch(m, pc) == Some((h0, h1)) && 0xbf01 <= h0 <= 0xbfff && h0 & 0xf == 0 && ReadHalves(m, pc + 2, 8) == Some(hs)
    ensures Skip(hs, 5, 0).None? ==> ThumbPlan(m, regs, pc) == OutOfBounds
    ensures Skip(hs, 5, 0).Some? ==>
              && AddressAfter(Reader(m), pc + 2, 5).Some?
              && ThumbPlan(m, regs, pc) == Straight(AddressAfter(Reader(m), pc + 2, 5).value, 2)
  {
    HintMask(h0);
    ITCountMeans(h0);
    FivePlan(m, pc + 2, hs);
  }

  lemma FivePlan(m: Memory, a: bv32, hs: seq<bv16>)
    requires ReadHalves(m, a, 8) == Some(hs)
    ensures Skip(hs, 5, 0).None? ==> ITPlan(m, a, 5) == OutOfBounds
    ensures Skip(hs, 5, 0).Some? ==>
              AddressAfter(Reader(m), a, 5).Some? && ITPlan(m, a, 5) == Straight(AddressAfter(Reader(m), a, 5).value, 2)
  {
    if Skip(hs, 5, 0).Some? {
      MirrorsMemory(m, a, hs);
      SkipIsWalk(Reader(m), a, hs, 5, 0);
    }
  }

  /** A hint taken for an IT instruction counts five instructions, which four long
      ones carry past the end of the buffer. */
  lemma HintOverruns(h0: bv16, hs: seq<bv16>)
    requires h0 & 0xf == 0 && |hs| == 8 && forall k :: 0 <= k < 8 ==> !Thumb.IsThumb1(hs[k])
    ensures Skip(hs, ITCount(h0), 0) == None
  {
    ITCountMeans(h0);
    assert Skip(hs, 4, 2) == Skip(hs, 3, 4);
    assert Skip(hs, 2, 6) == Skip(hs, 1, 8);
  }

  /** In bounds whatever the block holds exactly when the mask has a bit set. */
  lemma ITInBounds(h0: bv16)
    ensures (forall hs: seq<bv16> :: |hs| == 8 ==> Skip(hs, ITCount(h0), 0).Some?) <==> h0 & 0xf != 0
  {
    ITCountMeans(h0);
    if h0 & 0xf != 0 {
      forall hs: seq<bv16> | |hs| == 8 ensures Skip(hs, ITCount(h0), 0).Some? {
        SkipStays(hs, ITCount(h0), 0);
      }
    } else {
      var hs: seq<bv16> := seq(8, i => 0xf000);
      HintOverruns(h0, hs);
    }
  }

  // ---------------------------------------------------------------------------
  // What comes next, according to the architecture
  // ---------------------------------------------------------------------------

  datatype Next = Next(pc: bv32, thumb: bool)

  /** BXWritePC: bit 0 selects Thumb state; a target with bits 10 is unpredictable. */
  function BXWritePC(w: bv32): Option<Next> {
    if w & 1 == 1 then Some(Next(w & 0xffff_fffe, true))
    else if w & 2 == 0 then Some(Next(w, false))
    else None
  }

  datatype Breakpoint = Breakpoint(pc: bv32, size: nat)

  /** A breakpoint that stops at n: its size tells the state. */
  function At(n: Next): Breakpoint {
    Breakpoint(n.pc, if n.thumb then 2 else 4)
  }

  /** The breakpoints a plan asks for: an address still unset asks for none. */
  function Placed(plan: Plan): set<Breakpoint> {
    (if plan.branchPC != UNSET then {Breakpoint(plan.branchPC, plan.branchSize)} else {})
    + (if plan.nextPC != UNSET then {Breakpoint(plan.nextPC, plan.nextSize)} else {})
  }

  /** The one breakpoint placed is at n. */
  predicate StopsAt(o: Outcome, n: Next) {
    o.Planned? && Placed(o.plan) == {At(n)}
  }

  /** The breakpoints placed are those at n and at `other`. */
  predicate StopsAtEither(o: Outcome, n: Next, other: Next) {
    o.Planned? && Placed(o.plan) == {At(n), At(other)}
  }

  lemma EvenIsSet(x: bv32)
    requires x & 1 == 0
    ensures x != UNSET
  {
  }

  lemma StraightStops(a: bv32, thumb: bool)
    requires a & 1 == 0
    ensures StopsAt(Straight(a, if thumb then 2 else 4), Next(a, thumb))
  {
    EvenIsSet(a);
  }

  lemma CompleteOne(link: bool, nextSize: nat, b: Branch, n: Next)
    requires Exchange(b) == To(n.pc, if n.thumb then 2 else 4) && n.pc & 1 == 0
    ensures StopsAt(Complete(link, None, nextSize, b), n)
  {
    EvenIsSet(n.pc);
  }

  lemma CompleteTwo(link: bool, next: Next, b: Branch, n: Next)
    requires Exchange(b) == To(n.pc, if n.thumb then 2 else 4) && n.pc & 1 == 0 && next.pc & 1 == 0
    ensures StopsAtEither(Complete(link, Some(next.pc), if next.thumb then 2 else 4, b), n, next)
  {
    EvenIsSet(n.pc);
    EvenIsSet(next.pc);
  }

  lemma ClearLow(w: bv32)
    ensures (w & 0xffff_fffe) & 1 == 0
    ensures w & 1 != 1 ==> w & 0xffff_fffe == w && w & 1 == 0
  {
  }

  lemma ExchangeMeans(w: bv32, n: Next)
    requires BXWritePC(w) == Some(n)
    ensures Exchange(To(w, 0)) == To(n.pc, if n.thumb then 2 else 4) && n.pc & 1 == 0
  {
    ClearLow(w);
    if w & 1 == 1 {
      assert n == Next(w & 0xffff_fffe, true);
    } else {
      assert n == Next(w, false);
    }
  }

  // ---------------------------------------------------------------------------
  // Thumb: the plan covers every successor
  // ---------------------------------------------------------------------------
  //
  // First for each kind of decoded branch, then for the encoded instructions.

  /** The last step of every proof below: what the instruction decodes to decides. */
  lemma PlanFollows(m: Memory, regs: Registers, pc: bv32, h0: bv16, h1: bv16, info: BranchInfo)
    requires Fetch(m, pc) == Some((h0, h1)) && !IsIT(h0) && Thumb.Decode(h0, h1) == Some(info)
    ensures ThumbPlan(m, regs, pc) == ThumbPlanFor(m, regs, pc, info, Thumb.InstSize(h0))
  {
  }

  lemma Direct(m: Memory, regs: Registers, pc: bv32, target: bv32, info: BranchInfo, size: bv32)
    requires info.kind == B_i && Plus(pc, info.disp) == target && target & 1 == 0
    ensures StopsAt(ThumbPlanFor(m, regs, pc, info, size), Next(target, true))
  {
    CompleteOne(false, 2, To(target, 2), Next(target, true));
  }

  lemma Conditional(m: Memory, regs: Registers, pc: bv32, target: bv32, after: bv32, info: BranchInfo, size: bv32)
    requires info.kind in {Bcc_i, CB_i, BL_i} && Plus(pc, info.disp) == target && Plus(pc, size) == after
    requires target & 1 == 0 && after & 1 == 0
    ensures StopsAtEither(ThumbPlanFor(m, regs, pc, info, size), Next(target, true), Next(after, true))
  {
    CompleteTwo(Links(info.kind), Next(after, true), To(target, 2), Next(target, true));
  }

  lemma ToARM(m: Memory, regs: Registers, pc: bv32, target: bv32, after: bv32, info: BranchInfo, size: bv32)
    requires info.kind == BLX_i && AlignUp(Plus(pc, info.disp), info.align) == target && Plus(pc, size) == after
    requires target & 1 == 0 && after & 1 == 0
    ensures StopsAtEither(ThumbPlanFor(m, regs, pc, info, size), Next(target, false), Next(after, true))
  {
    CompleteTwo(true, Next(after, true), To(target, 4), Next(target, false));
  }

  lemma ToRegister(m: Memory, regs: Registers, pc: bv32, info: BranchInfo, size: bv32, n: Next)
    requires info.kind == BX_r && BXWritePC(regs(info.reg1)) == Some(n)
    ensures StopsAt(ThumbPlanFor(m, regs, pc, info, size), n)
  {
    ExchangeMeans(regs(info.reg1), n);
    CompleteOne(false, 2, To(regs(info.reg1), 0), n);
  }

  lemma ToRegisterLinking(m: Memory, regs: Registers, pc: bv32, after: bv32, info: BranchInfo, size: bv32, n: Next)
    requires info.kind == BLX_r && BXWritePC(regs(info.reg1)) == Some(n) && Plus(pc, size) == after && after & 1 == 0
    ensures StopsAtEither(ThumbPlanFor(m, regs, pc, info, size), n, Next(after, true))
  {
    ExchangeMeans(regs(info.reg1), n);
    CompleteTwo(true, Next(after, true), To(regs(info.reg1), 0), n);
  }

  lemma ToLoadedWord(m: Memory, regs: Registers, pc: bv32, a: bv32, w: bv32, info: BranchInfo, size: bv32, n: Next)
    requires info.kind == LDR_pc && LDRAddress(regs, info) == a && ReadWord(m, a) == Some(w) && BXWritePC(w) == Some(n)
    ensures StopsAt(ThumbPlanFor(m, regs, pc, info, size), n)
  {
    ExchangeMeans(w, n);
    CompleteOne(false, 2, To(w, 0), n);
  }

  lemma ToLoadedLast(m: Memory, regs: Registers, pc: bv32, a: bv32, w: bv32, info: BranchInfo, size: bv32, n: Next)
    requires info.kind in {LDM_pc, POP_pc} && Plus(regs(info.reg1), info.disp) == a
    requires ReadWord(m, a) == Some(w) && BXWritePC(w) == Some(n)
    ensures StopsAt(ThumbPlanFor(m, regs, pc, info, size), n)
  {
    ExchangeMeans(w, n);
    CompleteOne(false, 2, To(w, 0), n);
  }

  lemma ToEntry(m: Memory, regs: Registers, pc: bv32, target: bv32, info: BranchInfo, size: bv32)
    requires info.kind in {TBB, TBH} && Table(m, regs, pc, info) == To(target, 2) && target & 1 == 0
    ensures StopsAt(ThumbPlanFor(m, regs, pc, info, size), Next(target, true))
  {
    CompleteOne(false, 2, To(target, 2), Next(target, true));
  }

  // Lengths: none of these halfwords is an IT instruction.

  lemma IsShort(h: bv16)
    requires h & 0xf000 == 0xd000 || h & 0xf800 == 0xe000 || h & 0xf500 == 0xb100 || h & 0xfc00 == 0x4400 || h & 0xff00 == 0xbd00
    ensures Thumb.InstSize(h) == 2 && !IsIT(h)
  {
  }

  lemma IsLong(h: bv16)
    requires h & 0xf000 == 0xf000 || h & 0xff00 == 0xe800
    ensures Thumb.InstSize(h) == 4 && !IsIT(h)
  {
  }

  /** Targets of an even offset from an even address. */
  lemma Targets(pc: bv32, off: bv32)
    requires pc & 1 == 0 && off & 1 == 0
    ensures Plus(pc, off + 4) == pc + 4 + off && (pc + 4 + off) & 1 == 0
    ensures Plus(pc, 2) == pc + 2 && (pc + 2) & 1 == 0 && Plus(pc, 4) == pc + 4 && (pc + 4) & 1 == 0
  {
  }

  lemma {:induction false} AddressAfterEven(read: bv32 -> Option<bv16>, a: bv32, n: nat)
    requires a & 1 == 0 && AddressAfter(read, a, n).Some?
    ensures AddressAfter(read, a, n).value & 1 == 0
    decreases n
  {
    if n > 0 {
      var h := read(a).value;
      WalkOne(read, a, h, n);
      NextIsEven(a, h);
      AddressAfterEven(read, a + Thumb.InstSize(h), n - 1);
    }
  }

  lemma NextIsEven(a: bv32, h: bv16)
    requires a & 1 == 0
    ensures (a + Thumb.InstSize(h)) & 1 == 0
  {
    if Thumb.IsThumb1(h) {
      assert Thumb.InstSize(h) == 2;
    } else {
      assert Thumb.InstSize(h) == 4;
    }
  }

  /** An IT instruction is stepped over together with its block. */
  lemma ITCovered(m: Memory, regs: Registers, pc: bv32, after: bv32, h0: bv16, h1: bv16)
    requires pc & 1 == 0 && Fetch(m, pc) == Some((h0, h1)) && IsIT(h0) && h0 & 0xf != 0 && ReadHalves(m, pc + 2, 8).Some?
    requires AddressAfter(Reader(m), pc + 2, 4 - TrailingZeros(h0)) == Some(after)
    ensures StopsAt(ThumbPlan(m, regs, pc), Next(after, true))
  {
    ITSkipsBlock(m, regs, pc, h0, h1);
    Targets(pc, 0);
    AddressAfterEven(Reader(m), pc + 2, 4 - TrailingZeros(h0));
    StraightStops(after, true);
  }

  /** An unclaimed instruction is followed by the next one. */
  lemma StraightCovered(m: Memory, regs: Registers, pc: bv32, h0: bv16, h1: bv16)
    requires pc & 1 == 0 && Fetch(m, pc) == Some((h0, h1)) && !IsIT(h0) && Thumb.Decode(h0, h1) == None
    ensures StopsAt(ThumbPlan(m, regs, pc), Next(Plus(pc, Thumb.InstSize(h0)), true))
  {
    Targets(pc, 0);
    StraightStops(Plus(pc, Thumb.InstSize(h0)), true);
  }

  /** A conditional branch: taken or not. */
  lemma BccNCovered(m: Memory, regs: Registers, pc: bv32, cond: bv4, off: bv32, h0: bv16, h1: bv16)
    requires pc & 1 == 0 && Fetch(m, pc) == Some((h0, h1))
    requires cond < 14 && Thumb.Fits9(off) && off & 1 == 0 && h0 == Thumb.EncodeBccN(cond, off)
    ensures StopsAtEither(ThumbPlan(m, regs, pc), Next(pc + 4 + off, true), Next(pc + 2, true))
  {
    Thumb.BccNInverts(cond, off, h0, h1);
    Thumb.FieldsBccN(cond, off, h0);
    IsShort(h0);
    Targets(pc, off);
    var info := Thumb.Plain(Bcc_i, off + 4).(cond := cond);
    PlanFollows(m, regs, pc, h0, h1, info);
    Conditional(m, regs, pc, pc + 4 + off, pc + 2, info, 2);
  }

  lemma BccWCovered(m: Memory, regs: Registers, pc: bv32, cond: bv4, off: bv32, h0: bv16, h1: bv16)
    requires pc & 1 == 0 && Fetch(m, pc) == Some((h0, h1))
    requires cond < 14 && Thumb.Fits21(off) && off & 1 == 0 && (h0, h1) == Thumb.EncodeBccW(cond, off)
    ensures StopsAtEither(ThumbPlan(m, regs, pc), Next(pc + 4 + off, true), Next(pc + 4, true))
  {
    Thumb.BccWInverts(cond, off, h0, h1);
    Thumb.FieldsBccW(cond, off, h0, h1);
    IsLong(h0);
    Targets(pc, off);
    var info := Thumb.Plain(Bcc_i, off + 4).(cond := cond);
    PlanFollows(m, regs, pc, h0, h1, info);
    Conditional(m, regs, pc, pc + 4 + off, pc + 4, info, 4);
  }

  lemma BNCovered(m: Memory, regs: Registers, pc: bv32, off: bv32, h0: bv16, h1: bv16)
    requires pc & 1 == 0 && Fetch(m, pc) == Some((h0, h1))
    requires Thumb.Fits12(off) && off & 1 == 0 && h0 == Thumb.EncodeBN(off)
    ensures StopsAt(ThumbPlan(m, regs, pc), Next(pc + 4 + off, true))
  {
    Thumb.BNInverts(off, h0, h1);
    Thumb.FieldsBN(off, h0);
    IsShort(h0);
    Targets(pc, off);
    var info := Thumb.Plain(B_i, off + 4);
    PlanFollows(m, regs, pc, h0, h1, info);
    Direct(m, regs, pc, pc + 4 + off, info, 2);
  }

  lemma BWCovered(m: Memory, regs: Registers, pc: bv32, off: bv32, h0: bv16, h1: bv16)
    requires pc & 1 == 0 && Fetch(m, pc) == Some((h0, h1))
    requires Thumb.Fits25(off) && off & 1 == 0 && (h0, h1) == Thumb.EncodeBW(off)
    ensures StopsAt(ThumbPlan(m, regs, pc), Next(pc + 4 + off, true))
  {
    Thumb.BWInverts(off, h0, h1);
    Thumb.FieldsBW(off, h0, h1);
    IsLong(h0);
    Targets(pc, off);
    var info := Thumb.Plain(B_i, off + 4);
    PlanFollows(m, regs, pc, h0, h1, info);
    Direct(m, regs, pc, pc + 4 + off, info, 4);
  }

  /** A call: its target and its return address. */
  lemma BLCovered(m: Memory, regs: Registers, pc: bv32, off: bv32, h0: bv16, h1: bv16)
    requires pc & 1 == 0 && Fetch(m, pc) == Some((h0, h1))
    requires Thumb.Fits25(off) && off & 1 == 0 && (h0, h1) == Thumb.EncodeBL(off)
    ensures StopsAtEither(ThumbPlan(m, regs, pc), Next(pc + 4 + off, true), Next(pc + 4, true))
  {
    Thumb.BLInverts(off, h0, h1);
    Thumb.FieldsBL(off, h0, h1);
    IsLong(h0);
    Targets(pc, off);
    var info := Thumb.Plain(BL_i, off + 4);
    PlanFollows(m, regs, pc, h0, h1, info);
    Conditional(m, regs, pc, pc + 4 + off, pc + 4, info, 4);
  }

  // Adding 2 and aligning up is aligning the architectural pc down: pc is a multiple
  // of 4 or two past one.

  lemma UpFromFour(s: bv32)
    requires s & 3 == 0
    ensures (s + 5) & 0xffff_fffc == s + 4
  {
  }

  lemma UpFromTwo(s: bv32)
    requires s & 3 == 2
    ensures (s + 5) & 0xffff_fffc == s + 2
  {
  }

  lemma DownToFour(pc: bv32)
    requires pc & 3 == 0
    ensures (pc + 4) & 0xffff_fffc == pc + 4
  {
  }

  lemma DownToTwo(pc: bv32)
    requires pc & 3 == 2
    ensures (pc + 4) & 0xffff_fffc == pc + 2
  {
  }

  lemma LowBits(pc: bv32, off: bv32)
    requires off & 3 == 0
    ensures (pc + off) & 3 == pc & 3
  {
  }

  lemma AlignUpOf(pc: bv32, off: bv32)
    ensures AlignUp(Plus(pc, off + 2), 4) == ((pc + off) + 5) & 0xffff_fffc
  {
  }

  lemma AlignFromFour(pc: bv32, off: bv32)
    requires pc & 3 == 0 && off & 3 == 0
    ensures AlignUp(Plus(pc, off + 2), 4) == pc + 4 + off
  {
    LowBits(pc, off);
    AlignUpOf(pc, off);
    UpFromFour(pc + off);
  }

  lemma AlignFromTwo(pc: bv32, off: bv32)
    requires pc & 3 == 2 && off & 3 == 0
    ensures AlignUp(Plus(pc, off + 2), 4) == pc + 2 + off
  {
    LowBits(pc, off);
    AlignUpOf(pc, off);
    UpFromTwo(pc + off);
  }

  lemma PlusIs(pc: bv32, off: bv32)
    ensures Plus(pc + 4, off) == pc + 4 + off && Plus(pc + 2, off) == pc + 2 + off
  {
  }

  lemma AlignUpIsDown(pc: bv32, off: bv32)
    requires pc & 1 == 0 && off & 3 == 0
    ensures AlignUp(Plus(pc, off + 2), 4) == Plus((pc + 4) & 0xffff_fffc, off)
  {
    PlusIs(pc, off);
    if pc & 3 == 0 {
      AlignFromFour(pc, off);
      DownToFour(pc);
    } else {
      AlignFromTwo(pc, off);
      DownToTwo(pc);
    }
  }

  lemma RoundedIsEven(x: bv32, off: bv32)
    requires off & 3 == 0
    ensures Plus(x & 0xffff_fffc, off) & 1 == 0
  {
  }

  /** A call that switches to ARM state. */
  lemma BLXCovered(m: Memory, regs: Registers, pc: bv32, off: bv32, h0: bv16, h1: bv16)
    requires pc & 1 == 0 && Fetch(m, pc) == Some((h0, h1))
    requires Thumb.Fits25(off) && off & 3 == 0 && (h0, h1) == Thumb.EncodeBLX(off)
    ensures StopsAtEither(ThumbPlan(m, regs, pc), Next(Plus((pc + 4) & 0xffff_fffc, off), false), Next(pc + 4, true))
  {
    Thumb.BLXInverts(off, h0, h1);
    Thumb.FieldsBLX(off, h0, h1);
    IsLong(h0);
    Targets(pc, 0);
    AlignUpIsDown(pc, off);
    RoundedIsEven(pc + 4, off);
    var info := Thumb.Plain(BLX_i, off + 2).(align := 4);
    PlanFollows(m, regs, pc, h0, h1, info);
    ToARM(m, regs, pc, Plus((pc + 4) & 0xffff_fffc, off), pc + 4, info, 4);
  }

  lemma CBCovered(m: Memory, regs: Registers, pc: bv32, nonzero: bool, rn: bv4, off: bv32, h0: bv16, h1: bv16)
    requires pc & 1 == 0 && Fetch(m, pc) == Some((h0, h1))
    requires rn < 8 && off <= 126 && off & 1 == 0 && h0 == Thumb.EncodeCB(nonzero, rn, off)
    ensures StopsAtEither(ThumbPlan(m, regs, pc), Next(pc + 4 + off, true), Next(pc + 2, true))
  {
    Thumb.CBInverts(nonzero, rn, off, h0, h1);
    Thumb.FieldsCB(Thumb.Flag(nonzero), rn, off, h0);
    IsShort(h0);
    Targets(pc, off);
    var info := Thumb.Plain(CB_i, off + 4);
    PlanFollows(m, regs, pc, h0, h1, info);
    Conditional(m, regs, pc, pc + 4 + off, pc + 2, info, 2);
  }

  // The halfwords of the other forms.

  lemma RegisterForms(rm: bv4, h: bv16)
    requires h == Thumb.EncodeBX(rm) || h == Thumb.EncodeBLXReg(rm) || h == Thumb.EncodeMOVPc(rm)
    ensures h & 0xfc00 == 0x4400
  {
  }

  lemma PopForm(list: bv16, h: bv16)
    requires list <= 0xff && h == Thumb.EncodePOPPc(list)
    ensures h & 0xff00 == 0xbd00
  {
  }

  lemma LdmForm(h: bv16)
    requires h & 0xffd0 == 0xe890
    ensures h & 0xff00 == 0xe800
  {
  }

  lemma LdrForms(rn: bv4, h: bv16)
    requires h == 0xf8d0 | (rn as bv16) || h == 0xf850 | (rn as bv16)
    ensures h & 0xf000 == 0xf000
  {
  }

  lemma TableForms(rn: bv4, h: bv16)
    requires h == 0xe8d0 | (rn as bv16)
    ensures h & 0xff00 == 0xe800
  {
  }

  lemma BXFromPc(m: Memory, regs: Registers, pc: bv32, info: BranchInfo, size: bv32, n: Next)
    requires pc & 1 == 0 && info.kind == BX_r && regs(info.reg1) == pc && BXWritePC(pc + 4) == Some(n)
    ensures !StopsAt(ThumbPlanFor(m, regs, pc, info, size), n)
  {
    ClearLow(pc);
    EvenIsSet(pc);
    NotTheSame(pc);
    CompleteOne(false, 2, To(pc, 0), Next(pc, false));
    assert At(Next(pc, false)) in Placed(ThumbPlanFor(m, regs, pc, info, size).plan);
  }

  /** BX pc stops where the register says, at the instruction itself. */
  lemma BXPcPlan(m: Memory, regs: Registers, pc: bv32, h0: bv16, h1: bv16)
    requires pc & 1 == 0 && Fetch(m, pc) == Some((h0, h1)) && regs(15) == pc && h0 == Thumb.EncodeBX(15)
    ensures StopsAt(ThumbPlan(m, regs, pc), Next(pc, false))
  {
    Thumb.DecodesBX(15, h0, h1);
    RegisterForms(15, h0);
    IsShort(h0);
    var info := Thumb.WithReg(BX_r, 15, 0);
    PlanFollows(m, regs, pc, h0, h1, info);
    ClearLow(pc);
    CompleteOne(false, 2, To(pc, 0), Next(pc, false));
  }

  lemma NotTheSame(pc: bv32)
    ensures pc + 4 != pc && (pc + 4) & 0xffff_fffe != pc
  {
  }

  lemma MovedFrom(m: Memory, regs: Registers, pc: bv32, info: BranchInfo, size: bv32, w: bv32, even: bv32)
    requires info.kind == MOV_pc && regs(info.reg1) == w && w & 0xffff_fffe == even && even & 1 == 0
    ensures StopsAt(ThumbPlanFor(m, regs, pc, info, size), Next(even, w & 1 == 1))
  {
    CompleteOne(false, 2, To(w, 0), Next(even, w & 1 == 1));
  }

  /** The offset a load adds to its base register. */
  function Indexed(index: bool, add: bool, imm: bv32): bv32 {
    if !index then 0 else if add then imm else -imm
  }

  lemma NoShift(x: bv32, shift: bv16)
    ensures shift == 0 ==> Plus(x, shift as bv32) == x
  {
  }

  /** The base register of a table as the instruction reads it. */
  function TableBase(regs: Registers, pc: bv32, rn: bv4): bv32 {
    if rn == 15 then Plus(pc, 4) else regs(rn)
  }

  lemma EntryIsEven(pc: bv32, offset: bv32)
    requires pc & 1 == 0 && offset & 1 == 0
    ensures Plus(pc + 4, offset) & 1 == 0
  {
  }

  lemma DoubledIsEven(x: bv32)
    ensures (x << 1) & 1 == 0
  {
  }

  function Minus(p: bv32, a: bv32): bv32 {
    p - a
  }

  lemma MinusSum(a: bv32, x: bv32, p: bv32)
    requires p == a + x
    ensures Minus(p, a) == x
  {
  }

  lemma Cancel(a: bv32, x: bv32, y: bv32)
    requires x != y
    ensures Plus(a, x) != Plus(a, y)
  {
    MinusSum(a, x, Plus(a, x));
    MinusSum(a, y, Plus(a, y));
  }

  lemma EntrySign(entry: bv16)
    ensures Signed(entry) << 1 == (entry as bv32) << 1 <==> entry < 0x8000
  {
    if entry >= 0x8000 {
      EntryNegative(entry as bv32);
    }
  }

  lemma EntryNegative(e: bv32)
    requires e < 0x10000
    ensures (e | 0xffff_0000) << 1 != e << 1
  {
  }

  /** Where the plan goes for a table entry read as `offset`. */
  lemma EntryFrom(m: Memory, regs: Registers, pc: bv32, info: BranchInfo, size: bv32, read: bv32, offset: bv32)
    requires pc & 1 == 0 && info.kind in {BranchKind.TBB, BranchKind.TBH} && offset == read << 1
    requires TableOffset(m, info.kind, TableAddress(regs, info)) == Some(read)
    ensures StopsAt(ThumbPlanFor(m, regs, pc, info, size), Next(Plus(pc + 4, offset), true))
  {
    DoubledIsEven(read);
    EntryIsEven(pc, offset);
    ToEntry(m, regs, pc, Plus(pc + 4, offset), info, size);
  }

  /** The register forms read r15 as the address of the instruction, not that plus 4, so
      BX pc is the one BX that is missed. */
  lemma BXCovered(m: Memory, regs: Registers, pc: bv32, rm: bv4, n: Next, h0: bv16, h1: bv16)
    requires pc & 1 == 0 && Fetch(m, pc) == Some((h0, h1))
    requires regs(15) == pc && h0 == Thumb.EncodeBX(rm) && BXWritePC(if rm == 15 then pc + 4 else regs(rm)) == Some(n)
    ensures StopsAt(ThumbPlan(m, regs, pc), n) <==> rm != 15
  {
    Thumb.DecodesBX(rm, h0, h1);
    RegisterForms(rm, h0);
    IsShort(h0);
    var info := Thumb.WithReg(BX_r, rm, 0);
    PlanFollows(m, regs, pc, h0, h1, info);
    if rm == 15 {
      BXFromPc(m, regs, pc, info, 2, n);
    } else {
      ToRegister(m, regs, pc, info, 2, n);
    }
  }

  lemma BLXrCovered(m: Memory, regs: Registers, pc: bv32, rm: bv4, n: Next, h0: bv16, h1: bv16)
    requires pc & 1 == 0 && Fetch(m, pc) == Some((h0, h1))
    requires rm != 15 && h0 == Thumb.EncodeBLXReg(rm) && BXWritePC(regs(rm)) == Some(n)
    ensures StopsAtEither(ThumbPlan(m, regs, pc), n, Next(pc + 2, true))
  {
    Thumb.DecodesBLXr(rm, h0, h1);
    RegisterForms(rm, h0);
    IsShort(h0);
    Targets(pc, 0);
    var info := Thumb.WithReg(BLX_r, rm, 0);
    PlanFollows(m, regs, pc, h0, h1, info);
    ToRegisterLinking(m, regs, pc, pc + 2, info, 2, n);
  }

  lemma MOVPlan(m: Memory, regs: Registers, pc: bv32, rm: bv4, w: bv32, even: bv32, h0: bv16, h1: bv16)
    requires Fetch(m, pc) == Some((h0, h1)) && h0 == Thumb.EncodeMOVPc(rm)
    requires regs(rm) == w && w & 0xffff_fffe == even && even & 1 == 0
    ensures StopsAt(ThumbPlan(m, regs, pc), Next(even, w & 1 == 1))
  {
    Thumb.DecodesMOV(rm, h0, h1);
    RegisterForms(rm, h0);
    IsShort(h0);
    var info := Thumb.WithReg(MOV_pc, rm, 0);
    PlanFollows(m, regs, pc, h0, h1, info);
    MovedFrom(m, regs, pc, info, 2, w, even);
  }

  /** The saved pc lies above the other words popped. */
  lemma POPCovered(m: Memory, regs: Registers, pc: bv32, list: bv16, w: bv32, n: Next, h0: bv16, h1: bv16)
    requires pc & 1 == 0 && Fetch(m, pc) == Some((h0, h1))
    requires list <= 0xff && h0 == Thumb.EncodePOPPc(list)
    requires ReadWord(m, Plus(regs(13), ListBytes(list))) == Some(w) && BXWritePC(w) == Some(n)
    ensures StopsAt(ThumbPlan(m, regs, pc), n)
  {
    Thumb.DecodesPOP(list, h0, h1);
    PopForm(list, h0);
    IsShort(h0);
    var info := Thumb.WithReg(POP_pc, 13, ListBytes(list));
    PlanFollows(m, regs, pc, h0, h1, info);
    ToLoadedLast(m, regs, pc, Plus(regs(13), ListBytes(list)), w, info, 2, n);
  }

  lemma LDMCovered(m: Memory, regs: Registers, pc: bv32, writeback: bool, rn: bv4, list: bv16, w: bv32, n: Next, h0: bv16, h1: bv16)
    requires pc & 1 == 0 && Fetch(m, pc) == Some((h0, h1))
    requires rn != 15 && list < 0x8000 && (h0, h1) == Thumb.EncodeLDMPc(writeback, rn, list)
    requires ReadWord(m, Plus(regs(rn), ListBytes(list))) == Some(w) && BXWritePC(w) == Some(n)
    ensures StopsAt(ThumbPlan(m, regs, pc), n)
  {
    Thumb.LDMInverts(writeback, rn, list, h0, h1);
    Thumb.LDMFields(Thumb.Flag(writeback), rn, list, h0, h1);
    LdmForm(h0);
    IsLong(h0);
    var info := Thumb.WithReg(if writeback && rn == 13 then POP_pc else LDM_pc, rn, ListBytes(list));
    PlanFollows(m, regs, pc, h0, h1, info);
    ToLoadedLast(m, regs, pc, Plus(regs(rn), ListBytes(list)), w, info, 4, n);
  }

  lemma LDRImm12Covered(m: Memory, regs: Registers, pc: bv32, rn: bv4, imm12: bv16, w: bv32, n: Next, h0: bv16, h1: bv16)
    requires pc & 1 == 0 && Fetch(m, pc) == Some((h0, h1))
    requires rn != 15 && imm12 <= 0xfff && (h0, h1) == Thumb.EncodeLDRImm12(rn, imm12)
    requires ReadWord(m, Plus(regs(rn), imm12 as bv32)) == Some(w) && BXWritePC(w) == Some(n)
    ensures StopsAt(ThumbPlan(m, regs, pc), n)
  {
    Thumb.DecodesLDRImm12(rn, imm12, h0, h1);
    LdrForms(rn, h0);
    IsLong(h0);
    var info := Thumb.WithReg(LDR_pc, rn, imm12 as bv32);
    PlanFollows(m, regs, pc, h0, h1, info);
    ToLoadedWord(m, regs, pc, Plus(regs(rn), imm12 as bv32), w, info, 4, n);
  }

  /** Without indexing the word is loaded from the base itself. */
  lemma LDRImm8Covered(m: Memory, regs: Registers, pc: bv32, rn: bv4, index: bool, add: bool, writeback: bool, imm8: bv16, w: bv32, n: Next, h0: bv16, h1: bv16)
    requires pc & 1 == 0 && Fetch(m, pc) == Some((h0, h1))
    requires rn != 15 && imm8 <= 0xff && (h0, h1) == Thumb.EncodeLDRImm8(rn, index, add, writeback, imm8)
    requires ReadWord(m, Plus(regs(rn), Indexed(index, add, imm8 as bv32))) == Some(w) && BXWritePC(w) == Some(n)
    ensures StopsAt(ThumbPlan(m, regs, pc), n)
  {
    Thumb.LDRImm8Inverts(rn, index, add, writeback, imm8, h0, h1);
    LdrForms(rn, h0);
    IsLong(h0);
    var info := Thumb.WithReg(LDR_pc, rn, Indexed(index, add, imm8 as bv32));
    PlanFollows(m, regs, pc, h0, h1, info);
    ToLoadedWord(m, regs, pc, Plus(regs(rn), Indexed(index, add, imm8 as bv32)), w, info, 4, n);
  }

  lemma LDRRegCovered(m: Memory, regs: Registers, pc: bv32, rn: bv4, rm: bv4, shift: bv16, w: bv32, n: Next, h0: bv16, h1: bv16)
    requires pc & 1 == 0 && Fetch(m, pc) == Some((h0, h1))
    requires rn != 15 && rm != 15 && shift <= 3 && (h0, h1) == Thumb.EncodeLDRReg(rn, rm, shift)
    requires ReadWord(m, Plus(regs(rn), ShiftLeft(regs(rm), shift as bv32))) == Some(w) && BXWritePC(w) == Some(n)
    ensures StopsAt(ThumbPlan(m, regs, pc), n)
  {
    Thumb.DecodesLDRReg(rn, rm, shift, h0, h1);
    LdrForms(rn, h0);
    IsLong(h0);
    var info := BranchInfo(LDR_pc, COND_AL, rn, Some(rm), shift as bv32, shift != 0, 1);
    PlanFollows(m, regs, pc, h0, h1, info);
    NoShift(regs(rm), shift);
    ToLoadedWord(m, regs, pc, Plus(regs(rn), ShiftLeft(regs(rm), shift as bv32)), w, info, 4, n);
  }

  lemma ByteRead(m: Memory, regs: Registers, pc: bv32, rn: bv4, rm: bv4, entry: bv8, info: BranchInfo)
    requires regs(15) == pc && ReadByte(m, Plus(TableBase(regs, pc, rn), regs(rm))) == Some(entry)
    requires info.kind == BranchKind.TBB && info.reg1 == rn && info.reg2 == Some(rm) && info.disp == 0
    ensures TableOffset(m, info.kind, TableAddress(regs, info)) == Some(entry as bv32)
  {
    assert TableAddress(regs, info) == Plus(TableBase(regs, pc, rn), regs(rm));
  }

  lemma HalfAddress(regs: Registers, pc: bv32, rn: bv4, rm: bv4, info: BranchInfo)
    requires regs(15) == pc && info.reg1 == rn && info.reg2 == Some(rm) && info.disp == 1
    ensures TableAddress(regs, info) == Plus(TableBase(regs, pc, rn), regs(rm) << 1)
  {
  }

  lemma HalfRead(m: Memory, a: bv32, entry: bv16)
    requires ReadHalf(m, a) == Some(entry)
    ensures TableOffset(m, BranchKind.TBH, a) == Some(Signed(entry))
  {
  }

  /** The base of a table is pc plus 4 when it is r15. */
  lemma TBBCovered(m: Memory, regs: Registers, pc: bv32, rn: bv4, rm: bv4, entry: bv8, offset: bv32, h0: bv16, h1: bv16)
    requires pc & 1 == 0 && Fetch(m, pc) == Some((h0, h1))
    requires regs(15) == pc && rm != 15 && (h0, h1) == Thumb.EncodeTBB(rn, rm)
    requires ReadByte(m, Plus(TableBase(regs, pc, rn), regs(rm))) == Some(entry) && offset == (entry as bv32) << 1
    ensures StopsAt(ThumbPlan(m, regs, pc), Next(Plus(pc + 4, offset), true))
  {
    Thumb.DecodesTBB(rn, rm, h0, h1);
    TableForms(rn, h0);
    IsLong(h0);
    var info := BranchInfo(BranchKind.TBB, COND_AL, rn, Some(rm), 0, false, 1);
    PlanFollows(m, regs, pc, h0, h1, info);
    ByteRead(m, regs, pc, rn, rm, entry, info);
    EntryFrom(m, regs, pc, info, 4, entry as bv32, offset);
  }

  lemma HalfwordPlan(m: Memory, regs: Registers, pc: bv32, a: bv32, entry: bv16, read: bv32, offset: bv32, info: BranchInfo)
    requires pc & 1 == 0 && info.kind == BranchKind.TBH && TableAddress(regs, info) == a && ReadHalf(m, a) == Some(entry)
    requires read == Signed(entry) && offset == read << 1
    ensures StopsAt(ThumbPlanFor(m, regs, pc, info, 4), Next(Plus(pc + 4, offset), true))
  {
    HalfRead(m, a, entry);
    EntryFrom(m, regs, pc, info, 4, read, offset);
  }

  lemma TBHPlan(m: Memory, regs: Registers, pc: bv32, rn: bv4, rm: bv4, entry: bv16, read: bv32, offset: bv32, h0: bv16, h1: bv16)
    requires pc & 1 == 0 && Fetch(m, pc) == Some((h0, h1)) && regs(15) == pc && (h0, h1) == Thumb.EncodeTBH(rn, rm)
    requires ReadHalf(m, Plus(TableBase(regs, pc, rn), regs(rm) << 1)) == Some(entry)
    requires read == Signed(entry) && offset == read << 1
    ensures StopsAt(ThumbPlan(m, regs, pc), Next(Plus(pc + 4, offset), true))
  {
    Thumb.DecodesTBH(rn, rm, h0, h1);
    TableForms(rn, h0);
    IsLong(h0);
    var info := BranchInfo(BranchKind.TBH, COND_AL, rn, Some(rm), 1, false, 1);
    PlanFollows(m, regs, pc, h0, h1, info);
    HalfAddress(regs, pc, rn, rm, info);
    HalfwordPlan(m, regs, pc, Plus(TableBase(regs, pc, rn), regs(rm) << 1), entry, read, offset, info);
  }

  // ---------------------------------------------------------------------------
  // ARM: the plan covers every successor
  // ---------------------------------------------------------------------------

  /** One successor, or two when the instruction can fall through or will return. */
  predicate StopsFor(o: Outcome, always: bool, n: Next, next: Next) {
    if always then StopsAt(o, n) else StopsAtEither(o, n, next)
  }

  predicate Always(info: BranchInfo) {
    info.cond == COND_AL && !Links(info.kind)
  }

  lemma ARMPlanFollows(m: Memory, regs: Registers, pc: bv32, insn: bv32, info: BranchInfo)
    requires ReadWord(m, pc) == Some(insn) && Arm.Decode(insn) == Some(info)
    ensures ARMPlan(m, regs, pc) == ARMPlanFor(m, regs, pc, info)
  {
  }

  lemma ARMStops(m: Memory, regs: Registers, pc: bv32, info: BranchInfo, b: Branch, n: Next)
    requires ARMBranch(m, regs, pc, info) == b && Exchange(b) == To(n.pc, if n.thumb then 2 else 4)
    requires n.pc & 1 == 0 && Plus(pc, 4) & 1 == 0
    ensures StopsFor(ARMPlanFor(m, regs, pc, info), Always(info), n, Next(Plus(pc, 4), false))
  {
    if Always(info) {
      CompleteOne(Links(info.kind), 4, b, n);
    } else {
      CompleteTwo(Links(info.kind), Next(Plus(pc, 4), false), b, n);
    }
  }

  /** An instruction that may fall through has the next one covered exactly when its
      target could be computed at all. */
  lemma ARMFallsThrough(m: Memory, regs: Registers, pc: bv32, info: BranchInfo, insn: bv32)
    requires ReadWord(m, pc) == Some(insn) && Arm.Decode(insn) == Some(info) && info.cond != COND_AL && Plus(pc, 4) & 1 == 0
    ensures var o := ARMPlan(m, regs, pc);
            o.Planned? && At(Next(Plus(pc, 4), false)) in Placed(o.plan) <==> ARMBranch(m, regs, pc, info).To?
  {
    ARMPlanFollows(m, regs, pc, insn, info);
    ARMBranchSized(m, regs, pc, info);
    EvenIsSet(Plus(pc, 4));
    CompleteFalls(Links(info.kind), Plus(pc, 4), ARMBranch(m, regs, pc, info));
  }

  lemma CompleteFalls(link: bool, next: bv32, b: Branch)
    requires next != UNSET && (b.Failing? ==> !b.outcome.Planned?)
    ensures var o := Complete(link, Some(next), 4, b);
            o.Planned? && At(Next(next, false)) in Placed(o.plan) <==> b.To?
  {
  }

  lemma ARMTargets(pc: bv32, off: bv32)
    requires pc & 1 == 0 && off & 1 == 0
    ensures Plus(pc, off + 8) == pc + 8 + off && (pc + 8 + off) & 1 == 0 && Plus(pc, 4) & 1 == 0
  {
  }

  lemma FourIsEven(x: bv32)
    requires x & 3 == 0
    ensures x & 1 == 0
  {
  }

  lemma ARMRelative(m: Memory, regs: Registers, pc: bv32, target: bv32, info: BranchInfo)
    requires info.kind in {B_i, BL_i, BLX_i} && Plus(pc, info.disp) == target && target & 1 == 0 && Plus(pc, 4) & 1 == 0
    ensures StopsFor(ARMPlanFor(m, regs, pc, info), Always(info), Next(target, info.kind == BLX_i), Next(Plus(pc, 4), false))
  {
    ARMStops(m, regs, pc, info, To(target, if info.kind == BLX_i then 2 else 4), Next(target, info.kind == BLX_i));
  }

  lemma ARMRegister(m: Memory, regs: Registers, pc: bv32, info: BranchInfo, w: bv32, n: Next)
    requires info.kind in {BX_r, BLX_r, MOV_pc} && regs(info.reg1) == w && BXWritePC(w) == Some(n) && Plus(pc, 4) & 1 == 0
    ensures StopsFor(ARMPlanFor(m, regs, pc, info), Always(info), n, Next(Plus(pc, 4), false))
  {
    ExchangeMeans(w, n);
    ARMStops(m, regs, pc, info, To(w, 0), n);
  }

  lemma ARMLoaded(m: Memory, regs: Registers, pc: bv32, a: bv32, w: bv32, info: BranchInfo, n: Next)
    requires info.kind in {LDR_pc, LDM_pc, POP_pc} && info.reg2 == None && Plus(regs(info.reg1), info.disp) == a
    requires ReadWord(m, a) == Some(w) && BXWritePC(w) == Some(n) && Plus(pc, 4) & 1 == 0
    ensures StopsFor(ARMPlanFor(m, regs, pc, info), Always(info), n, Next(Plus(pc, 4), false))
  {
    ExchangeMeans(w, n);
    ARMStops(m, regs, pc, info, To(w, 0), n);
  }

  lemma ARMSubtracted(m: Memory, regs: Registers, pc: bv32, info: BranchInfo, w: bv32, n: Next)
    requires info.kind == SUB_pc && Minus(regs(info.reg1), info.disp) == w && BXWritePC(w) == Some(n) && Plus(pc, 4) & 1 == 0
    ensures StopsFor(ARMPlanFor(m, regs, pc, info), Always(info), n, Next(Plus(pc, 4), false))
  {
    ExchangeMeans(w, n);
    ARMStops(m, regs, pc, info, To(w, 0), n);
  }

  lemma ARMShifted(m: Memory, regs: Registers, pc: bv32, a: bv32, w: bv32, info: BranchInfo, n: Next)
    requires info.kind == LDR_reg_pc && ShiftedAddress(regs, info) == a
    requires ReadWord(m, a) == Some(w) && BXWritePC(w) == Some(n) && Plus(pc, 4) & 1 == 0
    ensures StopsFor(ARMPlanFor(m, regs, pc, info), Always(info), n, Next(Plus(pc, 4), false))
  {
    ExchangeMeans(w, n);
    ARMStops(m, regs, pc, info, To(w, 0), n);
  }

  lemma ARMStraightCovered(m: Memory, regs: Registers, pc: bv32, insn: bv32)
    requires pc & 3 == 0 && ReadWord(m, pc) == Some(insn) && Arm.Decode(insn) == None
    ensures StopsAt(ARMPlan(m, regs, pc), Next(Plus(pc, 4), false))
  {
    FourIsEven(pc);
    ARMTargets(pc, 0);
    StraightStops(Plus(pc, 4), false);
  }

  lemma ARMBCovered(m: Memory, regs: Registers, pc: bv32, cond: bv4, link: bv32, off: bv32, insn: bv32)
    requires pc & 3 == 0 && ReadWord(m, pc) == Some(insn)
    requires cond != 15 && link <= 1 && Arm.Fits26(off) && off & 3 == 0 && insn == Arm.EncodeB(cond, link, off)
    ensures StopsFor(ARMPlan(m, regs, pc), cond == COND_AL && link == 0, Next(pc + 8 + off, false), Next(Plus(pc, 4), false))
  {
    Arm.BInverts(cond, link, off, insn);
    FourIsEven(pc);
    FourIsEven(off);
    ARMTargets(pc, off);
    var info := BranchInfo(if link == 1 then BL_i else B_i, cond, 0, None, off + 8, false, 1);
    ARMPlanFollows(m, regs, pc, insn, info);
    ARMRelative(m, regs, pc, pc + 8 + off, info);
  }

  /** A call that switches to Thumb state. */
  lemma ARMBLXCovered(m: Memory, regs: Registers, pc: bv32, off: bv32, insn: bv32)
    requires pc & 3 == 0 && ReadWord(m, pc) == Some(insn)
    requires Arm.Fits26(off) && off & 1 == 0 && insn == Arm.EncodeBLX(off)
    ensures StopsAtEither(ARMPlan(m, regs, pc), Next(pc + 8 + off, true), Next(Plus(pc, 4), false))
  {
    Arm.BLXInverts(off, insn);
    FourIsEven(pc);
    ARMTargets(pc, off);
    var info := BranchInfo(BLX_i, COND_AL, 0, None, off + 8, false, 1);
    ARMPlanFollows(m, regs, pc, insn, info);
    ARMRelative(m, regs, pc, pc + 8 + off, info);
  }

  lemma ARMBXCovered(m: Memory, regs: Registers, pc: bv32, cond: bv4, link: bv32, rm: bv4, n: Next, insn: bv32)
    requires pc & 3 == 0 && ReadWord(m, pc) == Some(insn)
    requires cond != 15 && link <= 1 && rm != 15 && insn == Arm.EncodeBX(cond, link, rm) && BXWritePC(regs(rm)) == Some(n)
    ensures StopsFor(ARMPlan(m, regs, pc), cond == COND_AL && link == 0, n, Next(Plus(pc, 4), false))
  {
    Arm.BXInverts(cond, link, rm, insn);
    FourIsEven(pc);
    ARMTargets(pc, 0);
    var info := BranchInfo(if link == 1 then BLX_r else BX_r, cond, rm, None, 0, false, 1);
    ARMPlanFollows(m, regs, pc, insn, info);
    ARMRegister(m, regs, pc, info, regs(rm), n);
  }

  lemma ARMLDRCovered(m: Memory, regs: Registers, pc: bv32, cond: bv4, index: bv32, add: bv32, writeback: bv32, rn: bv4,
                      imm12: bv32, w: bv32, n: Next, insn: bv32)
    requires pc & 3 == 0 && ReadWord(m, pc) == Some(insn) && cond != 15 && rn != 15
    requires index <= 1 && add <= 1 && writeback <= 1 && imm12 <= 0xfff
    requires insn == Arm.EncodeLDR(cond, index, add, writeback, rn, imm12)
    requires ReadWord(m, Plus(regs(rn), Indexed(index == 1, add == 1, imm12))) == Some(w) && BXWritePC(w) == Some(n)
    ensures StopsFor(ARMPlan(m, regs, pc), cond == COND_AL, n, Next(Plus(pc, 4), false))
  {
    Arm.LDRInverts(cond, index, add, writeback, rn, imm12, insn);
    FourIsEven(pc);
    ARMTargets(pc, 0);
    var info := BranchInfo(LDR_pc, cond, rn, None, Indexed(index == 1, add == 1, imm12), false, 1);
    ARMPlanFollows(m, regs, pc, insn, info);
    ARMLoaded(m, regs, pc, Plus(regs(rn), Indexed(index == 1, add == 1, imm12)), w, info, n);
  }

  lemma ARMLDMCovered(m: Memory, regs: Registers, pc: bv32, cond: bv4, writeback: bv32, rn: bv4, list: bv16, w: bv32, n: Next, insn: bv32)
    requires pc & 3 == 0 && ReadWord(m, pc) == Some(insn) && cond != 15 && rn != 15
    requires writeback <= 1 && list < 0x8000 && insn == Arm.EncodeLDM(cond, writeback, rn, list)
    requires ReadWord(m, Plus(regs(rn), ListBytes(list))) == Some(w) && BXWritePC(w) == Some(n)
    ensures StopsFor(ARMPlan(m, regs, pc), cond == COND_AL, n, Next(Plus(pc, 4), false))
  {
    Arm.LDMInverts(cond, writeback, rn, list, insn);
    FourIsEven(pc);
    ARMTargets(pc, 0);
    var info := BranchInfo(if writeback == 1 && rn == 13 then POP_pc else LDM_pc, cond, rn, None, ListBytes(list), false, 1);
    ARMPlanFollows(m, regs, pc, insn, info);
    ARMLoaded(m, regs, pc, Plus(regs(rn), ListBytes(list)), w, info, n);
  }

  lemma ARMMOVCovered(m: Memory, regs: Registers, pc: bv32, cond: bv4, rm: bv4, n: Next, insn: bv32)
    requires pc & 3 == 0 && ReadWord(m, pc) == Some(insn)
    requires cond != 15 && rm != 15 && insn == Arm.EncodeMOV(cond, rm) && BXWritePC(regs(rm)) == Some(n)
    ensures StopsFor(ARMPlan(m, regs, pc), cond == COND_AL, n, Next(Plus(pc, 4), false))
  {
    Arm.MOVInverts(cond, rm, insn);
    FourIsEven(pc);
    ARMTargets(pc, 0);
    var info := BranchInfo(MOV_pc, cond, rm, None, 0, false, 1);
    ARMPlanFollows(m, regs, pc, insn, info);
    ARMRegister(m, regs, pc, info, regs(rm), n);
  }

  lemma ARMSUBCovered(m: Memory, regs: Registers, pc: bv32, cond: bv4, rn: bv4, imm12: bv32, n: Next, insn: bv32)
    requires pc & 3 == 0 && ReadWord(m, pc) == Some(insn) && cond != 15 && rn != 15 && imm12 <= 0xfff
    requires insn == Arm.EncodeSUB(cond, rn, imm12) && BXWritePC(Minus(regs(rn), Arm.ExpandImmediate(imm12))) == Some(n)
    ensures StopsFor(ARMPlan(m, regs, pc), cond == COND_AL, n, Next(Plus(pc, 4), false))
  {
    Arm.SUBInverts(cond, rn, imm12, insn);
    FourIsEven(pc);
    ARMTargets(pc, 0);
    var info := BranchInfo(SUB_pc, cond, rn, None, Arm.ExpandImmediate(imm12), false, 1);
    ARMPlanFollows(m, regs, pc, insn, info);
    ARMSubtracted(m, regs, pc, info, Minus(regs(rn), Arm.ExpandImmediate(imm12)), n);
  }

  lemma ARMLDRRegCovered(m: Memory, regs: Registers, pc: bv32, cond: bv4, writeback: bv32, rn: bv4, rm: bv4, imm5: bv32,
                         w: bv32, n: Next, insn: bv32)
    requires pc & 3 == 0 && ReadWord(m, pc) == Some(insn) && cond != 15 && rn != 15 && rm != 15
    requires writeback <= 1 && imm5 <= 31 && insn == Arm.EncodeLDRReg(cond, writeback, rn, rm, imm5)
    requires ReadWord(m, Plus(regs(rn), ShiftAny(regs(rm), imm5))) == Some(w) && BXWritePC(w) == Some(n)
    ensures StopsFor(ARMPlan(m, regs, pc), cond == COND_AL, n, Next(Plus(pc, 4), false))
  {
    Arm.LDRRegInverts(cond, writeback, rn, rm, imm5, insn);
    FourIsEven(pc);
    ARMTargets(pc, 0);
    var info := BranchInfo(LDR_reg_pc, cond, rn, Some(rm), imm5, true, 1);
    ARMPlanFollows(m, regs, pc, insn, info);
    ARMShifted(m, regs, pc, Plus(regs(rn), ShiftAny(regs(rm), imm5)), w, info, n);
  }

  // ---------------------------------------------------------------------------
  // The code
  // ---------------------------------------------------------------------------

  /** Sets the branch variables; `failed` is the early return. */
  method ThumbTarget(m: Memory, regs: Registers, pc: bv32, info: BranchInfo)
    returns (branchPC: bv32, branchSize: nat, failed: Option<Outcome>)
    ensures ThumbBranch(m, regs, pc, info) == (if failed.Some? then Failing(failed.value) else To(branchPC, branchSize))
  {
    branchPC, branchSize, failed := UNSET, 0, None;
    match info.kind
    case B_i | BL_i | Bcc_i | CB_i =>
      branchPC, branchSize := RelativeTarget(pc, info, 2);
    case BX_r | BLX_r | MOV_pc =>
      branchPC := regs(info.reg1);
    case LDR_pc =>
      branchPC, failed := LoadTarget(m, LDRAddress(regs, info));
    case LDM_pc | POP_pc =>
      branchPC, failed := LoadTarget(m, Plus(regs(info.reg1), info.disp));
    case BLX_i =>
      branchPC := AlignTarget(pc, info);
      branchSize := 4;
    case SUB_pc =>
      branchPC := Minus(regs(info.reg1), info.disp);
    case TBB | TBH =>
      branchPC, branchSize, failed := TableTarget(m, regs, pc, info);
    case ALU_pc | LDR_reg_pc | Unset_type =>
      failed := Some(Unsupported);
  }

  method RelativeTarget(pc: bv32, info: BranchInfo, size: nat) returns (branchPC: bv32, branchSize: nat)
    ensures Relative(pc, info, size) == To(branchPC, branchSize)
  {
    branchPC, branchSize := Plus(pc, info.disp), size;
  }

  method AlignTarget(pc: bv32, info: BranchInfo) returns (branchPC: bv32)
    ensures Aligned(pc, info) == To(branchPC, 4)
  {
    branchPC := Plus(pc, info.disp);
    branchPC := AlignUp(branchPC, info.align);
  }

  method LoadTarget(m: Memory, a: bv32) returns (branchPC: bv32, failed: Option<Outcome>)
    ensures Loaded(m, a) == (if failed.Some? then Failing(failed.value) else To(branchPC, 0))
  {
    var word := ReadWord(m, a);
    if word.None? {
      return UNSET, Some(ReadFailed);
    }
    return word.value, None;
  }

  method TableTarget(m: Memory, regs: Registers, pc: bv32, info: BranchInfo)
    returns (branchPC: bv32, branchSize: nat, failed: Option<Outcome>)
    ensures Table(m, regs, pc, info) == (if failed.Some? then Failing(failed.value) else To(branchPC, branchSize))
  {
    var offset := TableOffset(m, info.kind, TableAddress(regs, info));
    if offset.None? {
      return UNSET, 0, Some(ReadFailed);
    }
    return Plus(pc + 4, offset.value << 1), 2, None;
  }

  /** A size not set yet comes from the low bit of the target. */
  method Settle(target: bv32, targetSize: nat) returns (branchPC: bv32, branchSize: nat)
    ensures Exchange(To(target, targetSize)) == To(branchPC, branchSize)
  {
    if targetSize != 0 {
      return target, targetSize;
    }
    branchSize := if Odd(target) then 2 else 4;
    branchPC := Even(target);
  }

  method Finish(link: bool, next: Option<bv32>, nextSize: nat, target: bv32, targetSize: nat) returns (o: Outcome)
    ensures o == Complete(link, next, nextSize, To(target, targetSize))
  {
    var branchPC, branchSize := Settle(target, targetSize);
    if next.None? {
      return Planned(Plan(link, UNSET, 0, branchPC, branchSize));
    }
    return Planned(Plan(link, next.value, nextSize, branchPC, branchSize));
  }

  method ARMTarget(m: Memory, regs: Registers, pc: bv32, info: BranchInfo)
    returns (branchPC: bv32, branchSize: nat, failed: Option<Outcome>)
    ensures ARMBranch(m, regs, pc, info) == (if failed.Some? then Failing(failed.value) else To(branchPC, branchSize))
  {
    branchPC, branchSize, failed := UNSET, 0, None;
    match info.kind
    case B_i | BL_i | Bcc_i =>
      branchPC, branchSize := RelativeTarget(pc, info, 4);
    case BX_r | BLX_r | MOV_pc =>
      branchPC := regs(info.reg1);
    case LDR_pc =>
      branchPC, failed := LoadTarget(m, LDRAddress(regs, info));
    case LDR_reg_pc =>
      branchPC, failed := LoadTarget(m, ShiftedAddress(regs, info));
    case LDM_pc | POP_pc =>
      branchPC, failed := LoadTarget(m, Plus(regs(info.reg1), info.disp));
    case BLX_i =>
      branchPC, branchSize := RelativeTarget(pc, info, 2);
    case SUB_pc =>
      branchPC := Minus(regs(info.reg1), info.disp);
    case Unset_type =>
      failed := Some(Undefined);
    case ALU_pc | CB_i | TBB | TBH =>
      failed := Some(Unsupported);
  }

  method PrepareIT(m: Memory, pc: bv32, count: nat) returns (o: Outcome)
    ensures o == ITPlan(m, pc + 2, count)
  {
    var nextPC := pc + 2;
    var hs := ReadHalves(m, nextPC, 8);
    if hs.None? {
      return ReadFailed;
    }
    var skip := SkipBlock(hs.value, count);
    if skip.None? {
      return OutOfBounds;
    }
    return Straight(Past(nextPC, skip.value), 2);
  }

  method PrepareThumbBranch(m: Memory, regs: Registers, pc: bv32, info: BranchInfo, size: bv32) returns (o: Outcome)
    ensures o == ThumbPlanFor(m, regs, pc, info, size)
  {
    var next := None;
    var link := Links(info.kind);
    if info.kind == Bcc_i || info.kind == CB_i || link {
      next := Some(Plus(pc, size));
    }
    var branchPC, branchSize, failed := ThumbTarget(m, regs, pc, info);
    if failed.Some? {
      return failed.value;
    }
    o := Finish(link, next, 2, branchPC, branchSize);
  }

  method PrepareThumb(m: Memory, regs: Registers, pc: bv32) returns (o: Outcome)
    ensures o == ThumbPlan(m, regs, pc)
  {
    var fetched := Fetch(m, pc);
    if fetched.None? {
      return ReadFailed;
    }
    var (h0, h1) := fetched.value;
    if IsIT(h0) {
      o := PrepareIT(m, pc, ITCount(h0));
      return;
    }
    var decoded := Thumb.Decode(h0, h1);
    if decoded.None? {
      return Straight(Plus(pc, Thumb.InstSize(h0)), 2);
    }
    o := PrepareThumbBranch(m, regs, pc, decoded.value, Thumb.InstSize(h0));
  }

  method PrepareARMBranch(m: Memory, regs: Registers, pc: bv32, info: BranchInfo) returns (o: Outcome)
    ensures o == ARMPlanFor(m, regs, pc, info)
  {
    var next := None;
    var link := Links(info.kind);
    if info.cond != COND_AL || link {
      next := Some(Plus(pc, 4));
    }
    var branchPC, branchSize, failed := ARMTarget(m, regs, pc, info);
    if failed.Some? {
      return failed.value;
    }
    o := Finish(link, next, 4, branchPC, branchSize);
  }

  method PrepareARM(m: Memory, regs: Registers, pc: bv32) returns (o: Outcome)
    ensures o == ARMPlan(m, regs, pc)
  {
    var word := ReadWord(m, pc);
    if word.None? {
      return ReadFailed;
    }
    var decoded := Arm.Decode(word.value);
    if decoded.None? {
      return Straight(Plus(pc, 4), 4);
    }
    o := PrepareARMBranch(m, regs, pc, decoded.value);
  }

  // ---------------------------------------------------------------------------
  // Sizes
  // ---------------------------------------------------------------------------

  /** Whatever is set has a size: the assertions made before each is added. */
  predicate Sized(plan: Plan) {
    (plan.branchPC != UNSET ==> plan.branchSize in {2, 4}) && (plan.nextPC != UNSET ==> plan.nextSize in {2, 4})
  }

  lemma CompleteSized(link: bool, next: Option<bv32>, nextSize: nat, b: Branch)
    requires nextSize in {2, 4} && (b.To? ==> b.size in {0, 2, 4}) && (b.Failing? ==> !b.outcome.Planned?)
    ensures Complete(link, next, nextSize, b).Planned? ==> Sized(Complete(link, next, nextSize, b).plan)
  {
  }

  lemma ThumbBranchSized(m: Memory, regs: Registers, pc: bv32, info: BranchInfo)
    ensures var b := ThumbBranch(m, regs, pc, info); (b.To? ==> b.size in {0, 2, 4}) && (b.Failing? ==> !b.outcome.Planned?)
  {
  }

  lemma ARMBranchSized(m: Memory, regs: Registers, pc: bv32, info: BranchInfo)
    ensures var b := ARMBranch(m, regs, pc, info); (b.To? ==> b.size in {0, 2, 4}) && (b.Failing? ==> !b.outcome.Planned?)
  {
  }

  lemma ThumbPlanSized(m: Memory, regs: Registers, pc: bv32, info: BranchInfo, size: bv32)
    ensures var o := ThumbPlanFor(m, regs, pc, info, size); o.Planned? ==> Sized(o.plan)
  {
    ThumbBranchSized(m, regs, pc, info);
    var stays := info.kind == Bcc_i || info.kind == CB_i || Links(info.kind);
    CompleteSized(Links(info.kind), if stays then Some(Plus(pc, size)) else None, 2, ThumbBranch(m, regs, pc, info));
  }

  lemma ThumbSizes(m: Memory, regs: Registers, pc: bv32)
    ensures var o := ThumbPlan(m, regs, pc); o.Planned? ==> Sized(o.plan)
  {
    var f := Fetch(m, pc);
    if f.Some? && !IsIT(f.value.0) {
      var d := Thumb.Decode(f.value.0, f.value.1);
      if d.Some? {
        ThumbPlanSized(m, regs, pc, d.value, Thumb.InstSize(f.value.0));
      }
    }
  }

  lemma ARMSizes(m: Memory, regs: Registers, pc: bv32)
    ensures var o := ARMPlan(m, regs, pc); o.Planned? ==> Sized(o.plan)
  {
    var word := ReadWord(m, pc);
    if word.Some? {
      var d := Arm.Decode(word.value);
      if d.Some? {
        var info := d.value;
        ARMBranchSized(m, regs, pc, info);
        var next := if info.cond != COND_AL || Links(info.kind) then Some(Plus(pc, 4)) else None;
        CompleteSized(Links(info.kind), next, 4, ARMBranch(m, regs, pc, info));
      }
    }
  }
}
