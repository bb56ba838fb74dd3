/** From the next instruction to a trap in memory: what a single step leaves behind. */
module StepSites {
  import opened ArmTypes
  import opened Common
  import opened SingleStep
  import opened StepBreakpoints
  import opened Successors
  import Arm
  import Sites
  import Thumb

  // ---------------------------------------------------------------------------
  // The process as the planner and the manager see it
  // ---------------------------------------------------------------------------

  /** The planner reads the memory the manager patches, traps and all. */
  function View(m: ByteMap): Memory {
    Memory(a => if a as nat in m then m[a as nat] as bv8 else 0, a => a as nat in m)
  }

  /** The manager takes the Thumb bit off an address; an unset one asks for nothing. */
  function Asked(pc: bv32, size: nat): Option<Want> {
    if pc == UNSET then None else Some(Want(Even(pc) as nat, size))
  }

  lemma AskedIs(pc: bv32, size: nat)
    ensures Asked(pc, size) == if pc == 0xffff_ffff then None else Some(Want((pc & 0xffff_fffe) as nat, size))
  {
  }

  function PlacePlan(s: Stepping, plan: Plan, works: bool, works': bool): Placing {
    Place(s, Asked(plan.branchPC, plan.branchSize), Asked(plan.nextPC, plan.nextSize), works, works')
  }

  lemma EvenIsKept(pc: bv32)
    requires pc & 1 == 0
    ensures Even(pc) == pc
  {
    ClearLow(pc);
  }

  /** A covered instruction was asked for. */
  lemma CoveredIsAsked(o: Outcome, n: Next)
    requires Covers(o, n) && n.pc & 1 == 0
    ensures var w := Want(n.pc as nat, At(n).size);
            Asked(o.plan.branchPC, o.plan.branchSize) == Some(w) || Asked(o.plan.nextPC, o.plan.nextSize) == Some(w)
  {
    EvenIsKept(n.pc);
  }

  /** The site at a covered instruction has the size of its state. */
  predicate StateKept(s: Stepping, plan: Plan, n: Next) {
    SizeKept(s, Asked(plan.branchPC, plan.branchSize), Asked(plan.nextPC, plan.nextSize), Want(n.pc as nat, At(n).size))
  }

  /** Wherever the plan covers an instruction there is a one-shot execution site once it
      is placed, and it is of the size that tells the state exactly when no older site
      there has another and the branch did not take the address in another state. */
  lemma CoveredIsSite(s: Stepping, o: Outcome, n: Next, works: bool, works': bool)
    requires Covers(o, n) && n.pc & 1 == 0 && PlacePlan(s, o.plan, works, works').error == Sites.Success
    ensures var after := PlacePlan(s, o.plan, works, works').state.sites;
            && n.pc as nat in after && after[n.pc as nat].lifetime.oneShot && after[n.pc as nat].mode == Sites.EXEC
            && (after[n.pc as nat].size == At(n).size <==> StateKept(s, o.plan, n))
  {
    CoveredIsAsked(o, n);
    WantedAreSites(s, Asked(o.plan.branchPC, o.plan.branchSize), Asked(o.plan.nextPC, o.plan.nextSize), works, works',
                   Want(n.pc as nat, At(n).size));
  }

  lemma AskedSizes(plan: Plan)
    requires Sized(plan)
    ensures var branch, next := Asked(plan.branchPC, plan.branchSize), Asked(plan.nextPC, plan.nextSize);
            (branch.Some? ==> branch.value.size in {2, 4}) && (next.Some? ==> next.value.size in {2, 4})
  {
  }

  /** What a placed plan leaves at an instruction it covers: a one-shot execution site, of
      the size of its state under the condition above, and with its trap in memory
      exactly when neither breakpoint of the step runs into it. */
  predicate StopsThere(s: Stepping, plan: Plan, t: Stepping, n: Next) {
    && n.pc as nat in t.sites && t.sites[n.pc as nat].lifetime.oneShot && t.sites[n.pc as nat].mode == Sites.EXEC
    && (t.sites[n.pc as nat].size == At(n).size <==> StateKept(s, plan, n))
    && (TrappedAt(t.memory, TrapOf(t, n.pc as nat)) <==> TrapKept(s, plan, TrapOf(t, n.pc as nat)))
  }

  predicate TrapKept(s: Stepping, plan: Plan, v: Want) {
    !Spoiled(s, Asked(plan.branchPC, plan.branchSize), Asked(plan.nextPC, plan.nextSize), v)
  }

  lemma CoveredStops(s: Stepping, o: Outcome, n: Next, works: bool, works': bool)
    requires Covers(o, n) && n.pc & 1 == 0 && Sized(o.plan) && s.enabled && AllTrapped(s)
    requires PlacePlan(s, o.plan, works, works').error == Sites.Success
    ensures StopsThere(s, o.plan, PlacePlan(s, o.plan, works, works').state, n)
  {
    CoveredIsSite(s, o, n, works, works');
    AskedSizes(o.plan);
    TrapsAfter(s, Asked(o.plan.branchPC, o.plan.branchSize), Asked(o.plan.nextPC, o.plan.nextSize), works, works', n.pc as nat);
  }

  // ---------------------------------------------------------------------------
  // What a plan depends on
  // ---------------------------------------------------------------------------

  predicate SameByte(m: Memory, m': Memory, a: bv32) {
    m.mapped(a) == m'.mapped(a) && m.bytes(a) == m'.bytes(a)
  }

  /** The byte is one of the two, or four, there. */
  predicate InHalf(a: bv32, base: bv32) {
    a == base || a == base + 1
  }

  predicate InWord(a: bv32, base: bv32) {
    InHalf(a, base) || InHalf(a, base + 2)
  }

  /** In the k-th halfword from there. */
  predicate InBlock(a: bv32, base: bv32, k: nat) {
    InHalf(a, Past(base, k))
  }

  /** The bytes a branch takes its target from. */
  predicate ReadsByBranch(regs: Registers, info: BranchInfo, thumb: bool, a: bv32) {
    match info.kind
    case LDR_pc => InWord(a, LDRAddress(regs, info))
    case LDR_reg_pc => !thumb && InWord(a, ShiftedAddress(regs, info))
    case LDM_pc | POP_pc => InWord(a, Plus(regs(info.reg1), info.disp))
    case TBB => thumb && a == TableAddress(regs, info)
    case TBH => thumb && InHalf(a, TableAddress(regs, info))
    case _ => false
  }

  /** The bytes a Thumb plan reads: eight at pc, sixteen after an IT instruction, and
      those of the branch. */
  predicate ThumbReads(m: Memory, regs: Registers, pc: bv32, a: bv32) {
    || InWord(a, pc) || InWord(a, pc + 4)
    || match Fetch(m, pc)
       case None => false
       case Some((h0, h1)) =>
         if IsIT(h0) then exists k :: 0 <= k < 8 && InBlock(a, Plus(pc, 2), k)
         else
           match Thumb.Decode(h0, h1)
           case None => false
           case Some(info) => ReadsByBranch(regs, info, true, a)
  }

  predicate ARMReads(m: Memory, regs: Registers, pc: bv32, a: bv32) {
    || InWord(a, pc)
    || match ReadWord(m, pc)
       case None => false
       case Some(insn) =>
         match Arm.Decode(insn)
         case None => false
         case Some(info) => ReadsByBranch(regs, info, false, a)
  }

  lemma SameWordRead(m: Memory, m': Memory, a: bv32)
    requires forall x | InWord(x, a) :: SameByte(m, m', x)
    ensures ReadWord(m, a) == ReadWord(m', a)
  {
    SameHalfRead(m, m', a);
    SameHalfRead(m, m', a + 2);
  }

  lemma SameHalfRead(m: Memory, m': Memory, a: bv32)
    requires forall x | InHalf(x, a) :: SameByte(m, m', x)
    ensures ReadHalf(m, a) == ReadHalf(m', a)
  {
    assert InHalf(a, a) && InHalf(a + 1, a);
  }

  lemma SameThumbBranch(m: Memory, m': Memory, regs: Registers, pc: bv32, info: BranchInfo)
    requires forall x | ReadsByBranch(regs, info, true, x) :: SameByte(m, m', x)
    ensures ThumbBranch(m, regs, pc, info) == ThumbBranch(m', regs, pc, info)
  {
    match info.kind
    case LDR_pc => SameWordRead(m, m', LDRAddress(regs, info));
    case LDM_pc => SameWordRead(m, m', Plus(regs(info.reg1), info.disp));
    case POP_pc => SameWordRead(m, m', Plus(regs(info.reg1), info.disp));
    case TBB => assert ReadsByBranch(regs, info, true, TableAddress(regs, info));
    case TBH => SameHalfRead(m, m', TableAddress(regs, info));
    case _ =>
  }

  lemma SameARMBranch(m: Memory, m': Memory, regs: Registers, pc: bv32, info: BranchInfo)
    requires forall x | ReadsByBranch(regs, info, false, x) :: SameByte(m, m', x)
    ensures ARMBranch(m, regs, pc, info) == ARMBranch(m', regs, pc, info)
  {
    match info.kind
    case LDR_pc => SameWordRead(m, m', LDRAddress(regs, info));
    case LDR_reg_pc => SameWordRead(m, m', ShiftedAddress(regs, info));
    case LDM_pc => SameWordRead(m, m', Plus(regs(info.reg1), info.disp));
    case POP_pc => SameWordRead(m, m', Plus(regs(info.reg1), info.disp));
    case _ =>
  }

  lemma SameFetch(m: Memory, m': Memory, pc: bv32)
    requires forall x | InWord(x, pc) || InWord(x, pc + 4) :: SameByte(m, m', x)
    ensures Fetch(m, pc) == Fetch(m', pc)
  {
    SameHalfRead(m, m', pc);
    SameHalfRead(m, m', pc + 2);
    SameWordRead(m, m', pc + 4);
  }

  lemma {:induction false} SameBlock(m: Memory, m': Memory, a: bv32, n: nat)
    requires forall x, k | 0 <= k < n && InBlock(x, a, k) :: SameByte(m, m', x)
    ensures ReadHalves(m, a, n) == ReadHalves(m', a, n)
  {
    if n > 0 {
      SameBlock(m, m', a, n - 1);
      forall x | InHalf(x, Past(a, n - 1)) ensures SameByte(m, m', x) {
        assert InBlock(x, a, n - 1);
      }
      SameHalfRead(m, m', Past(a, n - 1));
    }
  }

  lemma SameITPlan(m: Memory, m': Memory, a: bv32, count: nat)
    requires forall x, k | 0 <= k < 8 && InBlock(x, a, k) :: SameByte(m, m', x)
    ensures ITPlan(m, a, count) == ITPlan(m', a, count)
  {
    SameBlock(m, m', a, 8);
  }

  /** Two memories that agree on the bytes a plan reads have the same plan. */
  lemma SameThumbPlan(m: Memory, m': Memory, regs: Registers, pc: bv32)
    requires forall a | ThumbReads(m, regs, pc, a) :: SameByte(m, m', a)
    ensures ThumbPlan(m, regs, pc) == ThumbPlan(m', regs, pc)
  {
    SameFetch(m, m', pc);
    match Fetch(m, pc)
    case None =>
    case Some((h0, h1)) =>
      if IsIT(h0) {
        forall x, k | 0 <= k < 8 && InBlock(x, Plus(pc, 2), k) ensures SameByte(m, m', x) {
          assert ThumbReads(m, regs, pc, x);
        }
        SameITPlan(m, m', Plus(pc, 2), ITCount(h0));
      } else {
        match Thumb.Decode(h0, h1)
        case None =>
        case Some(info) =>
          forall x | ReadsByBranch(regs, info, true, x) ensures SameByte(m, m', x) {
            assert ThumbReads(m, regs, pc, x);
          }
          SameThumbBranch(m, m', regs, pc, info);
      }
  }

  lemma SameARMPlan(m: Memory, m': Memory, regs: Registers, pc: bv32)
    requires forall a | ARMReads(m, regs, pc, a) :: SameByte(m, m', a)
    ensures ARMPlan(m, regs, pc) == ARMPlan(m', regs, pc)
  {
    SameWordRead(m, m', pc);
    match ReadWord(m, pc)
    case None =>
    case Some(insn) =>
      match Arm.Decode(insn)
      case None =>
      case Some(info) =>
        forall x | ReadsByBranch(regs, info, false, x) ensures SameByte(m, m', x) {
          assert ARMReads(m, regs, pc, x);
        }
        SameARMBranch(m, m', regs, pc, info);
  }

  /** No site lies on a byte that the plan for the program would read. */
  ghost predicate ThumbClear(program: ByteMap, s: Stepping, regs: Registers, pc: bv32) {
    forall a | ThumbReads(View(program), regs, pc, a) :: Clear(s, a as nat)
  }

  ghost predicate ARMClear(program: ByteMap, s: Stepping, regs: Registers, pc: bv32) {
    forall a | ARMReads(View(program), regs, pc, a) :: Clear(s, a as nat)
  }

  lemma ClearIsSame(program: ByteMap, s: Stepping, a: bv32)
    requires Under(program, s) && Clear(s, a as nat)
    ensures SameByte(View(program), View(s.memory), a)
  {
  }

  /** The traps in memory do not change the plan if none lies on the bytes it reads. */
  lemma ThumbUndisturbed(program: ByteMap, s: Stepping, regs: Registers, pc: bv32)
    requires Under(program, s) && ThumbClear(program, s, regs, pc)
    ensures ThumbPlan(View(s.memory), regs, pc) == ThumbPlan(View(program), regs, pc)
  {
    forall a | ThumbReads(View(program), regs, pc, a) ensures SameByte(View(program), View(s.memory), a) {
      ClearIsSame(program, s, a);
    }
    SameThumbPlan(View(program), View(s.memory), regs, pc);
  }

  lemma ARMUndisturbed(program: ByteMap, s: Stepping, regs: Registers, pc: bv32)
    requires Under(program, s) && ARMClear(program, s, regs, pc)
    ensures ARMPlan(View(s.memory), regs, pc) == ARMPlan(View(program), regs, pc)
  {
    forall a | ARMReads(View(program), regs, pc, a) ensures SameByte(View(program), View(s.memory), a) {
      ClearIsSame(program, s, a);
    }
    SameARMPlan(View(program), View(s.memory), regs, pc);
  }

  // ---------------------------------------------------------------------------
  // The whole step
  // ---------------------------------------------------------------------------

  /** In Thumb state: for every covered instruction of the program, whatever the
      registers, flags and memory, if every site has its trap and none lies on what the
      plan reads, a plan is found; and once it is placed the step stops at the program's
      next instruction. */
  lemma ThumbStepStops(program: ByteMap, s: Stepping, i: ThumbInsn, regs: Registers, f: Flags, pc: bv32, h0: bv16, h1: bv16,
                       n: Next, works: bool, works': bool)
    requires Fetched(regs, View(program), pc, h0, h1) && Encodes(i, h0, h1) && !Missed(i, regs, View(program), pc)
    requires ThumbNext(i, regs, f, View(program), pc) == Some(n)
    requires Under(program, s) && s.enabled && AllTrapped(s) && ThumbClear(program, s, regs, pc)
    ensures var o := ThumbPlan(View(s.memory), regs, pc);
            && o.Planned?
            && (PlacePlan(s, o.plan, works, works').error == Sites.Success ==>
                  StopsThere(s, o.plan, PlacePlan(s, o.plan, works, works').state, n))
  {
    var m := View(program);
    ThumbUndisturbed(program, s, regs, pc);
    ThumbStepCovers(i, regs, f, m, pc, h0, h1, n);
    ThumbNextIsEven(i, regs, f, m, pc, h0, h1, n);
    ThumbSizes(m, regs, pc);
    var o := ThumbPlan(m, regs, pc);
    if PlacePlan(s, o.plan, works, works').error == Sites.Success {
      CoveredStops(s, o, n, works, works');
    }
  }

  /** Likewise in ARM state. */
  lemma ARMStepStops(program: ByteMap, s: Stepping, i: ARMInsn, regs: Registers, f: Flags, pc: bv32, insn: bv32,
                     n: Next, works: bool, works': bool)
    requires ARMFetched(View(program), pc, insn) && EncodesARM(i, insn) && !Unreadable(i, regs, View(program))
    requires ARMNext(i, regs, f, View(program), pc) == Some(n)
    requires Under(program, s) && s.enabled && AllTrapped(s) && ARMClear(program, s, regs, pc)
    ensures var o := ARMPlan(View(s.memory), regs, pc);
            && o.Planned?
            && (PlacePlan(s, o.plan, works, works').error == Sites.Success ==>
                  StopsThere(s, o.plan, PlacePlan(s, o.plan, works, works').state, n))
  {
    var m := View(program);
    ARMUndisturbed(program, s, regs, pc);
    ARMStepCovers(i, regs, f, m, pc, insn, n);
    ARMNextIsEven(i, regs, f, m, pc, insn, n);
    ARMSizes(m, regs, pc);
    var o := ARMPlan(m, regs, pc);
    if PlacePlan(s, o.plan, works, works').error == Sites.Success {
      CoveredStops(s, o, n, works, works');
    }
  }

  // ---------------------------------------------------------------------------
  // Where it goes wrong
  // ---------------------------------------------------------------------------

  /** `BXNE r0` at 0x1000 with r0 = 0x1005: both successors lie at 0x1004, one in Thumb
      and one in ARM state. */
  lemma MergedPlan(m: Memory, regs: Registers)
    requires ReadWord(m, 0x1000) == Some(0x112f_ff10) && regs(0) == 0x1005
    ensures ARMPlan(m, regs, 0x1000) == Planned(Plan(false, 0x1004, 4, 0x1004, 2))
    ensures EncodesARM(ARMBX(1, 0, 0), 0x112f_ff10) && !Holds(1, Flags(false, true, false, false))
  {
    assert 0x112f_ff10 == Arm.EncodeBX(1, 0, 0);
    Arm.BXInverts(1, 0, 0, 0x112f_ff10);
    var info := BranchInfo(BX_r, 1, 0, None, 0, false, 1);
    ARMPlanFollows(m, regs, 0x1000, 0x112f_ff10, info);
  }

  /** The one site placed for them is of the Thumb size, although with the zero flag set
      the step falls through in ARM state. */
  lemma MergedSize(s: Stepping, regs: Registers)
    requires s.sites == map[] && ReadWord(View(s.memory), 0x1000) == Some(0x112f_ff10) && regs(0) == 0x1005
    ensures var o := ARMPlan(View(s.memory), regs, 0x1000);
            && o == Planned(Plan(false, 0x1004, 4, 0x1004, 2))
            && ARMNext(ARMBX(1, 0, 0), regs, Flags(false, true, false, false), View(s.memory), 0x1000) == Some(Next(0x1004, false))
            && At(Next(0x1004, false)).size == 4
            && PlacePlan(s, o.plan, true, true).state.sites == map[0x1004 := Sites.Site(0, 0x1004, Sites.TEMPORARY_ONE_SHOT, Sites.EXEC, 2)]
  {
    MergedPlan(View(s.memory), regs);
    MergedSite(s);
  }

  lemma AskedAt(pc: bv32, a: nat, size: nat)
    requires pc & 1 == 0 && pc != UNSET && a == pc as nat
    ensures Asked(pc, size) == Some(Want(a, size))
  {
    EvenIsKept(pc);
  }

  lemma MergedSite(s: Stepping)
    requires s.sites == map[]
    ensures PlacePlan(s, Plan(false, 0x1004, 4, 0x1004, 2), true, true).state.sites
         == map[0x1004 := Sites.Site(0, 0x1004, Sites.TEMPORARY_ONE_SHOT, Sites.EXEC, 2)]
  {
    AskedAt(0x1004, 0x1004, 2);
    AskedAt(0x1004, 0x1004, 4);
  }

  /** `BXNE r0` at 0x1000 with r0 = 0x1007: the target lies in the second half of the
      next instruction. */
  lemma OverlappingPlan(m: Memory, regs: Registers)
    requires ReadWord(m, 0x1000) == Some(0x112f_ff10) && regs(0) == 0x1007
    ensures ARMPlan(m, regs, 0x1000) == Planned(Plan(false, 0x1004, 4, 0x1006, 2))
  {
    assert 0x112f_ff10 == Arm.EncodeBX(1, 0, 0);
    Arm.BXInverts(1, 0, 0, 0x112f_ff10);
    var info := BranchInfo(BX_r, 1, 0, None, 0, false, 1);
    ARMPlanFollows(m, regs, 0x1000, 0x112f_ff10, info);
  }

  /** The trap for the next instruction is written over that of the branch: placing
      succeeds, and with the zero flag clear the step goes to a site without a trap. */
  lemma OverwrittenTrap(s: Stepping, regs: Registers)
    requires s.enabled && s.sites == map[] && IsMapped(s.memory, 0x1004, 4)
    requires ReadWord(View(s.memory), 0x1000) == Some(0x112f_ff10) && regs(0) == 0x1007
    ensures var o := ARMPlan(View(s.memory), regs, 0x1000);
            && o == Planned(Plan(false, 0x1004, 4, 0x1006, 2))
            && ARMNext(ARMBX(1, 0, 0), regs, Flags(false, false, false, false), View(s.memory), 0x1000) == Some(Next(0x1006, true))
            && var p := PlacePlan(s, o.plan, true, true);
               && p.error == Sites.Success && 0x1006 in p.state.sites
               && !TrappedAt(p.state.memory, TrapOf(p.state, 0x1006))
  {
    OverlappingPlan(View(s.memory), regs);
    OverwrittenSite(s);
  }

  lemma OverwrittenSite(s: Stepping)
    requires s.enabled && s.sites == map[] && IsMapped(s.memory, 0x1004, 4)
    ensures var p := PlacePlan(s, Plan(false, 0x1004, 4, 0x1006, 2), true, true);
            && p.error == Sites.Success && 0x1006 in p.state.sites
            && !TrappedAt(p.state.memory, TrapOf(p.state, 0x1006))
  {
    AskedAt(0x1006, 0x1006, 2);
    AskedAt(0x1004, 0x1004, 4);
    FirstIsOverwritten(s, Want(0x1006, 2), Want(0x1004, 4));
  }

  // ---------------------------------------------------------------------------
  // A trap under the program counter
  // ---------------------------------------------------------------------------

  // Addresses as numbers, byte by byte.

  function OfBytes(hi: bv8, lo: bv8): bv16 {
    ((hi as bv16) << 8) | (lo as bv16)
  }

  function OfHalves(hi: bv16, lo: bv16): bv32 {
    ((hi as bv32) << 16) | (lo as bv32)
  }

  lemma BytesValue(x: bv16, hi: bv8, lo: bv8)
    requires x == ((hi as bv16) << 8) | (lo as bv16)
    ensures x as nat == hi as nat * 0x100 + lo as nat
  {
  }

  lemma HalvesValue(x: bv32, hi: bv16, lo: bv16)
    requires x == ((hi as bv32) << 16) | (lo as bv32)
    ensures x as nat == hi as nat * 0x1_0000 + lo as nat
  {
  }

  lemma SplitHalf(x: bv16) returns (hi: bv8, lo: bv8)
    ensures x == OfBytes(hi, lo)
  {
    hi, lo := (x >> 8) as bv8, (x & 0xff) as bv8;
  }

  lemma SplitWord(x: bv32) returns (hi: bv16, lo: bv16)
    ensures x == OfHalves(hi, lo)
  {
    hi, lo := (x >> 16) as bv16, (x & 0xffff) as bv16;
  }

  lemma StepsInByte(x: bv16, y: bv16, hi: bv8, lo: bv8, more: bv8)
    requires x == OfBytes(hi, lo) && y == x + 1 && lo != 0xff && more == lo + 1
    ensures y == OfBytes(hi, more)
  {
  }

  lemma CarriesByte(x: bv16, y: bv16, hi: bv8, more: bv8)
    requires x == OfBytes(hi, 0xff) && y == x + 1 && x != 0xffff && more == hi + 1
    ensures hi != 0xff && y == OfBytes(more, 0)
  {
  }

  lemma StepsInHalf(x: bv32, y: bv32, hi: bv16, lo: bv16, more: bv16)
    requires x == OfHalves(hi, lo) && y == x + 1 && lo != 0xffff && more == lo + 1
    ensures y == OfHalves(hi, more)
  {
  }

  lemma CarriesHalf(x: bv32, y: bv32, hi: bv16, more: bv16)
    requires x == OfHalves(hi, 0xffff) && y == x + 1 && x != 0xffff_ffff && more == hi + 1
    ensures hi != 0xffff && y == OfHalves(more, 0)
  {
  }

  lemma NextByte(x: bv8, y: bv8)
    requires x != 0xff && y == x + 1
    ensures y as nat == x as nat + 1
  {
  }

  lemma NextHalf(x: bv16, y: bv16)
    requires x != 0xffff && y == x + 1
    ensures y as nat == x as nat + 1
  {
    var hi, lo := SplitHalf(x);
    BytesValue(x, hi, lo);
    if lo != 0xff {
      var more := lo + 1;
      StepsInByte(x, y, hi, lo, more);
      NextByte(lo, more);
      BytesValue(y, hi, more);
    } else {
      var more := hi + 1;
      CarriesByte(x, y, hi, more);
      NextByte(hi, more);
      BytesValue(y, more, 0);
    }
  }

  lemma NextInHalf(x: bv32, y: bv32, hi: bv16, lo: bv16, more: bv16)
    requires x == OfHalves(hi, lo) && y == OfHalves(hi, more) && lo != 0xffff && more == lo + 1
    ensures y as nat == x as nat + 1
  {
    HalvesValue(x, hi, lo);
    HalvesValue(y, hi, more);
    NextHalf(lo, more);
  }

  lemma Ends()
    ensures (0xffff as bv16) as nat == 0xffff && (0 as bv16) as nat == 0
  {
  }

  lemma NextAfterCarry(x: bv32, y: bv32, hi: bv16, more: bv16, ones: bv16, zeros: bv16)
    requires x == OfHalves(hi, ones) && y == OfHalves(more, zeros)
    requires more as nat == hi as nat + 1 && ones as nat == 0xffff && zeros as nat == 0
    ensures y as nat == x as nat + 1
  {
    HalvesValue(x, hi, ones);
    HalvesValue(y, more, zeros);
  }

  /** The address after one that is not the last is the next number. */
  lemma NextAddress(x: bv32, y: bv32)
    requires x != 0xffff_ffff && y == x + 1
    ensures y as nat == x as nat + 1
  {
    var hi, lo := SplitWord(x);
    if lo != 0xffff {
      var more := lo + 1;
      StepsInHalf(x, y, hi, lo, more);
      NextInHalf(x, y, hi, lo, more);
    } else {
      var more := hi + 1;
      CarriesHalf(x, y, hi, more);
      Ends();
      NextHalf(hi, more);
      NextAfterCarry(x, y, hi, more, 0xffff, 0);
    }
  }

  lemma EvenNext(a: bv32, b: bv32)
    requires a & 1 == 0 && b == a + 1
    ensures b as nat == a as nat + 1
  {
    assert a != 0xffff_ffff;
    NextAddress(a, b);
  }

  predicate Consecutive(a: bv32, b: bv32, c: bv32, d: bv32) {
    b as nat == a as nat + 1 && c as nat == a as nat + 2 && d as nat == a as nat + 3
  }

  /** The addresses of the four bytes of a trap. */
  lemma FourAddresses(a: bv32, b: bv32, c: bv32, d: bv32)
    requires a & 1 == 0 && a != 0xffff_fffe && b == a + 1 && c == a + 2 && d == c + 1
    ensures Consecutive(a, b, c, d)
  {
    assert b != 0xffff_ffff && c == b + 1 && c & 1 == 0;
    EvenNext(a, b);
    NextAddress(b, c);
    EvenNext(c, d);
  }

  lemma TrapByte(m: ByteMap, w: Want, k: nat, x: nat)
    requires TrappedAt(m, w) && k < Span(w) && x == w.a + k
    ensures x in m && m[x] == Opcode(w.size)[k]
  {
    assert ReadAt(m, w.a, Span(w))[k] == m[w.a + k];
  }

  /** A byte of a trap, as the planner reads it. */
  lemma TrapInView(m: ByteMap, w: Want, k: nat, a: bv32, byte: bv8)
    requires TrappedAt(m, w) && k < Span(w) && a as nat == w.a + k && byte == Opcode(w.size)[k] as bv8
    ensures View(m).mapped(a) && View(m).bytes(a) == byte
  {
    TrapByte(m, w, k, a as nat);
  }

  lemma HalfOf(m: Memory, a: bv32, b: bv32, low: bv8, high: bv8)
    requires b == a + 1 && m.mapped(a) && m.mapped(b) && m.bytes(a) == low && m.bytes(b) == high
    ensures ReadHalf(m, a) == Some((low as bv16) | ((high as bv16) << 8))
  {
  }

  lemma WordOf(m: Memory, a: bv32, low: bv16, high: bv16)
    requires ReadHalf(m, a) == Some(low) && ReadHalf(m, a + 2) == Some(high)
    ensures ReadWord(m, a) == Some((low as bv32) | ((high as bv32) << 16))
  {
  }

  /** The halfwords a trap of each size reads as. */
  lemma ThumbTrapRead(m: ByteMap, pc: bv32, b: bv32)
    requires pc & 1 == 0 && b == pc + 1 && TrappedAt(m, Want(pc as nat, 2))
    ensures ReadHalf(View(m), pc) == Some(0xde01)
  {
    var w := Want(pc as nat, 2);
    EvenNext(pc, b);
    TrapInView(m, w, 0, pc, 0x01);
    TrapInView(m, w, 1, b, 0xde);
    HalfOf(View(m), pc, b, 0x01, 0xde);
  }

  /** Two bytes of a long trap. */
  lemma PairInView(m: ByteMap, w: Want, k: nat, a: bv32, b: bv32, low: bv8, high: bv8)
    requires TrappedAt(m, w) && k + 1 < Span(w) && a as nat == w.a + k && b as nat == w.a + k + 1
    requires Opcode(w.size)[k] as bv8 == low && Opcode(w.size)[k + 1] as bv8 == high
    ensures View(m).mapped(a) && View(m).mapped(b) && View(m).bytes(a) == low && View(m).bytes(b) == high
  {
    TrapInView(m, w, k, a, low);
    TrapInView(m, w, k + 1, b, high);
  }

  lemma LongTrapRead(m: ByteMap, pc: bv32, b: bv32, c: bv32, d: bv32)
    requires pc & 1 == 0 && pc != 0xffff_fffe && b == pc + 1 && c == pc + 2 && d == c + 1 && TrappedAt(m, Want(pc as nat, 3))
    ensures ReadHalf(View(m), pc) == Some(0xf7f0) && ReadHalf(View(m), c) == Some(0xa000)
  {
    FourAddresses(pc, b, c, d);
    PairInView(m, Want(pc as nat, 3), 0, pc, b, 0xf0, 0xf7);
    PairInView(m, Want(pc as nat, 3), 2, c, d, 0x00, 0xa0);
    HalfOf(View(m), pc, b, 0xf0, 0xf7);
    HalfOf(View(m), c, d, 0x00, 0xa0);
  }

  lemma ARMTrapRead(m: ByteMap, pc: bv32, b: bv32, c: bv32, d: bv32)
    requires pc & 1 == 0 && pc != 0xffff_fffe && b == pc + 1 && c == pc + 2 && d == c + 1 && TrappedAt(m, Want(pc as nat, 4))
    ensures ReadWord(View(m), pc) == Some(0xe7f0_01f0)
  {
    FourAddresses(pc, b, c, d);
    PairInView(m, Want(pc as nat, 4), 0, pc, b, 0xf0, 0x01);
    PairInView(m, Want(pc as nat, 4), 2, c, d, 0xf0, 0xe7);
    HalfOf(View(m), pc, b, 0xf0, 0x01);
    HalfOf(View(m), c, d, 0xf0, 0xe7);
    WordOf(View(m), pc, 0x01f0, 0xe7f0);
  }

  /** A breakpoint is asked for right after the trap and nowhere else. */
  lemma StraightCovers(pc: bv32, thumb: bool, n: Next)
    requires pc & 1 == 0
    ensures Covers(Straight(pc, if thumb then 2 else 4), n) <==> n == Next(pc, thumb)
  {
    EvenIsSet(pc);
    StraightStops(pc, thumb);
  }

  lemma AfterTrap(pc: bv32)
    requires pc & 1 == 0
    ensures Plus(pc, 2) & 1 == 0 && Plus(pc, 4) & 1 == 0
  {
  }

  /** The eight bytes at pc are there as the program's are. */
  lemma FetchThere(program: ByteMap, s: Stepping, pc: bv32)
    requires Under(program, s) && Fetch(View(program), pc).Some?
    ensures Fetch(View(s.memory), pc).Some?
  {
  }

  /** With a Thumb trap at the program counter, whatever instruction lies under it: the
      step stops at the program's next instruction exactly when that is the one right
      after the trap. */
  lemma HiddenThumbIsExact(program: ByteMap, s: Stepping, i: ThumbInsn, regs: Registers, f: Flags, pc: bv32, h0: bv16, h1: bv16, n: Next)
    requires Fetched(regs, View(program), pc, h0, h1) && Encodes(i, h0, h1) && ThumbNext(i, regs, f, View(program), pc) == Some(n)
    requires Under(program, s) && TrappedAt(s.memory, Want(pc as nat, 2))
    ensures Covers(ThumbPlan(View(s.memory), regs, pc), n) <==> n == Next(Plus(pc, 2), true)
  {
    FetchThere(program, s, pc);
    ThumbTrapPlan(s.memory, regs, pc);
    AfterTrap(pc);
    StraightCovers(Plus(pc, 2), true, n);
  }

  lemma ThumbTrapPlan(m: ByteMap, regs: Registers, pc: bv32)
    requires pc & 1 == 0 && TrappedAt(m, Want(pc as nat, 2)) && Fetch(View(m), pc).Some?
    ensures ThumbPlan(View(m), regs, pc) == Straight(Plus(pc, 2), 2)
  {
    ThumbTrapRead(m, pc, pc + 1);
    TrapHidesThumb(View(m), regs, pc, Fetch(View(m), pc).value.1);
  }

  lemma LongTrapPlan(m: ByteMap, regs: Registers, pc: bv32)
    requires pc & 1 == 0 && pc != 0xffff_fffe && TrappedAt(m, Want(pc as nat, 3)) && Fetch(View(m), pc).Some?
    ensures ThumbPlan(View(m), regs, pc) == Straight(Plus(pc, 4), 2)
  {
    LongTrapRead(m, pc, pc + 1, pc + 2, pc + 2 + 1);
    TrapHidesLong(View(m), regs, pc);
  }

  /** Likewise with a long one. */
  lemma HiddenLongIsExact(program: ByteMap, s: Stepping, i: ThumbInsn, regs: Registers, f: Flags, pc: bv32, h0: bv16, h1: bv16, n: Next)
    requires Fetched(regs, View(program), pc, h0, h1) && Encodes(i, h0, h1) && ThumbNext(i, regs, f, View(program), pc) == Some(n)
    requires Under(program, s) && TrappedAt(s.memory, Want(pc as nat, 3)) && pc != 0xffff_fffe
    ensures Covers(ThumbPlan(View(s.memory), regs, pc), n) <==> n == Next(Plus(pc, 4), true)
  {
    FetchThere(program, s, pc);
    LongTrapPlan(s.memory, regs, pc);
    AfterTrap(pc);
    StraightCovers(Plus(pc, 4), true, n);
  }

  /** Likewise with an ARM one. */
  lemma HiddenARMIsExact(program: ByteMap, s: Stepping, i: ARMInsn, regs: Registers, f: Flags, pc: bv32, insn: bv32, n: Next)
    requires ARMFetched(View(program), pc, insn) && EncodesARM(i, insn) && ARMNext(i, regs, f, View(program), pc) == Some(n)
    requires Under(program, s) && TrappedAt(s.memory, Want(pc as nat, 4))
    ensures Covers(ARMPlan(View(s.memory), regs, pc), n) <==> n == Next(Plus(pc, 4), false)
  {
    FourIsEven(pc);
    NotLastHalf(pc);
    ARMTrapRead(s.memory, pc, pc + 1, pc + 2, pc + 2 + 1);
    TrapHidesARM(View(s.memory), regs, pc);
    AfterTrap(pc);
    StraightCovers(Plus(pc, 4), false, n);
  }

  lemma NotLastHalf(pc: bv32)
    requires pc & 3 == 0
    ensures pc != 0xffff_fffe
  {
  }

  /** With a Thumb trap there the plan is to fall through, whatever lies under it. */
  lemma TrapHidesThumb(m: Memory, regs: Registers, pc: bv32, h1: bv16)
    requires Fetch(m, pc) == Some((0xde01, h1))
    ensures ThumbPlan(m, regs, pc) == Straight(Plus(pc, 2), 2)
  {
    assert Thumb.Decode(0xde01, h1) == None;
  }

  lemma TrapHidesLong(m: Memory, regs: Registers, pc: bv32)
    requires Fetch(m, pc) == Some((0xf7f0, 0xa000))
    ensures ThumbPlan(m, regs, pc) == Straight(Plus(pc, 4), 2)
  {
    assert Thumb.Decode(0xf7f0, 0xa000) == None;
  }

  lemma TrapHidesARM(m: Memory, regs: Registers, pc: bv32)
    requires ReadWord(m, pc) == Some(0xe7f0_01f0)
    ensures ARMPlan(m, regs, pc) == Straight(Plus(pc, 4), 4)
  {
    assert Arm.Decode(0xe7f0_01f0) == None;
  }

  /** A branch to itself under a trap: the step does not stop there. */
  lemma HiddenBranchIsMissed(program: ByteMap, s: Stepping, regs: Registers, f: Flags, pc: bv32, h1: bv16)
    requires Fetched(regs, View(program), pc, 0xe7fe, h1) && Under(program, s) && TrappedAt(s.memory, Want(pc as nat, 2))
    ensures ThumbNext(BN(0xffff_fffc), regs, f, View(program), pc) == Some(Next(pc, true))
    ensures !Covers(ThumbPlan(View(s.memory), regs, pc), Next(pc, true))
  {
    ToItself(pc);
    assert 0xe7fe == Thumb.EncodeBN(0xffff_fffc) && Thumb.Fits12(0xffff_fffc);
    HiddenThumbIsExact(program, s, BN(0xffff_fffc), regs, f, pc, 0xe7fe, h1, Next(pc, true));
  }

  lemma ToItself(pc: bv32)
    ensures pc + 4 + 0xffff_fffc == pc && Plus(pc, 2) != pc
  {
  }

  // ---------------------------------------------------------------------------
  // The code
  // ---------------------------------------------------------------------------

  function LowHalf(w: bv32): bv16 {
    (w & 0xffff) as bv16
  }

  /** Sizes other than 2 to 4 are left to the instruction: in Thumb state, which the low
      bit of the address or else the current thread tells, 2 or 3 by its length, and 4 in
      ARM state. */
  function ChosenSize(m: Memory, pc: bv32, size: nat, thumb: Option<bool>): Option<nat> {
    if 2 <= size <= 4 then Some(size)
    else if !Odd(pc) && thumb.None? then None
    else if Odd(pc) || thumb.value then
      match ReadWord(m, Even(pc))
      case None => None
      case Some(w) => Some(if Thumb.IsThumb1(LowHalf(w)) then 2 else 3)
    else Some(4)
  }

  lemma LowOfWord(m: Memory, a: bv32)
    requires ReadWord(m, a).Some?
    ensures ReadHalf(m, a) == Some(LowHalf(ReadWord(m, a).value))
  {
  }

  /** The trap is then as long as the instruction it replaces. */
  lemma ChosenSpans(m: Memory, pc: bv32, size: nat, thumb: Option<bool>)
    requires !(2 <= size <= 4) && ChosenSize(m, pc, size, thumb).Some?
    ensures var code := Opcode(ChosenSize(m, pc, size, thumb).value);
            if Odd(pc) || thumb == Some(true)
            then ReadHalf(m, Even(pc)).Some?
                 && code == if Thumb.InstSize(ReadHalf(m, Even(pc)).value) == 2 then [0x01, 0xde] else [0xf0, 0xf7, 0x00, 0xa0]
            else code == [0xf0, 0x01, 0xf0, 0xe7]
  {
    if Odd(pc) || thumb.value {
      LowOfWord(m, Even(pc));
    }
  }

  predicate AllIn(let: set<nat>, a: nat, n: nat) {
    forall i :: a <= i < a + n ==> i in let
  }

  /** The ARM software breakpoint manager and the process it patches. */
  class StepManager {
    var sites: Sites.SiteMap
    var insns: Saved
    var isEnabled: bool
    var memory: ByteMap
    /** Where the process lets a patch be read over and written. */
    var readable: set<nat>
    var writable: set<nat>

    ghost function State(): Stepping
      reads this
    {
      Stepping(sites, insns, isEnabled, memory)
    }

    /** The process lets the trap asked for be written. */
    ghost predicate Lets(w: Want)
      reads this
    {
      AllIn(readable, w.a, Span(w)) && AllIn(writable, w.a, Span(w))
    }

    ghost predicate LetsAsked(pc: bv32, size: nat)
      reads this
    {
      Lets(Want(Even(pc) as nat, size))
    }

    constructor (m: ByteMap, readable: set<nat>, writable: set<nat>)
      ensures State() == Stepping(map[], map[], false, m) && this.readable == readable && this.writable == writable
    {
      sites, insns, isEnabled, memory := map[], map[], false, m;
      this.readable, this.writable := readable, writable;
    }

    /** Read what is there, write the trap, remember what was there. */
    method EnableLocation(w: Want) returns (error: Sites.ErrorCode)
      modifies this`insns, this`memory
      ensures error == if CanTrap(old(State()), w, Lets(w)) then Sites.Success else Sites.Failed
      ensures State() == if CanTrap(old(State()), w, Lets(w)) then Trap(old(State()), w) else old(State())
    {
      if !AllIn(readable, w.a, Span(w)) || !IsMapped(memory, w.a, Span(w)) {
        return Sites.Failed;
      }
      var saved := ReadAt(memory, w.a, Span(w));
      if !AllIn(writable, w.a, Span(w)) {
        return Sites.Failed;
      }
      memory := WriteAt(memory, w.a, Opcode(w.size));
      insns := insns[w.a := saved];
      error := Sites.Success;
    }

    /** `thumb` is the state the current thread's registers give, if they can be read. */
    method ChooseSize(pc: bv32, size: nat, thumb: Option<bool>) returns (chosen: Option<nat>)
      ensures chosen == ChosenSize(View(memory), pc, size, thumb)
    {
      if 2 <= size <= 4 {
        return Some(size);
      }
      var isThumb := Odd(pc);
      if !isThumb {
        if thumb.None? {
          return None;
        }
        isThumb := thumb.value;
      }
      if !isThumb {
        return Some(4);
      }
      var insn := ReadWord(View(memory), Even(pc));
      if insn.None? {
        return None;
      }
      chosen := Some(if Thumb.IsThumb1(LowHalf(insn.value)) then 2 else 3);
    }

    method Add(pc: bv32, size: nat, thumb: Option<bool>) returns (error: Sites.ErrorCode)
      modifies this`sites, this`insns, this`memory
      ensures Placing(State(), error) == match ChosenSize(View(old(memory)), pc, size, thumb)
                                         case None => Placing(old(State()), Sites.Failed)
                                         case Some(k) => AddStep(old(State()), Some(Want(Even(pc) as nat, k)), LetsAsked(pc, k))
    {
      var chosen := ChooseSize(pc, size, thumb);
      if chosen.None? {
        return Sites.Failed;
      }
      error := AddWant(Want(Even(pc) as nat, chosen.value));
    }

    method AddWant(w: Want) returns (error: Sites.ErrorCode)
      modifies this`sites, this`insns, this`memory
      ensures Placing(State(), error) == AddStep(old(State()), Some(w), Lets(w))
    {
      if w.a in sites {
        var site := sites[w.a];
        if site.mode != Sites.EXEC {
          return Sites.InvalidArgument;
        }
        sites := sites[w.a := site.(lifetime := Sites.Or(site.lifetime, Sites.TEMPORARY_ONE_SHOT))];
        return Sites.Success;
      }
      sites := sites[w.a := NewSite(w)];
      error := Sites.Success;
      if isEnabled {
        error := EnableLocation(w);
      }
    }

    /** Nothing is placed unless a plan is found; then exactly that plan is. */
    method Prepare(regs: Registers, pc: bv32, thumb: bool) returns (o: Outcome, error: Sites.ErrorCode)
      modifies this`sites, this`insns, this`memory
      ensures o == if thumb then ThumbPlan(View(old(memory)), regs, pc) else ARMPlan(View(old(memory)), regs, pc)
      ensures !o.Planned? ==> State() == old(State()) && error == if o.Unsupported? then Sites.Unsupported else Sites.Failed
      ensures o.Planned? ==> Placing(State(), error) == PlacePlan(old(State()), o.plan, LetsAsked(o.plan.branchPC, o.plan.branchSize),
                                                                  LetsAsked(o.plan.nextPC, o.plan.nextSize))
    {
      if thumb {
        o := PrepareThumb(View(memory), regs, pc);
        ThumbSizes(View(memory), regs, pc);
      } else {
        o := PrepareARM(View(memory), regs, pc);
        ARMSizes(View(memory), regs, pc);
      }
      error := if o.Unsupported? then Sites.Unsupported else Sites.Failed;
      if o.Planned? {
        error := PlaceBoth(o.plan);
      }
    }

    method PlaceBoth(plan: Plan) returns (error: Sites.ErrorCode)
      requires Sized(plan)
      modifies this`sites, this`insns, this`memory
      ensures Placing(State(), error) == PlacePlan(old(State()), plan, LetsAsked(plan.branchPC, plan.branchSize),
                                                   LetsAsked(plan.nextPC, plan.nextSize))
    {
      if plan.branchPC != UNSET {
        error := Add(plan.branchPC, plan.branchSize, None);
        if error != Sites.Success {
          return;
        }
      }
      error := Sites.Success;
      if plan.nextPC != UNSET {
        error := Add(plan.nextPC, plan.nextSize, None);
      }
    }
  }
}
