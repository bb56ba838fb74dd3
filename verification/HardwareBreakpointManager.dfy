/** Hardware breakpoints: which site holds which debug-register slot, over any run
    and whatever the threads' registers do. */
module HardwareBreakpoints {
  import opened Common
  import opened Sites
  import DebugRegisters

  const MAX_WATCHPOINTS: nat := 4

  /** locations[i] is the address slot i stands for, 0 when the slot is free. */
  datatype Hard = Hard(sites: SiteMap, locations: seq<nat>)

  /** Index of the first `a`, or |locations|. */
  function Slot(locations: seq<nat>, a: nat, from: nat): (i: nat)
    requires from <= |locations|
    ensures from <= i <= |locations|
    ensures forall k :: from <= k < i ==> locations[k] != a
    ensures i < |locations| ==> locations[i] == a
    decreases |locations| - from
  {
    if from == |locations| || locations[from] == a then from else Slot(locations, a, from + 1)
  }

  /** getAvailableLocation: no slot once all sites are in use, else the first free
      one. |locations| stands for the failed assertion that there is one. */
  function AvailableSlot(h: Hard): (i: int)
    ensures i < 0 <==> |h.sites| == MAX_WATCHPOINTS
  {
    if |h.sites| == MAX_WATCHPOINTS then -1 else Slot(h.locations, 0, 0)
  }

  /** The slot is the first one free. */
  lemma AvailableIsFirst(h: Hard)
    requires |h.sites| != MAX_WATCHPOINTS
    ensures var i := AvailableSlot(h);
            && 0 <= i <= |h.locations| && (forall k :: 0 <= k < i ==> h.locations[k] != 0)
            && (i < |h.locations| ==> h.locations[i] == 0)
  {
  }

  /** enableLocation for site `a`: `works` is what the last thread tried reports,
      or any value at all when no thread qualifies. */
  function Arm(h: Hard, a: nat, works: bool): Hard {
    var held := Slot(h.locations, a, 0);
    var i := if held < |h.locations| then held else AvailableSlot(h);
    if works && 0 <= i < |h.locations| then h.(locations := h.locations[i := a]) else h
  }

  /** x86's isValid. */
  function IsValid(address: Address, size: nat, mode: Mode): ErrorCode {
    if size !in {1, 2, 4, 8} then InvalidArgument
    else if size != 1 && mode == EXEC then InvalidArgument
    else if mode.exec && (mode.read || mode.write) then InvalidArgument
    else if mode == READ then Unsupported
    else if address == Unset then InvalidArgument
    else Success
  }

  /** What the manager admits can be programmed, unless the mode names no access at all;
      and of what can be programmed it turns away unset addresses, plain reads, which it
      makes reads and writes before it asks, and execution over more than one byte. */
  lemma ValidIsProgrammable(address: Address, size: nat, mode: Mode)
    requires mode.exec || mode.read || mode.write
    ensures IsValid(address, size, mode) == Success
       <==> DebugRegisters.Programmable(mode, size) && address != Unset && mode != READ && (mode == EXEC ==> size == 1)
  {
  }

  datatype Op =
    | Add(address: Address, lifetime: Lifetime, size: nat, mode: Mode, enabled: bool, works: bool)
    | Remove(address: Address, works: bool)
    | Hit(a: nat)
    | Enable(order: seq<nat>, worksAt: set<nat>)
    | Disable(failed: set<nat>)
    | Clear

  function ArmAll(h: Hard, order: seq<nat>, worksAt: set<nat>, n: nat): Hard
    requires n <= |order|
  {
    if n == 0 then h else Arm(ArmAll(h, order, worksAt, n - 1), order[n - 1], order[n - 1] in worksAt)
  }

  function ValueOf(address: Address): nat {
    if address == Unset then 0 else address.value
  }

  function Free(locations: seq<nat>, a: nat): seq<nat> {
    var i := Slot(locations, a, 0);
    if i < |locations| then locations[i := 0] else locations
  }

  function Apply(h: Hard, op: Op): Hard {
    match op
    case Add(address, lifetime, size, mode, enabled, works) =>
      var m := if mode == READ then READ_WRITE else mode;
      if |h.sites| >= MAX_WATCHPOINTS || IsValid(address, size, m) != Success then h
      else
        var added := AddSite(h.sites, address.value, lifetime, size, m);
        var t := h.(sites := added.sites);
        if added.created && enabled then Arm(t, address.value, works) else t
    case Remove(address, _) =>
      var t := h.(locations := Free(h.locations, ValueOf(address)));
      if address == Unset then t else t.(sites := RemoveSite(h.sites, address.value).sites)
    case Hit(a) => h.(sites := HitSite(h.sites, a))
    case Enable(order, worksAt) => ArmAll(h, order, worksAt, |order|)
    case Disable(_) => h.(sites := Expire(h.sites))
    case Clear => h.(sites := map[])
  }

  /** `enable` visits the sites there are. */
  predicate Allowed(h: Hard, op: Op) {
    op.Enable? ==> forall a <- op.order :: a in h.sites
  }

  // ---------------------------------------------------------------------------
  // Slots and sites
  // ---------------------------------------------------------------------------

  /** Occupied slots hold distinct addresses, all of them sites; and the last slot
      is free. */
  predicate SlotInv(h: Hard) {
    && |h.locations| == MAX_WATCHPOINTS && |h.sites| <= MAX_WATCHPOINTS
    && (forall i :: 0 <= i < |h.locations| && h.locations[i] != 0 ==> h.locations[i] in h.sites)
    && (forall i, j :: 0 <= i < j < |h.locations| && h.locations[i] != 0 ==> h.locations[i] != h.locations[j])
    && h.locations[3] == 0
  }

  /** With fewer than four sites, one of them without a slot, one of the first
      three slots is free: three distinct sites and this one would make four. */
  lemma FreeSlotExists(h: Hard, a: nat)
    requires SlotInv(h) && |h.sites| < MAX_WATCHPOINTS && a in h.sites
    requires Slot(h.locations, a, 0) == |h.locations|
    ensures 0 <= AvailableSlot(h) < 3
  {
    var l := h.locations;
    if l[0] != 0 && l[1] != 0 && l[2] != 0 {
      var four := {l[0], l[1], l[2], a};
      assert four <= h.sites.Keys && |four| == 4;
      SubsetSize(four, h.sites.Keys);
    }
  }

  lemma ArmKeeps(h: Hard, a: nat, works: bool)
    requires SlotInv(h) && a in h.sites
    ensures SlotInv(Arm(h, a, works)) && Arm(h, a, works).sites == h.sites
  {
    if Slot(h.locations, a, 0) == |h.locations| && |h.sites| < MAX_WATCHPOINTS {
      FreeSlotExists(h, a);
    }
  }

  lemma {:induction false} ArmAllKeeps(h: Hard, order: seq<nat>, worksAt: set<nat>, n: nat)
    requires SlotInv(h) && n <= |order| && forall a <- order :: a in h.sites
    ensures SlotInv(ArmAll(h, order, worksAt, n)) && ArmAll(h, order, worksAt, n).sites == h.sites
  {
    if n > 0 {
      ArmAllKeeps(h, order, worksAt, n - 1);
      ArmKeeps(ArmAll(h, order, worksAt, n - 1), order[n - 1], order[n - 1] in worksAt);
    }
  }

  /** A disable that expires a site holding a slot, or a clear while any slot is held. */
  predicate Strands(h: Hard, op: Op) {
    match op
    case Disable(_) => exists a <- h.locations :: a != 0 && a in h.sites && EndsNow(h.sites[a].lifetime)
    case Clear => exists a <- h.locations :: a != 0
    case _ => false
  }

  /** Nothing but the one-shot flag keeps the site. */
  predicate EndsNow(lifetime: Lifetime) {
    !lifetime.permanent && !lifetime.untilHit
  }

  lemma AddKeeps(h: Hard, op: Op)
    requires SlotInv(h) && op.Add?
    ensures SlotInv(Apply(h, op))
  {
    var m := if op.mode == READ then READ_WRITE else op.mode;
    if |h.sites| < MAX_WATCHPOINTS && IsValid(op.address, op.size, m) == Success {
      var a := op.address.value;
      var added := AddSite(h.sites, a, op.lifetime, op.size, m);
      assert added.sites.Keys == h.sites.Keys + {a};
      assert |added.sites| <= |h.sites| + 1;
      ArmKeeps(h.(sites := added.sites), a, op.works);
    }
  }

  lemma RemoveKeeps(h: Hard, address: Address, works: bool)
    requires SlotInv(h)
    ensures SlotInv(Apply(h, Op.Remove(address, works)))
  {
    var t := Apply(h, Op.Remove(address, works));
    assert t.sites.Keys <= h.sites.Keys;
    SubsetSize(t.sites.Keys, h.sites.Keys);
    if address != Unset {
      assert t.sites.Keys >= h.sites.Keys - {address.value};
      assert forall i :: 0 <= i < |t.locations| ==> t.locations[i] == 0 || t.locations[i] != address.value;
    }
  }

  lemma DisableIsExact(h: Hard, failed: set<nat>)
    requires SlotInv(h)
    ensures SlotInv(Apply(h, Op.Disable(failed))) <==> !Strands(h, Op.Disable(failed))
  {
    assert Expire(h.sites).Keys <= h.sites.Keys;
    SubsetSize(Expire(h.sites).Keys, h.sites.Keys);
    assert forall a <- h.sites :: a in Expire(h.sites) <==> !EndsNow(h.sites[a].lifetime);
    if Strands(h, Op.Disable(failed)) {
      var a :| a in h.locations && a != 0 && a in h.sites && EndsNow(h.sites[a].lifetime);
      var i :| 0 <= i < |h.locations| && h.locations[i] == a;
      assert a !in Expire(h.sites);
    }
  }

  /** From a sound state an operation leaves a sound state exactly when it does not
      strand a slot. */
  lemma StepIsExact(h: Hard, op: Op)
    requires SlotInv(h) && Allowed(h, op)
    ensures SlotInv(Apply(h, op)) <==> !Strands(h, op)
  {
    match op
    case Add(_, _, _, _, _, _) => AddKeeps(h, op);
    case Remove(address, works) => RemoveKeeps(h, address, works);
    case Hit(a) => assert HitSite(h.sites, a).Keys == h.sites.Keys;
    case Enable(order, worksAt) => ArmAllKeeps(h, order, worksAt, |order|);
    case Disable(failed) => DisableIsExact(h, failed);
    case Clear =>
      assert forall i :: 0 <= i < |h.locations| ==> h.locations[i] in h.locations;
      assert |Apply(h, op).sites| == 0;
  }

  // ---------------------------------------------------------------------------
  // Runs
  // ---------------------------------------------------------------------------

  const Initial := Hard(map[], [0, 0, 0, 0])

  /** The debugger asks for permanent hardware breakpoints only, and never clears
      the manager. */
  predicate PermanentOnly(h: Hard, op: Op) {
    Allowed(h, op) && (op.Add? ==> op.lifetime == PERMANENT) && !op.Clear?
  }

  /** Each operation leads from one state to the next, the first being initial. */
  predicate IsPermanentRun(states: seq<Hard>, ops: seq<Op>) {
    && |states| == |ops| + 1 && states[0] == Initial
    && forall i :: 0 <= i < |ops| ==> PermanentOnly(states[i], ops[i]) && states[i + 1] == Apply(states[i], ops[i])
  }

  predicate AllPermanent(sites: SiteMap) {
    RefsInv(sites) && forall a <- sites :: sites[a].lifetime == PERMANENT
  }

  lemma SitesStayPermanent(h: Hard, op: Op)
    requires SlotInv(h) && AllPermanent(h.sites) && PermanentOnly(h, op)
    ensures AllPermanent(Apply(h, op).sites)
  {
    match op
    case Add(address, lifetime, size, mode, enabled, works) =>
    case Remove(address, works) =>
    case Hit(a) =>
    case Enable(order, worksAt) => ArmAllKeeps(h, order, worksAt, |order|);
    case Disable(failed) =>
  }

  lemma StepKeepsSlots(h: Hard, op: Op)
    requires SlotInv(h) && AllPermanent(h.sites) && PermanentOnly(h, op)
    ensures SlotInv(Apply(h, op))
  {
    StepIsExact(h, op);
    if op.Disable? {
      assert forall a <- h.sites :: WithoutOneShot(h.sites[a]) == h.sites[a];
    }
  }

  lemma {:induction false} RunKeepsSlots(states: seq<Hard>, ops: seq<Op>, n: nat)
    requires IsPermanentRun(states, ops) && n < |states|
    ensures SlotInv(states[n]) && AllPermanent(states[n].sites)
  {
    if n > 0 {
      RunKeepsSlots(states, ops, n - 1);
      StepKeepsSlots(states[n - 1], ops[n - 1]);
      SitesStayPermanent(states[n - 1], ops[n - 1]);
    }
  }

  /** In every run, whatever the threads report: occupied slots hold pairwise
      distinct site addresses, so looking the site of an occupied slot up never
      fails; the assertion that a free slot exists never fails; and the fourth
      debug register is never handed out. */
  lemma RunHasSlots(states: seq<Hard>, ops: seq<Op>, n: nat)
    requires IsPermanentRun(states, ops) && n < |states|
    ensures var h := states[n];
            && |h.locations| == MAX_WATCHPOINTS && h.locations[3] == 0
            && (forall i :: 0 <= i < |h.locations| && h.locations[i] != 0 ==> h.locations[i] in h.sites)
            && (forall i, j :: 0 <= i < j < |h.locations| && h.locations[i] != 0 ==> h.locations[i] != h.locations[j])
            && (forall a <- h.sites :: a !in h.locations && |h.sites| < MAX_WATCHPOINTS ==> 0 <= AvailableSlot(h) < 3)
  {
    RunKeepsSlots(states, ops, n);
    var h := states[n];
    forall a | a in h.sites && a !in h.locations && |h.sites| < MAX_WATCHPOINTS
      ensures 0 <= AvailableSlot(h) < 3
    {
      FreeSlotExists(h, a);
    }
  }

  /** A run in which a one-shot hardware breakpoint leaves its slot behind: added,
      enabled and disabled. */
  lemma OneShotStrandsSlot()
    ensures var added := Apply(Initial, Op.Add(At(7), TEMPORARY_ONE_SHOT, 4, WRITE, false, false));
            var armed := Apply(added, Op.Enable([7], {7}));
            Allowed(added, Op.Enable([7], {7})) && SlotInv(armed)
            && Apply(armed, Op.Disable({})) == Hard(map[], [7, 0, 0, 0]) && !SlotInv(Apply(armed, Op.Disable({})))
  {
    var site := Site(0, 7, TEMPORARY_ONE_SHOT, WRITE, 4);
    var added := Apply(Initial, Op.Add(At(7), TEMPORARY_ONE_SHOT, 4, WRITE, false, false));
    assert added == Hard(map[7 := site], [0, 0, 0, 0]);
    assert ArmAll(added, [7], {7}, 1) == Arm(added, 7, true);
    assert Slot(added.locations, 7, 0) == 4 by {
      assert Slot(added.locations, 7, 1) == Slot(added.locations, 7, 2) == Slot(added.locations, 7, 3) == Slot(added.locations, 7, 4);
    }
    assert AvailableSlot(added) == 0;
    var armed := Apply(added, Op.Enable([7], {7}));
    assert armed == Hard(map[7 := site], [7, 0, 0, 0]);
    assert armed.locations[0] == 7;
    assert Expire(armed.sites) == map[];
    assert Apply(armed, Op.Disable({})).locations[0] !in Apply(armed, Op.Disable({})).sites;
  }

  // ---------------------------------------------------------------------------
  // Slots and the registers of a thread
  // ---------------------------------------------------------------------------

  /** A process with one thread, stopped whenever an operation runs. registers[i] is
      the address debug register i watches, 0 when its enable bit is clear; `enabled`
      is whether the thread is in the enabled set. */
  datatype Armed = Armed(hard: Hard, registers: seq<nat>, enabled: bool)

  /** The register of the slot is written, if the thread was not enabled before and
      the write worked. */
  function ArmOn(x: Armed, a: nat, works: bool): Armed {
    var held := Slot(x.hard.locations, a, 0);
    var i := if held < |x.hard.locations| then held else AvailableSlot(x.hard);
    var t := x.(hard := Arm(x.hard, a, works));
    if works && !x.enabled && 0 <= i < |x.registers| then t.(registers := x.registers[i := a]) else t
  }

  function ArmAllOn(x: Armed, order: seq<nat>, worksAt: set<nat>, n: nat): Armed
    requires n <= |order|
  {
    if n == 0 then x else ArmOn(ArmAllOn(x, order, worksAt, n - 1), order[n - 1], order[n - 1] in worksAt)
  }

  /** `disable` looks every site's slot up and clears that register if the thread is
      enabled, unless reading or writing the registers fails there. */
  predicate Clears(x: Armed, failed: set<nat>, i: nat) {
    && x.enabled && i < |x.hard.locations| && i !in failed
    && x.hard.locations[i] in x.hard.sites && Slot(x.hard.locations, x.hard.locations[i], 0) == i
  }

  function Disarmed(x: Armed, failed: set<nat>): seq<nat> {
    seq(|x.registers|, i requires 0 <= i < |x.registers| => if Clears(x, failed, i) then 0 else x.registers[i])
  }

  /** `remove` zeroes the slot first, so the lookup that should clear the register
      finds nothing; for address 0 it finds a free slot. */
  function Unwatched(x: Armed, address: Address, works: bool): seq<nat> {
    var i := Slot(x.hard.locations, 0, 0);
    if address == At(0) && RemoveSite(x.hard.sites, 0).erased && x.enabled && works && i < |x.registers|
    then x.registers[i := 0] else x.registers
  }

  /** What the code does to slots and registers. */
  function ApplyOn(x: Armed, op: Op): Armed {
    match op
    case Add(address, lifetime, size, mode, _, works) =>
      x.(hard := Apply(x.hard, Op.Add(address, lifetime, size, mode, x.enabled, works)))
    case Remove(address, works) => x.(hard := Apply(x.hard, op), registers := Unwatched(x, address, works))
    case Enable(order, worksAt) => ArmAllOn(x, order, worksAt, |order|).(enabled := true)
    case Disable(failed) => x.(hard := Apply(x.hard, op), registers := Disarmed(x, failed), enabled := false)
    case _ => x.(hard := Apply(x.hard, op))
  }

  /** No register watches an address its slot does not stand for, and none watches
      anything while the thread is not enabled. */
  predicate RegistersInv(x: Armed) {
    && |x.registers| == |x.hard.locations| == MAX_WATCHPOINTS
    && (forall i :: 0 <= i < MAX_WATCHPOINTS && x.registers[i] != 0 ==> x.enabled && x.registers[i] == x.hard.locations[i])
  }

  /** The operation takes the slot away from an armed register, or stops watching over
      one that could not be cleared. */
  predicate LeavesArmed(x: Armed, op: Op) {
    match op
    case Remove(address, _) =>
      && address.At? && address.value != 0
      && exists i :: 0 <= i < |x.registers| && i < |x.hard.locations| && x.hard.locations[i] == address.value && x.registers[i] != 0
    case Disable(failed) => exists i :: 0 <= i < |x.registers| && i in failed && x.registers[i] != 0
    case _ => false
  }

  lemma ArmOnKeeps(x: Armed, a: nat, works: bool)
    requires SlotInv(x.hard) && a in x.hard.sites && |x.registers| == MAX_WATCHPOINTS
    requires forall i :: 0 <= i < MAX_WATCHPOINTS && x.registers[i] != 0 ==> x.registers[i] == x.hard.locations[i]
    ensures var t := ArmOn(x, a, works);
            && SlotInv(t.hard) && t.hard.sites == x.hard.sites && t.enabled == x.enabled && |t.registers| == MAX_WATCHPOINTS
            && (forall i :: 0 <= i < MAX_WATCHPOINTS && t.registers[i] != 0 ==> t.registers[i] == t.hard.locations[i])
  {
    ArmKeeps(x.hard, a, works);
    if Slot(x.hard.locations, a, 0) == |x.hard.locations| && |x.hard.sites| < MAX_WATCHPOINTS {
      FreeSlotExists(x.hard, a);
    }
  }

  lemma {:induction false} ArmAllOnKeeps(x: Armed, order: seq<nat>, worksAt: set<nat>, n: nat)
    requires SlotInv(x.hard) && n <= |order| && (forall a <- order :: a in x.hard.sites) && |x.registers| == MAX_WATCHPOINTS
    requires forall i :: 0 <= i < MAX_WATCHPOINTS && x.registers[i] != 0 ==> x.registers[i] == x.hard.locations[i]
    ensures var t := ArmAllOn(x, order, worksAt, n);
            && SlotInv(t.hard) && t.hard.sites == x.hard.sites && t.enabled == x.enabled && |t.registers| == MAX_WATCHPOINTS
            && (forall i :: 0 <= i < MAX_WATCHPOINTS && t.registers[i] != 0 ==> t.registers[i] == t.hard.locations[i])
  {
    if n > 0 {
      ArmAllOnKeeps(x, order, worksAt, n - 1);
      ArmOnKeeps(ArmAllOn(x, order, worksAt, n - 1), order[n - 1], order[n - 1] in worksAt);
    }
  }

  lemma AddKeepsRegisters(x: Armed, op: Op)
    requires SlotInv(x.hard) && RegistersInv(x) && op.Add?
    ensures RegistersInv(ApplyOn(x, op))
  {
    var add := Op.Add(op.address, op.lifetime, op.size, op.mode, x.enabled, op.works);
    AddKeeps(x.hard, add);
    var m := if op.mode == READ then READ_WRITE else op.mode;
    if |x.hard.sites| < MAX_WATCHPOINTS && IsValid(op.address, op.size, m) == Success {
      var t := x.hard.(sites := AddSite(x.hard.sites, op.address.value, op.lifetime, op.size, m).sites);
      assert forall i :: 0 <= i < MAX_WATCHPOINTS && x.hard.locations[i] != 0 ==>
          Arm(t, op.address.value, op.works).locations[i] == x.hard.locations[i];
    }
  }

  /** From a sound state, with Permanent sites, an operation keeps the registers in
      step with the slots exactly when it neither removes an armed address nor fails to
      clear an armed register. */
  lemma RegistersStepIsExact(x: Armed, op: Op)
    requires SlotInv(x.hard) && AllPermanent(x.hard.sites) && RegistersInv(x) && PermanentOnly(x.hard, op)
    ensures RegistersInv(ApplyOn(x, op)) <==> !LeavesArmed(x, op)
  {
    match op
    case Add(_, _, _, _, _, _) => AddKeepsRegisters(x, op);
    case Remove(address, works) =>
    case Hit(_) =>
    case Enable(order, worksAt) => ArmAllOnKeeps(x, order, worksAt, |order|);
    case Disable(failed) => DisableClears(x, failed);
  }

  /** After a disable a register still watches something exactly when it did before and
      could not be cleared. */
  lemma DisableClears(x: Armed, failed: set<nat>)
    requires SlotInv(x.hard) && RegistersInv(x)
    ensures forall i :: 0 <= i < MAX_WATCHPOINTS ==>
              (ApplyOn(x, Op.Disable(failed)).registers[i] != 0 <==> i in failed && x.registers[i] != 0)
  {
    forall i | 0 <= i < MAX_WATCHPOINTS && x.registers[i] != 0 ensures Slot(x.hard.locations, x.hard.locations[i], 0) == i {
      var k := Slot(x.hard.locations, x.hard.locations[i], 0);
      assert x.hard.locations[k] == x.hard.locations[i];
    }
  }

  /** Each operation leads from one state to the next, removes no armed address and
      clears what it should. */
  predicate IsCarefulRun(states: seq<Armed>, ops: seq<Op>) {
    && |states| == |ops| + 1 && states[0] == Armed(Initial, [0, 0, 0, 0], false)
    && forall i :: 0 <= i < |ops| ==>
         PermanentOnly(states[i].hard, ops[i]) && !LeavesArmed(states[i], ops[i]) && states[i + 1] == ApplyOn(states[i], ops[i])
  }

  lemma HardFollows(x: Armed, op: Op)
    requires SlotInv(x.hard) && AllPermanent(x.hard.sites) && RegistersInv(x) && PermanentOnly(x.hard, op)
    ensures SlotInv(ApplyOn(x, op).hard) && AllPermanent(ApplyOn(x, op).hard.sites)
  {
    match op
    case Add(address, lifetime, size, mode, _, works) =>
      var add := Op.Add(address, lifetime, size, mode, x.enabled, works);
      StepKeepsSlots(x.hard, add);
      SitesStayPermanent(x.hard, add);
    case Enable(order, worksAt) => ArmAllOnKeeps(x, order, worksAt, |order|);
    case _ =>
      StepKeepsSlots(x.hard, op);
      SitesStayPermanent(x.hard, op);
  }

  /** In every such run a register watches at most the address its slot stands for,
      and after a disable none watches anything. */
  lemma {:induction false} RunKeepsRegisters(states: seq<Armed>, ops: seq<Op>, n: nat)
    requires IsCarefulRun(states, ops) && n < |states|
    ensures SlotInv(states[n].hard) && AllPermanent(states[n].hard.sites) && RegistersInv(states[n])
    ensures n > 0 && ops[n - 1].Disable? ==> forall i :: 0 <= i < MAX_WATCHPOINTS ==> states[n].registers[i] == 0
  {
    if n > 0 {
      RunKeepsRegisters(states, ops, n - 1);
      var x, op := states[n - 1], ops[n - 1];
      assert PermanentOnly(x.hard, op) && !LeavesArmed(x, op);
      HardFollows(x, op);
      RegistersStepIsExact(x, op);
      if op.Disable? {
        DisableClears(x, op.failed);
      }
    }
  }

  // The failing cases, from the initial state.

  /** One watchpoint added, and enabled. */
  function Watching(): Armed {
    var added := ApplyOn(Armed(Initial, [0, 0, 0, 0], false), Op.Add(At(7), PERMANENT, 4, WRITE, false, false));
    ApplyOn(added, Op.Enable([7], {7}))
  }

  lemma WatchingIs()
    ensures Watching() == Armed(Hard(map[7 := Site(1, 7, PERMANENT, WRITE, 4)], [7, 0, 0, 0]), [7, 0, 0, 0], true)
  {
    var added := ApplyOn(Armed(Initial, [0, 0, 0, 0], false), Op.Add(At(7), PERMANENT, 4, WRITE, false, false));
    assert added.hard == Hard(map[7 := Site(1, 7, PERMANENT, WRITE, 4)], [0, 0, 0, 0]);
    assert Slot(added.hard.locations, 7, 0) == 4 by {
      assert Slot(added.hard.locations, 7, 1) == Slot(added.hard.locations, 7, 2) == Slot(added.hard.locations, 7, 3);
    }
    assert AvailableSlot(added.hard) == 0;
    assert ArmAllOn(added, [7], {7}, 1) == ArmOn(added, 7, true);
  }

  /** Removing it while the thread is enabled leaves its register armed with no slot to
      find it by, even after the next disable. */
  lemma RemovedStaysArmed()
    ensures ApplyOn(ApplyOn(Watching(), Op.Remove(At(7), true)), Op.Disable({})) == Armed(Initial, [7, 0, 0, 0], false)
  {
    WatchingIs();
    var removed := ApplyOn(Watching(), Op.Remove(At(7), true));
    assert removed.hard.sites == map[];
    assert removed == Armed(Initial, [7, 0, 0, 0], true);
    assert Expire(map[]) == map[];
    assert Disarmed(removed, {}) == [7, 0, 0, 0];
  }

  /** A disable that cannot clear the register gives the thread up all the same, so the
      next disable does not try. */
  lemma UnclearedStaysArmed()
    ensures var once := ApplyOn(Watching(), Op.Disable({0}));
            && once == Watching().(enabled := false) && !RegistersInv(once)
            && ApplyOn(once, Op.Disable({})) == once
  {
    WatchingIs();
    var sites := Watching().hard.sites;
    assert Expire(sites) == sites;
    assert Disarmed(Watching(), {0}) == [7, 0, 0, 0];
    var once := ApplyOn(Watching(), Op.Disable({0}));
    assert Disarmed(once, {}) == [7, 0, 0, 0];
    assert once.registers[0] != 0;
  }

  // ---------------------------------------------------------------------------
  // Every slot armed
  // ---------------------------------------------------------------------------

  /** While the thread is enabled every occupied slot is in its register. */
  predicate AllArmed(x: Armed) {
    x.enabled ==> forall i :: 0 <= i < |x.hard.locations| && x.hard.locations[i] != 0 ==>
      i < |x.registers| && x.registers[i] == x.hard.locations[i]
  }

  /** The address would get a slot of its own. */
  predicate TakesSlot(h: Hard, a: nat) {
    a != 0 && a !in h.locations && |h.sites| < MAX_WATCHPOINTS
  }

  /** A slot is taken while the thread is enabled, when no register is written; or the
      thread is enabled without writing an occupied slot. */
  predicate LeavesUnarmed(x: Armed, op: Op) {
    match op
    case Add(address, lifetime, size, mode, _, works) =>
      var m := if mode == READ then READ_WRITE else mode;
      && x.enabled && works && |x.hard.sites| < MAX_WATCHPOINTS - 1 && IsValid(address, size, m) == Success
      && address.value != 0 && address.value !in x.hard.sites
    case Enable(order, worksAt) =>
      if x.enabled then exists a <- order :: a in worksAt && TakesSlot(x.hard, a)
      else exists a <- x.hard.locations :: a != 0 && !(a in order && a in worksAt)
    case _ => false
  }

  /** A slot of its own for a new address: the others stay as they are. */
  lemma ArmTakes(h: Hard, a: nat)
    requires SlotInv(h) && a in h.sites
    ensures var t := Arm(h, a, true);
            if TakesSlot(h, a) then
              var i := AvailableSlot(h);
              0 <= i < 3 && h.locations[i] == 0 && t.locations == h.locations[i := a]
            else t.locations == h.locations
  {
    var held := Slot(h.locations, a, 0);
    if held == |h.locations| && |h.sites| < MAX_WATCHPOINTS {
      FreeSlotExists(h, a);
    }
  }

  lemma AddArmedIsExact(x: Armed, op: Op)
    requires SlotInv(x.hard) && RegistersInv(x) && AllArmed(x) && op.Add?
    ensures AllArmed(ApplyOn(x, op)) <==> !LeavesUnarmed(x, op)
  {
    var m := if op.mode == READ then READ_WRITE else op.mode;
    if |x.hard.sites| < MAX_WATCHPOINTS && IsValid(op.address, op.size, m) == Success {
      var a := op.address.value;
      var added := AddSite(x.hard.sites, a, op.lifetime, op.size, m);
      var t := x.hard.(sites := added.sites);
      if added.created && x.enabled && op.works {
        assert added.sites.Keys == x.hard.sites.Keys + {a};
        assert SlotInv(t);
        ArmTakes(t, a);
        if TakesSlot(t, a) {
          assert Arm(t, a, true).locations[AvailableSlot(t)] == a && x.registers[AvailableSlot(t)] == 0;
        }
      }
    }
  }

  /** Enabling an enabled thread writes no register. */
  lemma {:induction false} EnabledUnwritten(x: Armed, order: seq<nat>, worksAt: set<nat>, n: nat)
    requires x.enabled && n <= |order|
    ensures ArmAllOn(x, order, worksAt, n) == x.(hard := ArmAll(x.hard, order, worksAt, n))
  {
    if n > 0 {
      EnabledUnwritten(x, order, worksAt, n - 1);
    }
  }

  /** t holds the slots of h, and more exactly when some address took one. */
  predicate TakenFrom(h: Hard, t: Hard, taken: bool) {
    && SlotInv(t) && t.sites == h.sites && |h.locations| == MAX_WATCHPOINTS
    && (forall i :: 0 <= i < MAX_WATCHPOINTS && h.locations[i] != 0 ==> t.locations[i] == h.locations[i])
    && (t.locations != h.locations <==> taken)
  }

  lemma TakenOneMore(h: Hard, t: Hard, taken: bool, a: nat)
    requires SlotInv(h) && TakenFrom(h, t, taken) && a in h.sites
    ensures TakenFrom(h, Arm(t, a, true), taken || TakesSlot(h, a))
  {
    ArmTakes(t, a);
    ArmKeeps(t, a, true);
    if taken {
      var i :| 0 <= i < MAX_WATCHPOINTS && t.locations[i] != h.locations[i];
      assert Arm(t, a, true).locations[i] != h.locations[i];
    }
  }

  predicate SomeTakes(h: Hard, order: seq<nat>, worksAt: set<nat>, n: nat)
    requires n <= |order|
  {
    n > 0 && (SomeTakes(h, order, worksAt, n - 1) || (order[n - 1] in worksAt && TakesSlot(h, order[n - 1])))
  }

  lemma {:induction false} SomeTakesIs(h: Hard, order: seq<nat>, worksAt: set<nat>, n: nat)
    requires n <= |order|
    ensures SomeTakes(h, order, worksAt, n) <==> exists a <- order[..n] :: a in worksAt && TakesSlot(h, a)
  {
    if n > 0 {
      SomeTakesIs(h, order, worksAt, n - 1);
      assert order[..n] == order[..n - 1] + [order[n - 1]];
    }
  }

  lemma {:induction false} ArmAllTakes(h: Hard, order: seq<nat>, worksAt: set<nat>, n: nat)
    requires SlotInv(h) && n <= |order| && forall a <- order :: a in h.sites
    ensures TakenFrom(h, ArmAll(h, order, worksAt, n), SomeTakes(h, order, worksAt, n))
  {
    if n > 0 {
      ArmAllTakes(h, order, worksAt, n - 1);
      var t, a := ArmAll(h, order, worksAt, n - 1), order[n - 1];
      if a in worksAt {
        TakenOneMore(h, t, SomeTakes(h, order, worksAt, n - 1), a);
      } else {
        assert Arm(t, a, false) == t;
      }
    }
  }

  /** Arming writes the register of the slot the address has or takes. */
  lemma ArmOnWrites(x: Armed, a: nat)
    requires SlotInv(x.hard) && a in x.hard.sites && !x.enabled && |x.registers| == MAX_WATCHPOINTS
    ensures var t := ArmOn(x, a, true);
            && SlotInv(t.hard) && t.hard.sites == x.hard.sites && |t.registers| == MAX_WATCHPOINTS
            && forall i :: 0 <= i < MAX_WATCHPOINTS && t.hard.locations[i] != 0 ==>
                 && (x.hard.locations[i] != 0 ==> t.hard.locations[i] == x.hard.locations[i])
                 && (x.hard.locations[i] == 0 ==> t.hard.locations[i] == a)
                 && t.registers[i] == if t.hard.locations[i] == a then a else x.registers[i]
  {
    ArmKeeps(x.hard, a, true);
    ArmTakes(x.hard, a);
  }

  /** Slot i is occupied and in its register, unless it was occupied before and none of
      `done` worked there. */
  predicate SlotWritten(x: Armed, t: Armed, done: set<nat>, i: nat)
    requires |t.registers| == |t.hard.locations| == |x.hard.locations| == MAX_WATCHPOINTS && i < MAX_WATCHPOINTS
  {
    var a := x.hard.locations[i];
    t.hard.locations[i] != 0 ==>
      && (a != 0 ==> t.hard.locations[i] == a)
      && (t.registers[i] == t.hard.locations[i] <==> a == 0 || a in done)
  }

  function Worked(order: seq<nat>, worksAt: set<nat>, n: nat): set<nat>
    requires n <= |order|
  {
    if n == 0 then {} else Worked(order, worksAt, n - 1) + (if order[n - 1] in worksAt then {order[n - 1]} else {})
  }

  lemma {:induction false} WorkedIs(order: seq<nat>, worksAt: set<nat>, n: nat, a: nat)
    requires n <= |order|
    ensures a in Worked(order, worksAt, n) <==> a in order[..n] && a in worksAt
  {
    if n > 0 {
      WorkedIs(order, worksAt, n - 1, a);
      assert order[..n] == order[..n - 1] + [order[n - 1]];
    }
  }

  predicate AllWritten(x: Armed, t: Armed, done: set<nat>)
    requires SlotInv(x.hard)
  {
    && SlotInv(t.hard) && t.hard.sites == x.hard.sites && !t.enabled && |t.registers| == MAX_WATCHPOINTS
    && (forall i :: 0 <= i < MAX_WATCHPOINTS ==> SlotWritten(x, t, done, i))
    && (forall i :: 0 <= i < MAX_WATCHPOINTS && x.hard.locations[i] != 0 ==> t.hard.locations[i] != 0)
  }

  lemma NothingWritten(x: Armed)
    requires SlotInv(x.hard) && RegistersInv(x) && !x.enabled
    ensures AllWritten(x, x, {})
  {
  }

  lemma WrittenOneMore(x: Armed, t: Armed, a: nat, done: set<nat>)
    requires SlotInv(x.hard) && AllWritten(x, t, done) && a in x.hard.sites
    ensures AllWritten(x, ArmOn(t, a, true), done + {a})
  {
    ArmOnWrites(t, a);
    var t' := ArmOn(t, a, true);
    forall i | 0 <= i < MAX_WATCHPOINTS ensures SlotWritten(x, t', done + {a}, i) {
      assert SlotWritten(x, t, done, i);
    }
  }

  /** Enabling a thread that was not writes the slots it takes, and those it finds taken
      where the write works. */
  lemma {:induction false} NewlyWritten(x: Armed, order: seq<nat>, worksAt: set<nat>, n: nat)
    requires SlotInv(x.hard) && RegistersInv(x) && !x.enabled && n <= |order| && forall a <- order :: a in x.hard.sites
    ensures AllWritten(x, ArmAllOn(x, order, worksAt, n), Worked(order, worksAt, n))
  {
    if n > 0 {
      NewlyWritten(x, order, worksAt, n - 1);
      var t, a := ArmAllOn(x, order, worksAt, n - 1), order[n - 1];
      if a in worksAt {
        WrittenOneMore(x, t, a, Worked(order, worksAt, n - 1));
      } else {
        assert ArmOn(t, a, false) == t;
        assert Worked(order, worksAt, n) == Worked(order, worksAt, n - 1);
      }
    } else {
      NothingWritten(x);
    }
  }

  /** From a sound state, with Permanent sites and every slot armed, an operation leaves
      every slot armed exactly when it is none of those above. */
  lemma ArmedStepIsExact(x: Armed, op: Op)
    requires SlotInv(x.hard) && RegistersInv(x) && AllArmed(x) && PermanentOnly(x.hard, op)
    ensures AllArmed(ApplyOn(x, op)) <==> !LeavesUnarmed(x, op)
  {
    match op
    case Add(_, _, _, _, _, _) => AddArmedIsExact(x, op);
    case Remove(_, _) =>
    case Hit(_) =>
    case Enable(order, worksAt) => EnableArmedIsExact(x, order, worksAt);
    case Disable(_) =>
  }

  /** So in every run without such an operation the registers of an enabled thread are
      the occupied slots. */
  lemma {:induction false} RunIsArmed(states: seq<Armed>, ops: seq<Op>, n: nat)
    requires IsCarefulRun(states, ops) && n < |states|
    requires forall i :: 0 <= i < |ops| ==> !LeavesUnarmed(states[i], ops[i])
    ensures AllArmed(states[n]) && (states[n].enabled ==> states[n].registers == states[n].hard.locations)
  {
    RunKeepsRegisters(states, ops, n);
    if n > 0 {
      RunIsArmed(states, ops, n - 1);
      RunKeepsRegisters(states, ops, n - 1);
      ArmedStepIsExact(states[n - 1], ops[n - 1]);
    }
  }

  lemma EnableArmedIsExact(x: Armed, order: seq<nat>, worksAt: set<nat>)
    requires SlotInv(x.hard) && RegistersInv(x) && AllArmed(x) && forall a <- order :: a in x.hard.sites
    ensures AllArmed(ApplyOn(x, Op.Enable(order, worksAt))) <==> !LeavesUnarmed(x, Op.Enable(order, worksAt))
  {
    if x.enabled {
      ReenableIsExact(x, order, worksAt);
    } else {
      FirstEnableIsExact(x, order, worksAt);
    }
  }

  lemma ReenableIsExact(x: Armed, order: seq<nat>, worksAt: set<nat>)
    requires SlotInv(x.hard) && RegistersInv(x) && AllArmed(x) && x.enabled && forall a <- order :: a in x.hard.sites
    ensures AllArmed(ApplyOn(x, Op.Enable(order, worksAt))) <==> !exists a <- order :: a in worksAt && TakesSlot(x.hard, a)
  {
    var n := |order|;
    assert order[..n] == order;
    EnabledUnwritten(x, order, worksAt, n);
    ArmAllTakes(x.hard, order, worksAt, n);
    SomeTakesIs(x.hard, order, worksAt, n);
    var t := ArmAll(x.hard, order, worksAt, n);
    if t.locations != x.hard.locations {
      var i :| 0 <= i < MAX_WATCHPOINTS && t.locations[i] != x.hard.locations[i];
      assert x.hard.locations[i] == 0 && x.registers[i] == 0;
    }
  }

  lemma FirstEnableIsExact(x: Armed, order: seq<nat>, worksAt: set<nat>)
    requires SlotInv(x.hard) && RegistersInv(x) && !x.enabled && forall a <- order :: a in x.hard.sites
    ensures AllArmed(ApplyOn(x, Op.Enable(order, worksAt)))
       <==> !exists a <- x.hard.locations :: a != 0 && !(a in order && a in worksAt)
  {
    var n := |order|;
    NewlyWritten(x, order, worksAt, n);
    var t := ArmAllOn(x, order, worksAt, n);
    var done := Worked(order, worksAt, n);
    assert order[..n] == order;
    forall a <- x.hard.locations ensures a in done <==> a in order && a in worksAt {
      WorkedIs(order, worksAt, n, a);
    }
    if a :| a in x.hard.locations && a != 0 && !(a in order && a in worksAt) {
      var i :| 0 <= i < MAX_WATCHPOINTS && x.hard.locations[i] == a;
      assert SlotWritten(x, t, done, i);
    }
    if !exists a <- x.hard.locations :: a != 0 && !(a in order && a in worksAt) {
      forall i | 0 <= i < MAX_WATCHPOINTS && t.hard.locations[i] != 0 ensures t.registers[i] == t.hard.locations[i] {
        assert SlotWritten(x, t, done, i);
        assert x.hard.locations[i] in x.hard.locations;
      }
    }
  }

  // ---------------------------------------------------------------------------
  // Debug exceptions
  // ---------------------------------------------------------------------------

  /** What a look at the status bits comes to: a slot and its site, nothing, the
      assertion that the slot is occupied, or a slot whose site is gone. */
  datatype HitResult = Nothing | Reported(index: nat, site: Site) | AssertionFails(index: nat) | Dangling(index: nat)

  function HitOn(h: Hard, status: seq<bool>, from: nat): HitResult
    decreases |status| - from
  {
    if from >= |status| || from >= |h.locations| then Nothing
    else if !status[from] then HitOn(h, status, from + 1)
    else if h.locations[from] == 0 then AssertionFails(from)
    else if h.locations[from] in h.sites then Reported(from, h.sites[h.locations[from]])
    else Dangling(from)
  }

  /** The processor reports armed registers only. */
  predicate Raisable(x: Armed, status: seq<bool>) {
    |status| == |x.registers| && forall i :: 0 <= i < |status| && status[i] ==> x.registers[i] != 0
  }

  lemma {:induction false} HitMeans(h: Hard, status: seq<bool>, from: nat)
    requires from <= |status| <= |h.locations|
    ensures match HitOn(h, status, from)
            case Nothing => forall k :: from <= k < |status| ==> !status[k]
            case Reported(i, site) => from <= i < |status| && status[i] && (forall k :: from <= k < i ==> !status[k])
                                      && h.locations[i] != 0 && h.locations[i] in h.sites && site == h.sites[h.locations[i]]
            case AssertionFails(i) => from <= i < |status| && status[i] && h.locations[i] == 0
            case Dangling(i) => from <= i < |status| && status[i] && h.locations[i] != 0 && h.locations[i] !in h.sites
    decreases |status| - from
  {
    if from < |status| && !status[from] {
      HitMeans(h, status, from + 1);
    }
  }

  /** The assertion holds whatever the processor reports exactly when every armed
      register's slot is occupied. */
  lemma HitIsExact(x: Armed)
    requires |x.registers| == |x.hard.locations|
    ensures (forall status :: Raisable(x, status) ==> !HitOn(x.hard, status, 0).AssertionFails?)
       <==> (forall i :: 0 <= i < |x.registers| && x.registers[i] != 0 ==> x.hard.locations[i] != 0)
  {
    forall status | Raisable(x, status) && HitOn(x.hard, status, 0).AssertionFails?
      ensures exists i :: 0 <= i < |x.registers| && x.registers[i] != 0 && x.hard.locations[i] == 0
    {
      HitMeans(x.hard, status, 0);
      assert x.registers[HitOn(x.hard, status, 0).index] != 0;
    }
    if i :| 0 <= i < |x.registers| && x.registers[i] != 0 && x.hard.locations[i] == 0 {
      OnlyBit(x.hard, |x.registers|, i, 0);
      assert Raisable(x, Single(|x.registers|, i));
    }
  }

  function Single(n: nat, i: nat): seq<bool> {
    seq(n, k => k == i)
  }

  lemma {:induction false} OnlyBit(h: Hard, n: nat, i: nat, from: nat)
    requires from <= i < n == |h.locations| && h.locations[i] == 0
    ensures HitOn(h, Single(n, i), from) == AssertionFails(i)
    decreases i - from
  {
    if from < i {
      OnlyBit(h, n, i, from + 1);
    }
  }

  /** So it holds in every sound state, and the site is there. */
  lemma SoundHit(x: Armed, status: seq<bool>)
    requires SlotInv(x.hard) && RegistersInv(x) && Raisable(x, status)
    ensures var r := HitOn(x.hard, status, 0); r.Nothing? || r.Reported?
  {
    HitMeans(x.hard, status, 0);
  }

  /** A second watchpoint, added while the thread is enabled. */
  function WatchingTwo(): Armed {
    ApplyOn(Watching(), Op.Add(At(8), PERMANENT, 4, WRITE, true, true))
  }

  lemma WatchingTwoIs()
    ensures WatchingTwo() == Armed(Hard(map[7 := Site(1, 7, PERMANENT, WRITE, 4), 8 := Site(1, 8, PERMANENT, WRITE, 4)], [7, 8, 0, 0]),
                                   [7, 0, 0, 0], true)
  {
    WatchingIs();
    var sites := map[7 := Site(1, 7, PERMANENT, WRITE, 4), 8 := Site(1, 8, PERMANENT, WRITE, 4)];
    assert AddSite(Watching().hard.sites, 8, PERMANENT, 4, WRITE).sites == sites;
    var l := Watching().hard.locations;
    assert Slot(l, 8, 0) == 4 by {
      assert Slot(l, 8, 1) == Slot(l, 8, 2) == Slot(l, 8, 3);
    }
    assert Slot(l, 0, 0) == Slot(l, 0, 1) == 1;
    assert Arm(Hard(sites, l), 8, true) == Hard(sites, [7, 8, 0, 0]);
  }

  lemma RemovedFirstIs(x: Armed)
    requires x == Armed(Hard(map[7 := Site(1, 7, PERMANENT, WRITE, 4), 8 := Site(1, 8, PERMANENT, WRITE, 4)], [7, 8, 0, 0]), [7, 0, 0, 0], true)
    ensures ApplyOn(x, Op.Remove(At(7), true))
         == Armed(Hard(map[8 := Site(1, 8, PERMANENT, WRITE, 4)], [0, 8, 0, 0]), [7, 0, 0, 0], true)
  {
    assert RemoveSite(x.hard.sites, 7).sites == map[8 := Site(1, 8, PERMANENT, WRITE, 4)];
    assert Free(x.hard.locations, 7) == [0, 8, 0, 0];
  }

  /** It fails after an armed watchpoint is removed, if another is left. */
  lemma StaleHit()
    ensures var removed := ApplyOn(WatchingTwo(), Op.Remove(At(7), true));
            var status := [true, false, false, false];
            && removed.hard.sites.Keys == {8} && Raisable(removed, status)
            && HitOn(removed.hard, status, 0) == AssertionFails(0)
  {
    WatchingTwoIs();
    RemovedFirstIs(WatchingTwo());
  }

  // ---------------------------------------------------------------------------
  // The manager
  // ---------------------------------------------------------------------------

  function AddError(h: Hard, address: Address, size: nat, mode: Mode, enabled: bool, works: bool): ErrorCode {
    var m := if mode == READ then READ_WRITE else mode;
    if |h.sites| >= MAX_WATCHPOINTS then InvalidArgument
    else if IsValid(address, size, m) != Success then IsValid(address, size, m)
    else if address.value in h.sites then (if h.sites[address.value].mode == m then Success else InvalidArgument)
    else if !enabled then Success
    else if |h.sites| == MAX_WATCHPOINTS - 1 && address.value !in h.locations then InvalidArgument
    else if works then Success
    else Failed
  }

  /** What the error tells: success that the site is there, in the mode asked for; failure
      that nothing changed, or that the site is there without its register. */
  lemma AddErrorMeans(h: Hard, op: Op)
    requires op.Add? && SlotInv(h)
    ensures var m, t := if op.mode == READ then READ_WRITE else op.mode, Apply(h, op);
            var error := AddError(h, op.address, op.size, op.mode, op.enabled, op.works);
            && (error == Success ==> op.address.At? && op.address.value in t.sites && t.sites[op.address.value].mode == m)
            && (error != Success ==>
                  t == h || (op.enabled && op.address.At? && op.address.value !in h.sites && op.address.value in t.sites
                             && t.locations == h.locations))
            && (error == Failed ==> op.enabled && !op.works)
  {
    if |h.sites| < MAX_WATCHPOINTS && op.address.At? && op.address.value !in h.sites {
      AddedCount(h.sites, op.address.value, op.lifetime, op.size, if op.mode == READ then READ_WRITE else op.mode);
    }
  }

  /** Removing a site that is there reports an error exactly when the site goes and the
      thread is enabled, but for address 0, whose slot is found. */
  lemma RemoveErrorMeans(h: Hard, a: nat, enabled: bool, works: bool)
    ensures var error, after := RemoveError(h, At(a), enabled, works), Apply(h, Op.Remove(At(a), works)).sites;
            && (error == NotFound <==> a !in h.sites)
            && (error == InvalidArgument <==> a != 0 && a in h.sites && a !in after && enabled)
            && (error == Failed <==> a == 0 && a in h.sites && a !in after && enabled && !works)
            && error != Unsupported
  {
  }

  /** `works` is what the last thread tried reports, or anything when there is none. It
      matters for address 0 only, whose slot is still found. */
  function RemoveError(h: Hard, address: Address, enabled: bool, works: bool): ErrorCode {
    if address == Unset then InvalidArgument
    else
      var r := RemoveSite(h.sites, address.value);
      if !(r.erased && enabled) then r.error
      else if address.value == 0 then (if works then Success else Failed)
      else InvalidArgument
  }

  /** Registers by thread id. */
  type Registers = map<nat, seq<nat>>

  function Put(regs: seq<nat>, i: nat, a: nat): seq<nat> {
    if i < |regs| then regs[i := a] else regs
  }

  function Written(regs: Registers, ts: set<nat>, i: nat, a: nat): Registers {
    map t | t in regs :: if t in ts then Put(regs[t], i, a) else regs[t]
  }

  lemma WrittenMore(regs: Registers, ts: set<nat>, more: set<nat>, i: nat, a: nat)
    ensures Written(Written(regs, ts, i, a), more, i, a) == Written(regs, ts + more, i, a)
  {
    var once := Written(regs, ts, i, a);
    forall t <- regs ensures Written(once, more, i, a)[t] == Written(regs, ts + more, i, a)[t] {
      if t in ts && i < |regs[t]| {
        assert regs[t][i := a][i := a] == regs[t][i := a];
      }
    }
  }

  /** The threads that do not take the registers written for a site, by thread id and
      the site's address. */
  type Refusals = set<(nat, nat)>

  function Accepting(threads: set<nat>, refused: Refusals, a: nat): set<nat> {
    set t <- threads | (t, a) !in refused
  }

  function RefusedSlots(h: Hard, refused: Refusals, t: nat): set<nat> {
    set i | 0 <= i < |h.locations| && (t, h.locations[i]) in refused
  }

  /** What trying `tried` for the site comes to. With none to try the error variable is
      never assigned, and `stray` holds the addresses for which it then reads success. */
  ghost predicate Works(a: nat, tried: set<nat>, refused: Refusals, stray: set<nat>, works: bool) {
    Answers(tried, Accepting(tried, refused, a), a in stray, works)
  }

  lemma SomeAnswer(a: nat, tried: set<nat>, refused: Refusals, stray: set<nat>) returns (works: bool)
    ensures Works(a, tried, refused, stray, works)
  {
    if t :| t in tried {
      return (t, a) !in refused;
    }
    works := a in stray;
  }

  lemma AloneWorks(a: nat, t: nat, qualify: set<nat>, refused: Refusals, stray: set<nat>, works: bool)
    requires Works(a, {t} * qualify, refused, stray, works)
    ensures works <==> if t in qualify then (t, a) !in refused else a in stray
  {
    assert {t} * qualify == if t in qualify then {t} else {};
  }

  predicate Ascending(order: seq<nat>) {
    forall j, k :: 0 <= j < k < |order| ==> order[j] < order[k]
  }

  /** The sites but `rest` were visited, in the order of their addresses. */
  predicate Visited(sites: set<nat>, order: seq<nat>, worksAt: set<nat>, rest: set<nat>) {
    && Ascending(order) && rest <= sites && worksAt !! rest
    && (forall a <- order :: a in sites && a !in rest) && (forall a <- sites :: a in order || a in rest)
    && (forall a <- order, b <- rest :: a < b)
  }

  lemma VisitedNext(sites: set<nat>, order: seq<nat>, worksAt: set<nat>, rest: set<nat>, a: nat, works: bool)
    requires Visited(sites, order, worksAt, rest) && a in rest && forall b <- rest :: a <= b
    ensures Visited(sites, order + [a], if works then worksAt + {a} else worksAt, rest - {a}) && a !in order && a !in worksAt
  {
    forall k | 0 <= k < |order| ensures order[k] < a {
      assert order[k] in order;
    }
  }

  lemma {:induction false} HasLeast(s: set<nat>) returns (a: nat)
    requires s != {}
    ensures a in s && forall b <- s :: a <= b
    decreases |s|
  {
    a :| a in s;
    if s != {a} {
      assert s == (s - {a}) + {a};
      var b := HasLeast(s - {a});
      a := if b < a then b else a;
    }
  }

  method Least(s: set<nat>) returns (a: nat)
    requires s != {}
    ensures a in s && forall b <- s :: a <= b
  {
    ghost var least := HasLeast(s);
    a :| a in s && forall b <- s :: a <= b;
  }

  /** The answer of one of the threads tried, or what was there before. */
  predicate Answers(tried: set<nat>, accepts: set<nat>, before: bool, works: bool) {
    if tried == {} then works == before else exists t <- tried :: works == (t in accepts)
  }

  /** The registers and the answer after `tried` were tried. */
  predicate WrittenOn(was: Registers, now: Registers, tried: set<nat>, accepts: set<nat>, before: bool, works: bool, i: nat, a: nat) {
    Answers(tried, accepts, before, works) && now == Written(was, tried * accepts, i, a)
  }

  lemma NoneWritten(regs: Registers, accepts: set<nat>, before: bool, i: nat, a: nat)
    ensures WrittenOn(regs, regs, {}, accepts, before, before, i, a)
  {
    assert Written(regs, {} * accepts, i, a) == regs;
  }

  lemma WrittenOnOneMore(was: Registers, now: Registers, tried: set<nat>, t: nat, accepts: set<nat>, before: bool, works: bool, i: nat, a: nat)
    requires WrittenOn(was, now, tried, accepts, before, works, i, a)
    ensures WrittenOn(was, Written(now, {t} * accepts, i, a), tried + {t}, accepts, before, t in accepts, i, a)
  {
    WrittenMore(was, tried * accepts, {t} * accepts, i, a);
    assert (tried + {t}) * accepts == tried * accepts + {t} * accepts;
    assert t in tried + {t};
  }

  /** Arming a site, as a thread that is alone sees it. */
  lemma AloneArmed(h: Hard, regs: Registers, enabled: set<nat>, t: nat, a: nat, refused: Refusals, stray: set<nat>, works: bool)
    requires SlotInv(h) && a in h.sites && t in regs && |regs[t]| == MAX_WATCHPOINTS
    requires Works(a, if t in enabled then {} else {t}, refused, stray, works)
    ensures ArmOn(Armed(h, regs[t], t in enabled), a, works)
         == Armed(Arm(h, a, works), Armament(h, regs, if t in enabled then {} else {t}, refused, a)[t], t in enabled)
  {
    var i := SlotFor(h, a);
    if i >= 0 {
      SlotForFits(h, a);
      ArmOnIs(Armed(h, regs[t], t in enabled), a, works, i);
    }
  }

  /** The registers after the base class's removal. */
  function RemovedFrom(h: Hard, regs: Registers, active: bool, tried: set<nat>, refused: Refusals, a: nat): Registers {
    if RemoveSite(h.sites, a).erased && active && a in h.locations
    then Written(regs, Accepting(tried, refused, a), Slot(h.locations, a, 0), 0)
    else regs
  }

  /** A removal writes registers for address 0 only, and on a thread that is alone as
      `Unwatched` says. */
  lemma RemovedSeen(h: Hard, regs: Registers, enabled: set<nat>, threads: set<nat>, stopped: set<nat>, a: nat, refused: Refusals)
    requires SlotInv(h) && threads <= regs.Keys && forall t <- regs :: |regs[t]| == MAX_WATCHPOINTS
    ensures var freed := h.(locations := Free(h.locations, a));
            var now := RemovedFrom(freed, regs, threads <= enabled, threads * (stopped * enabled), refused, a);
            && now.Keys == regs.Keys && (a != 0 ==> now == regs) && (forall t <- now :: |now[t]| == MAX_WATCHPOINTS)
            && forall t <- threads :: Alone(t, threads, stopped) ==>
                 now[t] == Unwatched(Armed(h, regs[t], t in enabled), At(a), (t, a) !in refused)
  {
    FreedIsGone(h, a);
  }

  // Clearing site after site.

  /** Register i of an enabled thread after the sites but `rest` were cleared. */
  function ClearedAt(h: Hard, was: nat, rest: set<nat>, active: bool, i: nat): nat
    requires i < |h.locations|
  {
    var a := h.locations[i];
    if active && a in h.sites && a !in rest && Slot(h.locations, a, 0) == i then 0 else was
  }

  predicate ClearedBut(h: Hard, was: Registers, now: Registers, rest: set<nat>, ts: set<nat>, refused: Refusals) {
    && |h.locations| == MAX_WATCHPOINTS && now.Keys == was.Keys
    && forall t <- now ::
         && |now[t]| == |was[t]| == MAX_WATCHPOINTS
         && forall i {:trigger now[t][i]} {:trigger was[t][i]} :: 0 <= i < MAX_WATCHPOINTS ==>
              now[t][i] == ClearedAt(h, was[t][i], rest, t in ts && (t, h.locations[i]) !in refused, i)
  }

  lemma ClearedOneMore(h: Hard, was: Registers, now: Registers, rest: set<nat>, ts: set<nat>, refused: Refusals, a: nat)
    requires ClearedBut(h, was, now, rest, ts, refused) && a in rest && rest <= h.sites.Keys && a in h.locations
    ensures ClearedBut(h, was, Written(now, Accepting(ts, refused, a), Slot(h.locations, a, 0), 0), rest - {a}, ts, refused)
  {
    var k := Slot(h.locations, a, 0);
    var now' := Written(now, Accepting(ts, refused, a), k, 0);
    forall t, i | t in now && 0 <= i < MAX_WATCHPOINTS
      ensures now'[t][i] == ClearedAt(h, was[t][i], rest - {a}, t in ts && (t, h.locations[i]) !in refused, i)
    {
      assert now[t][i] == ClearedAt(h, was[t][i], rest, t in ts && (t, h.locations[i]) !in refused, i);
    }
  }

  lemma ClearedIsDisarmed(h: Hard, was: Registers, now: Registers, ts: set<nat>, refused: Refusals, t: nat)
    requires ClearedBut(h, was, now, {}, ts, refused) && t in now
    ensures now[t] == Disarmed(Armed(h, was[t], t in ts), RefusedSlots(h, refused, t))
  {
    var x := Armed(h, was[t], t in ts);
    forall i | 0 <= i < MAX_WATCHPOINTS ensures now[t][i] == Disarmed(x, RefusedSlots(h, refused, t))[i] {
      assert i in RefusedSlots(h, refused, t) <==> (t, h.locations[i]) in refused;
    }
  }

  /** The slot the address has, or the one it would take. */
  function SlotFor(h: Hard, a: nat): int {
    if a in h.locations then Slot(h.locations, a, 0) else AvailableSlot(h)
  }

  lemma SlotForFits(h: Hard, a: nat)
    requires SlotInv(h) && a in h.sites
    ensures SlotFor(h, a) < MAX_WATCHPOINTS
  {
    if a !in h.locations && |h.sites| != MAX_WATCHPOINTS {
      FreeSlotExists(h, a);
    }
  }

  lemma NoneArmed(h: Hard, regs: Registers, refused: Refusals, a: nat)
    ensures Armament(h, regs, {}, refused, a) == regs
  {
    assert Accepting({}, refused, a) == {};
  }

  /** The registers once those that accept the site have it. */
  function Armament(h: Hard, regs: Registers, tried: set<nat>, refused: Refusals, a: nat): Registers {
    var i := SlotFor(h, a);
    if i < 0 then regs else Written(regs, Accepting(tried, refused, a), i, a)
  }

  lemma ArmOnIs(x: Armed, a: nat, works: bool, i: nat)
    requires SlotInv(x.hard) && |x.registers| == MAX_WATCHPOINTS && i < MAX_WATCHPOINTS
    requires i == if a in x.hard.locations then Slot(x.hard.locations, a, 0) else AvailableSlot(x.hard)
    ensures ArmOn(x, a, works) == x.(hard := Arm(x.hard, a, works),
                                     registers := if works && !x.enabled then Put(x.registers, i, a) else x.registers)
  {
  }

  lemma ArmIs(h: Hard, a: nat, works: bool, i: nat)
    requires SlotInv(h) && a in h.sites && i < MAX_WATCHPOINTS
    requires i == if a in h.locations then Slot(h.locations, a, 0) else AvailableSlot(h)
    ensures Arm(h, a, works) == (if works then h.(locations := h.locations[i := a]) else h) && SlotInv(Arm(h, a, works))
  {
    ArmKeeps(h, a, works);
  }

  lemma FreedIsGone(h: Hard, a: nat)
    requires SlotInv(h)
    ensures var l := Free(h.locations, a);
            if a == 0 then l == h.locations && 0 in l else a !in l
  {
    assert h.locations[3] == 0;
  }

  lemma AddedCount(sites: SiteMap, a: nat, lifetime: Lifetime, size: nat, mode: Mode)
    ensures var added := AddSite(sites, a, lifetime, size, mode);
            if added.created then a !in sites && |added.sites| == |sites| + 1 else |added.sites| == |sites|
  {
    var added := AddSite(sites, a, lifetime, size, mode);
    assert added.sites.Keys == sites.Keys + if added.created then {a} else {};
    assert |added.sites.Keys| == |added.sites| && |sites.Keys| == |sites|;
  }

  /** The operation concerns this one thread, which is stopped. */
  predicate Alone(t: nat, threads: set<nat>, stopped: set<nat>) {
    threads == {t} && t in stopped
  }

  lemma EnabledIs(x: Armed, y: Armed, order: seq<nat>, worksAt: set<nat>)
    requires y == ArmAllOn(x, order, worksAt, |order|)
    ensures ApplyOn(x, Op.Enable(order, worksAt)) == y.(enabled := true)
  {
  }

  /** A thread that is alone has seen the sites in `order` armed. */
  ghost predicate ArmedEach(was: Hard, regs: Registers, h: Hard, now: Registers, enabled: set<nat>,
                            threads: set<nat>, stopped: set<nat>, order: seq<nat>, worksAt: set<nat>) {
    && now.Keys == regs.Keys
    && forall t <- now :: Alone(t, threads, stopped) ==>
         Armed(h, now[t], t in enabled) == ArmAllOn(Armed(was, regs[t], t in enabled), order, worksAt, |order|)
  }

  lemma ArmedNext(was: Hard, regs: Registers, h: Hard, now: Registers, enabled: set<nat>, threads: set<nat>, stopped: set<nat>,
                  order: seq<nat>, worksAt: set<nat>, a: nat, refused: Refusals, stray: set<nat>, works: bool)
    requires ArmedEach(was, regs, h, now, enabled, threads, stopped, order, worksAt) && a !in order && a !in worksAt
    requires SlotInv(h) && a in h.sites && forall t <- now :: |now[t]| == MAX_WATCHPOINTS
    requires Works(a, threads * (stopped - enabled), refused, stray, works)
    ensures ArmedEach(was, regs, Arm(h, a, works), Armament(h, now, threads * (stopped - enabled), refused, a),
                      enabled, threads, stopped, order + [a], if works then worksAt + {a} else worksAt)
  {
    var next := Armament(h, now, threads * (stopped - enabled), refused, a);
    forall t <- next | Alone(t, threads, stopped)
      ensures Armed(Arm(h, a, works), next[t], t in enabled)
           == ArmAllOn(Armed(was, regs[t], t in enabled), order + [a], if works then worksAt + {a} else worksAt, |order| + 1)
    {
      assert threads * (stopped - enabled) == if t in enabled then {} else {t};
      AloneArmed(h, now, enabled, t, a, refused, stray, works);
      ArmAllOnSnoc(Armed(was, regs[t], t in enabled), order, worksAt, a, works);
    }
  }

  class HardwareBreakpointManager {
    var sites: SiteMap
    var locations: seq<nat>
    var enabled: set<nat>  // thread ids
    /** The debug registers of the threads of the process. */
    var registers: Registers
    /** How the threads answer, which may change from one call to the next. */
    var refused: Refusals
    var stray: set<nat>

    ghost function State(): Hard
      reads this
    {
      Hard(sites, locations)
    }

    /** As one thread sees it. */
    ghost function On(t: nat): Armed
      requires t in registers
      reads this
    {
      Armed(State(), registers[t], t in enabled)
    }

    ghost predicate Valid()
      reads this
    {
      SlotInv(State()) && forall t <- registers :: |registers[t]| == MAX_WATCHPOINTS
    }

    constructor (threads: set<nat>)
      ensures Valid() && State() == Initial && enabled == {} && registers.Keys == threads
      ensures forall t <- threads :: On(t) == Armed(Initial, [0, 0, 0, 0], false)
    {
      sites, locations, enabled := map[], [0, 0, 0, 0], {};
      registers := map t | t in threads :: [0, 0, 0, 0];
      refused, stray := {}, {};
    }

    method FindLocation(a: nat) returns (i: nat)
      ensures i == Slot(locations, a, 0)
    {
      i := 0;
      while i < |locations| && locations[i] != a
        invariant i <= |locations| && Slot(locations, a, i) == Slot(locations, a, 0)
      {
        i := i + 1;
      }
    }

    /** Needs a free slot when there are fewer sites than slots. */
    method GetAvailableLocation() returns (i: int)
      requires |locations| == MAX_WATCHPOINTS
      requires |sites| != MAX_WATCHPOINTS ==> Slot(locations, 0, 0) < |locations|
      ensures i == AvailableSlot(State())
    {
      if |sites| == MAX_WATCHPOINTS {
        return -1;
      }
      i := FindLocation(0);
      assert i != |locations|;
    }

    method WriteOn(t: nat, idx: nat, a: nat, accepts: set<nat>) returns (works: bool)
      modifies this`registers
      ensures works == (t in accepts) && registers == Written(old(registers), {t} * accepts, idx, a)
    {
      works := t in accepts;
      if works && t in registers {
        registers := registers[t := Put(registers[t], idx, a)];
      }
    }

    /** Writes a register on the threads that qualify. The answer is that of the last one
        tried; with none it is whatever the variable held before. */
    method WriteOnThreads(idx: nat, a: nat, threads: set<nat>, qualify: set<nat>, accepts: set<nat>, before: bool)
      returns (works: bool)
      modifies this`registers
      ensures WrittenOn(old(registers), registers, threads * qualify, accepts, before, works, idx, a)
    {
      works := before;
      var rest := threads;
      ghost var tried := {};
      NoneWritten(registers, accepts, before, idx, a);
      while rest != {}
        invariant rest <= threads && forall t :: t in tried <==> t in threads && t in qualify && t !in rest
        invariant WrittenOn(old(registers), registers, tried, accepts, before, works, idx, a)
        decreases |rest|
      {
        var t :| t in rest;
        rest := rest - {t};
        if t in qualify {
          ghost var now, answer := registers, works;
          works := WriteOn(t, idx, a, accepts);
          WrittenOnOneMore(old(registers), now, tried, t, accepts, before, answer, idx, a);
          tried := tried + {t};
        }
      }
      assert tried == threads * qualify;
    }

    method LocationFor(a: nat) returns (idx: int)
      requires SlotInv(State()) && a in sites
      ensures idx == SlotFor(State(), a)
      ensures idx < |locations| && (idx < 0 <==> a !in locations && |sites| == MAX_WATCHPOINTS)
    {
      idx := FindLocation(a);
      if idx == |locations| {
        if |sites| != MAX_WATCHPOINTS { FreeSlotExists(State(), a); }
        idx := GetAvailableLocation();
      }
    }

    method EnableLocation(a: nat, threads: set<nat>, stopped: set<nat>) returns (error: ErrorCode, ghost works: bool)
      requires Valid() && a in sites && threads <= registers.Keys
      modifies this`locations, this`registers
      ensures Works(a, threads * (stopped - enabled), refused, stray, works)
      ensures Valid() && State() == Arm(old(State()), a, works)
      ensures error == if a !in old(locations) && |sites| == MAX_WATCHPOINTS then InvalidArgument else if works then Success else Failed
      ensures registers == Armament(old(State()), old(registers), threads * (stopped - enabled), refused, a)
    {
      ghost var h := State();
      var idx := LocationFor(a);
      if idx < 0 {
        works := SomeAnswer(a, threads * (stopped - enabled), refused, stray);
        return InvalidArgument, works;
      }
      ghost var tried := threads * (stopped - enabled);
      var accepts := Accepting(threads * (stopped - enabled), refused, a);
      var ok := WriteOnThreads(idx, a, threads, stopped - enabled, accepts, a in stray);
      assert tried * accepts == accepts;
      works := ok;
      ArmIs(h, a, ok, idx);
      error := Failed;
      if ok {
        locations := locations[idx := a];
        error := Success;
      }
    }

    method Add(address: Address, lifetime: Lifetime, size: nat, mode: Mode, threads: set<nat>, stopped: set<nat>)
      returns (error: ErrorCode)
      requires Valid() && threads <= registers.Keys
      modifies this`sites, this`locations, this`registers
      ensures Valid() && registers == old(registers)
      ensures State() == Apply(old(State()), Op.Add(address, lifetime, size, mode, threads <= enabled, ValueOf(address) in stray))
      ensures error == AddError(old(State()), address, size, mode, threads <= enabled, ValueOf(address) in stray)
    {
      if |sites| >= MAX_WATCHPOINTS {
        return InvalidArgument;
      }
      var m := if mode == READ then READ_WRITE else mode;
      var valid := IsValid(address, size, m);
      if valid != Success {
        return valid;
      }
      error := AddValid(address.value, lifetime, size, m, threads, stopped);
    }

    method AddValid(a: nat, lifetime: Lifetime, size: nat, mode: Mode, threads: set<nat>, stopped: set<nat>)
      returns (error: ErrorCode)
      requires Valid() && |sites| < MAX_WATCHPOINTS && mode != READ && IsValid(At(a), size, mode) == Success
      requires threads <= registers.Keys
      modifies this`sites, this`locations, this`registers
      ensures Valid() && registers == old(registers)
      ensures State() == Apply(old(State()), Op.Add(At(a), lifetime, size, mode, threads <= enabled, a in stray))
      ensures error == AddError(old(State()), At(a), size, mode, threads <= enabled, a in stray)
    {
      AddKeeps(State(), Op.Add(At(a), lifetime, size, mode, false, false));
      var added := AddSite(sites, a, lifetime, size, mode);
      assert added.created ==> |added.sites| == |sites| + 1 by { AddedCount(sites, a, lifetime, size, mode); }
      sites := added.sites;
      error := added.error;
      if added.created && threads <= enabled {
        assert threads * (stopped - enabled) == {};
        ghost var works;
        error, works := EnableLocation(a, threads, stopped);
        NoneArmed(Hard(sites, old(locations)), old(registers), refused, a);
      }
    }

    /** The base class's removal, once the slot is freed. */
    method RemoveValid(a: nat, threads: set<nat>, stopped: set<nat>) returns (error: ErrorCode, ghost works: bool)
      requires RefsInv(sites) && threads <= registers.Keys
      modifies this`sites, this`registers
      ensures sites == RemoveSite(old(sites), a).sites && Works(a, threads * (stopped * enabled), refused, stray, works)
      ensures var r := RemoveSite(old(sites), a);
              && error == (if !(r.erased && threads <= enabled) then r.error
                           else if a !in locations then InvalidArgument
                           else if works then Success else Failed)
              && registers == RemovedFrom(old(State()), old(registers), threads <= enabled, threads * (stopped * enabled), refused, a)
    {
      works := SomeAnswer(a, threads * (stopped * enabled), refused, stray);
      var r := RemoveSite(sites, a);
      assert r.asserts by { RemoveKeepsRefs(sites, a); }
      error := r.error;
      if r.erased && threads <= enabled {
        error, works := DisableLocation(a, threads, stopped);
      }
      sites := r.sites;
    }

    method FreeLocation(a: nat)
      modifies this`locations
      ensures locations == Free(old(locations), a)
    {
      var loc := FindLocation(a);
      if loc != |locations| {
        locations := locations[loc := 0];
      }
    }

    /** Erasing a site while enabled reports an error: the slot is gone by the time it
        is looked for. */
    method Remove(address: Address, threads: set<nat>, stopped: set<nat>) returns (error: ErrorCode, ghost works: bool)
      requires Valid() && RefsInv(sites) && threads <= registers.Keys
      modifies this`sites, this`locations, this`registers
      ensures Works(ValueOf(address), threads * (stopped * enabled), refused, stray, works)
      ensures Valid() && State() == Apply(old(State()), Op.Remove(address, works))
      ensures error == RemoveError(old(State()), address, threads <= enabled, works) && registers.Keys == old(registers.Keys)
      ensures address != At(0) ==> registers == old(registers)
      ensures forall t <- threads :: Alone(t, threads, stopped) ==>
                On(t) == ApplyOn(old(On(t)), Op.Remove(address, (t, ValueOf(address)) !in refused))
    {
      ghost var h, was := State(), registers;
      FreeLocation(ValueOf(address));
      RemoveKeeps(h, address, false);
      if address == Unset {
        works := SomeAnswer(0, threads * (stopped * enabled), refused, stray);
        return InvalidArgument, works;
      }
      FreedIsGone(h, address.value);
      RemovedSeen(h, was, enabled, threads, stopped, address.value, refused);
      error, works := RemoveValid(address.value, threads, stopped);
    }

    /** Clears the register of the address's slot on the threads that accept it. */
    method DisableLocation(a: nat, threads: set<nat>, stopped: set<nat>) returns (error: ErrorCode, ghost works: bool)
      modifies this`registers
      ensures Works(a, threads * (stopped * enabled), refused, stray, works)
      ensures a !in locations ==> error == InvalidArgument && registers == old(registers)
      ensures a in locations ==>
                && error == (if works then Success else Failed)
                && registers == Written(old(registers), Accepting(threads * (stopped * enabled), refused, a), Slot(locations, a, 0), 0)
    {
      var loc := FindLocation(a);
      if loc == |locations| {
        works := SomeAnswer(a, threads * (stopped * enabled), refused, stray);
        return InvalidArgument, works;
      }
      ghost var tried := threads * (stopped * enabled);
      var accepts := Accepting(threads * (stopped * enabled), refused, a);
      var ok := WriteOnThreads(loc, 0, threads, stopped * enabled, accepts, a in stray);
      assert tried * accepts == accepts;
      works := ok;
      error := if ok then Success else Failed;
    }

    /** The sites in `order` have been armed, each as the threads answered. */
    ghost predicate ArmedSoFar(was: Hard, regs: Registers, threads: set<nat>, stopped: set<nat>, order: seq<nat>, worksAt: set<nat>)
      reads this
    {
      && State() == ArmAll(was, order, worksAt, |order|)
      && (forall a <- order :: Works(a, threads * (stopped - enabled), refused, stray, a in worksAt))
      && ArmedEach(was, regs, State(), registers, enabled, threads, stopped, order, worksAt)
    }

    method EnableNext(a: nat, threads: set<nat>, stopped: set<nat>,
                      ghost was: Hard, ghost regs: Registers, ghost order: seq<nat>, ghost worksAt: set<nat>)
      returns (ghost works: bool)
      requires Valid() && threads <= registers.Keys && a in sites && a !in order && a !in worksAt
      requires ArmedSoFar(was, regs, threads, stopped, order, worksAt)
      modifies this`locations, this`registers
      ensures Valid() && ArmedSoFar(was, regs, threads, stopped, order + [a], if works then worksAt + {a} else worksAt)
    {
      ghost var h, before := State(), registers;
      var error;
      error, works := EnableLocation(a, threads, stopped);
      ArmAllSnoc(was, order, worksAt, a, works);
      ArmedNext(was, regs, h, before, enabled, threads, stopped, order, worksAt, a, refused, stray, works);
    }

    /** Visits the sites in the order of their addresses. */
    method EnableLocations(threads: set<nat>, stopped: set<nat>) returns (ghost order: seq<nat>, ghost worksAt: set<nat>)
      requires Valid() && threads <= registers.Keys
      modifies this`locations, this`registers
      ensures Valid() && Visited(sites.Keys, order, worksAt, {})
      ensures ArmedSoFar(old(State()), old(registers), threads, stopped, order, worksAt)
    {
      order, worksAt := [], {};
      var rest := sites.Keys;
      while rest != {}
        invariant Valid() && Visited(sites.Keys, order, worksAt, rest)
        invariant ArmedSoFar(old(State()), old(registers), threads, stopped, order, worksAt)
        decreases |rest|
      {
        var a := Least(rest);
        VisitedNext(sites.Keys, order, worksAt, rest, a, false);
        ghost var works := EnableNext(a, threads, stopped, old(State()), old(registers), order, worksAt);
        VisitedNext(sites.Keys, order, worksAt, rest, a, works);
        order := order + [a];
        worksAt := if works then worksAt + {a} else worksAt;
        rest := rest - {a};
      }
    }

    method Enable(threads: set<nat>, stopped: set<nat>) returns (ghost order: seq<nat>, ghost worksAt: set<nat>)
      requires Valid() && threads <= registers.Keys
      modifies this`locations, this`registers, this`enabled
      ensures Valid() && Ascending(order) && (forall a <- order :: a in sites) && (forall a <- sites :: a in order)
      ensures forall a <- sites :: Works(a, threads * (stopped - old(enabled)), refused, stray, a in worksAt)
      ensures State() == Apply(old(State()), Op.Enable(order, worksAt)) && registers.Keys == old(registers.Keys)
      ensures enabled == old(enabled) + threads
      ensures forall t <- threads :: Alone(t, threads, stopped) ==> On(t) == ApplyOn(old(On(t)), Op.Enable(order, worksAt))
    {
      order, worksAt := EnableLocations(threads, stopped);
      ghost var h, regs := State(), registers;
      enabled := enabled + threads;
      forall t <- threads | Alone(t, threads, stopped)
        ensures On(t) == ApplyOn(old(On(t)), Op.Enable(order, worksAt))
      {
        EnabledIs(old(On(t)), Armed(h, regs[t], t in old(enabled)), order, worksAt);
      }
    }

    /** Every stopped thread is cleared as `Disarmed` says, but where it refuses; slots
        are kept, so the same sites get the same ones when enabled again. */
    method Disable(threads: set<nat>, stopped: set<nat>)
      requires Valid() && RefsInv(sites) && threads <= registers.Keys
      modifies this`sites, this`registers, this`enabled
      ensures State() == Apply(old(State()), Op.Disable({})) && enabled == old(enabled) - threads
      ensures registers.Keys == old(registers.Keys)
      ensures forall t <- registers ::
                if t in threads * stopped
                then On(t) == ApplyOn(old(On(t)), Op.Disable(RefusedSlots(old(State()), refused, t)))
                else registers[t] == old(registers[t])
    {
      var rest := sites.Keys;
      ghost var ts := threads * (stopped * enabled);
      while rest != {}
        invariant rest <= sites.Keys
        invariant sites == old(sites) && enabled == old(enabled)
        invariant ClearedBut(State(), old(registers), registers, rest, ts, refused)
        decreases |rest|
      {
        var a :| a in rest;
        ghost var now := registers;
        var error; ghost var works;
        error, works := DisableLocation(a, threads, stopped);
        if a in locations {
          ClearedOneMore(State(), old(registers), now, rest, ts, refused, a);
        }
        rest := rest - {a};
      }
      forall t <- registers ensures registers[t] == Disarmed(Armed(State(), old(registers)[t], t in ts), RefusedSlots(State(), refused, t)) {
        ClearedIsDisarmed(State(), old(registers), registers, ts, refused, t);
      }
      assert ExpireAsserts(sites) by { ExpireKeepsRefs(sites); }
      sites := Expire(sites);
      enabled := enabled - threads;
    }

    /** The lookup after a debug exception: `status` holds the low bits of DR6, if the
        thread is stopped and they can be read. */
    method Hit(status: Option<seq<bool>>) returns (result: HitResult)
      requires |locations| == MAX_WATCHPOINTS && (status.Some? ==> |status.value| == MAX_WATCHPOINTS)
      ensures result == if sites == map[] || status.None? then Nothing else HitOn(State(), status.value, 0)
    {
      if |sites| == 0 || status.None? {
        assert |sites| == 0 ==> sites == map[];
        return Nothing;
      }
      var bits := status.value;
      for i := 0 to |bits|
        invariant HitOn(State(), bits, i) == HitOn(State(), bits, 0)
      {
        if bits[i] {
          if locations[i] == 0 {
            return AssertionFails(i);
          }
          if locations[i] !in sites {
            return Dangling(i);
          }
          return Reported(i, sites[locations[i]]);
        }
      }
      return Nothing;
    }
  }

  lemma {:induction false} ArmAllOnPrefix(x: Armed, order: seq<nat>, order': seq<nat>, works: set<nat>, works': set<nat>, n: nat)
    requires n <= |order| && n <= |order'|
    requires forall k :: 0 <= k < n ==> order[k] == order'[k] && (order[k] in works <==> order[k] in works')
    ensures ArmAllOn(x, order, works, n) == ArmAllOn(x, order', works', n)
  {
    if n > 0 {
      ArmAllOnPrefix(x, order, order', works, works', n - 1);
    }
  }

  lemma ArmAllOnSnoc(x: Armed, order: seq<nat>, worksAt: set<nat>, a: nat, works: bool)
    requires a !in order && a !in worksAt
    ensures ArmAllOn(x, order + [a], if works then worksAt + {a} else worksAt, |order| + 1)
         == ArmOn(ArmAllOn(x, order, worksAt, |order|), a, works)
  {
    var order', works' := order + [a], if works then worksAt + {a} else worksAt;
    assert forall k :: 0 <= k < |order| ==> order[k] in order;
    ArmAllOnPrefix(x, order, order', worksAt, works', |order|);
  }

  lemma {:induction false} ArmAllPrefix(h: Hard, order: seq<nat>, order': seq<nat>, works: set<nat>, works': set<nat>, n: nat)
    requires n <= |order| && n <= |order'|
    requires forall k :: 0 <= k < n ==> order[k] == order'[k] && (order[k] in works <==> order[k] in works')
    ensures ArmAll(h, order, works, n) == ArmAll(h, order', works', n)
  {
    if n > 0 {
      ArmAllPrefix(h, order, order', works, works', n - 1);
    }
  }

  lemma ArmAllSnoc(h: Hard, order: seq<nat>, worksAt: set<nat>, a: nat, works: bool)
    requires a !in order && a !in worksAt
    ensures ArmAll(h, order + [a], if works then worksAt + {a} else worksAt, |order| + 1)
         == Arm(ArmAll(h, order, worksAt, |order|), a, works)
  {
    var order', works' := order + [a], if works then worksAt + {a} else worksAt;
    assert forall k :: 0 <= k < |order| ==> order[k] in order;
    ArmAllPrefix(h, order, order', worksAt, works', |order|);
  }
}
