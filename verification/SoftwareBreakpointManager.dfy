/** Software breakpoints on x86: a trap opcode written over the first byte of each
    site, the original bytes kept aside, and target memory over any run. */
module SoftwareBreakpoints {
  import opened Sites

  const TRAP: nat := 0xcc

  type Memory = map<nat, nat>

  type Saved = map<nat, seq<nat>>

  /** The manager together with the memory of the process it patches. */
  datatype Soft = Soft(sites: SiteMap, insns: Saved, enabled: bool, memory: Memory)

  // ---------------------------------------------------------------------------
  // What the operations do
  // ---------------------------------------------------------------------------

  /** Patching succeeds at exactly these addresses. */
  function Patch(s: Soft, patched: set<nat>): Soft
    requires patched <= s.memory.Keys
  {
    s.(insns := map a | a in s.insns.Keys + patched :: if a in patched then [s.memory[a]] else s.insns[a],
       memory := map a | a in s.memory :: if a in patched then TRAP else s.memory[a])
  }

  function RestoredByte(s: Soft, a: nat): nat
    requires a in s.memory
  {
    if a in s.insns && |s.insns[a]| == 1 then s.insns[a][0] else s.memory[a]
  }

  /** Restoring succeeds at `restored` and fails at `failed`, where looking the
      saved bytes up has by then created an empty entry if there was none. */
  function Restore(s: Soft, restored: set<nat>, failed: set<nat>): Soft {
    s.(memory := map a | a in s.memory :: if a in restored then RestoredByte(s, a) else s.memory[a],
       insns := map a | a in (s.insns.Keys - restored) + failed :: if a in s.insns then s.insns[a] else [])
  }

  datatype Op =
    | Add(address: Address, lifetime: Lifetime, size: nat, patched: bool)
    | Remove(address: Address, restored: bool)
    | Hit(a: nat)
    | Enable(patchedAt: set<nat>)
    | Disable(restoredAt: set<nat>)
    | Clear

  function ValueOf(address: Address): nat {
    if address == Unset then 0 else address.value
  }

  predicate IsValid(address: Address, size: nat) {
    address.At? && (size == 0 || size == 1)
  }

  /** Addresses this operation overwrites with the trap. */
  function Patched(s: Soft, op: Op): (r: set<nat>)
    ensures r <= s.memory.Keys
  {
    match op
    case Add(address, _, size, patched) =>
      if IsValid(address, size) && address.value !in s.sites && s.enabled && patched && address.value in s.memory
      then {address.value} else {}
    case Enable(patched) => patched * s.sites.Keys * s.memory.Keys
    case _ => {}
  }

  function Apply(s: Soft, op: Op): Soft {
    match op
    case Add(address, lifetime, size, _) =>
      if !IsValid(address, size) then s
      else Patch(s, Patched(s, op)).(sites := AddSite(s.sites, address.value, lifetime, 1, EXEC).sites)
    case Remove(address, restored) =>
      if address == Unset then s
      else
        var r := RemoveSite(s.sites, address.value);
        var t := if r.erased && s.enabled
                 then (if restored then Restore(s, {address.value}, {}) else Restore(s, {}, {address.value}))
                 else s;
        t.(sites := r.sites)
    case Hit(a) => s.(sites := HitSite(s.sites, a))
    case Enable(_) => Patch(s, Patched(s, op)).(enabled := true)
    case Disable(restored) =>
      Restore(s, restored * s.sites.Keys, s.sites.Keys - restored).(sites := Expire(s.sites), enabled := false)
    case Clear => s.(sites := map[], insns := map[])
  }

  // ---------------------------------------------------------------------------
  // Memory is the program plus the traps
  // ---------------------------------------------------------------------------

  /** Memory is the original with the trap exactly where bytes are saved, and what
      is saved is the original. */
  predicate PatchInv(s: Soft, original: Memory) {
    && s.memory.Keys == original.Keys
    && (forall a <- s.insns :: s.insns[a] != [] ==> a in original && s.insns[a] == [original[a]])
    && (forall a <- s.memory :: s.memory[a] == if HasSaved(s, a) then TRAP else original[a])
  }

  predicate HasSaved(s: Soft, a: nat) {
    a in s.insns && s.insns[a] != []
  }

  /** The operation forgets an original byte: it patches an address that is
      already patched, or drops the saved bytes of one. */
  predicate Forgets(s: Soft, op: Op, original: Memory) {
    exists a <- s.insns ::
      a in original && HasSaved(s, a) && original[a] != TRAP && (a in Patched(s, op) || op.Clear?)
  }

  lemma PatchKeeps(s: Soft, patched: set<nat>, original: Memory)
    requires PatchInv(s, original) && patched <= s.memory.Keys
    ensures PatchInv(Patch(s, patched), original)
       <==> forall a <- patched :: HasSaved(s, a) ==> original[a] == TRAP
  {
    var t := Patch(s, patched);
    forall a | a in patched
      ensures t.insns[a] == [s.memory[a]] && t.memory[a] == TRAP && HasSaved(t, a)
    {
    }
    if PatchInv(t, original) {
      forall a | a in patched && HasSaved(s, a)
        ensures original[a] == TRAP
      {
        assert a in t.insns && t.insns[a] == [original[a]];
      }
    }
  }

  lemma RestoreKeeps(s: Soft, restored: set<nat>, failed: set<nat>, original: Memory)
    requires PatchInv(s, original) && restored !! failed
    ensures PatchInv(Restore(s, restored, failed), original)
  {
    var t := Restore(s, restored, failed);
    forall a | a in s.memory
      ensures t.memory[a] == if HasSaved(t, a) then TRAP else original[a]
    {
      assert HasSaved(t, a) <==> HasSaved(s, a) && a !in restored;
    }
  }

  lemma PatchingIsExact(s: Soft, op: Op, original: Memory)
    requires PatchInv(s, original) && (op.Enable? || (op.Add? && IsValid(op.address, op.size)))
    ensures PatchInv(Apply(s, op), original) <==> !Forgets(s, op, original)
  {
    PatchKeeps(s, Patched(s, op), original);
    OnlySites(Patch(s, Patched(s, op)), Apply(s, op), original);
  }

  lemma RemoveIsExact(s: Soft, op: Op, original: Memory)
    requires PatchInv(s, original) && op.Remove? && op.address != Unset
    ensures PatchInv(Apply(s, op), original) <==> !Forgets(s, op, original)
  {
    if op.restored {
      RestoreKeeps(s, {op.address.value}, {}, original);
    } else {
      RestoreKeeps(s, {}, {op.address.value}, original);
    }
  }

  lemma DisableIsExact(s: Soft, restored: set<nat>, original: Memory)
    requires PatchInv(s, original)
    ensures PatchInv(Apply(s, Disable(restored)), original) <==> !Forgets(s, Disable(restored), original)
  {
    RestoreKeeps(s, restored * s.sites.Keys, s.sites.Keys - restored, original);
    OnlySites(Restore(s, restored * s.sites.Keys, s.sites.Keys - restored), Apply(s, Disable(restored)), original);
  }

  /** From a sound state, any operation with any failures leaves a sound state
      exactly when it forgets nothing. */
  lemma StepIsExact(s: Soft, op: Op, original: Memory)
    requires PatchInv(s, original)
    ensures PatchInv(Apply(s, op), original) <==> !Forgets(s, op, original)
  {
    match op
    case Add(address, _, size, _) => if IsValid(address, size) { PatchingIsExact(s, op, original); }
    case Remove(address, _) => if address != Unset { RemoveIsExact(s, op, original); }
    case Hit(a) =>
    case Enable(_) => PatchingIsExact(s, op, original);
    case Disable(restored) => DisableIsExact(s, restored, original);
    case Clear => ClearIsExact(s, original);
  }

  lemma ClearIsExact(s: Soft, original: Memory)
    requires PatchInv(s, original)
    ensures PatchInv(s.(sites := map[], insns := map[]), original)
       <==> forall a <- s.insns :: HasSaved(s, a) ==> original[a] == TRAP
  {
    var t := s.(sites := map[], insns := map[]);
    forall a | a in s.insns && HasSaved(s, a)
      ensures a in t.memory && (t.memory[a] == original[a] <==> original[a] == TRAP)
    {
    }
  }

  lemma OnlySites(s: Soft, t: Soft, original: Memory)
    requires s.insns == t.insns && s.memory == t.memory
    ensures PatchInv(s, original) <==> PatchInv(t, original)
  {
    assert forall a :: HasSaved(s, a) <==> HasSaved(t, a);
  }

  // ---------------------------------------------------------------------------
  // Runs
  // ---------------------------------------------------------------------------

  /** How the server drives the manager: it never enables or clears an enabled
      one, and the process takes its own bytes back. Patching may fail anywhere. */
  predicate Disciplined(s: Soft, op: Op) {
    match op
    case Enable(_) => !s.enabled
    case Clear => !s.enabled
    case Remove(_, restored) => restored
    case Disable(restored) => s.sites.Keys <= restored
    case _ => true
  }

  function After(s: Soft, ops: seq<Op>, n: nat): Soft
    requires n <= |ops|
  {
    if n == 0 then s else Apply(After(s, ops, n - 1), ops[n - 1])
  }

  predicate IsDisciplined(s: Soft, ops: seq<Op>) {
    forall i :: 0 <= i < |ops| ==> Disciplined(After(s, ops, i), ops[i])
  }

  /** Saved bytes belong to sites, and only an enabled manager has any. */
  predicate SavedInv(s: Soft) {
    && s.insns.Keys <= s.sites.Keys
    && (forall a <- s.insns :: s.insns[a] != [])
    && (!s.enabled ==> s.insns == map[])
  }

  lemma StepKeepsSaved(s: Soft, op: Op, original: Memory)
    requires SavedInv(s) && Disciplined(s, op)
    ensures SavedInv(Apply(s, op)) && !Forgets(s, op, original)
  {
  }

  predicate Sound(s: Soft, original: Memory) {
    PatchInv(s, original) && SavedInv(s)
  }

  /** Memory of a sound state, spelled out. */
  lemma SoundMemory(s: Soft, original: Memory)
    requires Sound(s, original)
    ensures s.memory == map a | a in original :: if a in s.insns then TRAP else original[a]
    ensures !s.enabled ==> s.memory == original
  {
    assert forall a <- s.insns :: HasSaved(s, a);
  }

  lemma {:induction false} RunKeepsSound(original: Memory, ops: seq<Op>, n: nat)
    requires IsDisciplined(Soft(map[], map[], false, original), ops) && n <= |ops|
    ensures Sound(After(Soft(map[], map[], false, original), ops, n), original)
  {
    if n > 0 {
      RunKeepsSound(original, ops, n - 1);
      var before := After(Soft(map[], map[], false, original), ops, n - 1);
      StepKeepsSaved(before, ops[n - 1], original);
      StepIsExact(before, ops[n - 1], original);
    }
  }

  /** In every disciplined run memory is the original program with the trap at
      exactly the addresses whose bytes are saved, and whenever the manager is not
      enabled, in particular after any disable, memory is the original. */
  lemma RunIsSound(original: Memory, ops: seq<Op>, n: nat)
    requires IsDisciplined(Soft(map[], map[], false, original), ops) && n <= |ops|
    ensures var s := After(Soft(map[], map[], false, original), ops, n);
            && s.memory == (map a | a in original :: if a in s.insns then 0xcc else original[a])
            && (forall a <- s.insns :: a in original && s.insns[a] == [original[a]])
            && (!s.enabled || (n > 0 && ops[n - 1].Disable?) ==> s.memory == original)
  {
    RunKeepsSound(original, ops, n);
    SoundMemory(After(Soft(map[], map[], false, original), ops, n), original);
  }

  // ---------------------------------------------------------------------------
  // Where the traps are
  // ---------------------------------------------------------------------------

  /** The manager is enabled by the last of the operations that say so. */
  predicate IsOn(ops: seq<Op>, n: nat)
    requires n <= |ops|
  {
    n > 0 && (ops[n - 1].Enable? || (!ops[n - 1].Disable? && IsOn(ops, n - 1)))
  }

  lemma {:induction false} RunIsOn(original: Memory, ops: seq<Op>, n: nat)
    requires n <= |ops|
    ensures After(Soft(map[], map[], false, original), ops, n).enabled <==> IsOn(ops, n)
  {
    if n > 0 {
      RunIsOn(original, ops, n - 1);
    }
  }

  /** The addresses where patching was last tried and the process let it happen:
      enabling tries every site, and an enabled manager tries each site it creates. */
  function LetNext(s: Soft, op: Op, let: set<nat>): set<nat> {
    match op
    case Enable(works) => works * s.sites.Keys * s.memory.Keys
    case Add(At(a), _, size, works) =>
      if size > 1 || a in s.sites || !s.enabled then let
      else if works && a in s.memory then let + {a}
      else let - {a}
    case _ => let
  }

  function LetPatch(original: Memory, ops: seq<Op>, n: nat): set<nat>
    requires n <= |ops|
  {
    if n == 0 then {}
    else LetNext(After(Soft(map[], map[], false, original), ops, n - 1), ops[n - 1], LetPatch(original, ops, n - 1))
  }

  predicate TrapInv(s: Soft, let: set<nat>) {
    s.enabled ==> s.insns.Keys == s.sites.Keys * let
  }

  lemma AddKeepsTraps(s: Soft, op: Op, let: set<nat>)
    requires TrapInv(s, let) && SavedInv(s) && op.Add?
    ensures TrapInv(Apply(s, op), LetNext(s, op, let))
  {
    if IsValid(op.address, op.size) {
      var t := Apply(s, op);
      assert t.insns.Keys == s.insns.Keys + Patched(s, op) && t.sites.Keys == s.sites.Keys + {op.address.value};
    }
  }

  lemma EnableKeepsTraps(s: Soft, op: Op, let: set<nat>)
    requires SavedInv(s) && !s.enabled && op.Enable?
    ensures TrapInv(Apply(s, op), LetNext(s, op, let))
  {
    assert Apply(s, op).insns.Keys == s.insns.Keys + Patched(s, op);
  }

  lemma RemoveKeepsTraps(s: Soft, address: Address, let: set<nat>)
    requires TrapInv(s, let)
    ensures TrapInv(Apply(s, Op.Remove(address, true)), let)
  {
    if address != Unset && s.enabled {
      var t, r := Apply(s, Op.Remove(address, true)), RemoveSite(s.sites, address.value);
      if r.erased {
        assert t.insns.Keys == s.insns.Keys - {address.value} && t.sites.Keys == s.sites.Keys - {address.value};
      } else {
        assert t.sites.Keys == s.sites.Keys && t.insns == s.insns;
      }
    }
  }

  lemma StepKeepsTraps(s: Soft, op: Op, let: set<nat>)
    requires TrapInv(s, let) && SavedInv(s) && Disciplined(s, op)
    ensures TrapInv(Apply(s, op), LetNext(s, op, let))
  {
    match op
    case Add(_, _, _, _) => AddKeepsTraps(s, op, let);
    case Enable(_) => EnableKeepsTraps(s, op, let);
    case Remove(address, _) => RemoveKeepsTraps(s, address, let);
    case Hit(_) =>
    case Disable(_) =>
    case Clear =>
  }

  lemma {:induction false} RunKeepsTraps(original: Memory, ops: seq<Op>, n: nat)
    requires IsDisciplined(Soft(map[], map[], false, original), ops) && n <= |ops|
    ensures TrapInv(After(Soft(map[], map[], false, original), ops, n), LetPatch(original, ops, n))
  {
    if n > 0 {
      RunKeepsTraps(original, ops, n - 1);
      RunKeepsSound(original, ops, n - 1);
      StepKeepsTraps(After(Soft(map[], map[], false, original), ops, n - 1), ops[n - 1], LetPatch(original, ops, n - 1));
    }
  }

  /** In every disciplined run an enabled manager has the trap in memory at exactly the
      sites the process let it patch when it last tried, and the program elsewhere. */
  lemma RunIsTrapped(original: Memory, ops: seq<Op>, n: nat)
    requires IsDisciplined(Soft(map[], map[], false, original), ops) && n <= |ops|
    ensures var s, let := After(Soft(map[], map[], false, original), ops, n), LetPatch(original, ops, n);
            s.memory == map a | a in original :: if IsOn(ops, n) && a in s.sites && a in let then 0xcc else original[a]
  {
    RunIsSound(original, ops, n);
    RunIsOn(original, ops, n);
    RunKeepsTraps(original, ops, n);
  }

  /** The process lets the same addresses be patched all along. */
  predicate IsSteady(op: Op, let: set<nat>) {
    && (op.Enable? ==> op.patchedAt == let)
    && (op.Add? && op.address.At? ==> (op.patched <==> op.address.value in let))
  }

  predicate Agree(s: Soft, tried: set<nat>, let: set<nat>, a: nat) {
    s.enabled && a in s.sites && a in s.memory ==> (a in tried <==> a in let)
  }

  lemma StepKeepsAgree(s: Soft, op: Op, tried: set<nat>, let: set<nat>, a: nat)
    requires Agree(s, tried, let, a) && IsSteady(op, let)
    ensures Agree(Apply(s, op), LetNext(s, op, tried), let, a)
  {
  }

  lemma {:induction false} RunKeepsAgree(original: Memory, ops: seq<Op>, let: set<nat>, n: nat, a: nat)
    requires (forall op <- ops :: IsSteady(op, let)) && n <= |ops|
    ensures Agree(After(Soft(map[], map[], false, original), ops, n), LetPatch(original, ops, n), let, a)
  {
    if n > 0 {
      RunKeepsAgree(original, ops, let, n - 1, a);
      var s := After(Soft(map[], map[], false, original), ops, n - 1);
      StepKeepsAgree(s, ops[n - 1], LetPatch(original, ops, n - 1), let, a);
    }
  }

  /** So when those addresses stay the same, memory follows from the sites alone. */
  lemma SteadyRunIsTrapped(original: Memory, ops: seq<Op>, let: set<nat>, n: nat)
    requires IsDisciplined(Soft(map[], map[], false, original), ops) && n <= |ops|
    requires forall op <- ops :: IsSteady(op, let)
    ensures var s := After(Soft(map[], map[], false, original), ops, n);
            s.memory == map a | a in original :: if IsOn(ops, n) && a in s.sites && a in let then 0xcc else original[a]
  {
    RunIsTrapped(original, ops, n);
    RunIsOn(original, ops, n);
    RunKeepsSound(original, ops, n);
    forall a <- original {
      RunKeepsAgree(original, ops, let, n, a);
    }
  }

  /** The sites evolve as in the base manager, whatever happens to memory. */
  function SiteOps(op: Op): seq<SiteOp> {
    match op
    case Add(address, lifetime, size, _) =>
      if IsValid(address, size) then [AddTo(address.value, lifetime, 1, EXEC)] else []
    case Remove(address, _) => if address == Unset then [] else [RemoveFrom(address.value)]
    case Hit(a) => [HitAt(a)]
    case Enable(_) => []
    case Disable(_) => [DisableAll]
    case Clear => [ClearAll]
  }

  lemma SitesEvolve(s: Soft, op: Op)
    ensures Apply(s, op).sites == SitesAfter(s.sites, SiteOps(op), |SiteOps(op)|)
  {
    var ops := SiteOps(op);
    assert SitesAfter(s.sites, ops, 0) == s.sites;
  }

  const OnePatched := Soft(map[5 := Site(1, 5, PERMANENT, EXEC, 1)], map[5 := [0x90]], true, map[5 := TRAP])

  lemma PatchedOnce()
    ensures var start := Soft(map[], map[], false, map[5 := 0x90]);
            Apply(Apply(start, Op.Add(At(5), PERMANENT, 1, true)), Enable({5})) == OnePatched
  {
    var start := Soft(map[], map[], false, map[5 := 0x90]);
    var s1 := Apply(start, Op.Add(At(5), PERMANENT, 1, true));
    PatchNothing(start);
    assert s1 == start.(sites := map[5 := Site(1, 5, PERMANENT, EXEC, 1)]);
    assert Patched(s1, Enable({5})) == {5};
    PatchedEnough(s1, PatchOne(s1, 5), {5});
  }

  /** Enabling an enabled manager saves the trap as the original byte: the next
      disable leaves it in the program. */
  lemma DoubleEnableCorrupts()
    ensures var start := Soft(map[], map[], false, map[5 := 0x90]);
            var once := Apply(Apply(start, Op.Add(At(5), PERMANENT, 1, true)), Enable({5}));
            Apply(Apply(once, Enable({5})), Op.Disable({5})).memory == map[5 := TRAP]
  {
    PatchedOnce();
    assert Patched(OnePatched, Enable({5})) == {5};
    var twice := Apply(OnePatched, Enable({5}));
    assert twice.insns[5] == [TRAP] && twice.memory[5] == TRAP;
  }

  // ---------------------------------------------------------------------------
  // The manager
  // ---------------------------------------------------------------------------

  /** Target memory, with the addresses where the process lets it be read and written.
      These may be any, and others from one call to the next; accesses to unmapped memory
      always fail. */
  class Process {
    var memory: Memory
    var readable: set<nat>
    var writable: set<nat>

    constructor (m: Memory, readable: set<nat>, writable: set<nat>)
      ensures memory == m && this.readable == readable && this.writable == writable
    {
      memory := m;
      this.readable, this.writable := readable, writable;
    }

    ghost function Patchable(): set<nat>
      reads this
    {
      readable * writable * memory.Keys
    }

    method ReadMemory(a: nat) returns (error: ErrorCode, value: nat)
      ensures error == if a in memory && a in readable then Success else Failed
      ensures error == Success ==> value == memory[a]
    {
      value := 0;
      if a in memory && a in readable {
        return Success, memory[a];
      }
      error := Failed;
    }

    /** Writes nothing or one byte. */
    method WriteMemory(a: nat, data: seq<nat>) returns (error: ErrorCode)
      requires |data| <= 1
      modifies this`memory
      ensures error == if a in writable && (a in old(memory) || data == []) then Success else Failed
      ensures memory == if error == Success && data != [] then old(memory)[a := data[0]] else old(memory)
    {
      if a in writable && (a in memory || data == []) {
        if data != [] {
          memory := memory[a := data[0]];
        }
        return Success;
      }
      error := Failed;
    }
  }

  /** What was saved for the address can be written back. */
  predicate CanRestore(s: Soft, writable: set<nat>, a: nat) {
    a in writable && (a in s.memory || !HasSaved(s, a))
  }

  function Restorable(s: Soft, writable: set<nat>): set<nat> {
    set a <- s.sites | CanRestore(s, writable, a)
  }

  class SoftwareBreakpointManager {
    var sites: SiteMap
    var insns: Saved
    var isEnabled: bool
    const process: Process

    ghost function State(): Soft
      reads this, process
    {
      Soft(sites, insns, isEnabled, process.memory)
    }

    ghost predicate Valid()
      reads this
    {
      forall a <- insns :: |insns[a]| <= 1
    }

    constructor (p: Process)
      ensures Valid() && process == p && State() == Soft(map[], map[], false, p.memory)
    {
      sites, insns, isEnabled, process := map[], map[], false, p;
    }

    method EnableLocation(a: nat) returns (error: ErrorCode)
      requires Valid()
      modifies this`insns, process`memory
      ensures Valid()
      ensures error == if a in process.readable && a in process.writable && a in old(process.memory) then Success else Failed
      ensures State() == if a in old(process.Patchable()) then PatchOne(old(State()), a) else old(State())
    {
      var saved;
      error, saved := process.ReadMemory(a);
      if error != Success {
        return;
      }
      error := process.WriteMemory(a, [TRAP]);
      if error != Success {
        return;
      }
      insns := insns[a := [saved]];
    }

    method DisableLocation(a: nat) returns (error: ErrorCode)
      requires Valid()
      modifies this`insns, process`memory
      ensures Valid()
      ensures error == if a in process.writable && (a in old(process.memory) || a !in old(insns) || old(insns)[a] == [])
                       then Success else Failed
      ensures State() == RestoreOne(old(State()), a, CanRestore(old(State()), process.writable, a))
    {
      if a !in insns {
        insns := insns[a := []];
      }
      var saved := insns[a];
      error := process.WriteMemory(a, saved);
      if error != Success {
        return;
      }
      insns := insns - {a};
      assert a !in old(insns) ==> insns == old(insns);
    }

    method Add(address: Address, lifetime: Lifetime, size: nat, mode: Mode) returns (error: ErrorCode)
      requires Valid() && mode == EXEC
      modifies this, process`memory
      ensures Valid() && State() == Apply(old(State()), Op.Add(address, lifetime, size, ValueOf(address) in old(process.Patchable())))
      ensures address == Unset || size > 1 ==> error == InvalidArgument
      ensures address.At? && size <= 1 && address.value in old(sites) ==>
                error == if old(sites)[address.value].mode == mode then Success else InvalidArgument
      ensures address.At? && size <= 1 && address.value !in old(sites) ==>
                error == if old(isEnabled) && address.value !in old(process.Patchable()) then Failed else Success
    {
      if size != 0 && size != 1 {
        return InvalidArgument;
      }
      if address == Unset {
        return InvalidArgument;
      }
      var a := address.value;
      var bytes := if size == 0 then 1 else size;
      if a in sites {
        if sites[a].mode != mode {
          PatchNothing(State());
          return InvalidArgument;
        }
        var site := sites[a].(lifetime := Or(sites[a].lifetime, lifetime));
        if lifetime == PERMANENT {
          site := site.(refs := site.refs + 1);
        }
        PatchNothing(State());
        sites := sites[a := site];
      } else {
        CreatedIs(State(), a, lifetime, size, process.Patchable());
        error := Create(a, lifetime, bytes, mode);
        return;
      }
      error := Success;
    }

    /** The end of `add`: a new site, patched if need be. */
    method Create(a: nat, lifetime: Lifetime, size: nat, mode: Mode) returns (error: ErrorCode)
      requires Valid()
      modifies this, process`memory
      ensures Valid() && State() == Patch(old(State()), if old(isEnabled) then {a} * old(process.Patchable()) else {}).(
                                      sites := old(sites)[a := Site(if lifetime == PERMANENT then 1 else 0, a, lifetime, mode, size)])
      ensures error == if old(isEnabled) && a !in old(process.Patchable()) then Failed else Success
    {
      var refs := 0;
      if lifetime == PERMANENT {
        refs := refs + 1;
      }
      sites := sites[a := Site(refs, a, lifetime, mode, size)];
      error := Success;
      PatchNothing(State());
      if isEnabled {
        ghost var before, let := State(), {a} * process.Patchable();
        assert let == if a in process.Patchable() then {a} else {};
        error := EnableLocation(a);
        PatchedEnough(before, State(), let);
      }
    }

    method Remove(address: Address) returns (error: ErrorCode)
      requires Valid() && RefsInv(sites)
      modifies this, process`memory
      ensures Valid()
      ensures State() == Apply(old(State()), Op.Remove(address, CanRestore(old(State()), process.writable, ValueOf(address))))
      ensures address == Unset ==> error == InvalidArgument
      ensures address.At? && address.value !in old(sites) ==> error == NotFound
      ensures address.At? && address.value in old(sites) ==>
                error == if old(isEnabled) && RemoveSite(old(sites), address.value).erased
                            && !CanRestore(old(State()), process.writable, address.value)
                         then Failed else Success
    {
      if address == Unset {
        return InvalidArgument;
      }
      var a := address.value;
      if a !in sites {
        return NotFound;
      }
      var site := sites[a];
      if site.lifetime.permanent {
        assert site.refs > 0;
        site := site.(refs := site.refs - 1);
        if site.refs > 0 {
          sites := sites[a := site];
          return Success;
        }
        if site.lifetime != PERMANENT {
          sites := sites[a := site.(lifetime := site.lifetime.(permanent := false))];
          return Success;
        }
      }
      assert site.refs == 0;
      error := Erase(a);
    }

    /** The end of `remove`: the site goes, its bytes restored if need be. */
    method Erase(a: nat) returns (error: ErrorCode)
      requires Valid()
      modifies this, process`memory
      ensures Valid() && State() == (if !old(isEnabled) then old(State())
                                     else if CanRestore(old(State()), process.writable, a) then Restore(old(State()), {a}, {})
                                     else Restore(old(State()), {}, {a})).(sites := old(sites) - {a})
      ensures error == if old(isEnabled) && !CanRestore(old(State()), process.writable, a) then Failed else Success
    {
      error := Success;
      if isEnabled {
        ghost var before := State();
        error := DisableLocation(a);
        ghost var restored := error == Success;
        RestoredEnough(before, State(), if restored then {a} else {}, if restored then {} else {a});
      }
      sites := sites - {a};
    }

    method Hit(a: nat) returns (found: bool)
      requires Valid()
      modifies this`sites
      ensures Valid() && State() == Apply(old(State()), Op.Hit(a)) && found == (a in old(sites))
    {
      if a !in sites {
        return false;
      }
      sites := sites[a := sites[a].(lifetime := sites[a].lifetime.(untilHit := false))];
      return true;
    }

    /** A trapped thread stopped one past the trap is moved back onto it. The
        counter is 64 bits wide. */
    method HitThread(pc: nat, stepped: bool) returns (index: int, newPc: nat)
      requires Valid() && pc < 0x1_0000_0000_0000_0000
      modifies this`sites
      ensures var at := (pc + 0xffff_ffff_ffff_ffff) % 0x1_0000_0000_0000_0000;
              && Valid() && (index >= 0 <==> stepped || at in old(sites))
              && (stepped || at !in old(sites) ==> newPc == pc && State() == old(State()))
              && (!stepped && at in old(sites) ==> (newPc + 1) % 0x1_0000_0000_0000_0000 == pc
                                                   && State() == Apply(old(State()), Op.Hit(at)))
    {
      if stepped {
        return 0, pc;
      }
      var at := (pc + 0xffff_ffff_ffff_ffff) % 0x1_0000_0000_0000_0000;
      var found := Hit(at);
      if found {
        return 0, at;
      }
      return -1, pc;
    }

    /** Visits every site, patching where it can. */
    method EnableLocations()
      requires Valid()
      modifies this`insns, process`memory
      ensures Valid() && IsPatched(old(State()), State(), sites.Keys * old(process.Patchable()))
    {
      ghost var let := process.Patchable();
      var rest := sites.Keys;
      while rest != {}
        invariant Valid() && rest <= sites.Keys && process.Patchable() == let
        invariant IsPatched(old(State()), State(), sites.Keys * let - rest)
        decreases |rest|
      {
        var a :| a in rest;
        PatchedNext(old(State()), State(), rest, let, a);
        var error := EnableLocation(a);
        rest := rest - {a};
      }
      assert sites.Keys * let - rest == sites.Keys * let;
    }

    method Enable()
      requires Valid()
      modifies this, process`memory
      ensures Valid() && State() == Apply(old(State()), Op.Enable(old(process.Patchable())))
    {
      ghost var let := process.Patchable();
      EnableLocations();
      PatchedEnough(old(State()), State(), sites.Keys * let);
      assert let * sites.Keys * old(process.memory.Keys) == sites.Keys * let;
      isEnabled := true;
    }

    /** Visits every site, restoring where it can. */
    method DisableLocations()
      requires Valid()
      modifies this`insns, process`memory
      ensures Valid()
      ensures var let := Restorable(old(State()), process.writable); State() == Restore(old(State()), let, sites.Keys - let)
    {
      ghost var let := Restorable(State(), process.writable);
      RestoredNone(State(), let);
      var rest := sites.Keys;
      while rest != {}
        invariant Valid() && rest <= sites.Keys
        invariant State() == Restore(old(State()), let - rest, sites.Keys - let - rest)
        decreases |rest|
      {
        var a :| a in rest;
        RestoredNext(old(State()), State(), rest, process.writable, a);
        var error := DisableLocation(a);
        rest := rest - {a};
      }
      RestoredAll(old(State()), let);
    }

    method Disable()
      requires Valid() && RefsInv(sites)
      modifies this, process`memory
      ensures Valid() && State() == Apply(old(State()), Op.Disable(Restorable(old(State()), process.writable)))
    {
      ghost var let := Restorable(State(), process.writable);
      DisableLocations();
      assert let * sites.Keys == let;
      sites := ExpireSites(sites);
      isEnabled := false;
    }

    method Reset()
      requires Valid()
      modifies this
      ensures Valid() && State() == Apply(old(State()), Op.Clear)
    {
      sites := map[];
      insns := map[];
    }
  }

  /** The erasing loop at the end of `disable`. */
  method ExpireSites(sites: SiteMap) returns (kept: SiteMap)
    requires RefsInv(sites)
    ensures kept == Expire(sites)
  {
    kept := sites;
    var rest := sites.Keys;
    while rest != {}
      invariant rest <= sites.Keys
      invariant IsExpired(sites, kept, rest)
      decreases |rest|
    {
      var a :| a in rest;
      var site := WithoutOneShot(kept[a]);
      if site.lifetime == NONE {
        assert site.refs == 0;
        kept := kept - {a};
      } else {
        kept := kept[a := site];
      }
      rest := rest - {a};
    }
    assert kept.Keys == Expire(sites).Keys;
  }

  /** All sites but those in `rest` have been looked at. */
  ghost predicate IsExpired(sites: SiteMap, kept: SiteMap, rest: set<nat>) {
    && (forall a :: a in kept <==> a in sites && (a in rest || WithoutOneShot(sites[a]).lifetime != NONE))
    && (forall a <- kept :: kept[a] == if a in rest then sites[a] else WithoutOneShot(sites[a]))
  }

  // One location at a time adds up to the whole

  function PatchOne(s: Soft, a: nat): Soft
    requires a in s.memory
  {
    s.(insns := s.insns[a := [s.memory[a]]], memory := s.memory[a := TRAP])
  }

  function RestoreOne(s: Soft, a: nat, works: bool): Soft {
    if !works then s.(insns := if a in s.insns then s.insns else s.insns[a := []])
    else s.(insns := s.insns - {a}, memory := if a in s.memory then s.memory[a := RestoredByte(s, a)] else s.memory)
  }

  predicate IsPatched(s: Soft, t: Soft, patched: set<nat>) {
    && t.sites == s.sites && t.enabled == s.enabled && patched <= s.memory.Keys
    && t.insns.Keys == s.insns.Keys + patched && t.memory.Keys == s.memory.Keys
    && (forall a <- t.insns :: t.insns[a] == if a in patched then [s.memory[a]] else s.insns[a])
    && (forall a <- t.memory :: t.memory[a] == if a in patched then TRAP else s.memory[a])
  }

  lemma PatchedMore(s: Soft, t: Soft, patched: set<nat>, a: nat)
    requires IsPatched(s, t, patched) && a in s.memory && a !in patched
    ensures IsPatched(s, PatchOne(t, a), patched + {a})
  {
  }

  lemma PatchedNext(s: Soft, t: Soft, rest: set<nat>, let: set<nat>, a: nat)
    requires IsPatched(s, t, s.sites.Keys * let - rest) && a in rest && rest <= s.sites.Keys && let <= s.memory.Keys
    ensures IsPatched(s, if a in let then PatchOne(t, a) else t, s.sites.Keys * let - (rest - {a}))
  {
    if a in let {
      PatchedMore(s, t, s.sites.Keys * let - rest, a);
      assert (s.sites.Keys * let - rest) + {a} == s.sites.Keys * let - (rest - {a});
    } else {
      assert s.sites.Keys * let - rest == s.sites.Keys * let - (rest - {a});
    }
  }

  lemma PatchedEnough(s: Soft, t: Soft, patched: set<nat>)
    requires IsPatched(s, t, patched)
    ensures t == Patch(s, patched)
  {
    assert t.insns == Patch(s, patched).insns && t.memory == Patch(s, patched).memory;
  }

  lemma CreatedIs(s: Soft, a: nat, lifetime: Lifetime, size: nat, let: set<nat>)
    requires a !in s.sites && size <= 1 && let <= s.memory.Keys
    ensures Apply(s, Op.Add(At(a), lifetime, size, a in let))
         == Patch(s, if s.enabled then {a} * let else {}).(
              sites := s.sites[a := Site(if lifetime == PERMANENT then 1 else 0, a, lifetime, EXEC, 1)])
  {
    assert Patched(s, Op.Add(At(a), lifetime, size, a in let)) == if s.enabled then {a} * let else {};
  }

  lemma PatchNothing(s: Soft)
    ensures Patch(s, {}) == s
  {
    PatchedEnough(s, s, {});
  }

  predicate IsRestored(s: Soft, t: Soft, restored: set<nat>, failed: set<nat>) {
    && t.sites == s.sites && t.enabled == s.enabled
    && t.insns.Keys == (s.insns.Keys - restored) + failed && t.memory.Keys == s.memory.Keys
    && (forall a <- t.insns :: t.insns[a] == if a in s.insns then s.insns[a] else [])
    && (forall a <- t.memory :: t.memory[a] == if a in restored then RestoredByte(s, a) else s.memory[a])
  }

  lemma StillRestorable(s: Soft, t: Soft, restored: set<nat>, failed: set<nat>, writable: set<nat>, a: nat)
    requires IsRestored(s, t, restored, failed) && a !in restored && a !in failed
    ensures CanRestore(t, writable, a) <==> CanRestore(s, writable, a)
  {
    assert a in t.insns <==> a in s.insns;
  }

  lemma RestoredMore(s: Soft, t: Soft, restored: set<nat>, failed: set<nat>, a: nat)
    requires IsRestored(s, t, restored, failed) && a !in restored && a !in failed
    ensures IsRestored(s, RestoreOne(t, a, true), restored + {a}, failed)
  {
    assert a in t.insns <==> a in s.insns;
  }

  lemma FailedMore(s: Soft, t: Soft, restored: set<nat>, failed: set<nat>, a: nat)
    requires IsRestored(s, t, restored, failed) && a !in restored && a !in failed
    ensures IsRestored(s, RestoreOne(t, a, false), restored, failed + {a})
  {
    assert a in t.insns <==> a in s.insns;
  }

  lemma RestoredNext(s: Soft, t: Soft, rest: set<nat>, writable: set<nat>, a: nat)
    requires a in rest && rest <= s.sites.Keys
    requires var let := Restorable(s, writable); t == Restore(s, let - rest, s.sites.Keys - let - rest)
    ensures var let := Restorable(s, writable);
            RestoreOne(t, a, CanRestore(t, writable, a)) == Restore(s, let - (rest - {a}), s.sites.Keys - let - (rest - {a}))
  {
    var let := Restorable(s, writable);
    var restored, failed := let - rest, s.sites.Keys - let - rest;
    StillRestorable(s, t, restored, failed, writable, a);
    if a in let {
      RestoredMore(s, t, restored, failed, a);
      assert restored + {a} == let - (rest - {a}) && failed == s.sites.Keys - let - (rest - {a});
      RestoredEnough(s, RestoreOne(t, a, true), restored + {a}, failed);
    } else {
      FailedMore(s, t, restored, failed, a);
      assert restored == let - (rest - {a}) && failed + {a} == s.sites.Keys - let - (rest - {a});
      RestoredEnough(s, RestoreOne(t, a, false), restored, failed + {a});
    }
  }

  lemma RestoredNone(s: Soft, let: set<nat>)
    requires let <= s.sites.Keys
    ensures Restore(s, let - s.sites.Keys, s.sites.Keys - let - s.sites.Keys) == s
  {
    assert let - s.sites.Keys == {} && s.sites.Keys - let - s.sites.Keys == {};
    RestoredEnough(s, s, {}, {});
  }

  lemma RestoredAll(s: Soft, let: set<nat>)
    ensures Restore(s, let - {}, s.sites.Keys - let - {}) == Restore(s, let, s.sites.Keys - let)
  {
    assert let - {} == let && s.sites.Keys - let - {} == s.sites.Keys - let;
  }

  lemma RestoredEnough(s: Soft, t: Soft, restored: set<nat>, failed: set<nat>)
    requires IsRestored(s, t, restored, failed)
    ensures t == Restore(s, restored, failed)
  {
    var r := Restore(s, restored, failed);
    assert t.insns == r.insns && t.memory == r.memory;
  }
}
