/** The breakpoints of a single step: added to a manager that is already enabled, so
    each new site is written into memory as it is added. */
module StepBreakpoints {
  import opened Common
  import opened Sites

  // ---------------------------------------------------------------------------
  // Traps in memory
  // ---------------------------------------------------------------------------

  type octet = n: nat | n < 0x100

  type ByteMap = map<nat, octet>

  type Saved = map<nat, seq<octet>>

  /** The undefined instructions used on a little-endian POSIX system: `udf #1` for a
      Thumb site, `udf.w #0` for a long Thumb one and `udf #16` for an ARM one. */
  function Opcode(size: nat): (code: seq<octet>)
    ensures |code| == if size == 2 then 2 else 4
  {
    if size == 2 then [0x01, 0xde] else if size == 3 then [0xf0, 0xf7, 0x00, 0xa0] else [0xf0, 0x01, 0xf0, 0xe7]
  }

  predicate IsMapped(m: ByteMap, a: nat, n: nat) {
    forall k :: a <= k < a + n ==> k in m
  }

  function ReadAt(m: ByteMap, a: nat, n: nat): (bytes: seq<octet>)
    requires IsMapped(m, a, n)
    ensures |bytes| == n && forall i :: 0 <= i < n ==> bytes[i] == m[a + i]
  {
    if n == 0 then [] else ReadAt(m, a, n - 1) + [m[a + n - 1]]
  }

  function WriteAt(m: ByteMap, a: nat, bytes: seq<octet>): (r: ByteMap)
    ensures r.Keys == m.Keys
  {
    map k | k in m :: if a <= k < a + |bytes| then bytes[k - a] else m[k]
  }

  /** The manager and the memory of the process it patches. */
  datatype Stepping = Stepping(sites: SiteMap, insns: Saved, enabled: bool, memory: ByteMap)

  /** A breakpoint asked for. */
  datatype Want = Want(a: nat, size: nat)

  function Span(w: Want): nat {
    |Opcode(w.size)|
  }

  /** Reading and writing there work: `works` is what the process reports, on memory
      that is there. */
  predicate CanTrap(s: Stepping, w: Want, works: bool) {
    works && IsMapped(s.memory, w.a, Span(w))
  }

  function Trap(s: Stepping, w: Want): Stepping
    requires IsMapped(s.memory, w.a, Span(w))
  {
    s.(insns := s.insns[w.a := ReadAt(s.memory, w.a, Span(w))], memory := WriteAt(s.memory, w.a, Opcode(w.size)))
  }

  predicate TrappedAt(m: ByteMap, w: Want) {
    IsMapped(m, w.a, Span(w)) && ReadAt(m, w.a, Span(w)) == Opcode(w.size)
  }

  // ---------------------------------------------------------------------------
  // Placing
  // ---------------------------------------------------------------------------

  datatype Placing = Placing(state: Stepping, error: ErrorCode)

  predicate IsNew(s: Stepping, want: Option<Want>) {
    want.Some? && want.value.a !in s.sites
  }

  function NewSite(w: Want): Site {
    Site(0, w.a, TEMPORARY_ONE_SHOT, EXEC, w.size)
  }

  function AddStep(s: Stepping, want: Option<Want>, works: bool): Placing {
    if want.None? then Placing(s, Success)
    else
      var w := want.value;
      var added := AddSite(s.sites, w.a, TEMPORARY_ONE_SHOT, w.size, EXEC);
      var t := s.(sites := added.sites);
      if added.error != Success then Placing(t, added.error)
      else if !added.created || !s.enabled then Placing(t, Success)
      else if CanTrap(s, w, works) then Placing(Trap(t, w), Success)
      else Placing(t, Failed)
  }

  /** The branch first, then the next instruction unless that failed. `works` and
      `works'` are what the process reports for the two. */
  function Place(s: Stepping, branch: Option<Want>, next: Option<Want>, works: bool, works': bool): Placing {
    var first := AddStep(s, branch, works);
    if first.error == Success then AddStep(first.state, next, works') else first
  }

  /** No site in the way watches data. */
  predicate Free(s: Stepping, want: Option<Want>) {
    want.Some? && want.value.a in s.sites ==> s.sites[want.value.a].mode == EXEC
  }

  /** A new site can be written into memory, if that is asked for. */
  predicate Writable(s: Stepping, want: Option<Want>, works: bool) {
    IsNew(s, want) && s.enabled ==> CanTrap(s, want.value, works)
  }

  predicate SameAddress(branch: Option<Want>, next: Option<Want>) {
    branch.Some? && next.Some? && branch.value.a == next.value.a
  }

  lemma AddStepIs(s: Stepping, want: Option<Want>, works: bool)
    ensures var p := AddStep(s, want, works);
            && (p.error == Success <==> Free(s, want) && Writable(s, want, works))
            && p.state.enabled == s.enabled && p.state.memory.Keys == s.memory.Keys
            && (p.error == Success && want.Some? ==> p.state.sites.Keys == s.sites.Keys + {want.value.a})
            && (forall a <- s.sites :: a in p.state.sites && p.state.sites[a].mode == s.sites[a].mode)
            && (p.error == Success && want.Some? ==> p.state.sites[want.value.a].mode == EXEC)
  {
  }

  /** Placing succeeds exactly when no site in the way watches data and every site that
      is created can be written into memory. */
  lemma PlaceSucceeds(s: Stepping, branch: Option<Want>, next: Option<Want>, works: bool, works': bool)
    ensures Place(s, branch, next, works, works').error == Success
       <==> && Free(s, branch) && Free(s, next) && Writable(s, branch, works)
            && (SameAddress(branch, next) || Writable(s, next, works'))
  {
    AddStepIs(s, branch, works);
    AddStepIs(AddStep(s, branch, works).state, next, works');
  }

  // ---------------------------------------------------------------------------
  // What a failure leaves behind
  // ---------------------------------------------------------------------------

  /** A next instruction whose trap cannot be written leaves both sites behind, and only
      the branch is in memory. */
  lemma NextFailureLeaves(s: Stepping, branch: Option<Want>, next: Option<Want>, works: bool, works': bool)
    requires AddStep(s, branch, works).error == Success && next.Some? && Free(s, next)
    requires !SameAddress(branch, next) && !Writable(s, next, works')
    ensures var first := AddStep(s, branch, works).state;
            && Place(s, branch, next, works, works')
               == Placing(first.(sites := first.sites[next.value.a := NewSite(next.value)]), Failed)
            && (IsNew(s, branch) ==> TrappedAt(first.memory, branch.value))
  {
    AddStepIs(s, branch, works);
    if IsNew(s, branch) {
      TrapIsThere(s.memory, branch.value);
    }
  }

  lemma TrapIsThere(m: ByteMap, w: Want)
    requires IsMapped(m, w.a, Span(w))
    ensures TrappedAt(WriteAt(m, w.a, Opcode(w.size)), w)
  {
    var after := WriteAt(m, w.a, Opcode(w.size));
    assert forall i :: 0 <= i < Span(w) ==> ReadAt(after, w.a, Span(w))[i] == after[w.a + i];
  }

  // ---------------------------------------------------------------------------
  // What success leaves: sites
  // ---------------------------------------------------------------------------

  /** The site at a wanted address has the size wanted: an older site there has it, or
      there is none and the branch did not claim the address first with another. */
  predicate SizeKept(s: Stepping, branch: Option<Want>, next: Option<Want>, w: Want) {
    if w.a in s.sites then s.sites[w.a].size == w.size
    else !(SameAddress(branch, next) && branch.value.size != next.value.size && next == Some(w))
  }

  lemma AddStepAt(s: Stepping, want: Option<Want>, works: bool, a: nat)
    ensures var p := AddStep(s, want, works);
            && (a in s.sites ==>
                  && a in p.state.sites && p.state.sites[a].size == s.sites[a].size && p.state.sites[a].refs == s.sites[a].refs
                  && p.state.sites[a].mode == s.sites[a].mode && (s.sites[a].lifetime.oneShot ==> p.state.sites[a].lifetime.oneShot))
            && (a in p.state.sites && a !in s.sites ==> want.Some? && want.value.a == a && p.state.sites[a] == NewSite(want.value))
            && (p.error == Success && want.Some? && want.value.a == a ==>
                  a in p.state.sites && p.state.sites[a].lifetime.oneShot && p.state.sites[a].mode == EXEC)
  {
  }

  /** Wherever a breakpoint was asked for there is a one-shot execution site, of the size
      asked for exactly when that was kept. */
  lemma WantedAreSites(s: Stepping, branch: Option<Want>, next: Option<Want>, works: bool, works': bool, w: Want)
    requires Place(s, branch, next, works, works').error == Success && (branch == Some(w) || next == Some(w))
    ensures var after := Place(s, branch, next, works, works').state.sites;
            && w.a in after && after[w.a].lifetime.oneShot && after[w.a].mode == EXEC
            && (after[w.a].size == w.size <==> SizeKept(s, branch, next, w))
  {
    AddStepAt(s, branch, works, w.a);
    AddStepAt(AddStep(s, branch, works).state, next, works', w.a);
  }

  /** Older sites keep their size and references, and nothing else is added. */
  lemma OthersAreKept(s: Stepping, branch: Option<Want>, next: Option<Want>, works: bool, works': bool, a: nat)
    ensures var after := Place(s, branch, next, works, works').state.sites;
            && (a in s.sites ==> a in after && after[a].size == s.sites[a].size && after[a].refs == s.sites[a].refs)
            && (a in after && a !in s.sites ==> (branch.Some? && branch.value.a == a) || (next.Some? && next.value.a == a))
  {
    AddStepAt(s, branch, works, a);
    AddStepAt(AddStep(s, branch, works).state, next, works', a);
  }

  // ---------------------------------------------------------------------------
  // What success leaves: traps
  // ---------------------------------------------------------------------------

  predicate Overlap(v: Want, w: Want) {
    v.a < w.a + Span(w) && w.a < v.a + Span(v)
  }

  /** A byte of v's trap that w's trap, written over it, changes. */
  function Changed(v: Want, w: Want): int {
    var d := w.a - v.a;
    if v.size == 3 then (if d > 0 then d else if w.size == 4 && d == -2 then 1 else 0)
    else if v.size == 2 && w.size == 2 then (if d == 1 then 1 else 0)
    else if v.size == 2 then (if d >= -1 then 1 else 0)
    else if w.size == 2 then (if d == -1 then 0 else if d <= 2 then 2 else 3)
    else if d == 1 || d == -2 then 1 else if d > 0 then 3 else 0
  }

  lemma OverlapCorrupts(m: ByteMap, v: Want, w: Want)
    requires v.size in {2, 3, 4} && w.size in {2, 4} && v.a != w.a && Overlap(v, w)
    ensures !TrappedAt(WriteAt(m, w.a, Opcode(w.size)), v)
  {
    var after := WriteAt(m, w.a, Opcode(w.size));
    if IsMapped(after, v.a, Span(v)) {
      var i := Changed(v, w);
      assert 0 <= i < Span(v) && w.a <= v.a + i < w.a + Span(w);
      assert after[v.a + i] == Opcode(w.size)[v.a + i - w.a] != Opcode(v.size)[i];
      assert ReadAt(after, v.a, Span(v))[i] == after[v.a + i];
    }
  }

  lemma ApartIsKept(m: ByteMap, v: Want, w: Want)
    requires !Overlap(v, w)
    ensures TrappedAt(WriteAt(m, w.a, Opcode(w.size)), v) <==> TrappedAt(m, v)
  {
    var after := WriteAt(m, w.a, Opcode(w.size));
    if IsMapped(m, v.a, Span(v)) {
      assert forall i :: 0 <= i < Span(v) ==> ReadAt(after, v.a, Span(v))[i] == ReadAt(m, v.a, Span(v))[i];
    }
  }

  /** The next instruction is written over the branch. */
  predicate Overwrites(s: Stepping, branch: Option<Want>, next: Option<Want>) {
    IsNew(s, branch) && IsNew(s, next) && !SameAddress(branch, next) && Overlap(branch.value, next.value)
  }

  /** After success with an enabled manager the trap of a new next instruction is in
      memory, and that of a new branch exactly when the next instruction is not written
      over it. */
  lemma TrapsAreThere(s: Stepping, branch: Option<Want>, next: Option<Want>, works: bool, works': bool)
    requires s.enabled && Place(s, branch, next, works, works').error == Success
    requires (branch.Some? ==> branch.value.size in {2, 4}) && (next.Some? ==> next.value.size in {2, 4})
    ensures var after := Place(s, branch, next, works, works').state.memory;
            && (IsNew(s, next) && !SameAddress(branch, next) ==> TrappedAt(after, next.value))
            && (IsNew(s, branch) ==> (TrappedAt(after, branch.value) <==> !Overwrites(s, branch, next)))
  {
    AddStepIs(s, branch, works);
    var first := AddStep(s, branch, works).state;
    if IsNew(s, branch) {
      TrapIsThere(s.memory, branch.value);
    }
    if IsNew(first, next) {
      TrapIsThere(first.memory, next.value);
      if IsNew(s, branch) {
        if Overlap(branch.value, next.value) {
          OverlapCorrupts(first.memory, branch.value, next.value);
        } else {
          ApartIsKept(first.memory, branch.value, next.value);
        }
      }
    }
  }

  // ---------------------------------------------------------------------------
  // What success leaves: the traps of all sites
  // ---------------------------------------------------------------------------

  function TrapOf(s: Stepping, a: nat): Want
    requires a in s.sites
  {
    Want(a, s.sites[a].size)
  }

  /** Every site has its trap in memory. */
  predicate AllTrapped(s: Stepping) {
    forall a <- s.sites :: s.sites[a].size in {2, 3, 4} && TrappedAt(s.memory, TrapOf(s, a))
  }

  /** A new site's trap runs into v. */
  predicate Spoils(s: Stepping, want: Option<Want>, v: Want) {
    IsNew(s, want) && want.value.a != v.a && Overlap(v, want.value)
  }

  lemma AddStepTraps(s: Stepping, want: Option<Want>, works: bool, v: Want)
    requires s.enabled && AddStep(s, want, works).error == Success && v.size in {2, 3, 4} && v.a in s.sites
    requires want.Some? ==> want.value.size in {2, 4}
    ensures TrappedAt(AddStep(s, want, works).state.memory, v) <==> TrappedAt(s.memory, v) && !Spoils(s, want, v)
  {
    if IsNew(s, want) {
      if Overlap(v, want.value) {
        OverlapCorrupts(s.memory, v, want.value);
      } else {
        ApartIsKept(s.memory, v, want.value);
      }
    }
  }

  /** One of the two is written over the trap of the site at v.a after that was. */
  predicate Spoiled(s: Stepping, branch: Option<Want>, next: Option<Want>, v: Want) {
    || (v.a in s.sites && Spoils(s, branch, v))
    || (!SameAddress(branch, next) && Spoils(s, next, v))
  }

  /** If every site had its trap before, then after success with an enabled manager a
      site, old or new, has its trap exactly when neither breakpoint runs into it. */
  lemma TrapsAfter(s: Stepping, branch: Option<Want>, next: Option<Want>, works: bool, works': bool, a: nat)
    requires s.enabled && AllTrapped(s) && Place(s, branch, next, works, works').error == Success
    requires (branch.Some? ==> branch.value.size in {2, 4}) && (next.Some? ==> next.value.size in {2, 4})
    requires a in Place(s, branch, next, works, works').state.sites
    ensures var t := Place(s, branch, next, works, works').state;
            TrappedAt(t.memory, TrapOf(t, a)) <==> !Spoiled(s, branch, next, TrapOf(t, a))
  {
    var first := AddStep(s, branch, works).state;
    var t := Place(s, branch, next, works, works').state;
    AddStepAt(s, branch, works, a);
    AddStepAt(first, next, works', a);
    AddStepIs(s, branch, works);
    AddStepIs(first, next, works');
    var v := TrapOf(t, a);
    if a in s.sites {
      AddStepTraps(s, branch, works, v);
      AddStepTraps(first, next, works', v);
    } else if a in first.sites {
      TrapIsThere(s.memory, v);
      AddStepTraps(first, next, works', v);
    } else {
      TrapIsThere(first.memory, v);
    }
  }

  /** Two breakpoints that overlap, on a manager without sites: placing succeeds, and the
      first is left without its trap. */
  lemma FirstIsOverwritten(s: Stepping, branch: Want, next: Want)
    requires s.enabled && s.sites == map[] && branch.size in {2, 4} && next.size in {2, 4}
    requires branch.a != next.a && Overlap(branch, next)
    requires IsMapped(s.memory, branch.a, Span(branch)) && IsMapped(s.memory, next.a, Span(next))
    ensures var p := Place(s, Some(branch), Some(next), true, true);
            p.error == Success && branch.a in p.state.sites && !TrappedAt(p.state.memory, TrapOf(p.state, branch.a))
  {
    PlaceSucceeds(s, Some(branch), Some(next), true, true);
    WantedAreSites(s, Some(branch), Some(next), true, true, branch);
    TrapsAreThere(s, Some(branch), Some(next), true, true);
  }

  // ---------------------------------------------------------------------------
  // What is under the traps
  // ---------------------------------------------------------------------------

  /** No site's trap lies on the byte. */
  predicate Clear(s: Stepping, k: nat) {
    forall a <- s.sites :: !(a <= k < a + Span(TrapOf(s, a)))
  }

  /** Memory is the program's wherever no site's trap lies. */
  predicate Under(program: ByteMap, s: Stepping) {
    s.memory.Keys == program.Keys && forall k <- program :: Clear(s, k) ==> s.memory[k] == program[k]
  }

  lemma AddStepKeepsUnder(program: ByteMap, s: Stepping, want: Option<Want>, works: bool)
    requires Under(program, s)
    ensures Under(program, AddStep(s, want, works).state)
  {
    var t := AddStep(s, want, works).state;
    if want.Some? {
      forall k <- program | Clear(t, k) ensures t.memory[k] == program[k] {
        forall a <- s.sites ensures !(a <= k < a + Span(TrapOf(s, a))) {
          AddStepAt(s, want, works, a);
          assert a in t.sites && Span(TrapOf(t, a)) == Span(TrapOf(s, a));
        }
        AddStepAt(s, want, works, want.value.a);
      }
    }
  }

  /** Placing, whether or not it fails, keeps the program under the traps. */
  lemma PlaceKeepsUnder(program: ByteMap, s: Stepping, branch: Option<Want>, next: Option<Want>, works: bool, works': bool)
    requires Under(program, s)
    ensures Under(program, Place(s, branch, next, works, works').state)
  {
    AddStepKeepsUnder(program, s, branch, works);
    AddStepKeepsUnder(program, AddStep(s, branch, works).state, next, works');
  }

  /** Writing the saved bytes back. */
  function PutBack(s: Stepping, want: Option<Want>): ByteMap {
    if want.Some? && want.value.a in s.insns then WriteAt(s.memory, want.value.a, s.insns[want.value.a]) else s.memory
  }

  lemma WriteBack(m: ByteMap, w: Want)
    requires IsMapped(m, w.a, Span(w))
    ensures WriteAt(WriteAt(m, w.a, Opcode(w.size)), w.a, ReadAt(m, w.a, Span(w))) == m
  {
  }

  function Address(want: Option<Want>): set<nat> {
    if want.Some? then {want.value.a} else {}
  }

  /** Whatever the failure: the branch is a site unless it could not be, and the next
      instruction unless it could not be or was never asked for; memory is as it was but
      for the branch's trap, and writing back what was saved for that restores it. */
  lemma FailureLeaves(s: Stepping, branch: Option<Want>, next: Option<Want>, works: bool, works': bool)
    requires s.enabled && Place(s, branch, next, works, works').error != Success
    ensures var t := Place(s, branch, next, works, works').state;
            && t.sites.Keys == s.sites.Keys + (if Free(s, branch) then Address(branch) else {})
                               + (if Free(s, branch) && Writable(s, branch, works) && Free(s, next) then Address(next) else {})
            && (if IsNew(s, branch) && CanTrap(s, branch.value, works) then PutBack(t, branch) == s.memory
                else t.memory == s.memory)
  {
    AddStepIs(s, branch, works);
    var first := AddStep(s, branch, works).state;
    AddStepIs(first, next, works');
    if IsNew(s, branch) && CanTrap(s, branch.value, works) {
      WriteBack(s.memory, branch.value);
    }
  }

  lemma WritesCommute(m: ByteMap, a: nat, x: seq<octet>, b: nat, y: seq<octet>)
    requires a + |x| <= b || b + |y| <= a
    ensures WriteAt(WriteAt(m, a, x), b, y) == WriteAt(WriteAt(m, b, y), a, x)
  {
  }

  /** Unless the two traps overlap, what was saved for the new sites puts memory back as
      it was, in either order. */
  lemma PlaceIsUndone(s: Stepping, v: Want, w: Want, works: bool, works': bool)
    requires s.enabled && Place(s, Some(v), Some(w), works, works').error == Success
    requires v.a !in s.sites && w.a !in s.sites && v.a != w.a && !Overlap(v, w)
    ensures var t := Place(s, Some(v), Some(w), works, works').state;
            && PutBack(t.(memory := PutBack(t, Some(v))), Some(w)) == s.memory
            && PutBack(t.(memory := PutBack(t, Some(w))), Some(v)) == s.memory
  {
    AddStepIs(s, Some(v), works);
    var first := AddStep(s, Some(v), works).state;
    var t := Place(s, Some(v), Some(w), works, works').state;
    var saved, saved' := ReadAt(s.memory, v.a, Span(v)), ReadAt(first.memory, w.a, Span(w));
    assert t.insns[v.a] == saved && t.insns[w.a] == saved';
    WriteBack(first.memory, w);
    WriteBack(s.memory, v);
    WritesCommute(t.memory, v.a, saved, w.a, saved');
  }
}
