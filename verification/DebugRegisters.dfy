/** The x86 debug control register DR7 and the per-thread debug registers: layout
    as in section 17.2.4 of the Intel SDM, Volume 3B. */
module DebugRegisters {
  import opened Sites

  // ---------------------------------------------------------------------------
  // Words and their bits
  // ---------------------------------------------------------------------------

  /** A 64-bit word as its bits, bit 0 first. */
  type Word = w: seq<bool> | |w| == 64 witness seq(64, _ => false)

  function EnableBit(w: Word, i: nat): Word
    requires i < 64
  {
    w[i := true]
  }

  function DisableBit(w: Word, i: nat): Word
    requires i < 64
  {
    w[i := false]
  }

  /** Zeroes bits start to end - 1. */
  function DisableBits(w: Word, start: nat, end: nat): (r: Word)
    requires start <= end <= 64
    ensures forall j :: 0 <= j < 64 ==> r[j] == (w[j] && !(start <= j < end))
  {
    seq(64, j requires 0 <= j < 64 => w[j] && !(start <= j < end))
  }

  // The same three operations as shifts and masks of a machine word: each changes
  // exactly the bits named above.

  predicate Bit(number: bv64, i: bv7)
    requires i < 64
  {
    (number >> i) & 1 == 1
  }

  lemma OrSetsBit(number: bv64, i: bv7, j: bv7)
    requires i < 64 && j < 64
    ensures Bit(number | (1 << i), j) == (j == i || Bit(number, j))
  {
  }

  lemma AndNotClearsBit(number: bv64, i: bv7, j: bv7)
    requires i < 64 && j < 64
    ensures Bit(number & !(1 << i), j) == (j != i && Bit(number, j))
  {
  }

  lemma MaskClearsTopHalf(number: bv64, j: bv7)
    requires j < 64
    ensures Bit(number & !(((1 << (64 - 32)) - 1) << 32), j) == (Bit(number, j) && j < 32)
  {
  }

  /** The bits of a machine word. */
  function BitsOf(x: bv64): Word {
    seq(64, i requires 0 <= i < 64 => Bit(x, i as bv7))
  }

  lemma IndexIsKept(i: nat, j: nat)
    requires i < 64 && j < 64
    ensures i as bv7 < 64 && (i as bv7 == j as bv7 <==> i == j)
  {
    assert (i as bv7) as nat == i && (j as bv7) as nat == j;
  }

  lemma LowIndex(j: nat)
    requires j < 64
    ensures j as bv7 < 32 <==> j < 32
  {
    assert (j as bv7) as nat == j;
  }

  lemma BitsAt(x: bv64, j: nat, l: bv7)
    requires j < 64 && l == j as bv7 && l < 64
    ensures BitsOf(x)[j] == Bit(x, l)
  {
  }

  lemma EnabledAt(x: bv64, y: bv64, i: nat, j: nat, k: bv7, l: bv7)
    requires i < 64 && j < 64 && k < 64 && l == j as bv7 && l < 64 && (k == l <==> i == j) && y == x | (1 << k)
    ensures BitsOf(y)[j] == (i == j || BitsOf(x)[j])
  {
    OrSetsBit(x, k, l);
    BitsAt(x, j, l);
    BitsAt(y, j, l);
  }

  lemma DisabledAt(x: bv64, y: bv64, i: nat, j: nat, k: bv7, l: bv7)
    requires i < 64 && j < 64 && k < 64 && l == j as bv7 && l < 64 && (k == l <==> i == j) && y == x & !(1 << k)
    ensures BitsOf(y)[j] == (i != j && BitsOf(x)[j])
  {
    AndNotClearsBit(x, k, l);
    BitsAt(x, j, l);
    BitsAt(y, j, l);
  }

  lemma MaskedAt(x: bv64, y: bv64, j: nat, l: bv7)
    requires j < 64 && l == j as bv7 && l < 64 && (l < 32 <==> j < 32) && y == x & !(((1 << (64 - 32)) - 1) << 32)
    ensures BitsOf(y)[j] == (BitsOf(x)[j] && j < 32)
  {
    MaskClearsTopHalf(x, l);
    BitsAt(x, j, l);
    BitsAt(y, j, l);
  }

  /** The helpers on machine words are those on bits: y is x with bit i set, */
  lemma EnableBitIsOr(x: bv64, y: bv64, i: nat, k: bv7)
    requires i < 64 && k == i as bv7 && k < 64 && y == x | (1 << k)
    ensures BitsOf(y) == EnableBit(BitsOf(x), i)
  {
    forall j | 0 <= j < 64 ensures BitsOf(y)[j] == (i == j || BitsOf(x)[j]) {
      IndexIsKept(i, j);
      IndexIsKept(j, j);
      EnabledAt(x, y, i, j, k, j as bv7);
    }
  }

  /** with it cleared, */
  lemma DisableBitIsAnd(x: bv64, y: bv64, i: nat, k: bv7)
    requires i < 64 && k == i as bv7 && k < 64 && y == x & !(1 << k)
    ensures BitsOf(y) == DisableBit(BitsOf(x), i)
  {
    forall j | 0 <= j < 64 ensures BitsOf(y)[j] == (i != j && BitsOf(x)[j]) {
      IndexIsKept(i, j);
      IndexIsKept(j, j);
      DisabledAt(x, y, i, j, k, j as bv7);
    }
  }

  /** or with its top half cleared. */
  lemma DisableBitsIsMask(x: bv64, y: bv64)
    requires y == x & !(((1 << (64 - 32)) - 1) << 32)
    ensures BitsOf(y) == DisableBits(BitsOf(x), 32, 64)
  {
    forall j | 0 <= j < 64 ensures BitsOf(y)[j] == (BitsOf(x)[j] && j < 32) {
      IndexIsKept(j, j);
      LowIndex(j);
      MaskedAt(x, y, j, j as bv7);
    }
  }

  // ---------------------------------------------------------------------------
  // Reading DR7 as the processor does
  // ---------------------------------------------------------------------------

  /** The local flag on Windows, the global one elsewhere. */
  function EnableIndex(slot: nat, windows: bool): nat {
    if windows then slot * 2 else slot * 2 + 1
  }

  function InfoIndex(slot: nat): nat {
    16 + slot * 4
  }

  /** One slot's fields: its enable flag and the two bits of R/W and of LEN. */
  datatype Fields = Fields(enabled: bool, rw0: bool, rw1: bool, len0: bool, len1: bool)

  function FieldsOf(reg: Word, slot: nat, windows: bool): Fields
    requires slot < 4
  {
    var info := InfoIndex(slot);
    Fields(reg[EnableIndex(slot, windows)], reg[info], reg[info + 1], reg[info + 2], reg[info + 3])
  }

  /** The layout in numbers: the enable flags are the two bits of each pair from bit 0, and
      R/W and LEN the four bits of each group from bit 16. */
  lemma Layout(reg: Word)
    ensures FieldsOf(reg, 0, true) == Fields(reg[0], reg[16], reg[17], reg[18], reg[19])
    ensures FieldsOf(reg, 0, false) == Fields(reg[1], reg[16], reg[17], reg[18], reg[19])
    ensures FieldsOf(reg, 1, true) == Fields(reg[2], reg[20], reg[21], reg[22], reg[23])
    ensures FieldsOf(reg, 1, false) == Fields(reg[3], reg[20], reg[21], reg[22], reg[23])
    ensures FieldsOf(reg, 2, true) == Fields(reg[4], reg[24], reg[25], reg[26], reg[27])
    ensures FieldsOf(reg, 2, false) == Fields(reg[5], reg[24], reg[25], reg[26], reg[27])
    ensures FieldsOf(reg, 3, true) == Fields(reg[6], reg[28], reg[29], reg[30], reg[31])
    ensures FieldsOf(reg, 3, false) == Fields(reg[7], reg[28], reg[29], reg[30], reg[31])
  {
  }

  /** What the processor breaks on: R/W 00 instruction execution, 01 writes, 11
      reads and writes (10, I/O, is never programmed here). */
  function ModeOf(f: Fields): Mode {
    if !f.rw0 && !f.rw1 then EXEC else if f.rw0 && !f.rw1 then WRITE else READ_WRITE
  }

  /** How many bytes it watches: LEN 00 one, 01 two, 10 eight, 11 four. */
  function SizeOf(f: Fields): nat {
    if !f.len1 then (if f.len0 then 2 else 1) else (if f.len0 then 4 else 8)
  }

  // ---------------------------------------------------------------------------
  // Programming DR7
  // ---------------------------------------------------------------------------

  predicate Programmable(mode: Mode, size: nat) {
    mode == EXEC || ((mode == WRITE || mode == READ || mode == READ_WRITE) && size in {1, 2, 4, 8})
  }

  /** Bit `j` belongs to this slot. */
  predicate InSlot(j: nat, slot: nat, windows: bool) {
    j == EnableIndex(slot, windows) || InfoIndex(slot) <= j < InfoIndex(slot) + 4
  }

  /** `after` is `before` with this slot's fields changed to `f`, every other low
      bit as it was and the top half zero. */
  predicate IsProgrammed(before: Word, after: Word, slot: nat, f: Fields, windows: bool)
    requires slot < 4
  {
    && FieldsOf(after, slot, windows) == f
    && (forall j :: 0 <= j < 32 && !InSlot(j, slot, windows) ==> after[j] == before[j])
    && (forall j :: 32 <= j < 64 ==> !after[j])
  }

  /** The encoding of a mode and a size. */
  function FieldsFor(mode: Mode, size: nat): Fields {
    Fields(true, mode != EXEC, mode == READ || mode == READ_WRITE,
           mode != EXEC && (size == 2 || size == 4), mode != EXEC && (size == 4 || size == 8))
  }

  /** It is the only one that reads back as them: a read watchpoint as a read-write
      one, an execution breakpoint with length one, and never I/O. */
  lemma FieldsForReadsBack(mode: Mode, size: nat, f: Fields)
    requires Programmable(mode, size)
    ensures f == FieldsFor(mode, size) <==>
              && f.enabled && (f.rw1 ==> f.rw0)
              && ModeOf(f) == (if mode == READ then READ_WRITE else mode)
              && SizeOf(f) == (if mode == EXEC then 1 else size)
  {
  }

  method SetRW(w: Word, info: nat, mode: Mode) returns (error: ErrorCode, reg: Word)
    requires info + 4 <= 32
    ensures error == Success <==> mode == EXEC || mode == WRITE || mode == READ || mode == READ_WRITE
    ensures error == Success ==> reg == w[info := mode != EXEC][info + 1 := mode == READ || mode == READ_WRITE]
  {
    reg, error := w, Success;
    if mode == EXEC {
      reg := DisableBit(reg, info);
      reg := DisableBit(reg, info + 1);
    } else if mode == WRITE {
      reg := EnableBit(reg, info);
      reg := DisableBit(reg, info + 1);
    } else if mode == READ || mode == READ_WRITE {
      reg := EnableBit(reg, info);
      reg := EnableBit(reg, info + 1);
    } else {
      error := InvalidArgument;
    }
  }

  method SetLen(w: Word, info: nat, mode: Mode, size: nat) returns (error: ErrorCode, reg: Word)
    requires info + 4 <= 32
    ensures error == Success <==> mode == EXEC || size in {1, 2, 4, 8}
    ensures error == Success ==>
              reg == w[info + 2 := mode != EXEC && (size == 2 || size == 4)]
                      [info + 3 := mode != EXEC && (size == 4 || size == 8)]
  {
    reg, error := w, Success;
    if mode == EXEC {
      reg := DisableBit(reg, info + 2);
      reg := DisableBit(reg, info + 3);
    } else if size == 1 {
      reg := DisableBit(reg, info + 2);
      reg := DisableBit(reg, info + 3);
    } else if size == 2 {
      reg := EnableBit(reg, info + 2);
      reg := DisableBit(reg, info + 3);
    } else if size == 4 {
      reg := EnableBit(reg, info + 2);
      reg := EnableBit(reg, info + 3);
    } else if size == 8 {
      reg := DisableBit(reg, info + 2);
      reg := EnableBit(reg, info + 3);
    } else {
      error := InvalidArgument;
    }
  }

  /** One bit after the other. */
  lemma Programmed(w: Word, slot: nat, f: Fields, windows: bool, enableIdx: nat, info: nat)
    requires slot < 4 && f.enabled && enableIdx == EnableIndex(slot, windows) && info == InfoIndex(slot)
    ensures var reg := w[enableIdx := true][info := f.rw0][info + 1 := f.rw1][info + 2 := f.len0][info + 3 := f.len1];
            IsProgrammed(w, DisableBits(reg, 32, 64), slot, f, windows)
  {
  }

  /** Sets the enable flag, then R/W, then LEN; a mode or a size the processor has
      no encoding for is refused. */
  method EnableDebugCtrlReg(ctrlReg: Word, slot: nat, mode: Mode, size: nat, windows: bool)
    returns (error: ErrorCode, reg: Word)
    requires slot < 4
    ensures error == Success <==> Programmable(mode, size)
    ensures error == Success ==> IsProgrammed(ctrlReg, reg, slot, FieldsFor(mode, size), windows)
  {
    var enableIdx := slot * 2;
    if !windows {
      enableIdx := enableIdx + 1;
    }
    var info := 16 + slot * 4;
    reg := EnableBit(ctrlReg, enableIdx);
    error, reg := SetRW(reg, info, mode);
    if error != Success {
      return;
    }
    error, reg := SetLen(reg, info, mode, size);
    if error != Success {
      return;
    }
    reg := DisableBits(reg, 32, 64);
    Programmed(ctrlReg, slot, FieldsFor(mode, size), windows, enableIdx, info);
  }

  /** Clears the slot's enable flag and the top half, nothing else. */
  method DisableDebugCtrlReg(ctrlReg: Word, slot: nat, windows: bool) returns (error: ErrorCode, reg: Word)
    requires slot < 4
    ensures error == Success
    ensures IsProgrammed(ctrlReg, reg, slot, FieldsOf(ctrlReg, slot, windows).(enabled := false), windows)
  {
    var disableIdx := slot * 2;
    if !windows {
      disableIdx := disableIdx + 1;
    }
    reg := DisableBit(ctrlReg, disableIdx);
    reg := DisableBits(reg, 32, 64);
    error := Success;
  }

  /** Programming one slot does not show in the fields of another. */
  lemma OtherSlots(before: Word, after: Word, slot: nat, f: Fields, other: nat, windows: bool)
    requires slot < 4 && other < 4 && slot != other && IsProgrammed(before, after, slot, f, windows)
    ensures FieldsOf(after, other, windows) == FieldsOf(before, other, windows)
  {
    var info := InfoIndex(other);
    assert !InSlot(EnableIndex(other, windows), slot, windows);
    assert !InSlot(info, slot, windows) && !InSlot(info + 1, slot, windows);
    assert !InSlot(info + 2, slot, windows) && !InSlot(info + 3, slot, windows);
  }

  // ---------------------------------------------------------------------------
  // Any sequence of successful requests
  // ---------------------------------------------------------------------------

  datatype Request = EnableSlot(slot: nat, mode: Mode, size: nat) | DisableSlot(slot: nat)

  predicate IsRequest(q: Request) {
    q.slot < 4 && (q.EnableSlot? ==> Programmable(q.mode, q.size))
  }

  /** Carries requests out one after the other. From any DR7 value, afterwards a
      slot is enabled exactly when its last request enabled it, its R/W and LEN
      fields are those of the last request that did, and unless nothing was
      requested the top half is zero. */
  method CarryOut(ctrlReg: Word, qs: seq<Request>, windows: bool) returns (reg: Word)
    requires forall q <- qs :: IsRequest(q)
    ensures forall slot :: 0 <= slot < 4 ==> FieldsOf(reg, slot, windows) == Expected(FieldsOf(ctrlReg, slot, windows), qs, slot, |qs|)
    ensures qs != [] ==> forall j :: 32 <= j < 64 ==> !reg[j]
  {
    reg := ctrlReg;
    for i := 0 to |qs|
      invariant forall slot :: 0 <= slot < 4 ==> FieldsOf(reg, slot, windows) == Expected(FieldsOf(ctrlReg, slot, windows), qs, slot, i)
      invariant i > 0 ==> forall j :: 32 <= j < 64 ==> !reg[j]
    {
      var q, before := qs[i], reg;
      assert q in qs;
      var error;
      if q.EnableSlot? {
        error, reg := EnableDebugCtrlReg(reg, q.slot, q.mode, q.size, windows);
      } else {
        error, reg := DisableDebugCtrlReg(reg, q.slot, windows);
      }
      forall slot | 0 <= slot < 4 && slot != q.slot
        ensures FieldsOf(reg, slot, windows) == FieldsOf(before, slot, windows)
      {
        OtherSlots(before, reg, q.slot, FieldsOf(reg, q.slot, windows), slot, windows);
      }
    }
  }

  /** A slot's fields after the first n requests. */
  function Expected(start: Fields, qs: seq<Request>, slot: nat, n: nat): Fields
    requires n <= |qs|
  {
    if n == 0 then start
    else
      var q := qs[n - 1];
      if q.slot != slot then Expected(start, qs, slot, n - 1)
      else if q.EnableSlot? then FieldsFor(q.mode, q.size)
      else Expected(start, qs, slot, n - 1).(enabled := false)
  }

  /** Said of positions: with `k` the last request that enabled the slot, the fields
      are that request's, and the flag is set unless a disable of it came later. */
  lemma {:induction false} LastEnableWins(start: Fields, qs: seq<Request>, slot: nat, n: nat, k: nat)
    requires k < n <= |qs| && qs[k].EnableSlot? && qs[k].slot == slot
    requires forall i :: k < i < n ==> !(qs[i].EnableSlot? && qs[i].slot == slot)
    ensures var f := Expected(start, qs, slot, n);
            && f == FieldsFor(qs[k].mode, qs[k].size).(enabled := f.enabled)
            && (f.enabled <==> DisableSlot(slot) !in qs[k..n])
  {
    assert qs[k..n] == qs[k..n - 1] + [qs[n - 1]];
    if n > k + 1 {
      LastEnableWins(start, qs, slot, n - 1, k);
    }
  }

  // ---------------------------------------------------------------------------
  // One thread's debug registers
  // ---------------------------------------------------------------------------

  const STATUS: nat := 6
  const CONTROL: nat := 7

  const ZERO: Word := seq(64, _ => false)

  /** Reads DR0-DR7, points slot `idx` at the address, clears the status and
      programs the control register; nothing is written unless all of it works. */
  method EnableOnThread(regs: array<Word>, idx: nat, address: Word, mode: Mode, size: nat, windows: bool,
                        canRead: bool, canWrite: bool) returns (error: ErrorCode)
    requires regs.Length == 8 && idx < 4
    modifies regs
    ensures error == Success <==> canRead && canWrite && Programmable(mode, size)
    ensures error != Success ==> forall k :: 0 <= k < 8 ==> regs[k] == old(regs[k])
    ensures error == Success ==>
              && regs[idx] == address && regs[STATUS] == ZERO
              && IsProgrammed(old(regs[CONTROL]), regs[CONTROL], idx, FieldsFor(mode, size), windows)
              && forall k :: 0 <= k < 4 && k != idx ==> regs[k] == old(regs[k])
  {
    if !canRead {
      return Failed;
    }
    var debugRegs: seq<Word> := [regs[0], regs[1], regs[2], regs[3], ZERO, ZERO, regs[6], regs[7]];
    debugRegs := debugRegs[idx := address];
    debugRegs := debugRegs[STATUS := ZERO];
    var ctrl;
    error, ctrl := EnableDebugCtrlReg(debugRegs[CONTROL], idx, mode, size, windows);
    if error != Success {
      return;
    }
    debugRegs := debugRegs[CONTROL := ctrl];
    if !canWrite {
      return Failed;
    }
    forall i | 0 <= i < 8 {
      regs[i] := debugRegs[i];
    }
  }
}
