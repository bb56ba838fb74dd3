/** The register-definition generator: C names, LLDB indexes and LLDB offsets. */
module RegsGen {
  import opened Common

  // ---------------------------------------------------------------------------
  // C names
  // ---------------------------------------------------------------------------

  function Digit(d: nat): char
    requires d < 10
  {
    ('0' as int + d) as char
  }

  /** Decimal text, as a stream prints an unsigned number. */
  function Decimal(n: nat): string {
    if n < 10 then [Digit(n)] else Decimal(n / 10) + [Digit(n % 10)]
  }

  function ValueOf(s: string): int {
    if s == [] then 0 else 10 * ValueOf(s[..|s| - 1]) + (s[|s| - 1] as int - '0' as int)
  }

  lemma {:induction false} DecimalReads(n: nat)
    ensures ValueOf(Decimal(n)) == n
  {
    if n >= 10 {
      DecimalReads(n / 10);
      assert Decimal(n)[..|Decimal(n)| - 1] == Decimal(n / 10);
    } else {
      assert Decimal(n)[..0] == [];
    }
  }

  function Suffixed(name: string, index: nat): string {
    name + "_" + Decimal(index)
  }

  lemma SuffixedInjective(name: string, i: nat, j: nat)
    requires Suffixed(name, i) == Suffixed(name, j)
    ensures i == j
  {
    assert Suffixed(name, i)[|name| + 1..] == Decimal(i);
    assert Suffixed(name, j)[|name| + 1..] == Decimal(j);
    DecimalReads(i);
    DecimalReads(j);
  }

  /** The candidates before `index`. */
  ghost function Tried(name: string, index: nat): set<string> {
    if index <= 1 then {} else Tried(name, index - 1) + {Suffixed(name, index - 1)}
  }

  lemma {:induction false} NotTried(name: string, index: nat, k: nat)
    requires k >= index
    ensures Suffixed(name, k) !in Tried(name, index)
  {
    if index > 1 {
      NotTried(name, index - 1, k);
      if Suffixed(name, k) == Suffixed(name, index - 1) {
        SuffixedInjective(name, k, index - 1);
      }
    }
  }

  lemma {:induction false} TriedCount(name: string, index: nat)
    requires index >= 1
    ensures |Tried(name, index)| == index - 1
  {
    if index > 1 {
      TriedCount(name, index - 1);
      NotTried(name, index - 1, index - 1);
    }
  }

  /** Only so many candidates can be taken. */
  lemma FewTaken(name: string, index: nat, names: set<string>)
    requires index >= 1 && Tried(name, index) <= names
    ensures index <= |names| + 1
  {
    TriedCount(name, index);
    SubsetSize(Tried(name, index), names);
  }

  /** What a register may be called when `names` are taken: its own name if free, or
      else the first free candidate. */
  ghost predicate IsCName(name: string, names: set<string>, cname: string) {
    if name !in names then cname == name
    else exists k: nat ::
      && k >= 1 && cname == name + "_" + Decimal(k) && cname !in names
      && forall j :: 1 <= j < k ==> name + "_" + Decimal(j) in names
  }

  lemma {:induction false} TriedAre(name: string, index: nat, j: nat)
    requires 1 <= j < index
    ensures name + "_" + Decimal(j) in Tried(name, index)
  {
    if j < index - 1 {
      TriedAre(name, index - 1, j);
    }
  }

  /** The search loop. It ends because the candidates are pairwise different. */
  method FreshName(name: string, names: set<string>) returns (cname: string)
    requires name in names
    ensures cname !in names && IsCName(name, names, cname)
  {
    var index: nat := 1;
    cname := Suffixed(name, index);
    while cname in names
      invariant index >= 1 && cname == Suffixed(name, index) && Tried(name, index) <= names
      decreases |names| + 1 - index
    {
      index := index + 1;
      FewTaken(name, index, names);
      cname := Suffixed(name, index);
    }
    forall j: nat | 1 <= j < index ensures name + "_" + Decimal(j) in names {
      TriedAre(name, index, j);
    }
  }

  datatype Encoding = IEEESingle | IEEEDouble | IEEEExtended | OtherEncoding

  class Register {
    const name: string
    const bitSize: nat
    const encoding: Encoding
    const vector: bool
    const parent: Register?
    const parentElement: nat
    var cname: string
    var number: nat
    var offset: nat

    constructor (name: string, bitSize: nat, encoding: Encoding, vector: bool, parent: Register?, parentElement: nat)
      ensures this.name == name && this.bitSize == bitSize && this.encoding == encoding && this.vector == vector
      ensures this.parent == parent && this.parentElement == parentElement
    {
      this.name, this.bitSize, this.encoding, this.vector := name, bitSize, encoding, vector;
      this.parent, this.parentElement := parent, parentElement;
      cname, number, offset := "", 0, 0;
    }
  }

  ghost predicate Distinct<T>(s: seq<T>) {
    forall i, j :: 0 <= i < j < |s| ==> s[i] != s[j]
  }

  ghost function Set(s: seq<string>): set<string> {
    set x <- s
  }

  /** The registers in order, each named with those before it taken. */
  ghost predicate NamedAs(names: seq<string>, cnames: seq<string>) {
    && |cnames| <= |names|
    && Distinct(cnames)
    && forall i :: 0 <= i < |cnames| ==> IsCName(names[i], Set(cnames[..i]), cnames[i])
  }

  lemma NameOneMore(names: seq<string>, cnames: seq<string>, cname: string)
    requires NamedAs(names, cnames) && |cnames| < |names|
    requires cname !in Set(cnames) && IsCName(names[|cnames|], Set(cnames), cname)
    ensures NamedAs(names, cnames + [cname]) && Set(cnames + [cname]) == Set(cnames) + {cname}
  {
    var more := cnames + [cname];
    assert more[..|cnames|] == cnames;
    forall i | 0 <= i < |cnames| ensures IsCName(names[i], Set(more[..i]), more[i]) {
      assert more[..i] == cnames[..i];
    }
    forall i | 0 <= i < |cnames| ensures more[i] != cname {
      assert cnames[i] in Set(cnames);
    }
  }

  ghost function NamesOf(regs: seq<Register>): seq<string> {
    seq(|regs|, i requires 0 <= i < |regs| => regs[i].name)
  }

  /** Nobody loses a name nobody before took, and no two get the same. */
  method AssignCNames(regs: seq<Register>) returns (ghost cnames: seq<string>)
    requires Distinct(regs)
    modifies regs`cname
    ensures |cnames| == |regs| && forall i :: 0 <= i < |regs| ==> regs[i].cname == cnames[i]
    ensures NamedAs(NamesOf(regs), cnames)
  {
    ghost var texts := NamesOf(regs);
    var names: set<string> := {};
    cnames := [];
    for n := 0 to |regs|
      invariant |cnames| == n && names == Set(cnames) && NamedAs(texts, cnames)
      invariant forall i :: 0 <= i < n ==> regs[i].cname == cnames[i]
    {
      var reg := regs[n];
      if reg.name in names {
        var unused := FreshName(reg.name, names);
        reg.cname := unused;
      } else {
        reg.cname := reg.name;
      }
      NameOneMore(texts, cnames, reg.cname);
      cnames := cnames + [reg.cname];
      names := names + {reg.cname};
    }
  }

  // ---------------------------------------------------------------------------
  // LLDB indexes
  // ---------------------------------------------------------------------------

  /** The registers in the order they are visited. */
  function Flat<T>(sets: seq<seq<T>>): seq<T> {
    if sets == [] then [] else Flat(sets[..|sets| - 1]) + sets[|sets| - 1]
  }

  /** The last visit to a register is the one that counts. */
  function LastIndex<T(==)>(order: seq<T>, x: T): (k: nat)
    requires x in order
    ensures k < |order| && order[k] == x && x !in order[k + 1..]
  {
    if order[|order| - 1] == x then |order| - 1 else LastIndex(order[..|order| - 1], x)
  }

  lemma LastIndexGrows<T>(order: seq<T>, x: T, more: T)
    requires x in order
    ensures LastIndex(order + [more], x) == if x == more then |order| else LastIndex(order, x)
  {
    assert (order + [more])[..|order|] == order;
  }

  ghost predicate Numbered(order: seq<Register>)
    reads order`number
  {
    forall r <- order :: r.number == LastIndex(order, r)
  }

  lemma FlatOneMore<T>(sets: seq<seq<T>>, n: nat)
    requires n < |sets|
    ensures Flat(sets[..n + 1]) == Flat(sets[..n]) + sets[n]
  {
    assert sets[..n + 1][..n] == sets[..n];
  }

  /** The loop over one set. */
  method NumberSet(regs: seq<Register>, start: nat, ghost done: seq<Register>) returns (count: nat)
    requires start == |done| && Numbered(done)
    modifies regs`number
    ensures count == start + |regs| && Numbered(done + regs)
  {
    count := start;
    assert done + regs[..0] == done;
    for n := 0 to |regs|
      invariant count == start + n && Numbered(done + regs[..n])
    {
      ghost var before := done + regs[..n];
      regs[n].number := count;
      count := count + 1;
      assert done + regs[..n + 1] == before + [regs[n]];
      forall r | r in before ensures r.number == LastIndex(before + [regs[n]], r) {
        LastIndexGrows(before, r, regs[n]);
      }
    }
    assert regs[..|regs|] == regs;
  }

  ghost function Everyone(sets: seq<seq<Register>>): set<Register> {
    set s <- sets, r <- s :: r
  }

  /** `sets` are the sets of every definition, in order. */
  method AssignLLDBIndexes(sets: seq<seq<Register>>)
    modifies Everyone(sets)`number
    ensures Numbered(Flat(sets))
  {
    var count: nat := 0;
    for n := 0 to |sets|
      invariant count == |Flat(sets[..n])| && Numbered(Flat(sets[..n]))
    {
      assert forall r <- sets[n] :: sets[n] in sets && r in Everyone(sets);
      count := NumberSet(sets[n], count, Flat(sets[..n]));
      FlatOneMore(sets, n);
    }
    assert sets[..|sets|] == sets;
  }

  /** Every visit's number is the number kept exactly when no register is visited
      twice. */
  lemma NumbersAreVisits<T>(order: seq<T>)
    ensures (forall i :: 0 <= i < |order| ==> LastIndex(order, order[i]) == i) <==> Distinct(order)
  {
    if Distinct(order) {
      forall i | 0 <= i < |order| ensures LastIndex(order, order[i]) == i {
        var k := LastIndex(order, order[i]);
        assert order[k] == order[i];
      }
    }
    if forall i :: 0 <= i < |order| ==> LastIndex(order, order[i]) == i {
      forall i, j | 0 <= i < j < |order| ensures order[i] != order[j] {
        assert LastIndex(order, order[i]) == i && LastIndex(order, order[j]) == j;
      }
    }
  }

  /** What a lookup answers: the set the index falls in, and the register there. */
  datatype Found<T> = Found(set_: nat, register: T)

  ghost predicate Answers<T>(sets: seq<seq<T>>, index: nat, found: Option<Found<T>>) {
    if index < |Flat(sets)| then
      && found.Some?
      && found.value.set_ < |sets|
      && var before := |Flat(sets[..found.value.set_])|;
      && before <= index < before + |sets[found.value.set_]|
      && found.value.register == Flat(sets)[index]
      && found.value.register == sets[found.value.set_][index - before]
    else found.None?
  }

  lemma {:induction false} FlatAt<T>(sets: seq<seq<T>>, n: nat, k: nat)
    requires n < |sets| && k < |sets[n]|
    ensures |Flat(sets[..n])| + k < |Flat(sets)| && Flat(sets)[|Flat(sets[..n])| + k] == sets[n][k]
    decreases |sets|
  {
    if n < |sets| - 1 {
      var init := sets[..|sets| - 1];
      assert init[..n] == sets[..n];
      FlatAt(init, n, k);
    }
  }

  /** The loop that takes whole sets off the index. */
  method GetRegisterInfo<T>(sets: seq<seq<T>>, wanted: nat) returns (found: Option<Found<T>>)
    ensures Answers(sets, wanted, found)
  {
    var index: nat := wanted;
    for n := 0 to |sets|
      invariant wanted == |Flat(sets[..n])| + index
    {
      FlatOneMore(sets, n);
      if index >= |sets[n]| {
        index := index - |sets[n]|;
      } else {
        FlatAt(sets, n, index);
        return Some(Found(n, sets[n][index]));
      }
    }
    assert sets[..|sets|] == sets;
    return None;
  }

  /** Every index below the total has an answer. */
  lemma {:induction false} Answered<T>(sets: seq<seq<T>>, index: nat) returns (found: Option<Found<T>>)
    requires index < |Flat(sets)|
    ensures Answers(sets, index, found)
    decreases |sets|
  {
    var last := |sets| - 1;
    var before := |Flat(sets[..last])|;
    if index < before {
      found := Answered(sets[..last], index);
      assert sets[..last][..found.value.set_] == sets[..found.value.set_];
    } else {
      found := Some(Found(last, sets[last][index - before]));
    }
  }

  /** Looking i up gives the register numbered i, for every i, exactly when no register
      is listed twice. */
  lemma LookupInverts(sets: seq<seq<Register>>)
    requires Numbered(Flat(sets))
    ensures Distinct(Flat(sets)) <==>
      forall i: nat, found {:trigger Answers(sets, i, found)} ::
        i < |Flat(sets)| && Answers(sets, i, found) ==> found.value.register.number == i
  {
    var order := Flat(sets);
    NumbersAreVisits(order);
    if forall i: nat, found {:trigger Answers(sets, i, found)} ::
      i < |order| && Answers(sets, i, found) ==> found.value.register.number == i {
      forall i | 0 <= i < |order| ensures LastIndex(order, order[i]) == i {
        var found := Answered(sets, i);
        assert order[i] in order;
      }
    }
  }

  // ---------------------------------------------------------------------------
  // Sizes and parents
  // ---------------------------------------------------------------------------

  ghost predicate IsPowerOfTwo(n: nat) {
    n == 1 || (n > 1 && n % 2 == 0 && IsPowerOfTwo(n / 2))
  }

  /** Extended floats and vectors need not have a power-of-two size. */
  predicate AnyWidth(r: Register) {
    r.encoding == IEEEExtended || r.vector
  }

  predicate FitsEncoding(r: Register) {
    match r.encoding
    case IEEESingle => r.bitSize == 32
    case IEEEDouble => r.bitSize == 64
    case IEEEExtended => r.bitSize in {80, 96, 128}
    case OtherEncoding => true
  }

  ghost predicate WellSized(r: Register) {
    r.bitSize >= 8 && (if AnyWidth(r) then r.bitSize % 8 == 0 else IsPowerOfTwo(r.bitSize)) && FitsEncoding(r)
  }

  /** The element fits its parent. */
  ghost predicate FitsParent(r: Register) {
    r.parent != null ==> r.bitSize * r.parentElement + r.bitSize <= r.parent.bitSize
  }

  function Bytes(r: Register): nat {
    r.bitSize / 8
  }

  /** Offset in bytes within the parent. */
  function Relative(r: Register): nat {
    r.bitSize * r.parentElement / 8
  }

  lemma WholeBytes(r: Register)
    requires WellSized(r)
    ensures r.bitSize == 8 * Bytes(r) && Bytes(r) >= 1
  {
    if !AnyWidth(r) {
      var half := r.bitSize / 2;
      assert IsPowerOfTwo(half) && half % 2 == 0;
      assert IsPowerOfTwo(half / 2) && (half / 2) % 2 == 0;
    }
  }

  // The masks. `And` is the bitwise conjunction of unsigned numbers.

  function And(x: nat, y: nat): nat {
    if x == 0 || y == 0 then 0 else 2 * And(x / 2, y / 2) + (if x % 2 == 1 && y % 2 == 1 then 1 else 0)
  }

  lemma {:induction false} AndSelf(x: nat)
    ensures And(x, x) == x
  {
    if x > 0 {
      AndSelf(x / 2);
    }
  }

  /** The test of a size against its predecessor finds the powers of two. */
  lemma {:induction false} PowerMask(n: nat)
    requires n >= 1
    ensures And(n, n - 1) == 0 <==> IsPowerOfTwo(n)
  {
    if n % 2 == 1 {
      AndSelf(n / 2);
      assert (n - 1) / 2 == n / 2;
    } else {
      PowerMask(n / 2);
      assert (n - 1) / 2 == n / 2 - 1;
    }
  }

  function Power(j: nat): (p: nat)
    ensures p >= 1
  {
    if j == 0 then 1 else 2 * Power(j - 1)
  }

  /** A mask of ones keeps what is below it, */
  lemma {:induction false} LowMask(x: nat, w: nat)
    requires x < Power(w)
    ensures And(x, Power(w) - 1) == x
    decreases w
  {
    if w > 0 {
      LowMask(x / 2, w - 1);
      assert (Power(w) - 1) / 2 == Power(w - 1) - 1;
    }
  }

  /** The lowest j bits cleared. */
  function Cleared(x: nat, j: nat): nat {
    if j == 0 then x else 2 * Cleared(x / 2, j - 1)
  }

  /** and one of ones from bit j up clears the bits below. */
  lemma {:induction false} HighMask(x: nat, w: nat, j: nat)
    requires j <= w && x < Power(w)
    ensures Power(j) <= Power(w) && And(x, Power(w) - Power(j)) == Cleared(x, j)
    decreases j
  {
    if j == 0 {
      LowMask(x, w);
    } else {
      HighMask(x / 2, w - 1, j - 1);
      MaskOneMore(x, Power(w - 1) - Power(j - 1));
    }
  }

  lemma MaskOneMore(x: nat, m: nat)
    ensures And(x, 2 * m) == 2 * And(x / 2, m)
  {
    assert 2 * m / 2 == m && 2 * m % 2 == 0;
  }

  lemma EightMask(x: nat)
    ensures And(x, 7) == x % 8
  {
    assert And(x, 7) == 2 * And(x / 2, 3) + x % 2;
    assert And(x / 2, 3) == 2 * And(x / 2 / 2, 1) + x / 2 % 2;
    assert And(x / 2 / 2, 1) == x / 2 / 2 % 2;
  }

  lemma {:induction false} PowerOfTwoIs(n: nat)
    ensures IsPowerOfTwo(n) <==> exists j: nat :: n == Power(j)
  {
    if IsPowerOfTwo(n) && n > 1 {
      PowerOfTwoIs(n / 2);
      var j: nat :| n / 2 == Power(j);
      assert n == Power(j + 1);
    } else if n == 1 {
      assert n == Power(0);
    } else if exists j: nat :: n == Power(j) {
      var j: nat :| n == Power(j);
      PowersAre(j);
    }
  }

  lemma {:induction false} PowersAre(j: nat)
    ensures IsPowerOfTwo(Power(j))
  {
    if j > 0 {
      PowersAre(j - 1);
    }
  }

  /** The sizes let through: a power of two from 8 bits up, or for extended floats and
      vectors any number of whole bytes; and what the encoding of a float takes. */
  lemma SizesAre(r: Register)
    ensures WellSized(r) <==>
      && r.bitSize >= 8
      && (if r.encoding.IEEEExtended? || r.vector then r.bitSize % 8 == 0 else exists j: nat :: r.bitSize == Power(j))
      && (r.encoding.IEEESingle? ==> r.bitSize == 32)
      && (r.encoding.IEEEDouble? ==> r.bitSize == 64)
      && (r.encoding.IEEEExtended? ==> r.bitSize == 80 || r.bitSize == 96 || r.bitSize == 128)
  {
    PowerOfTwoIs(r.bitSize);
  }

  ghost predicate Finalized(regs: seq<Register>)
    reads regs`offset
  {
    forall r <- regs :: WellSized(r) && FitsParent(r) && (r.parent != null ==> r.offset == Relative(r))
  }

  /** The checks on the size, with the masks the source uses. */
  method CheckSize(r: Register) returns (ok: bool)
    ensures ok <==> WellSized(r)
  {
    if r.bitSize < 8 {
      return false;
    }
    PowerMask(r.bitSize);
    if !AnyWidth(r) && And(r.bitSize, r.bitSize - 1) != 0 {
      return false;
    }
    EightMask(r.bitSize);
    if AnyWidth(r) && And(r.bitSize, 7) != 0 {
      return false;
    }
    ok := FitsEncoding(r);
  }

  /** Refuses a set exactly when a register is badly sized or does not fit its parent;
      otherwise subregisters get their relative offsets. */
  method Finalize(regs: seq<Register>) returns (ok: bool)
    modifies regs`offset
    ensures ok <==> forall r <- regs :: WellSized(r) && FitsParent(r)
    ensures ok ==> Finalized(regs)
  {
    for n := 0 to |regs|
      invariant Finalized(regs[..n])
    {
      var r := regs[n];
      assert r in regs;
      ok := CheckSize(r);
      if !ok {
        return;
      }
      if r.parent != null {
        var bitoff := r.bitSize * r.parentElement;
        if bitoff + r.bitSize > r.parent.bitSize {
          return false;
        }
        r.offset := bitoff / 8;
      }
      assert WellSized(r) && FitsParent(r);
    }
    return true;
  }

  // ---------------------------------------------------------------------------
  // LLDB offsets
  // ---------------------------------------------------------------------------

  /** Natural alignment up to 16; sizes that are no power of two get 8 or 16. */
  function AlignOf(nbytes: nat): (align: nat)
    requires nbytes >= 1
    ensures align in {1, 2, 4, 8, 16}
  {
    if nbytes in {1, 2, 4, 8, 16} then nbytes else if nbytes < 16 then 8 else 16
  }

  /** That is what the mask test decides. */
  lemma AlignMask(nbytes: nat)
    requires nbytes >= 1
    ensures AlignOf(nbytes) ==
      if nbytes > 16 || And(nbytes, nbytes - 1) != 0 then (if nbytes < 16 then 8 else 16) else nbytes
  {
    PowerMask(nbytes);
    SmallPowers(nbytes);
  }

  lemma SmallPowers(n: nat)
    ensures n <= 16 ==> (IsPowerOfTwo(n) <==> n in {1, 2, 4, 8, 16})
  {
    if n % 2 == 0 && 2 <= n <= 16 {
      SmallHalves(n / 2);
    }
  }

  lemma SmallHalves(n: nat)
    requires 1 <= n <= 8
    ensures IsPowerOfTwo(n) <==> n in {1, 2, 4, 8}
  {
    assert IsPowerOfTwo(1) && IsPowerOfTwo(2) && !IsPowerOfTwo(3) && IsPowerOfTwo(4);
    assert !IsPowerOfTwo(6) && IsPowerOfTwo(8);
  }

  function RoundUp(x: nat, a: nat): nat
    requires a in {1, 2, 4, 8, 16}
  {
    (x + a - 1) / a * a
  }

  /** On 64-bit words, the mask that is the negated alignment rounds so too. */
  lemma RoundingMask(x: nat, a: nat)
    requires a in {1, 2, 4, 8, 16} && x + a - 1 < 0x1_0000_0000_0000_0000
    ensures And(x + a - 1, 0x1_0000_0000_0000_0000 - a) == RoundUp(x, a)
  {
    var y := x + a - 1;
    Power64();
    if a == 1 {
      HighMask(y, 64, 0);
    } else if a == 2 {
      HighMask(y, 64, 1);
      ClearedOne(y);
    } else if a == 4 {
      HighMask(y, 64, 2);
      ClearedTwo(y);
    } else if a == 8 {
      HighMask(y, 64, 3);
      ClearedThree(y);
    } else {
      HighMask(y, 64, 4);
      ClearedFour(y);
    }
  }

  lemma ClearedOne(y: nat)
    ensures Cleared(y, 1) == y / 2 * 2
  {
    assert Cleared(y, 1) == 2 * Cleared(y / 2, 0);
  }

  lemma ClearedTwo(y: nat)
    ensures Cleared(y, 2) == y / 4 * 4
  {
    ClearedOne(y / 2);
    assert y / 2 / 2 == y / 4;
  }

  lemma ClearedThree(y: nat)
    ensures Cleared(y, 3) == y / 8 * 8
  {
    ClearedTwo(y / 2);
    assert y / 2 / 4 == y / 8;
  }

  lemma ClearedFour(y: nat)
    ensures Cleared(y, 4) == y / 16 * 16
  {
    ClearedThree(y / 2);
    assert y / 2 / 8 == y / 16;
  }

  lemma EightMore(j: nat)
    ensures Power(j + 8) == 0x100 * Power(j)
  {
    assert Power(j + 2) == 4 * Power(j);
    assert Power(j + 4) == 4 * Power(j + 2);
    assert Power(j + 6) == 4 * Power(j + 4);
  }

  lemma Power64()
    ensures Power(0) == 1 && Power(1) == 2 && Power(2) == 4 && Power(3) == 8 && Power(4) == 16
    ensures Power(64) == 0x1_0000_0000_0000_0000
  {
    EightMore(0);
    EightMore(8);
    EightMore(16);
    EightMore(24);
    EightMore(32);
    EightMore(40);
    EightMore(48);
    EightMore(56);
  }

  lemma RoundUpLeast(x: nat, a: nat)
    requires a in {1, 2, 4, 8, 16}
    ensures RoundUp(x, a) >= x && RoundUp(x, a) % a == 0 && RoundUp(x, a) < x + a
  {
    if a == 1 {
    } else if a == 2 {
      assert RoundUp(x, 2) == (x + 1) / 2 * 2;
    } else if a == 4 {
      assert RoundUp(x, 4) == (x + 3) / 4 * 4;
    } else if a == 8 {
      assert RoundUp(x, 8) == (x + 7) / 8 * 8;
    } else {
      assert RoundUp(x, 16) == (x + 15) / 16 * 16;
    }
  }

  ghost predicate Sized(order: seq<Register>) {
    forall r <- order :: Bytes(r) >= 1
  }

  /** The running offset after k visits. Subregisters do not move it. */
  function End(order: seq<Register>, k: nat): nat
    requires k <= |order| && Sized(order)
    decreases k, 0
  {
    if k == 0 then 0
    else if order[k - 1].parent != null then End(order, k - 1)
    else OffsetAt(order, k - 1) + Bytes(order[k - 1])
  }

  function OffsetAt(order: seq<Register>, k: nat): nat
    requires k < |order| && Sized(order)
    decreases k, 1
  {
    RoundUp(End(order, k), AlignOf(Bytes(order[k])))
  }

  lemma {:induction false} EndOfPrefix(order: seq<Register>, more: seq<Register>, k: nat)
    requires k <= |order| && Sized(order) && Sized(order + more)
    ensures End(order + more, k) == End(order, k)
    decreases k
  {
    if k > 0 {
      EndOfPrefix(order, more, k - 1);
    }
  }

  /** Registers laid out later lie past those laid out before. */
  lemma {:induction false} OffsetsGrow(order: seq<Register>, i: nat, j: nat)
    requires i < j <= |order| && Sized(order) && order[i].parent == null
    ensures OffsetAt(order, i) + Bytes(order[i]) <= End(order, j)
    decreases j
  {
    if i < j - 1 {
      OffsetsGrow(order, i, j - 1);
      RoundUpLeast(End(order, j - 1), AlignOf(Bytes(order[j - 1])));
    }
  }

  /** The running offset is where some register laid out before ends, or zero. */
  lemma {:induction false} EndIsSomeEnd(order: seq<Register>, k: nat)
    requires k <= |order| && Sized(order)
    ensures End(order, k) == 0 ||
      exists i {:trigger OffsetAt(order, i)} :: 0 <= i < k && order[i].parent == null && End(order, k) == OffsetAt(order, i) + order[i].bitSize / 8
    decreases k
  {
    if k > 0 {
      if order[k - 1].parent != null {
        EndIsSomeEnd(order, k - 1);
      } else {
        assert End(order, k) == OffsetAt(order, k - 1) + order[k - 1].bitSize / 8;
      }
    }
  }

  /** Past the ends of all registers laid out before. */
  ghost predicate PastAll(order: seq<Register>, k: nat, m: nat)
    requires k <= |order| && Sized(order)
  {
    forall i {:trigger OffsetAt(order, i)} :: 0 <= i < k && order[i].parent == null ==> m >= OffsetAt(order, i) + order[i].bitSize / 8
  }

  /** Each offset is the least aligned one past the ends of all registers before. */
  lemma OffsetIsLeast(order: seq<Register>, k: nat, m: nat)
    requires k < |order| && Sized(order)
    ensures OffsetAt(order, k) % AlignOf(Bytes(order[k])) == 0 && PastAll(order, k, OffsetAt(order, k))
    ensures PastAll(order, k, m) && m % AlignOf(Bytes(order[k])) == 0 ==> m >= OffsetAt(order, k)
  {
    PastAllIs(order, k, m);
    PastAllIs(order, k, OffsetAt(order, k));
    var x, a := End(order, k), AlignOf(Bytes(order[k]));
    RoundUpLeast(x, a);
    if m >= x && m % a == 0 && m < RoundUp(x, a) {
      NoMultipleBetween(m, RoundUp(x, a), a);
      assert false;
    }
  }

  lemma PastAllIs(order: seq<Register>, k: nat, m: nat)
    requires k <= |order| && Sized(order)
    ensures PastAll(order, k, m) <==> m >= End(order, k)
  {
    EndIsSomeEnd(order, k);
    forall i | 0 <= i < k && order[i].parent == null ensures OffsetAt(order, i) + order[i].bitSize / 8 <= End(order, k) {
      OffsetsGrow(order, i, k);
    }
  }

  /** Multiples of a differ by a at least. */
  lemma NoMultipleBetween(m: nat, n: nat, a: nat)
    requires a in {1, 2, 4, 8, 16} && m % a == 0 && n % a == 0 && m < n
    ensures n - m >= a
  {
    if a == 1 {
    } else if a == 2 {
      assert m % 2 == 0 && n % 2 == 0;
    } else if a == 4 {
      assert m % 4 == 0 && n % 4 == 0;
    } else if a == 8 {
      assert m % 8 == 0 && n % 8 == 0;
    } else {
      assert m % 16 == 0 && n % 16 == 0;
    }
  }

  ghost predicate Placed(order: seq<Register>, r: Register)
    requires Sized(order) && r in order
    reads r`offset
  {
    r.parent == null ==> r.offset == OffsetAt(order, LastIndex(order, r))
  }

  /** Parentless registers have the offset of their last visit. */
  ghost predicate LaidOut(order: seq<Register>)
    requires Sized(order)
    reads order`offset
  {
    forall r <- order :: Placed(order, r)
  }

  method PlaceRegister(reg: Register, start: nat, ghost before: seq<Register>) returns (end: nat)
    requires Sized(before) && Sized(before + [reg])
    requires start == End(before, |before|) && LaidOut(before)
    modifies reg`offset
    ensures end == End(before + [reg], |before| + 1) && LaidOut(before + [reg])
    ensures reg.parent != null ==> reg.offset == old(reg.offset)
  {
    assert reg in before + [reg];
    EndOfPrefix(before, [reg], |before|);
    end := start;
    if reg.parent == null {
      end := RoundUp(end, AlignOf(Bytes(reg)));
      reg.offset := end;
      end := end + Bytes(reg);
    }
    LaidOutOneMore(before, reg, before + [reg]);
  }

  lemma SizedPrefix(done: seq<Register>, regs: seq<Register>, n: nat)
    requires Sized(done + regs) && n < |regs|
    ensures done + regs[..n + 1] == (done + regs[..n]) + [regs[n]]
    ensures Sized(done + regs[..n]) && Sized(done + regs[..n + 1])
  {
    assert forall x <- done + regs[..n + 1] :: x in done + regs;
  }

  /** The loop over one set. */
  method OffsetSet(regs: seq<Register>, start: nat, ghost done: seq<Register>) returns (end: nat)
    requires Sized(done + regs)
    requires start == End(done, |done|) && LaidOut(done)
    modifies regs`offset
    ensures end == End(done + regs, |done + regs|) && LaidOut(done + regs)
    ensures forall r <- regs :: r.parent != null ==> r.offset == old(r.offset)
  {
    end := start;
    assert done + regs[..0] == done;
    for n := 0 to |regs|
      invariant end == End(done + regs[..n], |done| + n) && LaidOut(done + regs[..n])
      invariant forall r <- regs :: r.parent != null ==> r.offset == old(r.offset)
    {
      SizedPrefix(done, regs, n);
      end := PlaceRegister(regs[n], end, done + regs[..n]);
    }
    assert regs[..|regs|] == regs;
  }

  /** Laying out one more register leaves the others where they were. */
  lemma StaysPut(before: seq<Register>, reg: Register, r: Register)
    requires Sized(before) && Sized(before + [reg])
    requires r in before && r != reg
    ensures OffsetAt(before + [reg], LastIndex(before + [reg], r)) == OffsetAt(before, LastIndex(before, r))
  {
    LastIndexGrows(before, r, reg);
    EndOfPrefix(before, [reg], LastIndex(before, r));
  }

  lemma PlacedStill(before: seq<Register>, reg: Register, after: seq<Register>, r: Register)
    requires Sized(before) && Sized(after) && after == before + [reg] && r in after
    requires r != reg ==> r in before && Placed(before, r)
    requires r == reg && r.parent == null ==> r.offset == OffsetAt(after, |before|)
    ensures Placed(after, r)
  {
    if r != reg {
      StaysPut(before, reg, r);
    }
  }

  lemma LaidOutOneMore(before: seq<Register>, reg: Register, after: seq<Register>)
    requires Sized(before) && Sized(after) && after == before + [reg]
    requires forall r <- before :: r != reg ==> Placed(before, r)
    requires reg.parent == null ==> reg.offset == OffsetAt(after, |before|)
    ensures LaidOut(after)
  {
    forall r <- after ensures Placed(after, r) {
      PlacedStill(before, reg, after, r);
    }
  }

  method ComputeLLDBOffsets(sets: seq<seq<Register>>)
    requires Sized(Flat(sets))
    modifies Everyone(sets)`offset
    ensures LaidOut(Flat(sets))
    ensures forall r <- Everyone(sets) :: r.parent != null ==> r.offset == old(r.offset)
  {
    var offset: nat := 0;
    assert Flat(sets[..0]) == [];
    for n := 0 to |sets|
      invariant Sized(Flat(sets[..n]))
      invariant offset == End(Flat(sets[..n]), |Flat(sets[..n])|) && LaidOut(Flat(sets[..n]))
      invariant forall r <- Everyone(sets) :: r.parent != null ==> r.offset == old(r.offset)
    {
      assert forall r <- sets[n] :: sets[n] in sets && r in Everyone(sets);
      FlatOneMore(sets, n);
      FlatHas(sets, n);
      offset := OffsetSet(sets[n], offset, Flat(sets[..n]));
    }
    assert sets[..|sets|] == sets;
  }

  lemma {:induction false} FlatHas<T>(sets: seq<seq<T>>, n: nat)
    requires n < |sets|
    ensures forall x <- sets[n] :: x in Flat(sets)
    decreases |sets|
  {
    if n < |sets| - 1 {
      FlatHas(sets[..|sets| - 1], n);
    }
  }

  /** Two registers of their own never share a byte. */
  lemma Disjoint(order: seq<Register>, r: Register, other: Register)
    requires Sized(order) && LaidOut(order)
    requires r in order && other in order && r != other && r.parent == null && other.parent == null
    ensures r.offset + Bytes(r) <= other.offset || other.offset + Bytes(other) <= r.offset
  {
    var i, j := LastIndex(order, r), LastIndex(order, other);
    RoundUpLeast(End(order, i), AlignOf(Bytes(r)));
    RoundUpLeast(End(order, j), AlignOf(Bytes(other)));
    if i < j {
      OffsetsGrow(order, i, j);
    } else {
      OffsetsGrow(order, j, i);
    }
  }

  /** What is emitted for a subregister on a little-endian target. */
  function Emitted(r: Register): nat
    requires r.parent != null
    reads r, r.parent
  {
    r.parent.offset + r.offset
  }

  lemma SubregisterInside(r: Register)
    requires WellSized(r) && r.parent != null && FitsParent(r) && r.offset == Relative(r)
    ensures r.parent.offset <= Emitted(r) && Emitted(r) + Bytes(r) <= r.parent.offset + Bytes(r.parent)
    ensures Emitted(r) == r.parent.offset + r.bitSize / 8 * r.parentElement
  {
    WholeBytes(r);
    EightfoldProduct(Bytes(r), r.parentElement, r.bitSize);
  }

  lemma EightfoldProduct(b: nat, e: nat, bits: nat)
    requires bits == 8 * b
    ensures bits * e == 8 * (b * e) && bits * e / 8 == b * e
  {
    assert bits * e == 8 * (b * e);
  }

  /** Elements of one size in one parent do not overlap. */
  lemma ElementsDisjoint(r: Register, other: Register)
    requires WellSized(r) && r.parent != null && r.parent == other.parent && r.bitSize == other.bitSize
    requires r.offset == Relative(r) && other.offset == Relative(other) && r.parentElement < other.parentElement
    ensures Emitted(r) + Bytes(r) <= Emitted(other)
  {
    WholeBytes(r);
    EightfoldProduct(Bytes(r), r.parentElement, r.bitSize);
    EightfoldProduct(Bytes(r), other.parentElement, r.bitSize);
    Monotone(Bytes(r), r.parentElement + 1, other.parentElement);
  }

  lemma Monotone(b: nat, e: nat, f: nat)
    requires e <= f
    ensures b * e <= b * f && b * e == b * (e - 1) + b
  {
  }

  // ---------------------------------------------------------------------------
  // The generator
  // ---------------------------------------------------------------------------

  /** The bytes a register is emitted at. */
  function Start(r: Register): nat
    reads r, if r.parent == null then {} else {r.parent}
  {
    if r.parent == null then r.offset else Emitted(r)
  }

  function Root(r: Register): Register {
    if r.parent == null then r else r.parent
  }

  ghost predicate Apart(r: Register, other: Register)
    reads r, if r.parent == null then {} else {r.parent}
    reads other, if other.parent == null then {} else {other.parent}
  {
    Start(r) + Bytes(r) <= Start(other) || Start(other) + Bytes(other) <= Start(r)
  }

  ghost predicate WellFormed(r: Register) {
    WellSized(r) && FitsParent(r)
  }

  /** A register that stands by itself, or that is an element of one. */
  ghost predicate Rooted(order: seq<Register>, r: Register) {
    r in order && Root(r) in order && Root(r).parent == null
  }

  lemma InsideRoot(r: Register)
    requires WellFormed(r) && Root(r).parent == null && (r.parent != null ==> r.offset == Relative(r))
    ensures Root(r).offset <= Start(r) && Start(r) + Bytes(r) <= Root(r).offset + Bytes(Root(r))
  {
    if r.parent != null {
      SubregisterInside(r);
    }
  }

  /** A register, its parent, and so on up to one without. */
  ghost predicate IsChain(chain: seq<Register>) {
    && chain != [] && chain[|chain| - 1].parent == null
    && forall i :: 0 <= i < |chain| - 1 ==> chain[i].parent == chain[i + 1]
  }

  /** Where the first of them lies: the offsets within parents, added up. */
  ghost function Lies(chain: seq<Register>): nat
    reads chain
    decreases |chain|
  {
    if chain == [] then 0 else chain[0].offset + Lies(chain[1..])
  }

  /** The offset emitted for a subregister is where it lies exactly when its parent has no
      parent, or the parent's parent lies at the very start. */
  lemma EmittedIsExact(chain: seq<Register>)
    requires IsChain(chain) && |chain| >= 2
    ensures chain[0].parent != null && (Emitted(chain[0]) == Lies(chain) <==> chain[1].parent == null || Lies(chain[2..]) == 0)
  {
    assert chain[0].parent == chain[1];
    assert Lies(chain) == chain[0].offset + Lies(chain[1..]);
    assert chain[1..][1..] == chain[2..];
    assert Lies(chain[1..]) == chain[1].offset + Lies(chain[2..]);
    if chain[1].parent == null {
      assert |chain| == 2;
    }
  }

  /** Registers of different roots never share a byte. */
  lemma RootsApart(order: seq<Register>, r: Register, other: Register)
    requires Sized(order) && LaidOut(order) && Finalized(order)
    requires Rooted(order, r) && Rooted(order, other) && Root(r) != Root(other)
    ensures Apart(r, other)
  {
    InsideRoot(r);
    InsideRoot(other);
    Disjoint(order, Root(r), Root(other));
  }

  lemma {:induction false} FlatFrom<T>(sets: seq<seq<T>>, x: T) returns (n: nat)
    requires x in Flat(sets)
    ensures n < |sets| && x in sets[n]
    decreases |sets|
  {
    n := |sets| - 1;
    if x !in sets[n] {
      n := FlatFrom(sets[..n], x);
    }
  }

  lemma EveryoneIsFlat(sets: seq<seq<Register>>, r: Register)
    ensures r in Flat(sets) <==> r in Everyone(sets)
  {
    if r in Flat(sets) {
      var n := FlatFrom(sets, r);
      assert sets[n] in sets;
    }
    if r in Everyone(sets) {
      var s :| s in sets && r in s;
      var n :| 0 <= n < |sets| && sets[n] == s;
      FlatHas(sets, n);
    }
  }

  lemma FinalizedBoth(done: seq<Register>, regs: seq<Register>)
    requires Finalized(done) && Finalized(regs)
    ensures Finalized(done + regs)
  {
  }

  method FinalizeAll(sets: seq<seq<Register>>) returns (ok: bool)
    modifies Everyone(sets)`offset
    ensures ok <==> forall r <- Everyone(sets) :: WellFormed(r)
    ensures ok ==> Finalized(Flat(sets))
  {
    for n := 0 to |sets|
      invariant Finalized(Flat(sets[..n]))
    {
      assert forall r <- sets[n] :: sets[n] in sets && r in Everyone(sets);
      ok := FinalizeNext(sets[n], Flat(sets[..n]), Everyone(sets));
      if !ok {
        return false;
      }
      FlatOneMore(sets, n);
    }
    assert sets[..|sets|] == sets;
    forall r | r in Everyone(sets) ensures WellFormed(r) {
      EveryoneIsFlat(sets, r);
    }
    return true;
  }

  /** One set more, those before it as they were. */
  method FinalizeNext(regs: seq<Register>, ghost done: seq<Register>, ghost all: set<Register>) returns (ok: bool)
    requires Finalized(done) && forall r <- regs :: r in all
    modifies all`offset
    ensures ok ==> Finalized(done + regs)
    ensures !ok ==> exists r <- regs :: !WellFormed(r)
  {
    ok := Finalize(regs);
    if ok {
      forall r <- done ensures r.parent != null ==> r.offset == Relative(r) {
        if r in regs {}
      }
      FinalizedBoth(done, regs);
    }
  }

  lemma AllSized(order: seq<Register>)
    requires Finalized(order)
    ensures Sized(order)
  {
    forall r <- order ensures Bytes(r) >= 1 {
      WholeBytes(r);
    }
  }

  /** The two passes over finalized sets. */
  method Compute(sets: seq<seq<Register>>)
    requires Finalized(Flat(sets))
    modifies Everyone(sets)`offset, Everyone(sets)`number
    ensures Sized(Flat(sets)) && Numbered(Flat(sets)) && LaidOut(Flat(sets)) && Finalized(Flat(sets))
  {
    ghost var order := Flat(sets);
    forall r <- order ensures r in Everyone(sets) {
      EveryoneIsFlat(sets, r);
    }
    AllSized(order);
    AssignLLDBIndexes(sets);
    assert Finalized(order);
    ComputeLLDBOffsets(sets);
    assert Numbered(order);
    assert Finalized(order);
  }

  /** Sets listed from others that are finalized. */
  lemma ListedAreFinalized(all: seq<seq<Register>>, sets: seq<seq<Register>>)
    requires Everyone(sets) <= Everyone(all) && Finalized(Flat(all))
    ensures Finalized(Flat(sets))
  {
    forall r <- Flat(sets) ensures r in Flat(all) {
      EveryoneIsFlat(sets, r);
      EveryoneIsFlat(all, r);
    }
  }

  /** The last two passes, over sets that are finalized: looking up an index gives the
      register of that number exactly when none is listed twice, every register lies in
      its root, and roots lie apart. */
  method LayOut(sets: seq<seq<Register>>)
    requires Finalized(Flat(sets))
    modifies Everyone(sets)`offset, Everyone(sets)`number
    ensures Distinct(Flat(sets)) <==>
      forall i: nat, found {:trigger Answers(sets, i, found)} ::
        i < |Flat(sets)| && Answers(sets, i, found) ==> found.value.register.number == i
    ensures forall r :: Rooted(Flat(sets), r) ==>
      Root(r).offset <= Start(r) && Start(r) + Bytes(r) <= Root(r).offset + Bytes(Root(r))
    ensures forall r, other :: Rooted(Flat(sets), r) && Rooted(Flat(sets), other) && Root(r) != Root(other) ==>
      Apart(r, other)
  {
    Compute(sets);
    LookupInverts(sets);
    forall r | Rooted(Flat(sets), r)
      ensures Root(r).offset <= Start(r) && Start(r) + Bytes(r) <= Root(r).offset + Bytes(Root(r))
    {
      InsideRoot(r);
    }
    forall r, other | Rooted(Flat(sets), r) && Rooted(Flat(sets), other) && Root(r) != Root(other)
      ensures Apart(r, other)
    {
      RootsApart(Flat(sets), r, other);
    }
  }

  /** The whole run: `all` are the register sets, `sets` those listed for LLDB. It stops if
      a register is badly sized or does not fit its parent. Otherwise all registers are
      named apart, and the listed ones numbered and laid out as above. */
  method Generate(all: seq<seq<Register>>, sets: seq<seq<Register>>) returns (ok: bool, ghost cnames: seq<string>)
    requires Distinct(Flat(all)) && Everyone(sets) <= Everyone(all)
    modifies Everyone(all)`offset, Everyone(all)`number, Everyone(all)`cname
    ensures ok <==> forall r <- Everyone(all) :: WellFormed(r)
    ensures ok ==> NamedAs(NamesOf(Flat(all)), cnames) && |cnames| == |Flat(all)|
    ensures ok ==> forall i :: 0 <= i < |cnames| ==> Flat(all)[i].cname == cnames[i]
    ensures ok ==> (Distinct(Flat(sets)) <==>
      forall i: nat, found {:trigger Answers(sets, i, found)} ::
        i < |Flat(sets)| && Answers(sets, i, found) ==> found.value.register.number == i)
    ensures ok ==> forall r :: Rooted(Flat(sets), r) ==>
      Root(r).offset <= Start(r) && Start(r) + Bytes(r) <= Root(r).offset + Bytes(Root(r))
    ensures ok ==> forall r, other :: Rooted(Flat(sets), r) && Rooted(Flat(sets), other) && Root(r) != Root(other) ==>
      Apart(r, other)
  {
    cnames := [];
    ok := FinalizeAll(all);
    if ok {
      forall r <- Flat(all) ensures r in Everyone(all) {
        EveryoneIsFlat(all, r);
      }
      cnames := AssignCNames(Flat(all));
      ListedAreFinalized(all, sets);
      ghost var regs := Flat(all);
      assert forall i :: 0 <= i < |regs| ==> regs[i] in Everyone(all);
      LayOut(sets);
    }
  }
}
