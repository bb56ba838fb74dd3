/** The command table: registration keeps it sorted, and a binary search with a
    comparator that mixes exact and prefix matching looks commands up in it. */
module Interpreter {
  import opened Common
  import opened Bytes
  import opened Transport

  // ---------------------------------------------------------------------------
  // Comparing strings
  // ---------------------------------------------------------------------------

  /** The first index at or after `i` where a and b part, or where one ends. */
  function Diff(a: Bytes, b: Bytes, i: nat): (d: nat)
    requires i <= |a| && i <= |b|
    ensures i <= d <= |a| && d <= |b|
    ensures forall k :: i <= k < d ==> a[k] == b[k]
    ensures d < |a| && d < |b| ==> a[d] != b[d]
    decreases |a| - i
  {
    if i == |a| || i == |b| || a[i] != b[i] then i else Diff(a, b, i + 1)
  }

  /** std::string::compare: by the first byte that differs, then by length. */
  function Compare(a: Bytes, b: Bytes): int {
    var d := Diff(a, b, 0);
    if d == |a| && d == |b| then 0
    else if d == |a| then -1
    else if d == |b| then 1
    else a[d] as int - b[d] as int
  }

  predicate Less(a: Bytes, b: Bytes) {
    Compare(a, b) < 0
  }

  /** The order of the dictionary: by the first place where they differ, an end before
      anything else. */
  lemma LessIs(a: Bytes, b: Bytes)
    ensures Less(a, b) <==> exists d :: 0 <= d <= |a| && d < |b| && a[..d] == b[..d] && (d == |a| || a[d] as int < b[d] as int)
  {
    var d := Diff(a, b, 0);
    if Less(a, b) {
      assert a[..d] == b[..d];
    }
    if e :| 0 <= e <= |a| && e < |b| && a[..e] == b[..e] && (e == |a| || a[e] as int < b[e] as int) {
      assert forall k :: 0 <= k < e ==> a[..e][k] == b[..e][k];
      DiffIs(a, b, e);
    }
  }

  lemma CompareZero(a: Bytes, b: Bytes)
    ensures Compare(a, b) == 0 <==> a == b
  {
  }

  lemma CompareFlips(a: Bytes, b: Bytes)
    ensures Less(a, b) <==> Compare(b, a) > 0
  {
    DiffIs(b, a, Diff(a, b, 0));
  }

  /** The point of difference is determined by what it is. */
  lemma DiffIs(a: Bytes, b: Bytes, d: nat)
    requires d <= |a| && d <= |b| && (forall k :: 0 <= k < d ==> a[k] == b[k])
    requires d < |a| && d < |b| ==> a[d] != b[d]
    ensures Diff(a, b, 0) == d
  {
  }

  lemma LessTransitive(a: Bytes, b: Bytes, c: Bytes)
    requires Less(a, b) && Less(b, c)
    ensures Less(a, c)
  {
    var d, e := Diff(a, b, 0), Diff(b, c, 0);
    DiffIs(a, c, if d < e then d else e);
  }

  predicate IsPrefix(p: Bytes, s: Bytes) {
    |p| <= |s| && forall k :: 0 <= k < |p| ==> p[k] == s[k]
  }

  /** What sorts strictly between a prefix of c and c itself starts with that prefix. */
  lemma BetweenExtends(p: Bytes, b: Bytes, c: Bytes)
    requires IsPrefix(p, c) && Less(p, b) && Less(b, c)
    ensures IsPrefix(p, b)
  {
    var d, e := Diff(p, b, 0), Diff(b, c, 0);
  }

  // ---------------------------------------------------------------------------
  // Handlers
  // ---------------------------------------------------------------------------

  datatype Mode = Equals | StartsWith

  /** `target` and `callback` are addresses; 0 stands for null. */
  datatype Handler = Handler(mode: Mode, command: Bytes, target: nat, callback: nat)

  type Table = seq<Handler>

  /** What it means for a handler to accept a command. */
  predicate Matches(h: Handler, command: Bytes) {
    match h.mode
    case Equals => h.command == command
    case StartsWith => IsPrefix(h.command, command)
  }

  function CompareHandler(h: Handler, command: Bytes): int {
    match h.mode
    case Equals => Compare(h.command, command)
    case StartsWith =>
      var n := if |command| < |h.command| then |command| else |h.command|;
      Compare(h.command, command[..n])
  }

  /** The comparator finds a match exactly when there is one, and otherwise orders
      the handler as its whole command orders. */
  lemma CompareHandlerMeans(h: Handler, command: Bytes)
    ensures CompareHandler(h, command) == 0 <==> Matches(h, command)
    ensures CompareHandler(h, command) < 0 <==> Less(h.command, command) && !Matches(h, command)
  {
    if h.mode == StartsWith {
      var n := if |command| < |h.command| then |command| else |h.command|;
      var cut := command[..n];
      var d := Diff(h.command, command, 0);
      DiffIs(h.command, cut, d);
    }
  }

  ghost predicate Sorted(t: Table) {
    forall i, j :: 0 <= i < j < |t| ==> !Less(t[j].command, t[i].command)
  }

  /** Some command is accepted by both. */
  predicate Overlap(a: Handler, b: Handler) {
    || a.command == b.command
    || (a.mode == StartsWith && IsPrefix(a.command, b.command))
    || (b.mode == StartsWith && IsPrefix(b.command, a.command))
  }

  lemma OverlapIsShared(a: Handler, b: Handler)
    ensures Overlap(a, b) <==> exists command :: Matches(a, command) && Matches(b, command)
  {
    if Overlap(a, b) {
      var command := if a.mode == StartsWith && IsPrefix(a.command, b.command) then b.command else a.command;
      assert Matches(a, command) && Matches(b, command);
    }
  }

  /** No command is accepted by two handlers. */
  predicate Unambiguous(t: Table) {
    forall i, j :: 0 <= i < j < |t| ==> !Overlap(t[i], t[j])
  }

  // ---------------------------------------------------------------------------
  // Lookup
  // ---------------------------------------------------------------------------

  /** One probe of std::lower_bound: the range left of t[first..first + count]. */
  function Halve(t: Table, command: Bytes, first: nat, count: nat): (r: (nat, nat))
    requires 0 < count && first + count <= |t|
    ensures first <= r.0 && r.0 + r.1 <= first + count && r.1 < count
  {
    var step := count / 2;
    if CompareHandler(t[first + step], command) < 0
    then (first + step + 1, count - step - 1)
    else (first, step)
  }

  /** std::lower_bound over t[first..first + count]. */
  function LowerBound(t: Table, command: Bytes, first: nat, count: nat): (i: nat)
    requires first + count <= |t|
    ensures first <= i <= first + count
    decreases count
  {
    if count == 0 then first
    else LowerBound(t, command, Halve(t, command, first, count).0, Halve(t, command, first, count).1)
  }

  function Find(t: Table, command: Bytes): (r: Option<nat>)
    ensures r.Some? ==> r.value < |t|
  {
    var i := LowerBound(t, command, 0, |t|);
    if i < |t| && CompareHandler(t[i], command) == 0 then Some(i) else None
  }

  predicate Below(h: Handler, command: Bytes) {
    CompareHandler(h, command) < 0
  }

  /** In a sorted, unambiguous table the comparator splits the handlers into those
      below the command and the rest. */
  lemma Partitioned(t: Table, command: Bytes, i: nat, j: nat)
    requires Sorted(t) && Unambiguous(t) && i < j < |t|
    ensures Below(t[j], command) ==> Below(t[i], command)
  {
    if Below(t[j], command) {
      var a, b := t[i], t[j];
      CompareHandlerMeans(a, command);
      CompareHandlerMeans(b, command);
      CompareFlips(a.command, b.command);
      CompareFlips(b.command, a.command);
      CompareZero(a.command, b.command);
      assert Less(a.command, b.command);
      LessTransitive(a.command, b.command, command);
      if Matches(a, command) {
        CompareZero(a.command, command);
        BetweenExtends(a.command, b.command, command);
        assert Overlap(a, b);
      }
    }
  }

  predicate SplitBetween(t: Table, command: Bytes, lo: nat, hi: nat) {
    && lo <= hi <= |t|
    && (forall k :: 0 <= k < lo ==> Below(t[k], command))
    && (forall k :: hi <= k < |t| ==> !Below(t[k], command))
  }

  lemma AllBelow(t: Table, command: Bytes, mid: nat)
    requires Sorted(t) && Unambiguous(t) && mid < |t| && Below(t[mid], command)
    ensures forall k :: 0 <= k <= mid ==> Below(t[k], command)
  {
    forall k | 0 <= k < mid ensures Below(t[k], command) {
      Partitioned(t, command, k, mid);
    }
  }

  lemma NoneBelow(t: Table, command: Bytes, mid: nat)
    requires Sorted(t) && Unambiguous(t) && mid < |t| && !Below(t[mid], command)
    ensures forall k :: mid <= k < |t| ==> !Below(t[k], command)
  {
    forall k | mid < k < |t| ensures !Below(t[k], command) {
      Partitioned(t, command, mid, k);
    }
  }

  lemma HalveNarrows(t: Table, command: Bytes, first: nat, count: nat)
    requires Sorted(t) && Unambiguous(t) && 0 < count && SplitBetween(t, command, first, first + count)
    ensures var h := Halve(t, command, first, count); SplitBetween(t, command, h.0, h.0 + h.1)
  {
    var mid := first + count / 2;
    if Below(t[mid], command) {
      AllBelow(t, command, mid);
    } else {
      NoneBelow(t, command, mid);
    }
  }

  lemma {:induction false} LowerBoundSplits(t: Table, command: Bytes, first: nat, count: nat)
    requires Sorted(t) && Unambiguous(t) && SplitBetween(t, command, first, first + count)
    ensures var i := LowerBound(t, command, first, count); SplitBetween(t, command, i, i)
    decreases count
  {
    if count > 0 {
      HalveNarrows(t, command, first, count);
      var h := Halve(t, command, first, count);
      LowerBoundSplits(t, command, h.0, h.1);
    }
  }

  /** The binary search finds the one handler that accepts the command, and finds
      none only when none does. */
  lemma FindIsScan(t: Table, command: Bytes)
    requires Sorted(t) && Unambiguous(t)
    ensures match Find(t, command)
            case Some(i) => forall k :: 0 <= k < |t| ==> (Matches(t[k], command) <==> k == i)
            case None => forall k :: 0 <= k < |t| ==> !Matches(t[k], command)
  {
    LowerBoundSplits(t, command, 0, |t|);
    var i := LowerBound(t, command, 0, |t|);
    forall k | 0 <= k < |t|
      ensures Matches(t[k], command) <==> CompareHandler(t[k], command) == 0
      ensures Matches(t[k], command) ==> k == i
    {
      CompareHandlerMeans(t[k], command);
      if Matches(t[k], command) && k != i {
        NothingBefore(t, command, i, k);
      }
    }
  }

  /** The handler at the split accepts the command if any later one does. */
  lemma NothingBefore(t: Table, command: Bytes, i: nat, k: nat)
    requires Sorted(t) && Unambiguous(t) && i <= k < |t|
    requires !Below(t[i], command) && Matches(t[k], command)
    ensures i == k
  {
    if i < k {
      var a, b := t[i], t[k];
      CompareHandlerMeans(a, command);
      CompareFlips(a.command, b.command);
      CompareFlips(b.command, a.command);
      CompareZero(a.command, b.command);
      assert Less(a.command, b.command);
      if Matches(a, command) {
        OverlapIsShared(a, b);
      } else {
        CompareZero(b.command, command);
        if b.command != command {
          PrefixNotAbove(b.command, command);
          LessTransitive(a.command, b.command, command);
        }
      }
    }
  }

  lemma PrefixNotAbove(p: Bytes, s: Bytes)
    requires IsPrefix(p, s) && p != s
    ensures Less(p, s)
  {
    DiffIs(p, s, |p|);
  }

  // ---------------------------------------------------------------------------
  // Registration
  // ---------------------------------------------------------------------------

  /** Where a handler goes in a sorted table: before the first greater command. */
  function Position(t: Table, h: Handler, i: nat): (p: nat)
    requires i <= |t|
    ensures i <= p <= |t|
    ensures forall k :: i <= k < p ==> !Less(h.command, t[k].command)
    ensures p < |t| ==> Less(h.command, t[p].command)
    decreases |t| - i
  {
    if i == |t| || Less(h.command, t[i].command) then i else Position(t, h, i + 1)
  }

  function Insert(t: Table, h: Handler): Table {
    var p := Position(t, h, 0);
    t[..p] + [h] + t[p..]
  }

  /** std::sort by command. */
  function Sort(t: Table): Table {
    if t == [] then [] else Insert(Sort(t[..|t| - 1]), t[|t| - 1])
  }

  lemma InsertSorted(t: Table, h: Handler)
    requires Sorted(t)
    ensures Sorted(Insert(t, h))
  {
    var p, r := Position(t, h, 0), Insert(t, h);
    assert forall i :: 0 <= i < |r| ==> r[i] == if i < p then t[i] else if i == p then h else t[i - 1];
    forall i, j | 0 <= i < j < |r|
      ensures !Less(r[j].command, r[i].command)
    {
      if i == p {
        NotAbove(h.command, t[p].command, t[j - 1].command, p == j - 1);
      }
    }
  }

  lemma InsertPermutes(t: Table, h: Handler)
    ensures multiset(Insert(t, h)) == multiset(t) + multiset{h}
  {
    var p := Position(t, h, 0);
    assert t == t[..p] + t[p..];
  }

  lemma NotAbove(a: Bytes, b: Bytes, c: Bytes, same: bool)
    requires Less(a, b) && if same then b == c else !Less(c, b)
    ensures !Less(c, a)
  {
    if Less(c, a) { LessTransitive(c, a, b); CompareFlips(b, c); CompareFlips(c, b); }
  }

  lemma {:induction false} SortPermutes(t: Table)
    ensures multiset(Sort(t)) == multiset(t)
  {
    if t != [] {
      var init, last := t[..|t| - 1], t[|t| - 1];
      SortPermutes(init);
      assert t == init + [last];
      InsertedLast(t, init, last, Sort(init));
    }
  }

  lemma InsertedLast(t: Table, init: Table, last: Handler, sorted: Table)
    requires t == init + [last] && multiset(sorted) == multiset(init)
    ensures multiset(Insert(sorted, last)) == multiset(t)
  {
    InsertPermutes(sorted, last);
  }

  lemma {:induction false} SortSorts(t: Table)
    ensures Sorted(Sort(t)) && multiset(Sort(t)) == multiset(t)
  {
    SortPermutes(t);
    if t != [] {
      SortSorts(t[..|t| - 1]);
      InsertSorted(Sort(t[..|t| - 1]), t[|t| - 1]);
    }
  }

  function Register(t: Table, h: Handler): (r: (Table, bool)) {
    if h.command == [] || h.target == 0 || h.callback == 0 then (t, false)
    else if Find(t, h.command).Some? then (t, false)
    else (Sort(t + [h]), true)
  }

  /** Accepted exactly when it has a command, a target and a callback and nothing in the
      table takes that command yet; then it is in the table and nothing else changed. */
  lemma RegisterMeans(t: Table, h: Handler)
    requires Sorted(t) && Unambiguous(t)
    ensures var (table, ok) := Register(t, h);
            && (ok <==> |h.command| > 0 && h.target != 0 && h.callback != 0 && forall k <- t :: !Matches(k, h.command))
            && multiset(table) == (if ok then multiset(t) + multiset{h} else multiset(t))
            && (ok ==> Sorted(table)) && (!ok ==> table == t)
  {
    FindIsScan(t, h.command);
    SortSorts(t + [h]);
    assert forall k <- t :: exists i :: 0 <= i < |t| && t[i] == k;
  }

  /** A prefix handler registered after a longer command it is a prefix of would
      take that command over. */
  predicate Shadows(t: Table, h: Handler) {
    h.mode == StartsWith && exists e <- t :: IsPrefix(h.command, e.command)
  }

  /** An accepted registration leaves a sound table sound exactly when it shadows
      nothing. */
  lemma RegisterKeeps(t: Table, h: Handler)
    requires Sorted(t) && Unambiguous(t) && Register(t, h).1
    ensures Sorted(Register(t, h).0) && multiset(Register(t, h).0) == multiset(t) + multiset{h}
    ensures Unambiguous(Register(t, h).0) <==> !Shadows(t, h)
  {
    var pushed := t + [h];
    SortSorts(pushed);
    UnambiguousPermutation(pushed, Sort(pushed));
    FindIsScan(t, h.command);
    forall k | 0 <= k < |t|
      ensures Overlap(t[k], h) <==> h.mode == StartsWith && IsPrefix(h.command, t[k].command)
    {
      assert !Matches(t[k], h.command);
    }
    if Unambiguous(pushed) {
      forall e | e in t
        ensures !(h.mode == StartsWith && IsPrefix(h.command, e.command))
      {
        var k :| 0 <= k < |t| && t[k] == e;
        assert !Overlap(pushed[k], pushed[|t|]);
      }
    } else {
      var i, j :| 0 <= i < j < |pushed| && Overlap(pushed[i], pushed[j]);
      assert j == |t| && pushed[i] == t[i] && t[i] in t;
    }
  }

  /** Ambiguity is a matter of which handlers there are, not of their order. */
  predicate MultisetUnambiguous(m: multiset<Handler>) {
    forall a, b | a in m && b in m :: (if a == b then m[a] == 1 else !Overlap(a, b))
  }

  lemma UnambiguousMultiset(t: Table)
    ensures Unambiguous(t) <==> MultisetUnambiguous(multiset(t))
  {
    var m := multiset(t);
    if Unambiguous(t) {
      forall a, b | a in m && b in m
        ensures if a == b then m[a] == 1 else !Overlap(a, b)
      {
        var i :| 0 <= i < |t| && t[i] == a;
        if a == b {
          if m[a] > 1 {
            var j := SecondIndex(t, i);
            assert Overlap(t[i], t[j]) && Overlap(t[j], t[i]);
          }
        } else {
          var j :| 0 <= j < |t| && t[j] == b;
        }
      }
    } else {
      var i, j :| 0 <= i < j < |t| && Overlap(t[i], t[j]);
      assert t[i] in m && t[j] in m;
      if t[i] == t[j] {
        assert t == t[..j] + [t[j]] + t[j + 1..];
        assert t[i] in t[..j];
      }
    }
  }

  lemma SecondIndex(t: Table, i: nat) returns (j: nat)
    requires i < |t| && multiset(t)[t[i]] > 1
    ensures j < |t| && j != i && t[j] == t[i]
  {
    var rest := t[..i] + t[i + 1..];
    assert t == t[..i] + [t[i]] + t[i + 1..];
    assert multiset(rest)[t[i]] == multiset(t)[t[i]] - 1;
    assert t[i] in rest;
    var k :| 0 <= k < |rest| && rest[k] == t[i];
    j := if k < i then k else k + 1;
  }

  lemma UnambiguousPermutation(t: Table, u: Table)
    requires multiset(t) == multiset(u)
    ensures Unambiguous(t) <==> Unambiguous(u)
  {
    UnambiguousMultiset(t);
    UnambiguousMultiset(u);
  }

  // ---------------------------------------------------------------------------
  // Any sequence of registrations
  // ---------------------------------------------------------------------------

  /** The table after registering these handlers in turn. */
  function RegisterAll(hs: seq<Handler>): Table {
    if hs == [] then [] else Register(RegisterAll(hs[..|hs| - 1]), hs[|hs| - 1]).0
  }

  /** No accepted registration shadowed a command already there. */
  predicate NeverShadows(hs: seq<Handler>) {
    hs == [] ||
    var t, h := RegisterAll(hs[..|hs| - 1]), hs[|hs| - 1];
    NeverShadows(hs[..|hs| - 1]) && (Register(t, h).1 ==> !Shadows(t, h))
  }

  /** Whatever is registered, the table stays sorted; and every command has at most
      one handler, the one the binary search finds, exactly when no accepted
      prefix handler was a prefix of a command registered before it. */
  lemma {:induction false} RegistrationSound(hs: seq<Handler>)
    ensures Sorted(RegisterAll(hs))
    ensures Unambiguous(RegisterAll(hs)) <==> NeverShadows(hs)
  {
    if hs != [] {
      var init, h := hs[..|hs| - 1], hs[|hs| - 1];
      var t := RegisterAll(init);
      RegistrationSound(init);
      if Register(t, h).1 {
        if Unambiguous(t) {
          RegisterKeeps(t, h);
        } else {
          AmbiguityStays(t, h);
        }
      }
    }
  }

  lemma AmbiguityStays(t: Table, h: Handler)
    requires !Unambiguous(t)
    ensures Sorted(Sort(t + [h])) && !Unambiguous(Sort(t + [h]))
  {
    var pushed := t + [h];
    SortSorts(pushed);
    UnambiguousPermutation(pushed, Sort(pushed));
    var i, j :| 0 <= i < j < |t| && Overlap(t[i], t[j]);
    assert pushed[i] == t[i] && pushed[j] == t[j];
  }

  lemma SortOne(a: Handler)
    ensures Sort([a]) == [a]
  {
    assert [a][..0] == [] && Insert([], a) == [a];
  }

  lemma SortTwo(a: Handler, b: Handler)
    ensures Sort([a, b]) == Insert([a], b)
  {
    assert [a, b][..1] == [a];
    SortOne(a);
  }

  lemma RegisterOne(h: Handler)
    requires h.command != [] && h.target != 0 && h.callback != 0
    ensures RegisterAll([h]) == [h]
  {
    assert [h][..0] == [] && [] + [h] == [h];
    assert Find([], h.command) == None;
    SortOne(h);
  }

  /** Registering "ab" and then everything starting with "a" sends the command
      "ab" to the second handler. */
  lemma ShadowedCommand()
    ensures var exact, prefix := Handler(Equals, "ab", 1, 1), Handler(StartsWith, "a", 2, 2);
            var t := RegisterAll([exact, prefix]);
            t == [prefix, exact] && Matches(exact, "ab") && Find(t, "ab") == Some(0)
  {
    var exact, prefix := Handler(Equals, "ab", 1, 1), Handler(StartsWith, "a", 2, 2);
    var hs := [exact, prefix];
    assert hs[..1] == [exact];
    RegisterOne(exact);
    DiffIs("ab", "a", 1);
    DiffIs("a", "ab", 1);
    assert CompareHandler(exact, "a") > 0;
    assert Find([exact], "a") == None;
    assert [exact] + [prefix] == hs;
    SortTwo(exact, prefix);
    assert Position([exact], prefix, 0) == 0;
    var t := [prefix, exact];
    assert Insert([exact], prefix) == t;
    CompareHandlerMeans(exact, "ab");
    CompareHandlerMeans(prefix, "ab");
    assert LowerBound(t, "ab", 0, 1) == 0;
    assert LowerBound(t, "ab", 0, 2) == 0;
  }

  // ---------------------------------------------------------------------------
  // From a packet to a handler call
  // ---------------------------------------------------------------------------

  /** Index of the first separator, or |data|. */
  function FindFirstOf(data: Bytes, separators: set<byte>, from: nat): (i: nat)
    requires from <= |data|
    ensures from <= i <= |data|
    ensures forall k :: from <= k < i ==> data[k] !in separators
    ensures i < |data| ==> data[i] in separators
    decreases |data| - from
  {
    if from == |data| || data[from] in separators then from else FindFirstOf(data, separators, from + 1)
  }

  /** Where the command ends and where its arguments start. Reading data[0] of an
      empty packet yields the terminating NUL, which is none of the letters. */
  function CommandEnd(data: Bytes): (r: (nat, nat))
    ensures r.0 <= r.1 <= |data| && r.1 <= r.0 + 1
  {
    if data == [] then (0, 0)
    else if data[0] == 'v' || data[0] == 'q' || data[0] == 'Q' then
      var end := FindFirstOf(data, {',', ':', ';'}, 0);
      (end, if end < |data| then end + 1 else end)
    else if data[0] == 'b' then
      if |data| == 2 && (data[1] == 'c' || data[1] == 's') then (2, 2) else (1, 1)
    else if data[0] == '_' then
      if |data| > 1 && (data[1] == 'M' || data[1] == 'm') then (2, 2) else (1, 1)
    else if data[0] == 'j' then
      var end := FindFirstOf(data, {':'}, 0);
      (end, if end < |data| then end + 1 else end)
    else (1, 1)
  }

  datatype Action =
    | Ack
    | Nak
    | Refused
    | Unsupported
    | Call(handler: Handler, args: Bytes)
    | PastTheEnd  // unescaping would read beyond the arguments

  function CallWith(h: Handler, extra: Bytes): Action {
    if FindFirstOf(extra, {'*', '}'}, 0) == |extra| then Call(h, extra)
    else if EscapesComplete(extra) then Call(h, Unescaped(extra))
    else PastTheEnd
  }

  function OnCommand(t: Table, command: Bytes, args: Bytes): Action {
    match Find(t, command)
    case None => Unsupported
    case Some(i) =>
      var n := if |t[i].command| <= |command| then |t[i].command| else |command|;
      CallWith(t[i], command[n..] + args)
  }

  /** `proceed` is the session's answer to being told of the command. */
  function OnPacketData(t: Table, data: Bytes, valid: bool, proceed: bool): Action {
    if data == ['+'] then Ack
    else if data == ['-'] then Nak
    else if !proceed || !valid then Refused
    else
      var (end, args) := CommandEnd(data);
      OnCommand(t, data[..end], data[args..])
  }

  /** A handler is called exactly when one accepts the command part of the packet,
      and then it is that one; it gets all of the packet but its own command and
      at most one separator, with escapes undone. */
  lemma DispatchMeans(t: Table, data: Bytes)
    requires Sorted(t) && Unambiguous(t) && data != ['+'] && data != ['-']
    ensures var (end, args) := CommandEnd(data);
            match OnPacketData(t, data, true, true)
            case Call(h, text) =>
              && h in t && Matches(h, data[..end]) && IsPrefix(h.command, data[..end])
              && var extra := data[|h.command|..end] + data[args..];
              EscapesComplete(extra) && text == Unescaped(extra)
            case Unsupported => forall h <- t :: !Matches(h, data[..end])
            case PastTheEnd =>
              exists h <- t :: Matches(h, data[..end]) && IsPrefix(h.command, data[..end])
                            && !EscapesComplete(data[|h.command|..end] + data[args..])
            case _ => false
  {
    var (end, args) := CommandEnd(data);
    var command := data[..end];
    FindIsScan(t, command);
    match Find(t, command) {
      case None =>
      case Some(i) =>
        var h := t[i];
        assert Matches(h, command);
        var extra := data[|h.command|..end] + data[args..];
        assert command[|h.command|..] == data[|h.command|..end];
        CallWithMeans(h, extra);
    }
  }

  lemma CallWithMeans(h: Handler, extra: Bytes)
    ensures CallWith(h, extra) == if EscapesComplete(extra) then Call(h, Unescaped(extra)) else PastTheEnd
  {
    if FindFirstOf(extra, {'*', '}'}, 0) == |extra| {
      UnescapedPlain(extra);
    }
  }

  lemma UnescapedPlain(data: Bytes)
    requires Lacks(data, '}', 0, |data|)
    ensures EscapesComplete(data) && Unescaped(data) == data
  {
    PlainComplete(data, 0);
    UnescapedRun([], data, 0, |data|);
    assert [] + data[0..|data|] + [] == data;
    assert [] + Unescaped(data) == Unescaped(data);
  }

  lemma {:induction false} PlainComplete(data: Bytes, i: nat)
    requires i <= |data| && Lacks(data, '}', i, |data|)
    ensures CompleteFrom(data, i)
    decreases |data| - i
  {
    if i < |data| {
      PlainComplete(data, i + 1);
    }
  }

  /** Whatever the command and however it is told from its arguments: if what follows
      the handler's command is the escaped form of a text, the handler gets that text. */
  lemma EscapedArgumentsArrive(t: Table, h: Handler, data: Bytes, text: Bytes)
    requires Sorted(t) && Unambiguous(t) && h in t && data != ['+'] && data != ['-']
    requires var (end, args) := CommandEnd(data);
             && Matches(h, data[..end]) && IsPrefix(h.command, data[..end])
             && data[|h.command|..end] + data[args..] == Escaped(text)
    ensures OnPacketData(t, data, true, true) == Call(h, text)
  {
    var (end, args) := CommandEnd(data);
    FindIsScan(t, data[..end]);
    var k :| 0 <= k < |t| && t[k] == h;
    RoundTrip(text);
    assert data[..end][|h.command|..] == data[|h.command|..end];
    CallWithMeans(h, Escaped(text));
  }

  // ---------------------------------------------------------------------------
  // The interpreter object
  // ---------------------------------------------------------------------------

  lemma HalveOnce(t: Table, command: Bytes, first: nat, count: nat, half: (nat, nat))
    requires 0 < count && first + count <= |t| && half == Halve(t, command, first, count)
    ensures LowerBound(t, command, first, count) == LowerBound(t, command, half.0, half.1)
  {
  }

  /** One turn of the loop. */
  method HalveRange(t: Table, command: Bytes, first: nat, count: nat) returns (next: nat, left: nat)
    requires 0 < count && first + count <= |t|
    ensures (next, left) == Halve(t, command, first, count)
  {
    var step := count / 2;
    if CompareHandler(t[first + step], command) < 0 {
      return first + step + 1, count - step - 1;
    }
    return first, step;
  }

  /** The halving loop of lower_bound. */
  method SearchLowerBound(t: Table, command: Bytes) returns (first: nat)
    ensures first == LowerBound(t, command, 0, |t|)
  {
    first := 0;
    var count: nat := |t|;
    while count > 0
      invariant first + count <= |t|
      invariant LowerBound(t, command, first, count) == LowerBound(t, command, 0, |t|)
    {
      var next, left := HalveRange(t, command, first, count);
      HalveOnce(t, command, first, count, (next, left));
      first, count := next, left;
    }
  }

  class ProtocolInterpreter {
    var handlers: Table

    constructor ()
      ensures handlers == []
    {
      handlers := [];
    }

    method FindHandler(command: Bytes) returns (index: Option<nat>, commandLength: nat)
      ensures index == Find(handlers, command)
      ensures index.Some? ==> commandLength == |handlers[index.value].command|
    {
      var i := SearchLowerBound(handlers, command);
      index, commandLength := None, 0;
      if i != |handlers| && CompareHandler(handlers[i], command) == 0 {
        index, commandLength := Some(i), |handlers[i].command|;
      }
    }

    method RegisterHandler(h: Handler) returns (ok: bool)
      modifies this
      ensures (handlers, ok) == Register(old(handlers), h)
    {
      if h.command == [] || h.target == 0 || h.callback == 0 {
        return false;
      }
      var found, length := FindHandler(h.command);
      if found.Some? {
        return false;
      }
      handlers := handlers + [h];
      handlers := Sort(handlers);
      return true;
    }
  }
}
