/** General registers as hexadecimal text: the `g` reply and the `G` packet. */
module RegisterText {
  import opened Bytes
  import opened Common
  import Numbers

  datatype Endian = Big | Little

  // ---------------------------------------------------------------------------
  // Swapping
  // ---------------------------------------------------------------------------

  /** 2 to the power 8, 16, 32, 64 for k = 0, 1, 2, 3. */
  function Base(k: nat): (b: nat)
    ensures b >= 2
  {
    if k == 0 then 0x100 else
      assert Base(k - 1) * Base(k - 1) >= 2 * 2;
      Base(k - 1) * Base(k - 1)
  }

  lemma Bases()
    ensures Base(1) == 0x1_0000 && Base(2) == 0x1_0000_0000 && Base(3) == U64_MAX + 1
  {
    assert Base(0) == 0x100;
    assert Base(1) == 0x100 * 0x100;
    assert Base(2) == 0x1_0000 * 0x1_0000;
    assert Base(3) == 0x1_0000_0000 * 0x1_0000_0000;
  }

  lemma Scale(a: nat, b: nat, base: nat)
    requires a < b
    ensures a * base + base <= b * base
  {
    var d := b - a - 1;
    assert b * base == (a + 1 + d) * base == a * base + base + d * base;
  }

  lemma Join(hi: nat, lo: nat, base: nat)
    requires hi < base && lo < base
    ensures hi * base + lo < base * base && (hi * base + lo) / base == hi && (hi * base + lo) % base == lo
  {
    Scale(hi, base, base);
    Quotient(hi, lo, base);
  }

  lemma Quotient(hi: nat, lo: nat, base: nat)
    requires lo < base
    ensures (hi * base + lo) / base == hi && (hi * base + lo) % base == lo
  {
    var x := hi * base + lo;
    var q := x / base;
    assert x == q * base + x % base;
    if q < hi {
      Scale(q, hi, base);
    } else if q > hi {
      Scale(hi, q, base);
    }
  }

  lemma Halves(x: nat, base: nat)
    requires base >= 1 && x < base * base
    ensures x / base < base && x % base < base && x == x / base * base + x % base
  {
    var q := x / base;
    assert x == q * base + x % base;
    if q > base - 1 {
      Scale(base - 1, q, base);
    }
  }

  /** Swap16, Swap32 and Swap64 for k = 1, 2, 3: each swaps its halves, having swapped
      within them. The halves joined by an or do not overlap, so the or is a sum. */
  function Swap(x: nat, k: nat): (y: nat)
    requires x < Base(k)
    ensures y < Base(k)
    decreases k
  {
    if k == 0 then x
    else
      var base := Base(k - 1);
      Halves(x, base);
      var hi, lo := Swap(x / base, k - 1), Swap(x % base, k - 1);
      Join(lo, hi, base);
      lo * base + hi
  }

  lemma SwapOf(hi: nat, lo: nat, k: nat)
    requires k > 0 && hi < Base(k - 1) && lo < Base(k - 1)
    ensures hi * Base(k - 1) + lo < Base(k)
    ensures Swap(hi * Base(k - 1) + lo, k) == Swap(lo, k - 1) * Base(k - 1) + Swap(hi, k - 1)
  {
    Join(hi, lo, Base(k - 1));
  }

  lemma {:induction false} SwapTwice(x: nat, k: nat)
    requires x < Base(k)
    ensures Swap(Swap(x, k), k) == x
    decreases k
  {
    if k > 0 {
      var base := Base(k - 1);
      Halves(x, base);
      var hi, lo := x / base, x % base;
      SwapOf(hi, lo, k);
      SwapOf(Swap(lo, k - 1), Swap(hi, k - 1), k);
      SwapTwice(hi, k - 1);
      SwapTwice(lo, k - 1);
    }
  }

  lemma {:induction false} SwapZero(k: nat)
    ensures Swap(0, k) == 0
    decreases k
  {
    if k > 0 {
      SwapOf(0, 0, k);
      SwapZero(k - 1);
    }
  }

  lemma SwapShifts(x: nat, k: nat)
    requires k > 0 && x < Base(k - 1)
    ensures x < Base(k) && Swap(x, k) == Swap(x, k - 1) * Base(k - 1)
  {
    SwapOf(0, x, k);
    SwapZero(k - 1);
  }

  /** Swapping in twice the width leaves the swapped value in the upper half. */
  lemma SwapUpper(x: nat, k: nat)
    requires k > 0 && x < Base(k - 1)
    ensures x < Base(k) && Swap(x, k) / Base(k - 1) == Swap(x, k - 1)
  {
    SwapShifts(x, k);
    Quotient(Swap(x, k - 1), 0, Base(k - 1));
  }

  // ---------------------------------------------------------------------------
  // One register
  // ---------------------------------------------------------------------------

  /** Sizes are in bits. */
  predicate IsRegisterSize(regsize: nat) {
    regsize == 32 || regsize == 64
  }

  function Rank(regsize: nat): nat {
    if regsize == 32 then 2 else 3
  }

  function Limit(regsize: nat): (limit: nat)
    ensures limit >= 2
  {
    Base(Rank(regsize))
  }

  /** A 64-bit swap shifted right by 64 - regsize. */
  function SwapTop(value: nat, regsize: nat): nat
    requires value <= U64_MAX && IsRegisterSize(regsize)
  {
    Bases();
    if regsize == 32 then Swap(value, 3) / 0x1_0000_0000 else Swap(value, 3)
  }

  lemma SwapTopIs(value: nat, regsize: nat)
    requires IsRegisterSize(regsize) && value < Limit(regsize)
    ensures value <= U64_MAX && SwapTop(value, regsize) == Swap(value, Rank(regsize))
  {
    Bases();
    if regsize == 32 {
      SwapUpper(value, 3);
    }
  }

  function FormatAddress(address: nat, regsize: nat, endian: Endian): (text: Bytes)
    requires address <= U64_MAX && IsRegisterSize(regsize)
    ensures |text| == regsize / 4
  {
    var value := address % Limit(regsize);
    HexText(if endian == Little then (Bases(); SwapTop(value, regsize)) else value, regsize / 4)
  }

  /** What parseAddress leaves: nothing when no digit was read. */
  datatype Parsed = Nothing | Value(value: nat)

  function ParseAddress(text: Bytes, regsize: nat, endian: Endian): Parsed
    requires IsRegisterSize(regsize)
  {
    var (value, end) := StrToULL(text);
    if end == 0 then Nothing
    else if endian == Little then Value(SwapTop(value, regsize) % Limit(regsize))
    else Value(value)
  }

  lemma Widths(regsize: nat)
    requires IsRegisterSize(regsize)
    ensures Pow16(regsize / 4) == Limit(regsize) <= U64_MAX + 1
  {
    Bases();
    assert Pow16(2) == 0x100 && Pow16(4) == 0x1_0000 && Pow16(6) == 0x100_0000 && Pow16(8) == 0x1_0000_0000;
    assert Pow16(10) == 0x100_0000_0000 && Pow16(12) == 0x1_0000_0000_0000 && Pow16(14) == 0x100_0000_0000_0000;
  }

  lemma TextReads(value: nat, regsize: nat)
    requires IsRegisterSize(regsize) && value < Limit(regsize)
    ensures value <= U64_MAX && StrToULL(HexText(value, regsize / 4)) == (value, regsize / 4)
  {
    Widths(regsize);
    DigitsRead(value, regsize / 4);
  }

  lemma DigitsRead(value: nat, width: nat)
    requires width > 0 && value < Pow16(width) && value <= U64_MAX
    ensures StrToULL(HexText(value, width)) == (value, width)
  {
    StrToULLOfDigits(HexText(value, width));
  }

  lemma ParsesBig(value: nat, regsize: nat)
    requires IsRegisterSize(regsize) && value < Limit(regsize)
    ensures ParseAddress(HexText(value, regsize / 4), regsize, Big) == Value(value)
  {
    TextReads(value, regsize);
  }

  lemma SmallRemainder(x: nat, limit: nat)
    requires x < limit
    ensures x % limit == x
  {
  }

  lemma ParsesLittle(value: nat, regsize: nat)
    requires IsRegisterSize(regsize) && value < Limit(regsize)
    ensures ParseAddress(HexText(value, regsize / 4), regsize, Little) == Value(Swap(value, Rank(regsize)))
  {
    TextReads(value, regsize);
    SwapTopIs(value, regsize);
    SmallRemainder(Swap(value, Rank(regsize)), Limit(regsize));
  }

  lemma FormatIs(address: nat, regsize: nat)
    requires address <= U64_MAX && IsRegisterSize(regsize)
    ensures var value := address % Limit(regsize);
            && FormatAddress(address, regsize, Big) == HexText(value, regsize / 4)
            && FormatAddress(address, regsize, Little) == HexText(Swap(value, Rank(regsize)), regsize / 4)
  {
    SwapTopIs(address % Limit(regsize), regsize);
  }

  /** A register survives the trip, up to the bits that do not fit it. */
  lemma AddressRoundTrip(address: nat, regsize: nat, endian: Endian)
    requires address <= U64_MAX && IsRegisterSize(regsize)
    ensures ParseAddress(FormatAddress(address, regsize, endian), regsize, endian) == Value(address % Limit(regsize))
  {
    var value := address % Limit(regsize);
    FormatIs(address, regsize);
    if endian == Little {
      ParsesLittle(Swap(value, Rank(regsize)), regsize);
      SwapTwice(value, Rank(regsize));
    } else {
      ParsesBig(value, regsize);
    }
  }

  // ---------------------------------------------------------------------------
  // Little-endian text is the bytes in memory order
  // ---------------------------------------------------------------------------

  type octet = n: nat | n < 0x100

  /** Two digits a byte, in order. */
  function ToHex(bytes: seq<octet>): Bytes {
    if bytes == [] then [] else ToHex(bytes[..|bytes| - 1]) + HexText(bytes[|bytes| - 1], 2)
  }

  /** The accumulating loop. */
  method WriteHex(bytes: seq<octet>) returns (text: Bytes)
    ensures text == ToHex(bytes)
  {
    text := [];
    for i := 0 to |bytes|
      invariant text == ToHex(bytes[..i])
    {
      assert bytes[..i + 1][..i] == bytes[..i];
      HexPair(bytes[i]);
      var digits := [NibbleToHex(bytes[i] / 16)] + [NibbleToHex(bytes[i] % 16)];
      text := text + digits;
    }
    assert bytes[..|bytes|] == bytes;
  }

  /** The bytes of a value, least significant first. */
  function LittleBytes(value: nat, n: nat): (bytes: seq<octet>)
    ensures |bytes| == n
  {
    if n == 0 then [] else [value % 0x100] + LittleBytes(value / 0x100, n - 1)
  }

  function LittleValue(bytes: seq<octet>): nat {
    if bytes == [] then 0 else bytes[0] + 0x100 * LittleValue(bytes[1..])
  }

  function BigValue(bytes: seq<octet>): nat {
    if bytes == [] then 0 else BigValue(bytes[..|bytes| - 1]) * 0x100 + bytes[|bytes| - 1]
  }

  function Pow256(n: nat): (p: nat)
    ensures p > 0
  {
    if n == 0 then 1 else 0x100 * Pow256(n - 1)
  }

  lemma {:induction false} LittleValueOf(value: nat, n: nat)
    requires value < Pow256(n)
    ensures LittleValue(LittleBytes(value, n)) == value
  {
    if n > 0 {
      var bytes := LittleBytes(value, n);
      assert bytes[1..] == LittleBytes(value / 0x100, n - 1);
      LittleValueOf(value / 0x100, n - 1);
    }
  }

  lemma Regroup(x: nat, p: nat)
    ensures x * p * 0x100 == x * (0x100 * p) && 0x100 * (p * x) == 0x100 * p * x
  {
  }

  lemma BigStep(h: nat, p: nat, l: nat, x: nat)
    ensures (h * p + l) * 0x100 + x == h * (0x100 * p) + (l * 0x100 + x)
  {
    Regroup(h, p);
  }

  lemma LittleStep(x: nat, l: nat, p: nat, v: nat)
    ensures x + 0x100 * (l + p * v) == x + 0x100 * l + 0x100 * p * v
  {
    Regroup(v, p);
  }

  lemma {:induction false} BigSplit(a: seq<octet>, b: seq<octet>)
    ensures BigValue(a + b) == BigValue(a) * Pow256(|b|) + BigValue(b)
    decreases b
  {
    if b == [] {
      assert a + b == a;
    } else {
      var init := b[..|b| - 1];
      assert (a + b)[..|a + b| - 1] == a + init;
      BigSplit(a, init);
      BigStep(BigValue(a), Pow256(|init|), BigValue(init), b[|b| - 1]);
    }
  }

  lemma {:induction false} LittleSplit(a: seq<octet>, b: seq<octet>)
    ensures LittleValue(a + b) == LittleValue(a) + Pow256(|a|) * LittleValue(b)
    decreases a
  {
    if a == [] {
      assert a + b == b;
    } else {
      assert (a + b)[1..] == a[1..] + b;
      LittleSplit(a[1..], b);
      LittleStep(a[0], LittleValue(a[1..]), Pow256(|a| - 1), LittleValue(b));
    }
  }

  /** Bytes in a value of rank k. */
  function Width(k: nat): nat {
    if k == 0 then 1 else 2 * Width(k - 1)
  }

  lemma {:induction false} PowerSum(m: nat, n: nat)
    ensures Pow256(m + n) == Pow256(m) * Pow256(n)
    decreases n
  {
    if n > 0 {
      PowerSum(m, n - 1);
      Regroup(Pow256(m), Pow256(n - 1));
    }
  }

  lemma {:induction false} BaseIs(k: nat)
    ensures Base(k) == Pow256(Width(k))
  {
    if k == 0 {
      assert Pow256(1) == 0x100 * Pow256(0);
    } else {
      BaseIs(k - 1);
      PowerSum(Width(k - 1), Width(k - 1));
    }
  }

  lemma SwapJoined(a: seq<octet>, b: seq<octet>, k: nat)
    requires k > 0 && |a| == |b| == Width(k - 1) && LittleValue(a) < Base(k - 1) && LittleValue(b) < Base(k - 1)
    requires Swap(LittleValue(a), k - 1) == BigValue(a) && Swap(LittleValue(b), k - 1) == BigValue(b)
    ensures LittleValue(a + b) < Base(k) && Swap(LittleValue(a + b), k) == BigValue(a + b)
  {
    LittleSplit(a, b);
    BigSplit(a, b);
    BaseIs(k - 1);
    Commute(Base(k - 1), LittleValue(b));
    SwapOf(LittleValue(b), LittleValue(a), k);
  }

  lemma Commute(x: nat, y: nat)
    ensures x * y == y * x
  {
  }

  lemma SwapOne(bytes: seq<octet>)
    requires |bytes| == 1
    ensures LittleValue(bytes) == bytes[0] == BigValue(bytes)
  {
    assert bytes[1..] == [] && bytes[..0] == [];
  }

  /** Swapping reads the bytes the other way round. */
  lemma {:induction false} SwapReverses(bytes: seq<octet>, k: nat)
    requires |bytes| == Width(k)
    ensures LittleValue(bytes) < Base(k) && Swap(LittleValue(bytes), k) == BigValue(bytes)
    decreases k
  {
    if k == 0 {
      SwapOne(bytes);
    } else {
      var a, b := bytes[..Width(k - 1)], bytes[Width(k - 1)..];
      SwapReverses(a, k - 1);
      SwapReverses(b, k - 1);
      SwapJoined(a, b, k);
      assert a + b == bytes;
    }
  }

  lemma Nibbles(x: nat, high: nat, b: nat)
    requires b < 0x100 && x == high * 0x100 + b
    ensures x / 16 / 16 == high && x / 16 % 16 == b / 16 && x % 16 == b % 16
  {
    assert x / 16 == high * 16 + b / 16;
  }

  lemma HexTwice(x: nat, width: nat)
    ensures HexText(x, width + 2) == HexText(x / 16 / 16, width) + [NibbleToHex(x / 16 % 16)] + [NibbleToHex(x % 16)]
  {
    assert HexText(x, width + 2) == HexText(x / 16, width + 1) + [NibbleToHex(x % 16)];
    assert HexText(x / 16, width + 1) == HexText(x / 16 / 16, width) + [NibbleToHex(x / 16 % 16)];
  }

  lemma HexJoin(x: nat, high: nat, b: nat, width: nat, before: Bytes)
    requires b < 0x100 && x == high * 0x100 + b && HexText(high, width) == before
    ensures HexText(x, width + 2) == before + HexText(b, 2)
  {
    Nibbles(x, high, b);
    HexTwice(x, width);
    HexPair(b);
    Associate(before, [NibbleToHex(b / 16)], [NibbleToHex(b % 16)]);
  }

  /** The text of a number is the text of its bytes. */
  predicate ReadsAs(value: nat, bytes: seq<octet>) {
    HexText(value, 2 * |bytes|) == ToHex(bytes)
  }

  lemma NoBytes(bytes: seq<octet>)
    requires bytes == []
    ensures ReadsAs(BigValue(bytes), bytes)
  {
  }

  /** If all but the last byte read right, so do all. */
  lemma OneMoreByte(bytes: seq<octet>, init: seq<octet>, last: octet)
    requires bytes == init + [last] && ReadsAs(BigValue(init), init)
    ensures ReadsAs(BigValue(bytes), bytes)
  {
    assert bytes[..|init|] == init;
    HexJoin(BigValue(bytes), BigValue(init), last, 2 * |init|, ToHex(init));
  }

  lemma {:induction false} HexOfBytes(bytes: seq<octet>)
    ensures ReadsAs(BigValue(bytes), bytes)
  {
    if bytes == [] {
      NoBytes(bytes);
    } else {
      HexOfBytes(bytes[..|bytes| - 1]);
      OneMoreByte(bytes, bytes[..|bytes| - 1], bytes[|bytes| - 1]);
    }
  }

  lemma Widths8(regsize: nat)
    requires IsRegisterSize(regsize)
    ensures Width(Rank(regsize)) == regsize / 8 && 2 * Width(Rank(regsize)) == regsize / 4
  {
    assert Width(1) == 2 && Width(2) == 4 && Width(3) == 8;
  }

  /** On a little-endian target the text of a register is its bytes as they lie in
      memory. */
  lemma LittleText(address: nat, regsize: nat)
    requires address <= U64_MAX && IsRegisterSize(regsize)
    ensures FormatAddress(address, regsize, Little) == ToHex(LittleBytes(address % Limit(regsize), regsize / 8))
  {
    Widths8(regsize);
    FormatIs(address, regsize);
    SwappedText(address % Limit(regsize), Rank(regsize), regsize / 8, FormatAddress(address, regsize, Little));
  }

  lemma SwappedText(value: nat, k: nat, n: nat, text: Bytes)
    requires value < Base(k) && n == Width(k) && text == HexText(Swap(value, k), 2 * n)
    ensures text == ToHex(LittleBytes(value, n))
  {
    var bytes := LittleBytes(value, n);
    BaseIs(k);
    LittleValueOf(value, n);
    SwapReverses(bytes, k);
    HexOfBytes(bytes);
  }

  // ---------------------------------------------------------------------------
  // All registers
  // ---------------------------------------------------------------------------

  type u64 = n: nat | n <= U64_MAX

  function ReplyText(regs: seq<u64>, regsize: nat, endian: Endian): Bytes
    requires IsRegisterSize(regsize)
  {
    if regs == [] then [] else FormatAddress(regs[0], regsize, endian) + ReplyText(regs[1..], regsize, endian)
  }

  /** The loop that builds the `g` reply. */
  method FormatRegisters(regs: seq<u64>, regsize: nat, endian: Endian) returns (text: Bytes)
    requires IsRegisterSize(regsize)
    ensures text == ReplyText(regs, regsize, endian)
  {
    text := [];
    for i := 0 to |regs|
      invariant text + ReplyText(regs[i..], regsize, endian) == ReplyText(regs, regsize, endian)
    {
      var digits := FormatAddress(regs[i], regsize, endian);
      assert regs[i..][1..] == regs[i + 1..];
      Associate(text, digits, ReplyText(regs[i + 1..], regsize, endian));
      text := text + digits;
    }
  }

  /** A piece that is no number leaves an address at zero. */
  function RegisterIn(piece: Bytes, regsize: nat, endian: Endian): nat
    requires IsRegisterSize(regsize)
  {
    match ParseAddress(piece, regsize, endian)
    case Nothing => 0
    case Value(v) => v
  }

  function Reader(regsize: nat, endian: Endian): Bytes -> nat
    requires IsRegisterSize(regsize)
  {
    piece => RegisterIn(piece, regsize, endian)
  }

  /** The text read piece after piece; a rest too short is ignored. */
  function ReadPieces<T>(args: Bytes, len: nat, read: Bytes -> T): seq<T>
    requires len > 0
    decreases |args|
  {
    if |args| < len then [] else [read(args[..len])] + ReadPieces(args[len..], len, read)
  }

  function RegistersIn(args: Bytes, len: nat, regsize: nat, endian: Endian): seq<nat>
    requires IsRegisterSize(regsize) && len > 0
  {
    ReadPieces(args, len, Reader(regsize, endian))
  }

  /** The `G` packet by index: register i is read from the i-th piece. */
  lemma {:induction false} PieceAt<T>(args: Bytes, len: nat, read: Bytes -> T, i: nat)
    requires len > 0 && Pieces(i, len) + len <= |args|
    ensures i < |ReadPieces(args, len, read)| && ReadPieces(args, len, read)[i] == read(args[Pieces(i, len)..Pieces(i, len) + len])
    decreases i
  {
    if i == 0 {
      assert args[..len] == args[0..len];
    } else {
      PiecesFirst(i, len);
      PieceAt(args[len..], len, read, i - 1);
      assert args[len..][Pieces(i - 1, len)..Pieces(i - 1, len) + len] == args[Pieces(i, len)..Pieces(i, len) + len];
    }
  }

  lemma {:induction false} PieceCount<T>(args: Bytes, len: nat, read: Bytes -> T, n: nat)
    requires len > 0 && Pieces(n, len) <= |args| < Pieces(n, len) + len
    ensures |ReadPieces(args, len, read)| == n
    decreases n
  {
    if n > 0 {
      PiecesFirst(n, len);
      PieceCount(args[len..], len, read, n - 1);
    }
  }

  lemma {:induction false} PiecesFirst(n: nat, len: nat)
    requires n > 0
    ensures Pieces(n, len) == len + Pieces(n - 1, len)
  {
    if n > 1 {
      PiecesFirst(n - 1, len);
    }
  }

  /** What a piece of text is read as, whatever it holds: the number it starts with, or
      zero; the register's bytes the other way round on a little-endian target. */
  lemma PieceMeans(piece: Bytes, regsize: nat, endian: Endian, i: nat, j: nat, k: nat, e: nat)
    requires IsRegisterSize(regsize) && Numbers.IsCut(piece, i, j, k, e)
    ensures var (value, end) := Numbers.ValueOf(piece, i, j, k, e);
            && (end == 0 ==> RegisterIn(piece, regsize, endian) == 0)
            && (end != 0 && endian == Big ==> RegisterIn(piece, regsize, endian) == value)
            && (end != 0 && endian == Little ==>
                  RegisterIn(piece, regsize, endian) == BigValue(LittleBytes(value % Limit(regsize), regsize / 8)))
  {
    Numbers.NumberMeans(piece, i, j, k, e);
    SwapIsReverse(StrToULL(piece).0, regsize);
  }

  /** Swapping in twice the width puts the lower half, swapped, above. */
  lemma LowerHalf(value: nat, k: nat)
    requires k > 0 && value < Base(k)
    ensures Swap(value, k) / Base(k - 1) == Swap(value % Base(k - 1), k - 1)
  {
    var base := Base(k - 1);
    Halves(value, base);
    SwapOf(value / base, value % base, k);
    Quotient(Swap(value % base, k - 1), Swap(value / base, k - 1), base);
  }

  lemma SwapIsReverse(address: nat, regsize: nat)
    requires IsRegisterSize(regsize) && address <= U64_MAX
    ensures SwapTop(address, regsize) % Limit(regsize) == BigValue(LittleBytes(address % Limit(regsize), regsize / 8))
  {
    var value := address % Limit(regsize);
    Bases();
    if regsize == 32 {
      LowerHalf(address, 3);
    } else {
      SmallRemainder(address, Limit(regsize));
    }
    SmallRemainder(Swap(value, Rank(regsize)), Limit(regsize));
    ReversedBytes(value, regsize);
  }

  lemma ReversedBytes(value: nat, regsize: nat)
    requires IsRegisterSize(regsize) && value < Limit(regsize)
    ensures Swap(value, Rank(regsize)) == BigValue(LittleBytes(value, regsize / 8))
  {
    Widths8(regsize);
    BaseIs(Rank(regsize));
    LittleValueOf(value, regsize / 8);
    SwapReverses(LittleBytes(value, regsize / 8), Rank(regsize));
  }

  /** The whole packet: as many registers as whole pieces, each read from its own. */
  lemma RegistersMean(args: Bytes, regsize: nat, endian: Endian, len: nat, i: nat)
    requires IsRegisterSize(regsize) && len == regsize / 4 > 0
    ensures var regs := RegistersIn(args, len, regsize, endian);
            && |regs| == |args| / len
            && (i < |regs| ==> Pieces(i, len) == i * len && Pieces(i, len) + len <= |args|
                               && regs[i] == RegisterIn(args[Pieces(i, len)..Pieces(i, len) + len], regsize, endian))
  {
    var n, read := |args| / len, Reader(regsize, endian);
    RestIsShort(|args|, len);
    PieceCount(args, len, read, n);
    if i < n {
      PiecesIs(i, len);
      PiecesGrow(i, n, len);
      PieceAt(args, len, read, i);
    }
  }

  function Joined(texts: seq<Bytes>): Bytes {
    if texts == [] then [] else texts[0] + Joined(texts[1..])
  }

  predicate AllLong(texts: seq<Bytes>, len: nat) {
    forall text <- texts :: |text| == len
  }

  lemma {:induction false} JoinedLength(texts: seq<Bytes>, len: nat)
    requires AllLong(texts, len)
    ensures |Joined(texts)| == Pieces(|texts|, len)
  {
    if texts != [] {
      JoinedLength(texts[1..], len);
      PiecesFirst(|texts|, len);
    }
  }

  lemma {:induction false} JoinedAt(texts: seq<Bytes>, len: nat, i: nat)
    requires AllLong(texts, len) && i < |texts|
    ensures var text, at := Joined(texts), Pieces(i, len); at + len <= |text| && text[at..at + len] == texts[i]
    decreases i
  {
    if i == 0 {
      SliceHead(texts[0], Joined(texts[1..]));
    } else {
      PiecesFirst(i, len);
      JoinedAt(texts[1..], len, i - 1);
      SliceTail(texts[0], Joined(texts[1..]), Pieces(i - 1, len), len);
    }
  }

  lemma SliceHead(head: Bytes, tail: Bytes)
    ensures (head + tail)[0..|head|] == head
  {
  }

  lemma SliceTail(head: Bytes, tail: Bytes, at: nat, len: nat)
    requires at + len <= |tail|
    ensures (head + tail)[|head| + at..|head| + at + len] == tail[at..at + len]
  {
  }

  function Formatted(regs: seq<u64>, regsize: nat, endian: Endian): seq<Bytes>
    requires IsRegisterSize(regsize)
  {
    seq(|regs|, i requires 0 <= i < |regs| => FormatAddress(regs[i], regsize, endian))
  }

  lemma {:induction false} ReplyIsJoined(regs: seq<u64>, regsize: nat, endian: Endian)
    requires IsRegisterSize(regsize)
    ensures ReplyText(regs, regsize, endian) == Joined(Formatted(regs, regsize, endian))
  {
    if regs != [] {
      ReplyIsJoined(regs[1..], regsize, endian);
      assert Formatted(regs, regsize, endian)[1..] == Formatted(regs[1..], regsize, endian);
    }
  }

  /** The `g` reply likewise: the registers in order, each in its own piece. */
  lemma ReplyMeans(regs: seq<u64>, regsize: nat, endian: Endian, len: nat, i: nat)
    requires IsRegisterSize(regsize) && len == regsize / 4 && i < |regs|
    ensures var text, at := ReplyText(regs, regsize, endian), Pieces(i, len);
            && |text| == |regs| * len && at == i * len
            && at + len <= |text| && text[at..at + len] == FormatAddress(regs[i], regsize, endian)
  {
    PiecesIs(|regs|, len);
    PiecesIs(i, len);
    ReplyIsJoined(regs, regsize, endian);
    JoinedLength(Formatted(regs, regsize, endian), len);
    JoinedAt(Formatted(regs, regsize, endian), len, i);
  }

  /** `got` is what was read before this place. */
  predicate HasRead<T(==)>(args: Bytes, len: nat, read: Bytes -> T, at: nat, got: seq<T>)
    requires len > 0
  {
    at <= |args| && got + ReadPieces(args[at..], len, read) == ReadPieces(args, len, read)
  }

  lemma ReadNothing<T>(args: Bytes, len: nat, read: Bytes -> T)
    requires len > 0
    ensures HasRead(args, len, read, 0, [])
  {
    assert args[0..] == args;
  }

  /** One turn of the loop takes the piece at its place. */
  lemma ReadOneMore<T>(args: Bytes, len: nat, read: Bytes -> T, at: nat, got: seq<T>)
    requires len > 0 && at + len <= |args| && HasRead(args, len, read, at, got)
    ensures HasRead(args, len, read, at + len, got + [read(args[at..at + len])])
  {
    assert args[at..][..len] == args[at..at + len] && args[at..][len..] == args[at + len..];
    Associate(got, [read(args[at..at + len])], ReadPieces(args[at + len..], len, read));
  }

  lemma ReadAll<T>(args: Bytes, len: nat, read: Bytes -> T, at: nat, got: seq<T>)
    requires len > 0 && HasRead(args, len, read, at, got) && |args| < at + len
    ensures got == ReadPieces(args, len, read)
  {
  }

  /** n pieces of this length. */
  function Pieces(n: nat, len: nat): nat {
    if n == 0 then 0 else Pieces(n - 1, len) + len
  }

  lemma {:induction false} PiecesIs(n: nat, len: nat)
    ensures Pieces(n, len) == n * len
  {
    if n > 0 {
      PiecesIs(n - 1, len);
      assert n * len == (n - 1) * len + len;
    }
  }

  lemma {:induction false} PiecesGrow(n: nat, m: nat, len: nat)
    requires n < m
    ensures Pieces(n, len) + len <= Pieces(m, len)
  {
    if n < m - 1 {
      PiecesGrow(n, m - 1, len);
    }
  }

  lemma RestIsShort(total: nat, len: nat)
    requires len > 0
    ensures Pieces(total / len, len) <= total < Pieces(total / len, len) + len
  {
    PiecesIs(total / len, len);
  }

  method TakePiece(args: Bytes, n: nat, nargs: nat, len: nat) returns (val: Bytes)
    requires n < nargs && Pieces(nargs, len) <= |args|
    ensures Pieces(n, len) + len <= |args| && val == args[Pieces(n, len)..Pieces(n, len) + len]
  {
    PiecesGrow(n, nargs, len);
    PiecesIs(n, len);
    val := args[n * len..n * len + len];
  }

  lemma TextLength(regsize: nat)
    requires IsRegisterSize(regsize)
    ensures regsize / 8 * 2 == regsize / 4 > 0
  {
  }

  /** The loop of the `G` handler. */
  method ParseRegisters(args: Bytes, regsize: nat, endian: Endian) returns (regs: seq<nat>)
    requires IsRegisterSize(regsize)
    ensures regs == RegistersIn(args, regsize / 4, regsize, endian)
  {
    var len := regsize / 8 * 2;
    TextLength(regsize);
    RestIsShort(|args|, len);
    regs := ParsePieces(args, len, |args| / len, Reader(regsize, endian));
  }

  method ParsePieces<T>(args: Bytes, len: nat, nargs: nat, read: Bytes -> T) returns (got: seq<T>)
    requires len > 0 && Pieces(nargs, len) <= |args| < Pieces(nargs, len) + len
    ensures got == ReadPieces(args, len, read)
  {
    got := [];
    ReadNothing(args, len, read);
    for n := 0 to nargs
      invariant HasRead(args, len, read, Pieces(n, len), got)
    {
      var val := TakePiece(args, n, nargs, len);
      ReadOneMore(args, len, read, Pieces(n, len), got);
      got := got + [read(val)];
    }
    ReadAll(args, len, read, Pieces(nargs, len), got);
  }

  /** The values as the registers can hold them. */
  function Truncated(regs: seq<u64>, limit: nat): seq<nat>
    requires limit > 0
  {
    if regs == [] then [] else [regs[0] % limit] + Truncated(regs[1..], limit)
  }

  lemma HeadRegister(text: Bytes, f: Bytes, rest: Bytes, len: nat, regsize: nat, endian: Endian)
    requires IsRegisterSize(regsize) && len > 0 && text == f + rest && |f| == len
    ensures RegistersIn(text, len, regsize, endian) == [RegisterIn(f, regsize, endian)] + RegistersIn(rest, len, regsize, endian)
  {
    assert text[..len] == f && text[len..] == rest;
  }

  /** Writing back what was read: the `G` loop applied to the `g` reply gives every
      register, up to the bits that do not fit it. */
  lemma {:induction false} RegistersRoundTrip(regs: seq<u64>, regsize: nat, endian: Endian)
    requires IsRegisterSize(regsize)
    ensures RegistersIn(ReplyText(regs, regsize, endian), regsize / 4, regsize, endian) == Truncated(regs, Limit(regsize))
  {
    if regs != [] {
      RegistersRoundTrip(regs[1..], regsize, endian);
      AddressRoundTrip(regs[0], regsize, endian);
      HeadRegister(ReplyText(regs, regsize, endian), FormatAddress(regs[0], regsize, endian),
                   ReplyText(regs[1..], regsize, endian), regsize / 4, regsize, endian);
    }
  }

  /** Values in range are not changed at all. */
  lemma {:induction false} InRangeIsKept(regs: seq<u64>, limit: nat)
    requires limit > 0 && forall i :: 0 <= i < |regs| ==> regs[i] < limit
    ensures Truncated(regs, limit) == regs
  {
    if regs != [] {
      InRangeIsKept(regs[1..], limit);
      SmallRemainder(regs[0], limit);
    }
  }

  /** The two handlers one after the other. */
  method ReadAndWriteBack(regs: seq<u64>, regsize: nat, endian: Endian) returns (back: seq<nat>)
    requires IsRegisterSize(regsize)
    ensures back == Truncated(regs, Limit(regsize))
  {
    var text := FormatRegisters(regs, regsize, endian);
    back := ParseRegisters(text, regsize, endian);
    RegistersRoundTrip(regs, regsize, endian);
  }
}
