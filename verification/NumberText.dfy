/** Hexadecimal numbers in text, written out: what is printed, and what the C library's
    parser reads in any text. */
module Numbers {
  import opened Bytes

  /** The value of a hexadecimal digit of either case; 16 for any other byte. */
  function Digit(c: byte): nat {
    match c
    case '0' => 0 case '1' => 1 case '2' => 2 case '3' => 3 case '4' => 4
    case '5' => 5 case '6' => 6 case '7' => 7 case '8' => 8 case '9' => 9
    case 'a' => 10 case 'b' => 11 case 'c' => 12 case 'd' => 13 case 'e' => 14 case 'f' => 15
    case 'A' => 10 case 'B' => 11 case 'C' => 12 case 'D' => 13 case 'E' => 14 case 'F' => 15
    case _ => 16
  }

  predicate IsBlank(c: byte) {
    c in {' ', '\t', '\n', '\r', '\U{0b}', '\U{0c}'}
  }

  lemma DigitIs(c: byte)
    ensures IsHexDigit(c) <==> Digit(c) < 16
    ensures IsHexDigit(c) ==> HexToNibble(c) == Digit(c)
  {
  }

  lemma BlankIs(c: byte)
    ensures IsSpace(c) <==> IsBlank(c)
    ensures IsHexDigit(c) ==> !IsSpace(c) && c != '+' && c != '-'
  {
  }

  // ---------------------------------------------------------------------------
  // Printing
  // ---------------------------------------------------------------------------

  const DIGITS: seq<byte> := ['0', '1', '2', '3', '4', '5', '6', '7', '8', '9', 'a', 'b', 'c', 'd', 'e', 'f']

  lemma DivideTwice(x: nat, p: nat)
    requires p > 0
    ensures x / 16 / p == x / (16 * p)
  {
    var q, r := x / 16 / p, x / 16 % p;
    assert x / 16 == q * p + r;
    var low := 16 * r + x % 16;
    assert x == 16 * (q * p + r) + x % 16 == q * (16 * p) + low;
    Remainder(q, low, 16 * p);
  }

  lemma Remainder(q: nat, r: nat, m: nat)
    requires r < m
    ensures (q * m + r) / m == q
  {
    var x := q * m + r;
    var k := x / m;
    assert x == k * m + x % m;
    if k < q {
      Apart(k, q, m);
    } else if k > q {
      Apart(q, k, m);
    }
  }

  lemma Apart(a: nat, b: nat, m: nat)
    requires a < b
    ensures a * m + m <= b * m
  {
    assert b * m == a * m + (b - a) * m;
    assert (b - a) * m == m + (b - a - 1) * m;
  }

  /** The value without its last n digits. */
  function Dropped(value: nat, n: nat): nat {
    if n == 0 then value else Dropped(value / 16, n - 1)
  }

  lemma {:induction false} DroppedIs(value: nat, n: nat)
    ensures Dropped(value, n) == value / Pow16(n)
  {
    if n > 0 {
      DroppedIs(value / 16, n - 1);
      DivideTwice(value, Pow16(n - 1));
    }
  }

  lemma NibbleMeans(n: nat)
    requires n < 16
    ensures NibbleToHex(n) == DIGITS[n]
  {
  }

  lemma {:induction false} TextAt(value: nat, width: nat, n: nat)
    requires n < width
    ensures HexText(value, width)[width - 1 - n] == NibbleToHex(Dropped(value, n) % 16)
    decreases n
  {
    if n > 0 {
      TextAt(value / 16, width - 1, n - 1);
      assert HexText(value, width) == HexText(value / 16, width - 1) + [NibbleToHex(value % 16)];
    }
  }

  /** Counted from the right, the n-th character printed is the lower-case digit for
      16 to the n. */
  lemma TextMeans(value: nat, width: nat, n: nat)
    requires n < width
    ensures HexText(value, width)[width - 1 - n] == DIGITS[value / Pow16(n) % 16]
  {
    TextAt(value, width, n);
    DroppedIs(value, n);
    NibbleMeans(Dropped(value, n) % 16);
  }

  // ---------------------------------------------------------------------------
  // Parsing
  // ---------------------------------------------------------------------------

  /** Each digit by its place. */
  function Positional(digits: Bytes): nat {
    if digits == [] then 0 else Digit(digits[0]) * Pow16(|digits| - 1) + Positional(digits[1..])
  }

  lemma {:induction false} PositionalSnoc(digits: Bytes, last: byte)
    ensures Positional(digits + [last]) == 16 * Positional(digits) + Digit(last)
  {
    if digits == [] {
      assert Positional([last]) == Digit(last) * Pow16(0) + Positional([last][1..]);
    } else {
      PositionalSnoc(digits[1..], last);
      assert (digits + [last])[1..] == digits[1..] + [last];
      Shifted(Digit(digits[0]), Pow16(|digits| - 1));
    }
  }

  lemma Shifted(d: nat, p: nat)
    ensures d * (16 * p) == 16 * (d * p)
  {
  }

  lemma {:induction false} PositionalIs(digits: Bytes)
    requires forall c <- digits :: IsHexDigit(c)
    ensures HexNumber(digits) == Positional(digits)
  {
    if digits != [] {
      var init, last := digits[..|digits| - 1], digits[|digits| - 1];
      PositionalIs(init);
      PositionalSnoc(init, last);
      DigitIs(last);
      assert init + [last] == digits;
    }
  }

  /** Where a 0x starts and a digit follows it. */
  predicate HasPrefix(s: Bytes, j: nat) {
    j + 2 < |s| && s[j] == '0' && s[j + 1] in {'x', 'X'} && Digit(s[j + 2]) < 16
  }

  /** Blanks up to i, perhaps a sign up to j, perhaps 0x up to k, digits up to e. */
  predicate IsCut(s: Bytes, i: nat, j: nat, k: nat, e: nat) {
    && i <= j <= k <= e <= |s|
    && (forall n :: 0 <= n < i ==> IsBlank(s[n])) && (i < |s| ==> !IsBlank(s[i]))
    && j == (if i < |s| && s[i] in {'+', '-'} then i + 1 else i)
    && k == (if HasPrefix(s, j) then j + 2 else j)
    && (forall n :: k <= n < e ==> Digit(s[n]) < 16) && (e < |s| ==> Digit(s[e]) == 16)
  }

  /** Saturated at 64 bits, and modulo 2 to the 64 after a minus. */
  function Read(n: nat, minus: bool, e: nat): (nat, nat) {
    if n > 0xffff_ffff_ffff_ffff then (0xffff_ffff_ffff_ffff, e)
    else if minus then ((0x1_0000_0000_0000_0000 - n) % 0x1_0000_0000_0000_0000, e)
    else (n, e)
  }

  /** The number read and where it ends. Without digits nothing is read. */
  function ValueOf(s: Bytes, i: nat, j: nat, k: nat, e: nat): (nat, nat)
    requires IsCut(s, i, j, k, e)
  {
    if e == k then (0, 0) else Read(Positional(s[k..e]), i < j && s[i] == '-', e)
  }

  lemma {:induction false} BlanksEnd(s: Bytes, i: nat, n: nat)
    requires n <= i <= |s| && (forall m :: n <= m < i ==> IsBlank(s[m])) && (i < |s| ==> !IsBlank(s[i]))
    ensures SkipSpaces(s, n) == i
    decreases i - n
  {
    if n < |s| {
      BlankIs(s[n]);
    }
    if n < i {
      BlanksEnd(s, i, n + 1);
    }
  }

  lemma {:induction false} DigitsEnd(s: Bytes, e: nat, n: nat)
    requires n <= e <= |s| && (forall m :: n <= m < e ==> Digit(s[m]) < 16) && (e < |s| ==> Digit(s[e]) == 16)
    ensures HexRunEnd(s, n) == e && forall c <- s[n..e] :: IsHexDigit(c)
    decreases e - n
  {
    if n < |s| {
      DigitIs(s[n]);
    }
    if n < e {
      DigitsEnd(s, e, n + 1);
      assert s[n..e] == [s[n]] + s[n + 1..e];
    }
  }

  lemma PrefixIs(s: Bytes, j: nat)
    ensures HasPrefix(s, j) <==>
              j + 2 < |s| && s[j] == '0' && (s[j + 1] == 'x' || s[j + 1] == 'X') && IsHexDigit(s[j + 2])
  {
    if j + 2 < |s| {
      DigitIs(s[j + 2]);
    }
  }

  /** The parser once its scans have ended. */
  lemma Scanned(s: Bytes, i: nat, j: nat, k: nat, e: nat)
    requires i == SkipSpaces(s, 0) && j <= k <= |s| && e == HexRunEnd(s, k)
    requires j == if i < |s| && (s[i] == '+' || s[i] == '-') then i + 1 else i
    requires k == if j + 2 < |s| && s[j] == '0' && (s[j + 1] == 'x' || s[j + 1] == 'X') && IsHexDigit(s[j + 2]) then j + 2 else j
    ensures StrToULL(s) == if e == k then (0, 0) else Read(HexNumber(s[k..e]), i < j && s[i] == '-', e)
  {
  }

  /** The parser reads every text so. */
  lemma NumberMeans(s: Bytes, i: nat, j: nat, k: nat, e: nat)
    requires IsCut(s, i, j, k, e)
    ensures StrToULL(s) == ValueOf(s, i, j, k, e)
  {
    BlanksEnd(s, i, 0);
    PrefixIs(s, j);
    DigitsEnd(s, e, k);
    PositionalIs(s[k..e]);
    Scanned(s, i, j, k, e);
  }

  /** And every text can be cut so. */
  lemma EveryNumber(s: Bytes) returns (i: nat, j: nat, k: nat, e: nat)
    ensures IsCut(s, i, j, k, e) && StrToULL(s) == ValueOf(s, i, j, k, e)
  {
    i := 0;
    while i < |s| && IsBlank(s[i])
      invariant i <= |s| && forall n :: 0 <= n < i ==> IsBlank(s[n])
    {
      i := i + 1;
    }
    j := if i < |s| && s[i] in {'+', '-'} then i + 1 else i;
    k := if HasPrefix(s, j) then j + 2 else j;
    e := k;
    while e < |s| && Digit(s[e]) < 16
      invariant k <= e <= |s| && forall n :: k <= n < e ==> Digit(s[n]) < 16
    {
      e := e + 1;
    }
    NumberMeans(s, i, j, k, e);
  }
}
