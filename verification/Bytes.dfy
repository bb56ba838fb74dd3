/** Byte strings as the remote protocol handles them, the hexadecimal text it
    carries, and the C library's base-16 number parser. */
module Bytes {

  /** One byte on the wire, written as the character with that code. */
  type byte = c: char | c as int < 256 witness '\0'

  type Bytes = seq<byte>

  const U64_MAX: nat := 0xffff_ffff_ffff_ffff

  function ByteOf(n: nat): (b: byte)
    requires n < 256
    ensures b as int == n
  {
    n as char
  }

  /** No `c` among data[from..to]. */
  predicate Lacks(data: Bytes, c: byte, from: nat, to: nat)
    requires from <= to <= |data|
  {
    forall k :: from <= k < to ==> data[k] != c
  }

  /** Index of the first `c` at or after `from`; |data| stands for npos. */
  function FindFrom(data: Bytes, c: byte, from: nat): (i: nat)
    requires from <= |data|
    ensures from <= i <= |data| && Lacks(data, c, from, i)
    ensures i < |data| ==> data[i] == c
    decreases |data| - from
  {
    if from == |data| || data[from] == c then from else FindFrom(data, c, from + 1)
  }

  predicate IsHexDigit(c: byte) {
    '0' <= c <= '9' || 'a' <= c <= 'f' || 'A' <= c <= 'F'
  }

  function HexToNibble(c: byte): (n: nat)
    requires IsHexDigit(c)
    ensures n < 16
  {
    if '0' <= c <= '9' then c as int - '0' as int
    else if 'a' <= c <= 'f' then c as int - 'a' as int + 10
    else c as int - 'A' as int + 10
  }

  function NibbleToHex(n: nat): (c: byte)
    requires n < 16
    ensures IsHexDigit(c) && HexToNibble(c) == n
    ensures c !in {'$', '#', '}', '*', '+', '-'}
  {
    ByteOf(if n < 10 then '0' as int + n else 'a' as int + n - 10)
  }

  /** The number a run of hexadecimal digits stands for, most significant first. */
  function HexNumber(digits: Bytes): (n: nat)
    requires forall c <- digits :: IsHexDigit(c)
  {
    if digits == [] then 0
    else 16 * HexNumber(digits[..|digits| - 1]) + HexToNibble(digits[|digits| - 1])
  }

  /** Exactly `width` lower-case digits: what a stream set to hex, filled with
      '0' and given that width prints for a value that fits. */
  function HexText(value: nat, width: nat): (s: Bytes)
    ensures |s| == width
    ensures forall c <- s :: IsHexDigit(c) && c !in {'$', '#', '}', '*', '+', '-'}
    ensures value < Pow16(width) ==> HexNumber(s) == value
    decreases width
  {
    if width == 0 then []
    else
      var high := HexText(value / 16, width - 1);
      var s := high + [NibbleToHex(value % 16)];
      assert s[..|s| - 1] == high;
      s
  }

  lemma HexPair(b: nat)
    requires b < 0x100
    ensures HexText(b, 2) == [NibbleToHex(b / 16)] + [NibbleToHex(b % 16)]
  {
    assert HexText(b / 16, 1) == HexText(b / 16 / 16, 0) + [NibbleToHex(b / 16 % 16)];
  }

  function Pow16(n: nat): (p: nat)
    ensures p > 0
  {
    if n == 0 then 1 else 16 * Pow16(n - 1)
  }

  predicate IsSpace(c: byte) {
    c == ' ' || 9 <= c as int <= 13
  }

  function SkipSpaces(s: Bytes, from: nat): (i: nat)
    requires from <= |s|
    ensures from <= i <= |s|
    decreases |s| - from
  {
    if from < |s| && IsSpace(s[from]) then SkipSpaces(s, from + 1) else from
  }

  /** End of the run of hexadecimal digits starting at `from`. */
  function HexRunEnd(s: Bytes, from: nat): (i: nat)
    requires from <= |s|
    ensures from <= i <= |s|
    ensures forall k :: from <= k < i ==> IsHexDigit(s[k])
    ensures i < |s| ==> !IsHexDigit(s[i])
    decreases |s| - from
  {
    if from < |s| && IsHexDigit(s[from]) then HexRunEnd(s, from + 1) else from
  }

  /** strtoull(s, &end, 16): optional white space, sign and 0x prefix, then
      digits; saturating, and negated modulo 2^64 after a minus sign. `end` is 0
      when there is nothing to convert. */
  function StrToULL(s: Bytes): (r: (nat, nat))
    ensures r.0 <= U64_MAX && r.1 <= |s|
  {
    var i := SkipSpaces(s, 0);
    var neg := i < |s| && s[i] == '-';
    var j := if i < |s| && (s[i] == '-' || s[i] == '+') then i + 1 else i;
    var k := if j + 2 < |s| && s[j] == '0' && (s[j + 1] == 'x' || s[j + 1] == 'X') && IsHexDigit(s[j + 2])
             then j + 2 else j;
    var end := HexRunEnd(s, k);
    if end == k then (0, 0)
    else
      var n := HexNumber(s[k..end]);
      if n > U64_MAX then (U64_MAX, end)
      else (if neg && n > 0 then U64_MAX + 1 - n else n, end)
  }

  /** On plain hexadecimal digits the parser reads them all and returns their value. */
  lemma StrToULLOfDigits(s: Bytes)
    requires s != [] && forall c <- s :: IsHexDigit(c)
    requires HexNumber(s) <= U64_MAX
    ensures StrToULL(s) == (HexNumber(s), |s|)
  {
    assert IsHexDigit(s[0]);
    assert SkipSpaces(s, 0) == 0;
    if |s| > 2 { assert IsHexDigit(s[1]); }
    assert HexRunEnd(s, 0) == |s|;
    assert s[0..|s|] == s;
  }

  lemma StrToULLOfByteText(n: nat)
    requires n < 256
    ensures StrToULL(HexText(n, 2)).0 == n
  {
    assert Pow16(1) == 16 && Pow16(2) == 256;
    StrToULLOfDigits(HexText(n, 2));
  }

  /** Sum of the bytes modulo 256. */
  function Checksum(data: Bytes): (sum: nat)
    ensures sum < 256
  {
    if data == [] then 0
    else (Checksum(data[..|data| - 1]) + data[|data| - 1] as int) % 256
  }

  /** The accumulating loop that computes it. */
  method ComputeChecksum(data: Bytes) returns (sum: nat)
    ensures sum == Checksum(data)
  {
    sum := 0;
    for i := 0 to |data|
      invariant sum == Checksum(data[..i])
    {
      assert data[..i + 1][..i] == data[..i];
      sum := (sum + data[i] as int) % 256;
    }
    assert data[..|data|] == data;
  }
}
