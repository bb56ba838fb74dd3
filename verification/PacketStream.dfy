/** What a byte stream means, written out: every stream is junk, single-byte packets and
    frames one after the other, and the framer delivers exactly those. */
module Streams {
  import opened Bytes
  import opened Common
  import opened Framing
  import opened Numbers

  // ---------------------------------------------------------------------------
  // Checksums written out
  // ---------------------------------------------------------------------------

  /** Sum of the codes of the first n bytes. */
  function CodeSum(text: Bytes, n: nat): nat
    requires n <= |text|
  {
    if n == 0 then 0 else CodeSum(text, n - 1) + text[n - 1] as int
  }

  /** What two checksum characters stand for, modulo 256: two digits, one digit, a digit
      after a blank or a sign, or nothing. */
  function SumOf(a: byte, b: byte): nat {
    if Digit(a) < 16 && Digit(b) < 16 then 16 * Digit(a) + Digit(b)
    else if Digit(a) < 16 then Digit(a)
    else if Digit(b) < 16 && (IsBlank(a) || a == '+') then Digit(b)
    else if Digit(b) < 16 && a == '-' then (256 - Digit(b)) % 256
    else 0
  }

  lemma {:induction false} CodeSumIs(text: Bytes, n: nat)
    requires n <= |text|
    ensures Checksum(text[..n]) == CodeSum(text, n) % 256
  {
    if n > 0 {
      CodeSumIs(text, n - 1);
      assert text[..n][..n - 1] == text[..n - 1];
    }
  }

  lemma OneDigit(c: byte)
    requires IsHexDigit(c)
    ensures HexNumber([c]) == HexToNibble(c)
  {
    assert [c][..0] == [];
  }

  lemma TwoDigits(a: byte, b: byte)
    requires IsHexDigit(a) && IsHexDigit(b)
    ensures HexNumber([a, b]) == 16 * HexToNibble(a) + HexToNibble(b)
  {
    assert [a, b][..1] == [a];
    OneDigit(a);
  }

  lemma PlainSum(a: byte, b: byte)
    requires IsHexDigit(a)
    ensures StrToULL([a, b]).0 == if IsHexDigit(b) then 16 * HexToNibble(a) + HexToNibble(b) else HexToNibble(a)
  {
    var s: Bytes := [a, b];
    BlankIs(a);
    assert SkipSpaces(s, 0) == 0;
    if IsHexDigit(b) {
      TwoDigits(a, b);
      assert HexRunEnd(s, 0) == HexRunEnd(s, 1) == 2 && s[0..2] == s;
    } else {
      OneDigit(a);
      assert HexRunEnd(s, 0) == HexRunEnd(s, 1) == 1 && s[0..1] == [a];
    }
  }

  lemma PrefixedSum(a: byte, b: byte)
    requires !IsHexDigit(a) && IsHexDigit(b) && (IsSpace(a) || a == '+' || a == '-')
    ensures StrToULL([a, b]).0 % 256 == if a == '-' then (256 - HexToNibble(b)) % 256 else HexToNibble(b)
  {
    var s: Bytes := [a, b];
    BlankIs(b);
    OneDigit(b);
    assert HexRunEnd(s, 1) == HexRunEnd(s, 2) == 2 && s[1..2] == [b];
    assert SkipSpaces(s, 1) == 1;
  }

  lemma NoSum(a: byte, b: byte)
    requires !IsHexDigit(a) && !(IsHexDigit(b) && (IsSpace(a) || a == '+' || a == '-'))
    ensures StrToULL([a, b]).0 == 0
  {
    var s: Bytes := [a, b];
    assert HexRunEnd(s, 0) == 0 && HexRunEnd(s, 2) == 2;
    assert SkipSpaces(s, 2) == 2;
  }

  lemma SumOfIs(a: byte, b: byte)
    ensures StrToULL([a, b]).0 % 256 == SumOf(a, b)
  {
    DigitIs(a);
    DigitIs(b);
    BlankIs(a);
    if IsHexDigit(a) {
      PlainSum(a, b);
    } else if IsHexDigit(b) && (IsSpace(a) || a == '+' || a == '-') {
      PrefixedSum(a, b);
    } else {
      NoSum(a, b);
    }
  }

  /** The verdict on a frame: its two characters are the sum of the codes modulo 256. */
  predicate Agrees(text: Bytes, a: byte, b: byte) {
    SumOf(a, b) == CodeSum(text, |text|) % 256
  }

  lemma AgreesIs(text: Bytes, a: byte, b: byte)
    ensures ChecksumAgrees(text, [a, b]) <==> Agrees(text, a, b)
  {
    SumOfIs(a, b);
    CodeSumIs(text, |text|);
    assert text[..|text|] == text;
  }

  // ---------------------------------------------------------------------------
  // Streams
  // ---------------------------------------------------------------------------

  datatype Item = Junk(c: byte) | Lone(c: byte) | Frame(text: Bytes, a: byte, b: byte)

  predicate IsLone(c: byte) {
    c in {'+', '-', '\U{03}'}
  }

  predicate IsItem(item: Item) {
    match item
    case Junk(c) => c != '$' && !IsLone(c)
    case Lone(c) => IsLone(c)
    case Frame(text, _, _) => '#' !in text
  }

  function TextOf(item: Item): Bytes {
    match item
    case Junk(c) => [c]
    case Lone(c) => [c]
    case Frame(text, a, b) => ['$'] + text + ['#'] + [a, b]
  }

  /** The packet an item stands for, if any. */
  function PacketsOf(item: Item): seq<Packet> {
    match item
    case Junk(_) => []
    case Lone(c) => [Packet([c], true)]
    case Frame(text, a, b) => [Packet(text, Agrees(text, a, b))]
  }

  function Written(items: seq<Item>): Bytes {
    if items == [] then [] else TextOf(items[0]) + Written(items[1..])
  }

  function Meant(items: seq<Item>): seq<Packet> {
    if items == [] then [] else PacketsOf(items[0]) + Meant(items[1..])
  }

  /** A frame that is not complete yet, or nothing. */
  datatype Rest = Nothing | Open(text: Bytes) | Summing(text: Bytes, got: Bytes)

  predicate IsRest(rest: Rest) {
    match rest
    case Nothing => true
    case Open(text) => '#' !in text
    case Summing(text, got) => '#' !in text && |got| < 2
  }

  function RestText(rest: Rest): Bytes {
    match rest
    case Nothing => []
    case Open(text) => ['$'] + text
    case Summing(text, got) => ['$'] + text + ['#'] + got
  }

  function RestPhase(rest: Rest): Phase {
    match rest
    case Nothing => Idle
    case Open(text) => Body(text)
    case Summing(text, got) => Sum(text, got)
  }

  lemma RunOne(c: byte)
    ensures Run(Idle, [c]) == Outcome(Step(Idle, c).phase, Step(Idle, c).packets)
  {
    var data := [c];
    assert RunBetween(Step(Idle, c).phase, data, 1, 1) == Outcome(Step(Idle, c).phase, []);
    assert Step(Idle, c).packets + [] == Step(Idle, c).packets;
  }

  lemma ItemMeans(item: Item)
    requires IsItem(item)
    ensures Run(Idle, TextOf(item)) == Outcome(Idle, PacketsOf(item))
  {
    match item
    case Junk(c) => RunOne(c);
    case Lone(c) => RunOne(c);
    case Frame(text, a, b) =>
      RunFrame(text, [a, b]);
      AgreesIs(text, a, b);
  }

  /** What is left over delivers nothing. */
  lemma RestMeans(rest: Rest)
    requires IsRest(rest)
    ensures Run(Idle, RestText(rest)) == Outcome(RestPhase(rest), [])
  {
    match rest
    case Nothing =>
      assert Run(Idle, []) == Outcome(Idle, []);
    case Open(text) =>
      var data := RestText(rest);
      assert forall k :: 1 <= k < |data| ==> data[k] == text[k - 1];
      FrameRun(Idle, data, 0, |data|);
      assert data[1..|data|] == text;
    case Summing(text, got) =>
      var data := RestText(rest);
      assert forall k :: 1 <= k <= |text| ==> data[k] == text[k - 1];
      FrameRun(Idle, data, 0, 1 + |text|);
      assert data[1..1 + |text|] == text && data[2 + |text|..|data|] == got;
  }

  /** The framer delivers exactly the packets written, in order, for every such stream. */
  lemma {:induction false} StreamMeans(items: seq<Item>, rest: Rest)
    requires (forall item <- items :: IsItem(item)) && IsRest(rest)
    ensures Run(Idle, Written(items) + RestText(rest)) == Outcome(RestPhase(rest), Meant(items))
  {
    if items == [] {
      RestMeans(rest);
      assert [] + RestText(rest) == RestText(rest);
    } else {
      var tail := Written(items[1..]) + RestText(rest);
      StreamMeans(items[1..], rest);
      ItemMeans(items[0]);
      RunAppend(Idle, TextOf(items[0]), tail);
      assert Written(items) + RestText(rest) == TextOf(items[0]) + tail;
    }
  }

  /** The bytes of the next chunk that the frame in progress still takes, if it has its
      '#' already. */
  function Claimed(rest: Rest): nat {
    if rest.Summing? then 2 - (if |rest.got| < 2 then |rest.got| else 2) else 0
  }

  /** The next chunk is reported exactly when no frame is open and, past the bytes that
      complete a checksum, it has some and none that starts a packet. The report is those
      bytes. */
  lemma ChunkReported(items: seq<Item>, rest: Rest, chunk: Bytes)
    requires (forall item <- items :: IsItem(item)) && IsRest(rest)
    ensures var n, report := Claimed(rest), JunkReport(Run(Idle, Written(items) + RestText(rest)).phase, chunk);
            if !rest.Open? && n < |chunk| && (forall c <- chunk[n..] :: c !in {'$', '+', '-', '\U{03}'})
            then report == [chunk[n..]] else report == []
  {
    StreamMeans(items, rest);
    var n := Claimed(rest);
    if n < |chunk| {
      JunkIs(chunk, n);
    }
  }

  lemma JunkIs(chunk: Bytes, n: nat)
    requires n <= |chunk|
    ensures IsJunk(chunk, n, |chunk|) <==> forall c <- chunk[n..] :: c !in {'$', '+', '-', '\U{03}'}
  {
    if forall c <- chunk[n..] :: c !in {'$', '+', '-', '\U{03}'} {
      forall k | n <= k < |chunk| ensures !IsStart(chunk[k]) {
        assert chunk[n..][k - n] == chunk[k] && chunk[k] in chunk[n..];
      }
    }
  }

  // ---------------------------------------------------------------------------
  // Every stream is one of these
  // ---------------------------------------------------------------------------

  lemma CutFrame(data: Bytes, hash: nat)
    requires hash + 3 <= |data|
    ensures data == data[..hash] + [data[hash]] + [data[hash + 1], data[hash + 2]] + data[hash + 3..]
  {
    assert data[..hash] + [data[hash]] == data[..hash + 1];
    assert data[..hash + 1] + [data[hash + 1], data[hash + 2]] == data[..hash + 3];
  }

  /** The item a stream starts with, if it is complete. */
  lemma FirstItem(data: Bytes) returns (item: Option<Item>, rest: Rest, n: nat)
    requires data != []
    ensures item.Some? ==> IsItem(item.value) && 0 < n <= |data| && data == TextOf(item.value) + data[n..]
    ensures item.None? ==> IsRest(rest) && data == RestText(rest)
  {
    item, rest, n := None, Nothing, 0;
    if data[0] != '$' {
      item, n := Some(if IsLone(data[0]) then Lone(data[0]) else Junk(data[0])), 1;
      assert data == [data[0]] + data[1..];
    } else {
      var hash := FindFrom(data, '#', 1);
      var text := data[1..hash];
      assert '#' !in text && data[..hash] == ['$'] + text;
      if hash == |data| {
        rest := Open(text);
      } else if |data| < hash + 3 {
        rest := Summing(text, data[hash + 1..]);
        assert data == data[..hash] + [data[hash]] + data[hash + 1..];
      } else {
        item, n := Some(Frame(text, data[hash + 1], data[hash + 2])), hash + 3;
        CutFrame(data, hash);
      }
    }
  }

  lemma WrittenMore(item: Item, more: seq<Item>, rest: Rest, tail: Bytes)
    requires tail == Written(more) + RestText(rest)
    ensures Written([item] + more) + RestText(rest) == TextOf(item) + tail
  {
    assert ([item] + more)[1..] == more;
    Associate(TextOf(item), Written(more), RestText(rest));
  }

  lemma {:induction false} Split(data: Bytes) returns (items: seq<Item>, rest: Rest)
    ensures (forall item <- items :: IsItem(item)) && IsRest(rest) && data == Written(items) + RestText(rest)
    decreases |data|
  {
    items, rest := [], Nothing;
    if data != [] {
      var item, left, n := FirstItem(data);
      if item.None? {
        rest := left;
        assert [] + RestText(rest) == RestText(rest);
      } else {
        var more;
        more, rest := Split(data[n..]);
        items := [item.value] + more;
        WrittenMore(item.value, more, rest, data[n..]);
      }
    }
  }

  /** So what StreamMeans says holds of every stream. */
  lemma EveryStream(data: Bytes) returns (items: seq<Item>, rest: Rest)
    ensures (forall item <- items :: IsItem(item)) && IsRest(rest) && data == Written(items) + RestText(rest)
    ensures Run(Idle, data) == Outcome(RestPhase(rest), Meant(items))
  {
    items, rest := Split(data);
    StreamMeans(items, rest);
  }
}
