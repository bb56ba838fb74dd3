/** Escaping, framing and sending, and the whole path from `send` on one side to
    unescaped payloads on the other. */
module Transport {
  import opened Common
  import opened Bytes
  import opened Framing
  import Numbers
  import Streams

  // ---------------------------------------------------------------------------
  // Escaping
  // ---------------------------------------------------------------------------

  predicate IsSpecial(c: byte) {
    c == '$' || c == '#' || c == '}' || c == '*'
  }

  function EscapeByte(c: byte): Bytes {
    if IsSpecial(c) then ['}', ByteOf(c as int - 0x20)] else [c]
  }

  function UnescapeByte(c: byte): byte {
    ByteOf((c as int + 0x20) % 256)
  }

  /** The escaped form of data[i..]. */
  function EscapedFrom(data: Bytes, i: nat): Bytes
    requires i <= |data|
    decreases |data| - i
  {
    if i == |data| then [] else EscapeByte(data[i]) + EscapedFrom(data, i + 1)
  }

  function Escaped(data: Bytes): Bytes {
    EscapedFrom(data, 0)
  }

  /** From `i` on, every '}' that opens an escape is followed by a byte. */
  predicate CompleteFrom(data: Bytes, i: nat)
    requires i <= |data|
    decreases |data| - i
  {
    i == |data| || if data[i] == '}' then i + 2 <= |data| && CompleteFrom(data, i + 2) else CompleteFrom(data, i + 1)
  }

  predicate EscapesComplete(data: Bytes) {
    CompleteFrom(data, 0)
  }

  /** data[i..] with its escapes undone. */
  function UnescapedFrom(data: Bytes, i: nat): Bytes
    requires i <= |data| && CompleteFrom(data, i)
    decreases |data| - i
  {
    if i == |data| then []
    else if data[i] == '}' then [UnescapeByte(data[i + 1])] + UnescapedFrom(data, i + 2)
    else [data[i]] + UnescapedFrom(data, i + 1)
  }

  function Unescaped(data: Bytes): Bytes
    requires EscapesComplete(data)
  {
    UnescapedFrom(data, 0)
  }

  function FindSpecial(data: Bytes, from: nat): (i: nat)
    requires from <= |data|
    ensures from <= i <= |data|
    ensures forall k :: from <= k < i ==> !IsSpecial(data[k])
    ensures i < |data| ==> IsSpecial(data[i])
    decreases |data| - from
  {
    if from == |data| || IsSpecial(data[from]) then from else FindSpecial(data, from + 1)
  }

  /** Appends data[first..last] byte by byte. */
  method CopyRun(before: Bytes, data: Bytes, first: nat, last: nat) returns (out: Bytes)
    requires first <= last <= |data|
    ensures out == before + data[first..last]
  {
    out := before;
    for i := first to last
      invariant out == before + data[first..i]
    {
      out := out + [data[i]];
    }
  }

  /** Plain bytes escape to themselves. */
  lemma {:induction false} EscapedRun(out: Bytes, data: Bytes, first: nat, last: nat)
    requires first <= last <= |data| && forall k :: first <= k < last ==> !IsSpecial(data[k])
    ensures out + EscapedFrom(data, first) == out + data[first..last] + EscapedFrom(data, last)
    decreases last - first
  {
    if first == last {
      assert out + data[first..last] == out;
    } else {
      var next := out + [data[first]];
      EscapedRun(next, data, first + 1, last);
      assert next + data[first + 1..last] == out + data[first..last];
      assert next + EscapedFrom(data, first + 1) == out + ([data[first]] + EscapedFrom(data, first + 1));
    }
  }

  /** `out` is the escaped form of what comes before data[i..]. */
  predicate EscapedBefore(data: Bytes, i: nat, out: Bytes)
    requires i <= |data|
  {
    out + EscapedFrom(data, i) == Escaped(data)
  }

  lemma EscapedBeforeRun(data: Bytes, first: nat, last: nat, out: Bytes)
    requires first <= last <= |data| && (forall k :: first <= k < last ==> !IsSpecial(data[k])) && EscapedBefore(data, first, out)
    ensures EscapedBefore(data, last, out + data[first..last])
  {
    EscapedRun(out, data, first, last);
  }

  lemma EscapedBeforeSpecial(data: Bytes, i: nat, out: Bytes)
    requires i < |data| && IsSpecial(data[i]) && EscapedBefore(data, i, out)
    ensures EscapedBefore(data, i + 1, out + ['}', ByteOf(data[i] as int - 0x20)])
  {
    var e := EscapeByte(data[i]);
    assert out + (e + EscapedFrom(data, i + 1)) == out + e + EscapedFrom(data, i + 1);
  }

  lemma EscapedBeforeAll(data: Bytes, out: Bytes)
    requires EscapedBefore(data, |data|, out)
    ensures out == Escaped(data)
  {
    assert out + [] == out;
  }

  /** Copies runs of plain bytes and rewrites the special ones between them. */
  method Escape(data: Bytes) returns (out: Bytes)
    ensures out == Escaped(data)
  {
    out := [];
    var first := 0;
    var last := FindSpecial(data, first);
    assert [] + Escaped(data) == Escaped(data);
    while last < |data|
      invariant first <= last <= |data| && last == FindSpecial(data, first) && EscapedBefore(data, first, out)
      decreases |data| - first
    {
      EscapedBeforeRun(data, first, last, out);
      out := CopyRun(out, data, first, last);
      EscapedBeforeSpecial(data, last, out);
      out := out + ['}', ByteOf(data[last] as int - 0x20)];
      last := last + 1;
      first := last;
      last := FindSpecial(data, first);
    }
    EscapedBeforeRun(data, first, |data|, out);
    out := CopyRun(out, data, first, |data|);
    EscapedBeforeAll(data, out);
  }

  /** Bytes other than '}' unescape to themselves. */
  lemma {:induction false} UnescapedRun(out: Bytes, data: Bytes, first: nat, last: nat)
    requires first <= last <= |data| && Lacks(data, '}', first, last) && CompleteFrom(data, first)
    ensures CompleteFrom(data, last)
    ensures out + UnescapedFrom(data, first) == out + data[first..last] + UnescapedFrom(data, last)
    decreases last - first
  {
    if first == last {
      assert out + data[first..last] == out;
    } else {
      var next := out + [data[first]];
      UnescapedRun(next, data, first + 1, last);
      assert next + data[first + 1..last] == out + data[first..last];
      assert next + UnescapedFrom(data, first + 1) == out + ([data[first]] + UnescapedFrom(data, first + 1));
    }
  }

  lemma {:induction false} CompleteRun(data: Bytes, first: nat, last: nat)
    requires first <= last <= |data| && Lacks(data, '}', first, last)
    ensures CompleteFrom(data, first) <==> CompleteFrom(data, last)
    decreases last - first
  {
    if first < last {
      CompleteRun(data, first + 1, last);
    }
  }

  /** `out` is what comes before data[i..]. */
  predicate Before(data: Bytes, i: nat, out: Bytes)
    requires i <= |data|
  {
    && (EscapesComplete(data) <==> CompleteFrom(data, i))
    && (CompleteFrom(data, i) ==> out + UnescapedFrom(data, i) == Unescaped(data))
  }

  lemma BeforeRun(data: Bytes, first: nat, last: nat, out: Bytes)
    requires first <= last <= |data| && Lacks(data, '}', first, last) && Before(data, first, out)
    ensures Before(data, last, out + data[first..last])
  {
    CompleteRun(data, first, last);
    if CompleteFrom(data, first) {
      UnescapedRun(out, data, first, last);
    }
  }

  lemma BeforeEscape(data: Bytes, i: nat, out: Bytes)
    requires i + 2 <= |data| && data[i] == '}' && Before(data, i, out)
    ensures Before(data, i + 2, out + [UnescapeByte(data[i + 1])])
  {
    if CompleteFrom(data, i) {
      assert out + [UnescapeByte(data[i + 1])] + UnescapedFrom(data, i + 2) == out + UnescapedFrom(data, i);
    }
  }

  /** Reads the byte after each '}' without looking; None stands for a read past the
      end. */
  method Unescape(data: Bytes) returns (result: Option<Bytes>)
    ensures result == if EscapesComplete(data) then Some(Unescaped(data)) else None
  {
    var out := [];
    var first := 0;
    var last := FindFrom(data, '}', first);
    while last < |data|
      invariant first <= last <= |data| && last == FindFrom(data, '}', first) && Before(data, first, out)
      decreases |data| - first
    {
      BeforeRun(data, first, last, out);
      out := CopyRun(out, data, first, last);
      if last + 1 == |data| {
        return None;
      }
      BeforeEscape(data, last, out);
      out := out + [UnescapeByte(data[last + 1])];
      last := last + 2;
      first := last;
      last := FindFrom(data, '}', first);
    }
    BeforeRun(data, first, |data|, out);
    out := CopyRun(out, data, first, |data|);
    assert out + [] == out;
    return Some(out);
  }

  /** Whatever precedes it, the escaped form of data[i..] unescapes to data[i..],
      and its escapes have bit 5 clear. */
  lemma {:induction false} RoundTripFrom(before: Bytes, data: Bytes, i: nat)
    requires i <= |data|
    ensures var text := before + EscapedFrom(data, i);
            && CompleteFrom(text, |before|)
            && UnescapedFrom(text, |before|) == data[i..]
            && ClearFrom(text, |before|)
    decreases |data| - i
  {
    if i < |data| {
      var e := EscapeByte(data[i]);
      RoundTripFrom(before + e, data, i + 1);
      assert before + e + EscapedFrom(data, i + 1) == before + EscapedFrom(data, i);
      assert data[i..] == [data[i]] + data[i + 1..];
    }
  }

  /** Escaping loses nothing. */
  lemma RoundTrip(data: Bytes)
    ensures EscapesComplete(Escaped(data)) && Unescaped(Escaped(data)) == data
    ensures EscapesClear(Escaped(data))
  {
    RoundTripFrom([], data, 0);
    assert [] + Escaped(data) == Escaped(data) && data[0..] == data;
  }

  predicate IsClean(text: Bytes) {
    forall k :: 0 <= k < |text| ==> text[k] != '$' && text[k] != '#' && text[k] != '*'
  }

  /** Escaped text holds no '$', '#' or '*'. */
  lemma {:induction false} EscapedIsClean(data: Bytes, i: nat)
    requires i <= |data|
    ensures IsClean(EscapedFrom(data, i))
    decreases |data| - i
  {
    if i < |data| {
      EscapedIsClean(data, i + 1);
      CleanConcat(EscapeByte(data[i]), EscapedFrom(data, i + 1));
    }
  }

  lemma CleanConcat(a: Bytes, b: Bytes)
    requires IsClean(a) && IsClean(b)
    ensures IsClean(a + b)
  {
  }

  lemma {:induction false} EscapedShift(c: byte, rest: Bytes, i: nat)
    requires i <= |rest|
    ensures EscapedFrom([c] + rest, i + 1) == EscapedFrom(rest, i)
    decreases |rest| - i
  {
    if i < |rest| {
      assert ([c] + rest)[i + 1] == rest[i];
      EscapedShift(c, rest, i + 1);
    }
  }

  /** Escaping, byte by byte. */
  lemma EscapedMeans(c: byte, rest: Bytes)
    ensures Escaped([]) == []
    ensures Escaped([c] + rest) == match c
                                   case '$' => ['}', '\U{04}'] + Escaped(rest)
                                   case '#' => ['}', '\U{03}'] + Escaped(rest)
                                   case '}' => ['}', ']'] + Escaped(rest)
                                   case '*' => ['}', '\n'] + Escaped(rest)
                                   case _ => [c] + Escaped(rest)
  {
    EscapedShift(c, rest, 0);
  }

  lemma {:induction false} UnescapedShift(before: Bytes, rest: Bytes, i: nat)
    requires i <= |rest|
    ensures CompleteFrom(before + rest, |before| + i) <==> CompleteFrom(rest, i)
    ensures CompleteFrom(rest, i) ==> UnescapedFrom(before + rest, |before| + i) == UnescapedFrom(rest, i)
    decreases |rest| - i
  {
    if i < |rest| {
      assert (before + rest)[|before| + i] == rest[i];
      if rest[i] != '}' {
        UnescapedShift(before, rest, i + 1);
      } else if i + 2 <= |rest| {
        UnescapedShift(before, rest, i + 2);
      }
    }
  }

  /** Unescaping likewise: a '}' and the byte after it stand for that byte's code plus 32,
      modulo 256. */
  lemma UnescapedMeans(c: byte, d: byte, rest: Bytes)
    ensures EscapesComplete([]) && Unescaped([]) == [] && !EscapesComplete(['}'])
    ensures c != '}' ==> (EscapesComplete([c] + rest) <==> EscapesComplete(rest))
    ensures c != '}' && EscapesComplete(rest) ==> Unescaped([c] + rest) == [c] + Unescaped(rest)
    ensures EscapesComplete(['}', d] + rest) <==> EscapesComplete(rest)
    ensures EscapesComplete(rest) ==>
              Unescaped(['}', d] + rest) == [if d as int < 224 then (d as int + 32) as char else (d as int - 224) as char] + Unescaped(rest)
  {
    UnescapedShift([c], rest, 0);
    UnescapedShift(['}', d], rest, 0);
  }

  // The protocol defines the escaped byte as the original XOR 0x20; the code adds
  // 0x20 instead. The two agree exactly on escapes whose bit 5 is clear.

  predicate Bit5Clear(c: byte) {
    c as int / 32 % 2 == 0
  }

  function XorByte(c: byte): byte {
    if Bit5Clear(c) then ByteOf(c as int + 32) else ByteOf(c as int - 32)
  }

  function XorUnescapedFrom(data: Bytes, i: nat): Bytes
    requires i <= |data| && CompleteFrom(data, i)
    decreases |data| - i
  {
    if i == |data| then []
    else if data[i] == '}' then [XorByte(data[i + 1])] + XorUnescapedFrom(data, i + 2)
    else [data[i]] + XorUnescapedFrom(data, i + 1)
  }

  predicate ClearFrom(data: Bytes, i: nat)
    requires i <= |data| && CompleteFrom(data, i)
    decreases |data| - i
  {
    i == |data| ||
    if data[i] == '}' then Bit5Clear(data[i + 1]) && ClearFrom(data, i + 2) else ClearFrom(data, i + 1)
  }

  predicate EscapesClear(data: Bytes)
    requires EscapesComplete(data)
  {
    ClearFrom(data, 0)
  }

  lemma {:induction false} UnescapeIsXor(data: Bytes, i: nat)
    requires i <= |data| && CompleteFrom(data, i)
    ensures UnescapedFrom(data, i) == XorUnescapedFrom(data, i) <==> ClearFrom(data, i)
    decreases |data| - i
  {
    if i < |data| {
      var n := if data[i] == '}' then i + 2 else i + 1;
      UnescapeIsXor(data, n);
      var u := if data[i] == '}' then UnescapeByte(data[i + 1]) else data[i];
      var x := if data[i] == '}' then XorByte(data[i + 1]) else data[i];
      ConsEqual(u, UnescapedFrom(data, n), x, XorUnescapedFrom(data, n));
    }
  }

  lemma ConsEqual(a: byte, s: Bytes, b: byte, t: Bytes)
    ensures [a] + s == [b] + t <==> a == b && s == t
  {
    assert ([a] + s)[1..] == s && ([b] + t)[1..] == t;
  }

  // ---------------------------------------------------------------------------
  // Frames
  // ---------------------------------------------------------------------------

  /** '$', the text, '#' and its checksum in two digits. */
  function Framed(text: Bytes): Bytes {
    ['$'] + text + ['#'] + HexText(Checksum(text), 2)
  }

  /** With sum the codes of the text added up, the last two characters are the lower-case
      digits for 16 and for 1 of the sum. */
  lemma FramedMeans(text: Bytes)
    ensures var sum := Streams.CodeSum(text, |text|);
            Framed(text) == ['$'] + text + ['#'] + [Numbers.DIGITS[sum / 16 % 16], Numbers.DIGITS[sum % 16]]
  {
    var sum := Streams.CodeSum(text, |text|);
    Streams.CodeSumIs(text, |text|);
    assert text[..|text|] == text;
    SumText(sum);
  }

  lemma LowByte(sum: nat)
    ensures sum % 256 / 16 == sum / 16 % 16 && sum % 256 % 16 == sum % 16
  {
    var q, r := sum / 256, sum % 256;
    assert sum == 16 * (16 * q) + r;
  }

  lemma SumText(sum: nat)
    ensures HexText(sum % 256, 2) == [Numbers.DIGITS[sum / 16 % 16], Numbers.DIGITS[sum % 16]]
  {
    HexPair(sum % 256);
    LowByte(sum);
    Numbers.NibbleMeans(sum / 16 % 16);
    Numbers.NibbleMeans(sum % 16);
  }

  class Channel {
    var sent: Bytes
    var connected: bool

    constructor ()
      ensures sent == [] && connected
    {
      sent, connected := [], true;
    }

    /** All of the data goes out, or none of it. */
    method Send(data: Bytes) returns (ok: bool)
      modifies this`sent
      ensures ok == connected && sent == old(sent) + (if connected then data else [])
    {
      ok := connected;
      if ok {
        sent := sent + data;
      }
    }
  }

  method BuildFrame(data: Bytes, escaped: bool) returns (frame: Bytes)
    ensures frame == Framed(if escaped then data else Escaped(data))
  {
    var csum;
    frame, csum := BuildPayload(data, escaped);
    frame := frame + ['#'] + HexText(csum, 2);
  }

  /** The opening and the payload, with its checksum. */
  method BuildPayload(data: Bytes, escaped: bool) returns (frame: Bytes, csum: nat)
    ensures frame == ['$'] + if escaped then data else Escaped(data)
    ensures csum == Checksum(if escaped then data else Escaped(data))
  {
    frame := ['$'];
    if !escaped && FindSpecial(data, 0) != |data| {
      var encoded := Escape(data);
      frame := frame + encoded;
      csum := ComputeChecksum(encoded);
    } else {
      if !escaped { EscapedPlain(data); }
      frame := CopyRun(frame, data, 0, |data|);
      assert data[0..|data|] == data;
      csum := ComputeChecksum(data);
    }
  }

  /** Text with nothing special in it is its own escaped form. */
  lemma EscapedPlain(data: Bytes)
    requires FindSpecial(data, 0) == |data|
    ensures Escaped(data) == data
  {
    EscapedRun([], data, 0, |data|);
    assert [] + data[0..|data|] + [] == data;
    assert [] + Escaped(data) == Escaped(data);
  }

  method Send(channel: Channel, data: Bytes, escaped: bool) returns (ok: bool)
    modifies channel`sent
    ensures ok == channel.connected
    ensures channel.sent
         == old(channel.sent) + (if channel.connected then Framed(if escaped then data else Escaped(data)) else [])
  {
    var frame := BuildFrame(data, escaped);
    ok := channel.Send(frame);
  }

  lemma ChecksumTextAgrees(text: Bytes)
    ensures ChecksumAgrees(text, HexText(Checksum(text), 2))
  {
    SumTextReads(Checksum(text));
  }

  lemma SumTextReads(sum: nat)
    requires sum < 256
    ensures StrToULL(HexText(sum, 2)).0 % 256 == sum
  {
    StrToULLOfByteText(sum);
  }

  /** A frame of escaped data starts with its only '$', and its only '#' is the
      one before the checksum. */
  lemma FrameDelimiters(data: Bytes, i: nat)
    requires i < |Framed(Escaped(data))|
    ensures Framed(Escaped(data))[i] == '$' <==> i == 0
    ensures Framed(Escaped(data))[i] == '#' <==> i == |Framed(Escaped(data))| - 3
  {
    EscapedIsClean(data, 0);
    var text := Escaped(data);
    var sum := HexText(Checksum(text), 2);
    if 0 < i <= |text| {
      assert Framed(text)[i] == text[i - 1];
    } else if i >= |text| + 2 {
      assert Framed(text)[i] == sum[i - |text| - 2];
    }
  }

  lemma FrameDecodes(data: Bytes)
    ensures Run(Idle, Framed(Escaped(data))) == Outcome(Idle, [Packet(Escaped(data), true)])
  {
    EscapedIsClean(data, 0);
    ChecksumTextAgrees(Escaped(data));
    RunFrame(Escaped(data), HexText(Checksum(Escaped(data)), 2));
  }

  /** Text holding a '#' is cut short at it. */
  lemma RawFrameCut(text: Bytes)
    requires !Lacks(text, '#', 0, |text|)
    ensures var packets := Run(Idle, Framed(text)).packets;
            packets != [] && |packets[0].payload| < |text|
  {
    var frame := Framed(text);
    assert forall k :: 1 <= k <= |text| ==> frame[k] == text[k - 1];
    var hash := 1 + FindFrom(text, '#', 0);
    assert Lacks(frame, '#', 0, hash);
    FrameRun(Idle, frame, 0, hash);
  }

  /** Text handed over as already escaped arrives as itself exactly when it holds
      no '#'. */
  lemma RawFrameDecodes(text: Bytes)
    ensures Run(Idle, Framed(text)) == Outcome(Idle, [Packet(text, true)]) <==> Lacks(text, '#', 0, |text|)
  {
    if Lacks(text, '#', 0, |text|) {
      ChecksumTextAgrees(text);
      RunFrame(text, HexText(Checksum(text), 2));
    } else {
      RawFrameCut(text);
    }
  }

  // ---------------------------------------------------------------------------
  // End to end
  // ---------------------------------------------------------------------------

  /** What the channel carries once these payloads have been sent. */
  function Stream(payloads: seq<Bytes>): Bytes {
    if payloads == [] then []
    else Stream(payloads[..|payloads| - 1]) + Framed(Escaped(payloads[|payloads| - 1]))
  }

  function ValidPackets(payloads: seq<Bytes>): (packets: seq<Packet>)
    ensures |packets| == |payloads|
    ensures forall i :: 0 <= i < |payloads| ==> packets[i] == Packet(Escaped(payloads[i]), true)
  {
    if payloads == [] then []
    else ValidPackets(payloads[..|payloads| - 1]) + [Packet(Escaped(payloads[|payloads| - 1]), true)]
  }

  lemma {:induction false} StreamDecodes(payloads: seq<Bytes>)
    ensures Run(Idle, Stream(payloads)) == Outcome(Idle, ValidPackets(payloads))
  {
    if payloads == [] {
      assert Run(Idle, []) == Outcome(Idle, []);
    } else {
      var init, last := payloads[..|payloads| - 1], payloads[|payloads| - 1];
      StreamDecodes(init);
      FrameDecodes(last);
      RunAppend(Idle, Stream(init), Framed(Escaped(last)));
    }
  }

  /** The consumer's side: each packet's payload, unescaped. */
  method UnescapeAll(packets: seq<Packet>, ghost payloads: seq<Bytes>) returns (received: seq<Bytes>, allValid: bool)
    requires packets == ValidPackets(payloads)
    ensures received == payloads && allValid
  {
    received, allValid := [], true;
    for i := 0 to |packets|
      invariant received == payloads[..i] && allValid
    {
      RoundTrip(payloads[i]);
      var data := Unescape(packets[i].payload);
      received := received + [data.value];
      allValid := allValid && packets[i].valid;
    }
  }

  /** Payloads framed by `send` and delivered in any chunks arrive, every one
      valid, in order, and unescape to what was sent. */
  method Deliver(payloads: seq<Bytes>, chunks: seq<Bytes>) returns (received: seq<Bytes>, allValid: bool)
    requires Concat(chunks) == Stream(payloads)
    ensures received == payloads && allValid
  {
    var d := new Delegate();
    var pp := new PacketProcessor(d);
    ParseStream(pp, chunks);
    StreamDecodes(payloads);
    assert d.packets == ValidPackets(payloads);
    received, allValid := UnescapeAll(d.packets, payloads);
  }
}
