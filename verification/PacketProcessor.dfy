/** The incremental packet framer, proved against a byte-at-a-time automaton. */
module Framing {
  import opened Bytes

  // ---------------------------------------------------------------------------
  // The reference: one byte at a time
  // ---------------------------------------------------------------------------

  /** Where a receiver stands between two bytes. */
  datatype Phase =
    | Idle
    | Body(text: Bytes)                // after '$', before '#'
    | Sum(payload: Bytes, got: Bytes)  // after '#', waiting for two checksum bytes

  datatype Packet = Packet(payload: Bytes, valid: bool)

  datatype Outcome = Outcome(phase: Phase, packets: seq<Packet>)

  /** ACK, NAK and the interrupt are packets of a single byte. */
  predicate IsSingle(c: byte) {
    c == '+' || c == '-' || c == '\U{03}'
  }

  predicate ChecksumAgrees(payload: Bytes, sum: Bytes) {
    StrToULL(sum).0 % 256 == Checksum(payload)
  }

  function Step(p: Phase, c: byte): Outcome {
    match p
    case Idle =>
      if IsSingle(c) then Outcome(Idle, [Packet([c], true)])
      else if c == '$' then Outcome(Body([]), [])
      else Outcome(Idle, [])
    case Body(text) =>
      if c == '#' then Outcome(Sum(text, []), []) else Outcome(Body(text + [c]), [])
    case Sum(payload, got) =>
      if |got| == 0 then Outcome(Sum(payload, [c]), [])
      else Outcome(Idle, [Packet(payload, ChecksumAgrees(payload, got + [c]))])
  }

  /** Packets already emitted, then the rest of a run. */
  function Then(emitted: seq<Packet>, rest: Outcome): Outcome {
    Outcome(rest.phase, emitted + rest.packets)
  }

  /** The automaton on data[i..j]. */
  function RunBetween(p: Phase, data: Bytes, i: nat, j: nat): Outcome
    requires i <= j <= |data|
    decreases j - i
  {
    if i == j then Outcome(p, [])
    else Then(Step(p, data[i]).packets, RunBetween(Step(p, data[i]).phase, data, i + 1, j))
  }

  function Run(p: Phase, data: Bytes): Outcome {
    RunBetween(p, data, 0, |data|)
  }

  lemma ThenConcat(a: seq<Packet>, b: seq<Packet>, rest: Outcome)
    ensures Then(a, Then(b, rest)) == Then(a + b, rest)
    ensures Then([], rest) == rest
  {
    assert a + (b + rest.packets) == a + b + rest.packets;
  }

  lemma {:induction false} RunSplit(p: Phase, data: Bytes, i: nat, j: nat, k: nat)
    requires i <= j <= k <= |data|
    ensures var first := RunBetween(p, data, i, j);
            RunBetween(p, data, i, k) == Then(first.packets, RunBetween(first.phase, data, j, k))
    decreases j - i
  {
    var first := RunBetween(p, data, i, j);
    var rest := RunBetween(first.phase, data, j, k);
    if i == j {
      ThenConcat([], [], rest);
    } else {
      var s := Step(p, data[i]);
      RunSplit(s.phase, data, i + 1, j, k);
      ThenConcat(s.packets, RunBetween(s.phase, data, i + 1, j).packets, rest);
    }
  }

  /** The automaton sees bytes, not where they stand. */
  lemma {:induction false} RunShifted(p: Phase, data: Bytes, i: nat, j: nat, data': Bytes, i': nat)
    requires i <= j <= |data| && i' + j - i <= |data'|
    requires forall k :: i <= k < j ==> data[k] == data'[i' + k - i]
    ensures RunBetween(p, data, i, j) == RunBetween(p, data', i', i' + j - i)
    decreases j - i
  {
    if i < j {
      RunShifted(Step(p, data[i]).phase, data, i + 1, j, data', i' + 1);
    }
  }

  lemma RunAppend(p: Phase, a: Bytes, b: Bytes)
    ensures Run(p, a + b) == Then(Run(p, a).packets, Run(Run(p, a).phase, b))
  {
    var all := a + b;
    RunShifted(p, all, 0, |a|, a, 0);
    RunSplit(p, all, 0, |a|, |all|);
    RunShifted(Run(p, a).phase, all, |a|, |all|, b, 0);
  }

  /** Everything up to a '#' is payload. */
  lemma {:induction false} RunBody(text: Bytes, data: Bytes, i: nat, j: nat)
    requires i <= j <= |data| && Lacks(data, '#', i, j)
    ensures RunBetween(Body(text), data, i, j) == Outcome(Body(text + data[i..j]), [])
    decreases j - i
  {
    if i == j {
      assert text + data[i..j] == text;
    } else {
      RunBody(text + [data[i]], data, i + 1, j);
      assert text + [data[i]] + data[i + 1..j] == text + data[i..j];
    }
  }

  /** The two bytes after '#' close the packet, whatever they are. */
  lemma {:induction false} RunSum(payload: Bytes, got: Bytes, data: Bytes, i: nat, j: nat)
    requires i <= j <= |data| && |got| < 2 && |got| + j - i <= 2
    ensures var all := got + data[i..j];
            RunBetween(Sum(payload, got), data, i, j)
            == if |all| < 2 then Outcome(Sum(payload, all), [])
               else Outcome(Idle, [Packet(payload, ChecksumAgrees(payload, all))])
    decreases j - i
  {
    if i == j {
      assert got + data[i..j] == got;
    } else {
      var step := Step(Sum(payload, got), data[i]);
      assert RunBetween(step.phase, data, j, j) == Outcome(step.phase, []);
      assert step.packets + [] == step.packets;
      if j == i + 1 {
        assert got + data[i..j] == got + [data[i]];
        assert got == [] ==> [data[i]] == got + [data[i]];
      } else {
        assert got + data[i..j] == [data[i]] + [data[j - 1]];
        RunSum(payload, [data[i]], data, i + 1, j);
        assert [data[i]] + data[i + 1..j] == got + data[i..j];
        ThenConcat([], [], RunBetween(step.phase, data, i + 1, j));
      }
    }
  }

  /** Past the '#' come the checksum bytes. */
  lemma RunHash(payload: Bytes, data: Bytes, hash: nat)
    requires hash < |data| && data[hash] == '#'
    ensures |data| < hash + 3 ==>
              RunBetween(Body(payload), data, hash, |data|) == Outcome(Sum(payload, data[hash + 1..|data|]), [])
    ensures hash + 3 <= |data| ==>
              RunBetween(Body(payload), data, hash, |data|)
              == Then([Packet(payload, ChecksumAgrees(payload, data[hash + 1..hash + 3]))],
                      RunBetween(Idle, data, hash + 3, |data|))
  {
    var stop := if |data| < hash + 3 then |data| else hash + 3;
    var sum := data[hash + 1..stop];
    RunSum(payload, [], data, hash + 1, stop);
    assert [] + sum == sum;
    RunSplit(Sum(payload, []), data, hash + 1, stop, |data|);
    ThenConcat([], [], RunBetween(Sum(payload, []), data, hash + 1, |data|));
    ThenConcat([], [], RunBetween(Idle, data, stop, |data|));
  }

  /** A whole frame read from the idle phase. */
  lemma RunFrame(payload: Bytes, sum: Bytes)
    requires Lacks(payload, '#', 0, |payload|) && |sum| == 2
    ensures Run(Idle, ['$'] + payload + ['#'] + sum)
         == Outcome(Idle, [Packet(payload, ChecksumAgrees(payload, sum))])
  {
    var frame := ['$'] + payload + ['#'] + sum;
    var hash := 1 + |payload|;
    assert frame[hash] == '#' && frame[1..hash] == payload && frame[hash + 1..hash + 3] == sum;
    assert forall k :: 1 <= k < hash ==> frame[k] == payload[k - 1];
    FrameRun(Idle, frame, 0, hash);
  }

  /** What the automaton does on the bytes of the '$' branch, for a '#' first
      found at `end`. */
  lemma FrameRun(p: Phase, data: Bytes, n: nat, end: nat)
    requires n < |data| && n <= end <= |data| && Lacks(data, '#', n, end)
    requires end < |data| ==> data[end] == '#'
    requires (p == Idle && data[n] == '$') || p.Body?
    ensures p == Idle ==> n < end
    ensures var payload := PayloadTo(p, data, n, end);
            && (end == |data| ==> RunBetween(p, data, n, |data|) == Outcome(Body(payload), []))
            && (end < |data| < end + 3 ==>
                  RunBetween(p, data, n, |data|) == Outcome(Sum(payload, data[end + 1..|data|]), []))
            && (end + 3 <= |data| ==>
                  RunBetween(p, data, n, |data|)
                  == Then([Packet(payload, ChecksumAgrees(payload, data[end + 1..end + 3]))],
                          RunBetween(Idle, data, end + 3, |data|)))
  {
    var body := if p.Body? then n else n + 1;
    var text: Bytes := if p.Body? then p.text else [];
    assert p == Idle ==> [] + data[body..end] == data[body..end];
    RunBody(text, data, body, end);
    RunSplit(Body(text), data, body, end, |data|);
    var rest := RunBetween(Body(text), data, body, |data|);
    var payload := PayloadTo(p, data, n, end);
    ThenConcat([], [], RunBetween(Body(payload), data, end, |data|));
    ThenConcat([], [], rest);
    assert RunBetween(p, data, n, |data|) == rest;
    if end < |data| {
      RunHash(payload, data, end);
    }
  }

  /** The payload read so far when the '$' branch, entered at `n`, has looked as
      far as `end`. */
  function PayloadTo(p: Phase, data: Bytes, n: nat, end: nat): Bytes
    requires n <= end <= |data|
  {
    if p.Body? then p.text + data[n..end] else if n < end then data[n + 1..end] else []
  }

  // ---------------------------------------------------------------------------
  // Streams cut into chunks
  // ---------------------------------------------------------------------------

  function Concat(chunks: seq<Bytes>): Bytes {
    if chunks == [] then [] else Concat(chunks[..|chunks| - 1]) + chunks[|chunks| - 1]
  }

  // ---------------------------------------------------------------------------
  // What the delegate is told
  // ---------------------------------------------------------------------------

  /** The receiver of packets and of reports of bytes that start nothing. */
  class Delegate {
    var packets: seq<Packet>
    var junk: seq<Bytes>

    constructor ()
      ensures packets == [] && junk == []
    {
      packets, junk := [], [];
    }

    method OnPacketData(data: Bytes, valid: bool)
      modifies this`packets
      ensures packets == old(packets) + [Packet(data, valid)]
    {
      packets := packets + [Packet(data, valid)];
    }

    method OnInvalidData(data: Bytes)
      modifies this`junk
      ensures junk == old(junk) + [data]
    {
      junk := junk + [data];
    }
  }

  predicate IsStart(c: byte) {
    c == '$' || IsSingle(c)
  }

  /** No byte of data[from..to] starts a packet. */
  predicate IsJunk(data: Bytes, from: nat, to: nat)
    requires from <= to <= |data|
  {
    forall k :: from <= k < to ==> !IsStart(data[k])
  }

  /** How many bytes of the next chunk the packet in progress still claims. */
  function Pending(p: Phase): nat {
    if p.Sum? && |p.got| < 2 then 2 - |p.got| else 0
  }

  /** The report a chunk ends with: a chunk whose bytes, past those completing a
      checksum, are all junk is reported once, as a whole. */
  function JunkReport(p: Phase, data: Bytes): seq<Bytes> {
    if !p.Body? && Pending(p) < |data| && IsJunk(data, Pending(p), |data|)
    then [data[Pending(p)..]]
    else []
  }

  // ---------------------------------------------------------------------------
  // The framer
  // ---------------------------------------------------------------------------

  class PacketProcessor {
    var buffer: Bytes
    var nreqs: nat
    var needhash: bool
    var delegate: Delegate?
    ghost var phase: Phase

    ghost predicate Valid()
      reads this
    {
      match phase
      case Idle =>
        buffer == [] && nreqs == 0 && !needhash
      case Body(text) =>
        buffer == ['$'] + text && Lacks(text, '#', 0, |text|) && nreqs == 0 && needhash
      case Sum(payload, got) =>
        && IsFrame(buffer, payload, got)
        && |got| < 2 && nreqs == 2 - |got| && !needhash
    }

    constructor (d: Delegate?)
      ensures Valid() && phase == Idle && delegate == d
    {
      buffer, nreqs, needhash, delegate, phase := [], 0, false, d, Idle;
    }

    /** Strips the frame around the payload and checks its checksum. */
    method Validate(ghost payload: Bytes, ghost sum: Bytes) returns (valid: bool)
      requires (|buffer| == 1 && IsSingle(buffer[0]) && payload == buffer) || IsFrame(buffer, payload, sum)
      modifies this`buffer
      ensures buffer == payload
      ensures valid == (IsSingle(old(buffer)[0]) || ChecksumAgrees(payload, sum))
    {
      if |buffer| == 0 {
        return false;
      }
      if IsSingle(buffer[0]) {
        return true;
      }
      var csoff := FindFrom(buffer, '#', 0);
      FrameParts(buffer, payload, sum);
      var csum := StrToULL(buffer[csoff + 1..]).0 % 256;
      buffer := buffer[1..];
      buffer := buffer[..csoff - 1];
      var ourSum := ComputeChecksum(buffer);
      valid := csum == ourSum;
    }

    /** Hands the completed packet to the delegate and starts over. */
    method Process(ghost payload: Bytes, ghost sum: Bytes)
      requires delegate != null && !needhash
      requires (|buffer| == 1 && IsSingle(buffer[0]) && payload == buffer) || IsFrame(buffer, payload, sum)
      modifies this`buffer, this`nreqs, this`phase, delegate`packets
      ensures Valid() && phase == Idle
      ensures delegate.packets == old(delegate.packets)
                + [Packet(payload, IsSingle(old(buffer)[0]) || ChecksumAgrees(payload, sum))]
    {
      var valid := Validate(payload, sum);
      delegate.OnPacketData(buffer, valid);
      buffer := [];
      nreqs := 0;
      phase := Idle;
    }

    /** The '$' branch: reads up to the checksum of one frame, either completing
        it (`end` is just past it) or putting what there is of it aside. */
    method TakeFrame(data: Bytes, n: nat) returns (end: nat, complete: bool, ghost p: Packet)
      requires Valid() && delegate != null && n < |data|
      requires phase.Body? || (phase == Idle && data[n] == '$')
      modifies this`buffer, this`nreqs, this`needhash, this`phase, delegate`packets
      ensures Valid()
      ensures !complete ==>
                delegate.packets == old(delegate.packets) && RunBetween(old(phase), data, n, |data|) == Outcome(phase, [])
      ensures complete ==> n < end <= |data| && phase == Idle && delegate.packets == old(delegate.packets) + [p]
      ensures complete ==>
                RunBetween(old(phase), data, n, |data|) == Then([p], RunBetween(Idle, data, end, |data|))
    {
      p := Packet([], false);
      needhash := false;
      var hash := FindFrom(data, '#', n);
      FrameRun(phase, data, n, hash);
      FrameBuffer(phase, buffer, data, n, hash);
      ghost var payload := PayloadTo(phase, data, n, hash);
      end := |data|;
      complete := hash + 3 <= |data|;
      if complete {
        end := hash + 3;
        buffer := buffer + data[n..end];
        p := Packet(payload, ChecksumAgrees(payload, data[end - 2..end]));
        Process(payload, data[end - 2..end]);
      } else if hash < |data| {
        buffer := buffer + data[n..|data|];
        nreqs := 2 - (|data| - (hash + 1));
        phase := Sum(payload, data[hash + 1..|data|]);
      } else {
        buffer := buffer + data[n..|data|];
        needhash := true;
        phase := Body(payload);
      }
    }

    /** Completes the checksum left over from the previous chunk. */
    method TakeChecksum(data: Bytes) returns (complete: bool, ghost p: Packet)
      requires Valid() && delegate != null && data != [] && nreqs != 0
      modifies this`buffer, this`nreqs, this`phase, delegate`packets
      ensures Valid() && complete == (old(nreqs) <= |data|)
      ensures !complete ==> delegate.packets == old(delegate.packets) && Run(old(phase), data) == Outcome(phase, [])
      ensures complete ==> phase == Idle && delegate.packets == old(delegate.packets) + [p]
      ensures complete ==> Run(old(phase), data) == Then([p], RunBetween(Idle, data, old(nreqs), |data|))
    {
      var n := nreqs;
      p := Packet([], false);
      ghost var payload, got := phase.payload, phase.got;
      var take := if n < |data| then n else |data|;
      RunSum(payload, got, data, 0, take);
      RunSplit(phase, data, 0, take, |data|);
      FrameGrows(buffer, payload, got, data[0..take]);
      buffer := buffer + data[0..take];
      if |data| < nreqs {
        nreqs := nreqs - |data|;
        if nreqs != 0 {
          phase := Sum(payload, got + data[0..take]);
          complete := false;
          return;
        }
      }
      p := Packet(payload, ChecksumAgrees(payload, got + data[0..take]));
      Process(payload, got + data[0..take]);
      complete := true;
    }

    /** ACK, NAK or interrupt: a packet of its own. */
    method TakeSingle(data: Bytes, n: nat) returns (ghost p: Packet)
      requires Valid() && phase == Idle && delegate != null && n < |data| && IsSingle(data[n])
      modifies this`buffer, this`nreqs, this`phase, delegate`packets
      ensures Valid() && phase == Idle
      ensures delegate.packets == old(delegate.packets) + [p]
      ensures RunBetween(Idle, data, n, |data|) == Then([p], RunBetween(Idle, data, n + 1, |data|))
    {
      p := Packet([data[n]], true);
      buffer := buffer + data[n..n + 1];
      assert buffer == [data[n]];
      Process([data[n]], []);
    }

    /** The scanning loop, from `first`. `parked` means it stopped with a frame
        put aside, `found` that it delivered at least one packet. */
    method Scan(data: Bytes, first: nat) returns (found: bool, parked: bool, ghost emitted: seq<Packet>)
      requires Valid() && delegate != null && first <= |data|
      requires phase == Idle || (phase.Body? && first < |data|)
      modifies this`buffer, this`nreqs, this`needhash, this`phase, delegate`packets
      ensures Valid() && RunBetween(old(phase), data, first, |data|) == Outcome(phase, emitted)
      ensures delegate.packets == old(delegate.packets) + emitted
      ensures found || parked ==> old(phase).Body? || !IsJunk(data, first, |data|)
      ensures !found && !parked ==> phase == old(phase) == Idle && emitted == [] && IsJunk(data, first, |data|)
    {
      var n := first;
      found, parked, emitted := false, false, [];
      ThenConcat([], [], RunBetween(phase, data, first, |data|));
      while n < |data|
        invariant first <= n <= |data|
        invariant Valid() && (phase == Idle || (phase == old(phase) && n == first))
        invariant delegate.packets == old(delegate.packets) + emitted
        invariant RunBetween(old(phase), data, first, |data|) == Then(emitted, RunBetween(phase, data, n, |data|))
        invariant found ==> n > first && (old(phase).Body? || !IsJunk(data, first, |data|))
        invariant !found ==> phase == old(phase) && emitted == [] && IsJunk(data, first, n)
        decreases |data| - n
      {
        var end := n + 1;
        ghost var p;
        if needhash || data[n] == '$' {
          var complete;
          end, complete, p := TakeFrame(data, n);
          if !complete {
            assert emitted + [] == emitted;
            parked := true;
            return;
          }
        } else if IsSingle(data[n]) {
          p := TakeSingle(data, n);
        } else {
          ThenConcat([], [], RunBetween(Idle, data, n + 1, |data|));
          n := n + 1;
          continue;
        }
        ThenConcat(emitted, [p], RunBetween(Idle, data, end, |data|));
        emitted := emitted + [p];
        found := true;
        n := end;
      }
      assert emitted + [] == emitted;
    }

    /** Consumes one chunk. The delegate hears exactly the packets the automaton
        emits on these bytes, in order, and the junk report if there is one. */
    method Parse(data: Bytes)
      requires Valid()
      modifies this`buffer, this`nreqs, this`needhash, this`phase, delegate
      ensures Valid()
      ensures delegate == null || data == [] ==>
                phase == old(phase) && (delegate != null ==> unchanged(delegate))
      ensures delegate != null ==>
                var r := Run(old(phase), data);
                && phase == r.phase
                && delegate.packets == old(delegate.packets) + r.packets
                && delegate.junk == old(delegate.junk) + JunkReport(old(phase), data)
    {
      var n := nreqs;
      if |data| == 0 || delegate == null {
        return;
      }
      if n != 0 && |data| != 0 {
        var complete, p := TakeChecksum(data);
        if !complete {
          return;
        }
      }
      var found, parked, rest := Scan(data, n);
      if parked {
        return;
      }
      if !found && n < |data| {
        if |buffer| == 0 && data[n] != '$' {
          delegate.OnInvalidData(data[n..]);
          return;
        }
        assert false;  // the append of leftover bytes is never reached
      }
    }
  }

  /** `frame` is '$', a payload without '#', '#', and the checksum text so far. */
  predicate IsFrame(frame: Bytes, payload: Bytes, sum: Bytes) {
    frame == ['$'] + payload + ['#'] + sum && Lacks(payload, '#', 0, |payload|)
  }

  lemma FrameParts(frame: Bytes, payload: Bytes, sum: Bytes)
    requires IsFrame(frame, payload, sum)
    ensures FindFrom(frame, '#', 0) == 1 + |payload| < |frame|
    ensures frame[1..][..|payload|] == payload && frame[2 + |payload|..] == sum
  {
    var i := FindFrom(frame, '#', 0);
    assert forall k :: 0 < k < 1 + |payload| ==> frame[k] == payload[k - 1];
    assert frame[1 + |payload|] == '#';
  }

  lemma FrameGrows(frame: Bytes, payload: Bytes, sum: Bytes, more: Bytes)
    requires IsFrame(frame, payload, sum)
    ensures IsFrame(frame + more, payload, sum + more)
  {
  }

  /** What the '$' branch leaves in the buffer. */
  lemma FrameBuffer(p: Phase, buffer: Bytes, data: Bytes, n: nat, end: nat)
    requires n < |data| && n <= end <= |data| && Lacks(data, '#', n, end)
    requires end < |data| ==> data[end] == '#'
    requires (p == Idle && buffer == [] && data[n] == '$' && n < end)
          || (p.Body? && buffer == ['$'] + p.text && Lacks(p.text, '#', 0, |p.text|))
    ensures var payload := PayloadTo(p, data, n, end);
            && Lacks(payload, '#', 0, |payload|)
            && buffer + data[n..end] == ['$'] + payload
            && forall stop :: end < stop <= |data| ==> IsFrame(buffer + data[n..stop], payload, data[end + 1..stop])
  {
    var payload := PayloadTo(p, data, n, end);
    assert buffer + data[n..end] == ['$'] + payload;
    forall stop | end < stop <= |data|
      ensures IsFrame(buffer + data[n..stop], payload, data[end + 1..stop])
    {
      assert data[n..stop] == data[n..end] + ['#'] + data[end + 1..stop];
    }
  }

  /** Feeds the chunks of a stream one after the other. However the stream was
      cut, the delegate hears the packets of the uncut stream. */
  method ParseStream(pp: PacketProcessor, chunks: seq<Bytes>)
    requires pp.Valid() && pp.delegate != null
    modifies pp, pp.delegate
    ensures pp.Valid() && pp.delegate == old(pp.delegate)
    ensures pp.phase == Run(old(pp.phase), Concat(chunks)).phase
    ensures pp.delegate.packets == old(pp.delegate.packets) + Run(old(pp.phase), Concat(chunks)).packets
  {
    for i := 0 to |chunks|
      invariant pp.Valid() && pp.delegate == old(pp.delegate)
      invariant pp.phase == Run(old(pp.phase), Concat(chunks[..i])).phase
      invariant pp.delegate.packets == old(pp.delegate.packets) + Run(old(pp.phase), Concat(chunks[..i])).packets
    {
      StreamStep(old(pp.phase), chunks, i, old(pp.delegate.packets));
      pp.Parse(chunks[i]);
    }
    assert chunks[..|chunks|] == chunks;
  }

  lemma StreamStep(p: Phase, chunks: seq<Bytes>, i: nat, base: seq<Packet>)
    requires i < |chunks|
    ensures var sofar := Run(p, Concat(chunks[..i]));
            var step := Run(sofar.phase, chunks[i]);
            var next := Run(p, Concat(chunks[..i + 1]));
            next.phase == step.phase && base + next.packets == base + sofar.packets + step.packets
  {
    assert chunks[..i + 1][..i] == chunks[..i];
    RunAppend(p, Concat(chunks[..i]), chunks[i]);
  }
}
