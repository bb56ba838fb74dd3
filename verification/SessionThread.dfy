/** The reader thread that frames and queues packets, the main thread that takes
    them off the queue, and every way the two can interleave. */
module SessionThreads {
  import opened Bytes
  import opened Common
  import opened Framing

  // ---------------------------------------------------------------------------
  // The queue's critical sections
  // ---------------------------------------------------------------------------

  datatype Queue = Queue(messages: seq<Bytes>, terminated: bool)

  const INTERRUPT: byte := '\U{03}'

  function PutOn(q: Queue, message: Bytes): Queue {
    q.(messages := q.messages + [message])
  }

  /** A thread has to wait: nothing is queued and nothing more is announced. */
  predicate MustWait(q: Queue) {
    q.messages == [] && !q.terminated
  }

  datatype Got = Got(queue: Queue, message: Option<Bytes>)

  function TakeFirst(q: Queue): Got {
    if q.messages == [] then Got(q, None) else Got(q.(messages := q.messages[1..]), Some(q.messages[0]))
  }

  /** `get` after its timed wait. */
  function TakeAfter(q: Queue, timedOut: bool): Got {
    if timedOut then Got(q, None) else TakeFirst(q)
  }

  function Cleared(q: Queue, terminating: bool): Queue {
    Queue([], q.terminated || terminating)
  }

  /** A get with nothing to give returns the empty string. */
  function Text(message: Option<Bytes>): Bytes {
    if message.Some? then message.value else []
  }

  /** The message queue. Each method is one stretch of code run under the lock:
      `get` and `wait` release it inside the condition variable's wait, so each is
      cut in two there. The functions above are the steps of the threads below. */
  class MessageQueue {
    var messages: seq<Bytes>
    var terminated: bool

    ghost function State(): Queue
      reads this
    {
      Queue(messages, terminated)
    }

    constructor ()
      ensures State() == Queue([], false)
    {
      messages, terminated := [], false;
    }

    method Put(message: Bytes)
      modifies this
      ensures State() == PutOn(old(State()), message)
    {
      messages := messages + [message];
    }

    /** `get` up to the wait. `waits` means the thread goes on to wait. */
    method GetBegin() returns (waits: bool, message: Bytes)
      modifies this
      ensures waits == MustWait(old(State()))
      ensures Got(State(), if old(messages) == [] then None else Some(message)) == TakeFirst(old(State()))
      ensures message == Text(TakeFirst(old(State())).message)
    {
      waits, message := false, [];
      if messages == [] {
        waits := !terminated;
        return;
      }
      message := messages[0];
      messages := messages[1..];
    }

    /** `get` once woken or timed out. */
    method GetEnd(timedOut: bool) returns (message: Bytes)
      modifies this
      ensures State() == TakeAfter(old(State()), timedOut).queue
      ensures message == Text(TakeAfter(old(State()), timedOut).message)
    {
      message := [];
      if timedOut {
        return;
      }
      if messages != [] {
        message := messages[0];
        messages := messages[1..];
      }
    }

    /** Terminating twice breaks an assertion of the source, hence the precondition. */
    method Clear(terminating: bool)
      requires terminating ==> !terminated
      modifies this
      ensures State() == Cleared(old(State()), terminating)
    {
      messages := [];
      if terminating {
        assert !terminated;
        terminated := true;
      }
    }
  }

  // ---------------------------------------------------------------------------
  // The two threads
  // ---------------------------------------------------------------------------

  datatype Reader =
    | Receiving                       // the loop head: connected, wait, receive
    | Handing(pending: seq<Packet>)   // inside parse, packets still to hand over
    | Closing                         // close has reset the remote
    | Gone

  datatype Main =
    | Waiting                   // about to call the queue's wait
    | Asleep(notified: bool)    // inside that wait, the lock released
    | Checking                  // about to test the connection
    | Getting                   // about to call the queue's get
    | TimedWait                 // inside get's timed wait, the lock released
    | Joining                   // out of the loop, waiting for the reader to end
    | Destroying                // about to run the channel's destructor
    | Ended

  /** `remote` says the channel still has its remote, `up` that the remote is
      connected. The last fields are history: all bytes received, the packets
      handed over with the acknowledge mode at that moment, which of them went straight
      to the session, the messages put with the packet each came from, which of them
      were taken and what was got for each, which were dropped, and whether the queue's
      assertion ever failed. */
  datatype State = State(
    reader: Reader, main: Main, remote: bool, up: bool, queue: Queue, phase: Phase,
    received: Bytes, handed: seq<Packet>, acks: seq<bool>, direct: seq<nat>, put: seq<Bytes>, origin: seq<nat>,
    taken: seq<nat>, got: seq<Bytes>, dropped: set<nat>, failed: bool)

  const Initial := State(Receiving, Waiting, true, true, Queue([], false), Idle, [], [], [], [], [], [], [], [], {}, false)

  datatype Step =
    | RemoteDrops
    | ReaderReceives(data: Bytes)
    | ReaderHands(ackMode: bool)
    | ReaderStops
    | ReaderClears
    | MainWaits
    | MainWakes
    | MainChecks
    | MainGets
    | MainTimedWaitEnds(timedOut: bool)
    | MainJoins
    | MainDestroys

  predicate Enabled(s: State, step: Step) {
    match step
    case RemoteDrops => s.up
    case ReaderReceives(_) => s.reader == Receiving && s.remote
    case ReaderHands(_) => s.reader.Handing?
    case ReaderStops => s.reader == Receiving && s.remote
    case ReaderClears => s.reader == Closing
    case MainWaits => s.main == Waiting
    case MainWakes => s.main.Asleep?  // notified or spurious
    case MainChecks => s.main == Checking
    case MainGets => s.main == Getting
    case MainTimedWaitEnds(_) => s.main == TimedWait
    case MainJoins => s.main == Joining && s.reader == Gone
    case MainDestroys => s.main == Destroying
  }

  predicate IsInterrupt(p: Packet) {
    p.payload == [INTERRUPT]
  }

  /** Whether the packet goes on the queue rather than straight to the session. */
  predicate IsQueued(p: Packet, ackMode: bool) {
    !IsInterrupt(p) && (!ackMode || p.valid)
  }

  /** Index, among all messages put, of the one at the front of the queue. */
  function Front(s: State): int {
    |s.put| - |s.queue.messages|
  }

  function Notify(m: Main): Main {
    if m.Asleep? then Asleep(true) else m
  }

  function Range(lo: nat, hi: nat): (r: set<nat>)
    ensures forall k :: k in r <==> lo <= k < hi
    decreases hi - lo
  {
    if lo >= hi then {} else {lo} + Range(lo + 1, hi)
  }

  /** Everything still queued joins what was dropped before. */
  function Dropped(s: State): set<nat>
    requires Front(s) >= 0
  {
    s.dropped + Range(Front(s), |s.put|)
  }

  /** clear(true): the assertion, the flag and the notification. */
  function Terminate(s: State): State
    requires Front(s) >= 0
  {
    s.(queue := Cleared(s.queue, true), dropped := Dropped(s), failed := s.failed || s.queue.terminated, main := Notify(s.main))
  }

  /** The main thread has got this from the queue: the front message, if any. */
  function Took(s: State, g: Got): State
    requires Front(s) >= 0
  {
    if g.message.Some?
    then s.(queue := g.queue, taken := s.taken + [Front(s)], got := s.got + [g.message.value], main := Waiting)
    else s.(queue := g.queue, main := Waiting)
  }

  function Hand(s: State, ackMode: bool): State
    requires s.reader.Handing? && Front(s) >= 0
  {
    if s.reader.pending == [] then s.(reader := Receiving)
    else
      var p := s.reader.pending[0];
      var t := s.(reader := Handing(s.reader.pending[1..]), handed := s.handed + [p], acks := s.acks + [ackMode]);
      var here := |s.handed|;
      if IsInterrupt(p) then t.(queue := Cleared(t.queue, false), dropped := Dropped(t), direct := t.direct + [here])
      else if IsQueued(p, ackMode) then
        t.(queue := PutOn(t.queue, p.payload), put := t.put + [p.payload], origin := t.origin + [here], main := Notify(t.main))
      else t.(direct := t.direct + [here])
  }

  function Apply(s: State, step: Step): State
    requires Enabled(s, step) && Front(s) >= 0
  {
    match step
    case RemoteDrops => s.(up := false)
    case ReaderReceives(data) =>
      var r := Run(s.phase, data);
      s.(reader := Handing(r.packets), phase := r.phase, received := s.received + data)
    case ReaderHands(ackMode) => Hand(s, ackMode)
    case ReaderStops => s.(reader := Closing, remote := false)
    case ReaderClears => Terminate(s).(reader := Gone)
    case MainWaits => if MustWait(s.queue) then s.(main := Asleep(false)) else s.(main := Checking)
    case MainWakes => s.(main := Checking)
    case MainChecks => if s.remote && s.up then s.(main := Getting) else s.(main := Joining)
    case MainGets => if MustWait(s.queue) then s.(main := TimedWait) else Took(s, TakeFirst(s.queue))
    case MainTimedWaitEnds(timedOut) => Took(s, TakeAfter(s.queue, timedOut))
    case MainJoins => s.(main := Destroying)
    case MainDestroys =>
      (if s.remote then Terminate(s.(remote := false)) else s).(main := Ended)
  }

  // ---------------------------------------------------------------------------
  // What every step keeps
  // ---------------------------------------------------------------------------

  /** The payloads of the packets that went on the queue. */
  function Queued(handed: seq<Packet>, acks: seq<bool>): seq<Bytes>
    requires |handed| == |acks|
  {
    if handed == [] then []
    else
      var n := |handed| - 1;
      Queued(handed[..n], acks[..n]) + (if IsQueued(handed[n], acks[n]) then [handed[n].payload] else [])
  }

  function Pending(r: Reader): seq<Packet> {
    if r.Handing? then r.pending else []
  }

  /** Packets handed over and packets to come are those of the bytes received, and
      the messages put are their payloads. */
  predicate StreamInv(s: State) {
    && Run(Idle, s.received) == Outcome(s.phase, s.handed + Pending(s.reader))
    && |s.handed| == |s.acks|
    && s.put == Queued(s.handed, s.acks)
  }

  /** The queue is the tail of what was put; before it, every message was either
      taken, in order, once and unchanged, or dropped. */
  predicate QueueInv(s: State) {
    && Front(s) >= 0
    && s.queue.messages == s.put[Front(s)..]
    && (forall i, j :: 0 <= i < j < |s.taken| ==> s.taken[i] < s.taken[j])
    && |s.got| == |s.taken|
    && (forall i :: 0 <= i < |s.taken| ==> s.taken[i] < Front(s) && s.taken[i] !in s.dropped && s.got[i] == s.put[s.taken[i]])
    && (forall k :: k in s.dropped ==> k < Front(s))
    && (forall k :: 0 <= k < Front(s) ==> k in s.taken || k in s.dropped)
  }

  /** The channel loses its remote once, the queue is terminated once, and a
      sleeping main thread with something to do has been notified. */
  predicate ControlInv(s: State) {
    && !s.failed
    && (s.remote <==> s.reader == Receiving || s.reader.Handing?)
    && (s.queue.terminated <==> s.reader == Gone)
    && (s.reader == Gone ==> s.queue.messages == [])
    && (s.main == Destroying || s.main == Ended ==> s.reader == Gone)
    && (s.main == Asleep(false) ==> s.queue.messages == [] && !s.queue.terminated)
  }

  predicate Inv(s: State) {
    StreamInv(s) && QueueInv(s) && ControlInv(s)
  }

  predicate Increasing(s: seq<nat>) {
    forall i, j :: 0 <= i < j < |s| ==> s[i] < s[j]
  }

  /** Packets that go straight to the session: the interrupt, and in acknowledge mode
      whatever has a wrong checksum. */
  predicate IsStraight(p: Packet, ackMode: bool) {
    p.payload == ['\U{03}'] || (ackMode && !p.valid)
  }

  /** Each packet handed over was put or went straight, in order. */
  predicate RouteInv(s: State) {
    && |s.handed| == |s.acks| && |s.origin| == |s.put| && Increasing(s.origin) && Increasing(s.direct)
    && (forall i :: 0 <= i < |s.put| ==> s.origin[i] < |s.handed| && s.put[i] == s.handed[s.origin[i]].payload)
    && (forall k <- s.origin :: k < |s.handed|) && (forall k <- s.direct :: k < |s.handed|)
    && (forall k :: 0 <= k < |s.handed| ==>
          (k in s.direct <==> IsStraight(s.handed[k], s.acks[k])) && (k in s.origin <==> !IsStraight(s.handed[k], s.acks[k])))
  }

  lemma Appended(s: seq<nat>, n: nat)
    requires Increasing(s) && forall k <- s :: k < n
    ensures Increasing(s + [n]) && (forall k <- s + [n] :: k in s || k == n) && (forall k <- s :: k in s + [n]) && n in s + [n]
  {
    assert (s + [n])[|s|] == n;
    assert forall i :: 0 <= i < |s| ==> (s + [n])[i] == s[i] && s[i] in s;
  }

  /** What handing a packet over does, written out. */
  lemma HandMeans(s: State, ackMode: bool)
    requires s.reader.Handing? && s.reader.pending != [] && Front(s) >= 0
    ensures var p, t, here := s.reader.pending[0], Hand(s, ackMode), [|s.handed|];
            && t.handed == s.handed + [p] && t.acks == s.acks + [ackMode] && t.reader == Handing(s.reader.pending[1..])
            && t.queue.terminated == s.queue.terminated
            && (p.payload != ['\U{03}'] && (!ackMode || p.valid) ==>
                  && t.put == s.put + [p.payload] && t.queue.messages == s.queue.messages + [p.payload]
                  && t.origin == s.origin + here && t.direct == s.direct)
            && (p.payload == ['\U{03}'] || (ackMode && !p.valid) ==>
                  && t.put == s.put && t.origin == s.origin && t.direct == s.direct + here
                  && t.queue.messages == if p.payload == ['\U{03}'] then [] else s.queue.messages)
  {
  }

  lemma HandKeepsRoute(s: State, ackMode: bool)
    requires RouteInv(s) && s.reader.Handing? && Front(s) >= 0
    ensures RouteInv(Hand(s, ackMode))
  {
    if s.reader.pending != [] {
      HandMeans(s, ackMode);
      Appended(s.origin, |s.handed|);
      Appended(s.direct, |s.handed|);
    }
  }

  predicate SameHistory(s: State, t: State) {
    t.handed == s.handed && t.acks == s.acks && t.put == s.put && t.origin == s.origin && t.direct == s.direct
  }

  lemma OthersKeepHistory(s: State, step: Step)
    requires Enabled(s, step) && Front(s) >= 0 && !step.ReaderHands?
    ensures SameHistory(s, Apply(s, step))
  {
  }

  lemma SameRoute(s: State, t: State)
    requires RouteInv(s) && SameHistory(s, t)
    ensures RouteInv(t)
  {
  }

  lemma StepKeepsRoute(s: State, step: Step)
    requires RouteInv(s) && Enabled(s, step) && Front(s) >= 0
    ensures RouteInv(Apply(s, step))
  {
    if step.ReaderHands? {
      HandKeepsRoute(s, step.ackMode);
    } else {
      OthersKeepHistory(s, step);
      SameRoute(s, Apply(s, step));
    }
  }

  lemma QueuedSnoc(handed: seq<Packet>, acks: seq<bool>, p: Packet, ackMode: bool)
    requires |handed| == |acks|
    ensures Queued(handed + [p], acks + [ackMode])
         == Queued(handed, acks) + (if IsQueued(p, ackMode) then [p.payload] else [])
  {
    var n := |handed|;
    assert (handed + [p])[..n] == handed && (acks + [ackMode])[..n] == acks;
  }

  lemma HandKeepsPackets(s: State, ackMode: bool)
    requires s.reader.Handing? && Front(s) >= 0
    ensures var t := Hand(s, ackMode);
            t.handed + Pending(t.reader) == s.handed + Pending(s.reader) && t.phase == s.phase && t.received == s.received
  {
    if s.reader.pending != [] {
      var p, rest := s.reader.pending[0], s.reader.pending[1..];
      assert s.handed + s.reader.pending == s.handed + [p] + rest;
    } else {
      assert s.handed + [] == s.handed;
    }
  }

  lemma HandKeepsPut(s: State, ackMode: bool)
    requires s.reader.Handing? && Front(s) >= 0 && |s.handed| == |s.acks| && s.put == Queued(s.handed, s.acks)
    ensures var t := Hand(s, ackMode); |t.handed| == |t.acks| && t.put == Queued(t.handed, t.acks)
  {
    if s.reader.pending != [] {
      QueuedSnoc(s.handed, s.acks, s.reader.pending[0], ackMode);
      assert s.put + [] == s.put;
    }
  }

  lemma HandKeepsStream(s: State, ackMode: bool)
    requires StreamInv(s) && s.reader.Handing? && Front(s) >= 0
    ensures StreamInv(Hand(s, ackMode))
  {
    HandKeepsPackets(s, ackMode);
    HandKeepsPut(s, ackMode);
  }

  lemma ReceiveKeepsStream(s: State, data: Bytes)
    requires StreamInv(s) && s.reader == Receiving && Front(s) >= 0 && Enabled(s, ReaderReceives(data))
    ensures StreamInv(Apply(s, ReaderReceives(data)))
  {
    RunAppend(Idle, s.received, data);
    assert s.handed + [] == s.handed;
  }

  lemma TakeKeepsQueue(s: State)
    requires QueueInv(s) && s.queue.messages != []
    ensures QueueInv(Took(s, TakeFirst(s.queue)))
  {
    var t := Took(s, TakeFirst(s.queue));
    assert t.taken[|s.taken|] == Front(s) && t.got[|s.taken|] == s.put[Front(s)];
    assert forall k :: k in s.taken ==> k in t.taken;
  }

  lemma ClearKeepsQueue(s: State, t: State)
    requires QueueInv(s) && t.queue.messages == [] && t.put == s.put && t.taken == s.taken && t.got == s.got && t.dropped == Dropped(s)
    ensures QueueInv(t)
  {
  }

  lemma PutKeepsQueue(s: State, t: State, message: Bytes)
    requires QueueInv(s) && t.queue.messages == s.queue.messages + [message] && t.put == s.put + [message]
    requires t.taken == s.taken && t.got == s.got && t.dropped == s.dropped
    ensures QueueInv(t)
  {
    assert t.put[Front(s)..] == s.put[Front(s)..] + [message];
  }

  lemma HandKeepsQueue(s: State, ackMode: bool)
    requires QueueInv(s) && s.reader.Handing?
    ensures QueueInv(Hand(s, ackMode))
  {
    if s.reader.pending != [] {
      var p, t := s.reader.pending[0], Hand(s, ackMode);
      if IsInterrupt(p) {
        ClearKeepsQueue(s, t);
      } else if IsQueued(p, ackMode) {
        PutKeepsQueue(s, t, p.payload);
      }
    }
  }

  lemma SameQueue(s: State, t: State)
    requires QueueInv(s) && t.queue.messages == s.queue.messages && t.put == s.put
    requires t.taken == s.taken && t.got == s.got && t.dropped == s.dropped
    ensures QueueInv(t)
  {
  }

  /** Only five kinds of step touch the queue. */
  predicate TouchesQueue(step: Step) {
    step.ReaderHands? || step.ReaderClears? || step.MainGets? || step.MainTimedWaitEnds? || step.MainDestroys?
  }

  lemma OthersKeepQueue(s: State, step: Step)
    requires QueueInv(s) && Enabled(s, step) && !TouchesQueue(step)
    ensures QueueInv(Apply(s, step))
  {
    SameQueue(s, Apply(s, step));
  }

  lemma GetKeepsQueue(s: State, step: Step)
    requires QueueInv(s) && Enabled(s, step) && (step.MainGets? || step.MainTimedWaitEnds?)
    ensures QueueInv(Apply(s, step))
  {
    var t := Apply(s, step);
    if t.taken == s.taken {
      SameQueue(s, t);
    } else {
      TakeKeepsQueue(s);
    }
  }

  lemma DestroyKeepsQueue(s: State)
    requires QueueInv(s) && ControlInv(s) && s.main == Destroying
    ensures QueueInv(Apply(s, MainDestroys))
  {
    SameQueue(s, Apply(s, MainDestroys));
  }

  lemma StepKeepsQueue(s: State, step: Step)
    requires QueueInv(s) && ControlInv(s) && Enabled(s, step)
    ensures QueueInv(Apply(s, step))
  {
    if !TouchesQueue(step) {
      OthersKeepQueue(s, step);
    } else if step.ReaderHands? {
      HandKeepsQueue(s, step.ackMode);
    } else if step.ReaderClears? {
      ClearKeepsQueue(s, Apply(s, step));
    } else if step.MainDestroys? {
      DestroyKeepsQueue(s);
    } else {
      GetKeepsQueue(s, step);
    }
  }

  lemma HandKeepsControl(s: State, ackMode: bool)
    requires ControlInv(s) && Front(s) >= 0 && Enabled(s, ReaderHands(ackMode))
    ensures ControlInv(Apply(s, ReaderHands(ackMode)))
  {
  }

  lemma ReaderKeepsControl(s: State, step: Step)
    requires ControlInv(s) && Front(s) >= 0 && Enabled(s, step) && !IsMainStep(step) && !step.ReaderHands?
    ensures ControlInv(Apply(s, step))
  {
  }

  lemma MainKeepsControl(s: State, step: Step)
    requires ControlInv(s) && Front(s) >= 0 && Enabled(s, step) && IsMainStep(step)
    ensures ControlInv(Apply(s, step))
  {
  }

  lemma StepKeepsControl(s: State, step: Step)
    requires ControlInv(s) && Front(s) >= 0 && Enabled(s, step)
    ensures ControlInv(Apply(s, step))
  {
    if IsMainStep(step) {
      MainKeepsControl(s, step);
    } else if step.ReaderHands? {
      HandKeepsControl(s, step.ackMode);
    } else {
      ReaderKeepsControl(s, step);
    }
  }

  lemma StepKeepsStream(s: State, step: Step)
    requires Inv(s) && Enabled(s, step)
    ensures StreamInv(Apply(s, step))
  {
    match step
    case ReaderReceives(data) => ReceiveKeepsStream(s, data);
    case ReaderHands(ackMode) => HandKeepsStream(s, ackMode);
    case _ =>
  }

  lemma StepKeepsInv(s: State, step: Step)
    requires Inv(s) && Enabled(s, step)
    ensures Inv(Apply(s, step))
  {
    StepKeepsStream(s, step);
    StepKeepsQueue(s, step);
    StepKeepsControl(s, step);
  }

  // ---------------------------------------------------------------------------
  // Whole runs
  // ---------------------------------------------------------------------------

  /** states[0] is initial and each step leads from one state to the next. */
  predicate IsRun(states: seq<State>, steps: seq<Step>) {
    && |states| == |steps| + 1 && states[0] == Initial
    && forall i :: 0 <= i < |steps| ==>
         Front(states[i]) >= 0 && Enabled(states[i], steps[i]) && states[i + 1] == Apply(states[i], steps[i])
  }

  lemma {:induction false} RunKeepsInv(states: seq<State>, steps: seq<Step>, n: nat)
    requires IsRun(states, steps) && n < |states|
    ensures Inv(states[n])
  {
    if n == 0 {
      assert Run(Idle, []) == Outcome(Idle, []);
    } else {
      RunKeepsInv(states, steps, n - 1);
      StepKeepsInv(states[n - 1], steps[n - 1]);
    }
  }

  /** In every run, at every moment: each packet handed over was put on the queue or went
      straight to the session, never both, in order and with its payload; and those that
      went straight are exactly the interrupts and, in acknowledge mode, the packets with
      a wrong checksum. */
  lemma {:induction false} RunRoutes(states: seq<State>, steps: seq<Step>, n: nat)
    requires IsRun(states, steps) && n < |states|
    ensures RouteInv(states[n])
    ensures var s := states[n];
            && |s.acks| == |s.handed| && |s.origin| == |s.put|
            && (forall i :: 0 <= i < |s.put| ==> s.origin[i] < |s.handed| && s.put[i] == s.handed[s.origin[i]].payload)
            && (forall i, j :: 0 <= i < j < |s.origin| ==> s.origin[i] < s.origin[j])
            && (forall k :: 0 <= k < |s.handed| ==> (k in s.origin <==> k !in s.direct))
            && (forall k :: 0 <= k < |s.handed| ==>
                  (k in s.direct <==> s.handed[k].payload == ['\U{03}'] || (s.acks[k] && !s.handed[k].valid)))
  {
    if n > 0 {
      RunRoutes(states, steps, n - 1);
      StepKeepsRoute(states[n - 1], steps[n - 1]);
    }
  }

  /** In every run, at every moment: the main thread has taken messages in the
      order they were put, none twice, and each has the payload the reader framed;
      the queue's assertion has not failed; and a main thread still asleep without
      a notification has nothing to wake up for. */
  lemma RunIsSafe(states: seq<State>, steps: seq<Step>, n: nat)
    requires IsRun(states, steps) && n < |states|
    ensures var s := states[n];
            && !s.failed
            && (forall i, j :: 0 <= i < j < |s.taken| ==> s.taken[i] < s.taken[j] < |s.put|)
            && |s.got| == |s.taken| && (forall i :: 0 <= i < |s.taken| ==> s.taken[i] < |s.put| && s.got[i] == s.put[s.taken[i]])
            && (forall k :: 0 <= k < |s.put| ==>
                  (if k in s.taken then 1 else 0) + (if k in s.dropped then 1 else 0)
                  + (if k >= Front(s) then 1 else 0) == 1)
            && Run(Idle, s.received).packets == s.handed + Pending(s.reader)
            && |s.handed| == |s.acks| && s.put == Queued(s.handed, s.acks)
            && (s.main == Asleep(false) ==> s.queue == Queue([], false))
  {
    RunKeepsInv(states, steps, n);
  }

  /** A thread that went to sleep had nothing to do then and has nothing to do until it
      is notified: whatever step gives it something to do notifies it as well. */
  lemma NoLostWakeup(states: seq<State>, steps: seq<Step>, n: nat)
    requires IsRun(states, steps) && n < |steps| && states[n].main == Asleep(false)
    ensures MustWait(states[n].queue)
    ensures !MustWait(states[n + 1].queue) ==> states[n + 1].main == Asleep(true)
  {
    RunKeepsInv(states, steps, n);
    assert states[n + 1] == Apply(states[n], steps[n]);
  }

  /** The main thread's steps, written out: it goes to sleep exactly when nothing is queued
      and more may come; it takes the front message when there is one, and nothing after
      a wait that timed out; and it leaves its loop exactly when the connection is gone. */
  lemma MainMeans(s: State, step: Step)
    requires Front(s) >= 0 && Enabled(s, step)
    ensures var t := Apply(s, step);
            && (step.MainWaits? ==>
                  && t.queue == s.queue && t.got == s.got
                  && t.main == if s.queue.messages == [] && !s.queue.terminated then Asleep(false) else Checking)
            && (step.MainChecks? ==> t.queue == s.queue && t.got == s.got && t.main == if s.remote && s.up then Getting else Joining)
            && ((step.MainGets? || step == MainTimedWaitEnds(false)) && s.queue.messages != [] ==>
                  && t.got == s.got + [s.queue.messages[0]] && t.queue.messages == s.queue.messages[1..] && t.main == Waiting)
            && (step.MainGets? && s.queue.messages == [] ==>
                  && t.got == s.got && t.queue == s.queue && t.main == if s.queue.terminated then Waiting else TimedWait)
            && (step == MainTimedWaitEnds(true) || (step == MainTimedWaitEnds(false) && s.queue.messages == []) ==>
                  && t.got == s.got && t.queue == s.queue && t.main == Waiting)
  {
  }

  /** A step that throws queued messages away. */
  predicate Clears(s: State, step: Step) {
    || (step.ReaderHands? && s.reader.Handing? && s.reader.pending != [] && IsInterrupt(s.reader.pending[0]))
    || step == ReaderClears
  }

  /** A message that was put and is neither taken nor queued was in the queue when
      an interrupt or the close cleared it. */
  lemma {:induction false} MissingWasCleared(states: seq<State>, steps: seq<Step>, n: nat, k: nat) returns (i: nat)
    requires IsRun(states, steps) && n < |states|
    requires k < Front(states[n]) && k !in states[n].taken
    ensures i < n && Clears(states[i], steps[i])
    ensures Front(states[i]) <= k < |states[i].put|
    ensures states[i].put[k] == states[n].put[k]
  {
    RunKeepsInv(states, steps, n);
    RunKeepsInv(states, steps, n - 1);
    var s, step := states[n - 1], steps[n - 1];
    assert states[n] == Apply(s, step);
    DroppedByClearing(s, step, k);
    if k in s.dropped {
      StillGone(s, k);
      i := MissingWasCleared(states, steps, n - 1, k);
    } else {
      i := n - 1;
    }
  }

  lemma StillGone(s: State, k: nat)
    requires Inv(s) && k in s.dropped
    ensures k < Front(s) && k !in s.taken
  {
  }

  lemma DroppedByClearing(s: State, step: Step, k: nat)
    requires Inv(s) && Enabled(s, step) && k in Apply(s, step).dropped
    ensures k in s.dropped || (Clears(s, step) && Front(s) <= k < |s.put|)
    ensures k < |s.put| && s.put[k] == Apply(s, step).put[k]
  {
  }

  // ---------------------------------------------------------------------------
  // Winding down
  // ---------------------------------------------------------------------------

  function StepsLeft(m: Main): nat {
    match m
    case TimedWait => 6
    case Getting => 6
    case Waiting => 5
    case Asleep(_) => 5
    case Checking => 4
    case Joining => 3
    case Destroying => 2
    case Ended => 0
  }

  predicate IsMainStep(step: Step) {
    step.MainWaits? || step.MainWakes? || step.MainChecks? || step.MainGets? || step.MainTimedWaitEnds?
    || step.MainJoins? || step.MainDestroys?
  }

  lemma MainCanMove(s: State)
    requires ControlInv(s) && s.reader == Gone && s.main != Ended
    ensures exists step :: IsMainStep(step) && Enabled(s, step)
  {
    var step := match s.main
      case Waiting => MainWaits
      case Asleep(_) => MainWakes
      case Checking => MainChecks
      case Getting => MainGets
      case TimedWait => MainTimedWaitEnds(true)
      case Joining => MainJoins
      case Destroying => MainDestroys;
    assert IsMainStep(step) && Enabled(s, step);
  }

  lemma MainMoves(s: State, step: Step)
    requires ControlInv(s) && Front(s) >= 0 && s.reader == Gone && IsMainStep(step) && Enabled(s, step)
    ensures StepsLeft(Apply(s, step).main) < StepsLeft(s.main) && Apply(s, step).reader == Gone
  {
  }

  /** Once the reader is gone nothing can block the main thread or keep it going:
      unless it has ended it can take a step, a sleeper has been notified, and
      each step brings it nearer its end. */
  lemma MainWindsDown(s: State)
    requires ControlInv(s) && Front(s) >= 0 && s.reader == Gone
    ensures s.main != Ended ==> exists step :: IsMainStep(step) && Enabled(s, step)
    ensures s.main.Asleep? ==> s.main.notified
    ensures forall step :: IsMainStep(step) && Enabled(s, step) ==>
              StepsLeft(Apply(s, step).main) < StepsLeft(s.main) && Apply(s, step).reader == Gone
  {
    if s.main != Ended {
      MainCanMove(s);
    }
    forall step | IsMainStep(step) && Enabled(s, step)
      ensures StepsLeft(Apply(s, step).main) < StepsLeft(s.main) && Apply(s, step).reader == Gone
    {
      MainMoves(s, step);
    }
  }
}
