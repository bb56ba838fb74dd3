/** Packets written out: how each kind of packet is cut into a command and its arguments,
    that every packet is of one of these kinds, and which handler then gets what. */
module Requests {
  import opened Bytes
  import opened Common
  import opened Interpreter
  import opened Transport

  // ---------------------------------------------------------------------------
  // The kinds of packet
  // ---------------------------------------------------------------------------

  /** `Separated` is a v, q or Q packet with arguments after a separator, `Named` a j
      packet with arguments after a colon, `Whole` either of them without. `Fixed` is
      any other: its command is one letter or one of a few pairs. */
  datatype Request =
    | Nothing
    | Separated(command: Bytes, separator: byte, rest: Bytes)
    | Named(command: Bytes, rest: Bytes)
    | Whole(command: Bytes)
    | Fixed(command: Bytes, rest: Bytes)

  predicate IsSeparator(c: byte) {
    c == ',' || c == ':' || c == ';'
  }

  predicate IsQuery(command: Bytes) {
    && command != [] && (command[0] == 'v' || command[0] == 'q' || command[0] == 'Q')
    && forall c <- command :: !IsSeparator(c)
  }

  predicate IsName(command: Bytes) {
    command != [] && command[0] == 'j' && forall c <- command :: c != ':'
  }

  predicate IsFixed(command: Bytes, rest: Bytes) {
    || (command == "bc" && rest == [])
    || (command == "bs" && rest == [])
    || (command == "b" && rest != "c" && rest != "s")
    || command == "_M"
    || command == "_m"
    || (command == "_" && (rest == [] || (rest[0] != 'M' && rest[0] != 'm')))
    || (|command| == 1 && command[0] !in {'v', 'q', 'Q', 'j', 'b', '_'})
  }

  predicate IsRequest(r: Request) {
    match r
    case Nothing => true
    case Separated(command, separator, _) => IsQuery(command) && IsSeparator(separator)
    case Named(command, _) => IsName(command)
    case Whole(command) => IsQuery(command) || IsName(command)
    case Fixed(command, rest) => IsFixed(command, rest)
  }

  function TextOf(r: Request): Bytes {
    match r
    case Nothing => []
    case Separated(command, separator, rest) => command + [separator] + rest
    case Named(command, rest) => command + [':'] + rest
    case Whole(command) => command
    case Fixed(command, rest) => command + rest
  }

  function CommandOf(r: Request): Bytes {
    if r.Nothing? then [] else r.command
  }

  function ArgumentsOf(r: Request): Bytes {
    if r.Nothing? || r.Whole? then [] else r.rest
  }

  lemma FirstIs(data: Bytes, separators: set<byte>, from: nat, i: nat)
    requires from <= i <= |data| && (forall k :: from <= k < i ==> data[k] !in separators)
    requires i < |data| ==> data[i] in separators
    ensures FindFirstOf(data, separators, from) == i
  {
  }

  lemma CutFixed(command: Bytes, rest: Bytes)
    requires IsFixed(command, rest)
    ensures CommandEnd(command + rest) == (|command|, |command|)
  {
    var data := command + rest;
    if command == "b" {
      assert |data| == 2 ==> rest == [data[1]];
    }
  }

  lemma CutQuery(command: Bytes, separator: byte, rest: Bytes)
    requires IsQuery(command) && IsSeparator(separator)
    ensures CommandEnd(command + [separator] + rest) == (|command|, |command| + 1)
  {
    var data := command + [separator] + rest;
    assert forall k :: 0 <= k < |command| ==> data[k] == command[k] && command[k] in command;
    FirstIs(data, {',', ':', ';'}, 0, |command|);
  }

  lemma CutName(command: Bytes, rest: Bytes)
    requires IsName(command)
    ensures CommandEnd(command + [':'] + rest) == (|command|, |command| + 1)
  {
    var data := command + [':'] + rest;
    assert forall k :: 0 <= k < |command| ==> data[k] == command[k] && command[k] in command;
    FirstIs(data, {':'}, 0, |command|);
  }

  lemma CutWhole(command: Bytes)
    requires IsQuery(command) || IsName(command)
    ensures CommandEnd(command) == (|command|, |command|)
  {
    assert forall k :: 0 <= k < |command| ==> command[k] in command;
    FirstIs(command, if IsQuery(command) then {',', ':', ';'} else {':'}, 0, |command|);
  }

  /** Each kind is cut as it is written. */
  lemma RequestIsCut(r: Request)
    requires IsRequest(r)
    ensures var (end, args) := CommandEnd(TextOf(r));
            TextOf(r)[..end] == CommandOf(r) && TextOf(r)[args..] == ArgumentsOf(r)
  {
    match r
    case Nothing =>
    case Separated(command, separator, rest) => CutQuery(command, separator, rest);
    case Named(command, rest) => CutName(command, rest);
    case Whole(command) => CutWhole(command);
    case Fixed(command, rest) => CutFixed(command, rest);
  }

  // ---------------------------------------------------------------------------
  // Every packet is of one of these kinds
  // ---------------------------------------------------------------------------

  lemma Listed(data: Bytes, end: nat)
    requires end <= |data|
    ensures forall c <- data[..end] :: exists k :: 0 <= k < end && data[k] == c
  {
  }

  lemma EveryQuery(data: Bytes) returns (r: Request)
    requires data != [] && (data[0] == 'v' || data[0] == 'q' || data[0] == 'Q')
    ensures IsRequest(r) && TextOf(r) == data
  {
    var end := FindFirstOf(data, {',', ':', ';'}, 0);
    Listed(data, end);
    if end == |data| {
      assert data[..end] == data;
      r := Whole(data);
    } else {
      r := Separated(data[..end], data[end], data[end + 1..]);
      assert data == data[..end] + [data[end]] + data[end + 1..];
    }
  }

  lemma EveryName(data: Bytes) returns (r: Request)
    requires data != [] && data[0] == 'j'
    ensures IsRequest(r) && TextOf(r) == data
  {
    var end := FindFirstOf(data, {':'}, 0);
    Listed(data, end);
    if end == |data| {
      assert data[..end] == data;
      r := Whole(data);
    } else {
      r := Named(data[..end], data[end + 1..]);
      assert data == data[..end] + [data[end]] + data[end + 1..];
    }
  }

  lemma EveryOther(data: Bytes) returns (r: Request)
    requires data != [] && data[0] !in {'v', 'q', 'Q', 'j'}
    ensures IsRequest(r) && TextOf(r) == data
  {
    var pair := || (|data| == 2 && (data == "bc" || data == "bs"))
                || (|data| >= 2 && data[0] == '_' && (data[1] == 'M' || data[1] == 'm'));
    var n := if pair then 2 else 1;
    r := Fixed(data[..n], data[n..]);
    assert data == data[..n] + data[n..];
    if data[0] == 'b' && !pair {
      assert data[..n] == "b" && (|data| == 2 ==> data == [data[0]] + data[1..]);
    }
  }

  lemma EveryRequest(data: Bytes) returns (r: Request)
    ensures IsRequest(r) && TextOf(r) == data
  {
    if data == [] {
      r := Nothing;
    } else if data[0] == 'v' || data[0] == 'q' || data[0] == 'Q' {
      r := EveryQuery(data);
    } else if data[0] == 'j' {
      r := EveryName(data);
    } else {
      r := EveryOther(data);
    }
  }

  // ---------------------------------------------------------------------------
  // Who gets what
  // ---------------------------------------------------------------------------

  /** Acknowledgements are told apart from commands whatever their checksum; nothing else
      calls a handler unless the packet is valid and the session goes on with it. */
  lemma LonePackets(t: Table, data: Bytes, valid: bool, proceed: bool)
    ensures OnPacketData(t, "+", valid, proceed) == Ack && OnPacketData(t, "-", valid, proceed) == Nak
    ensures data != "+" && data != "-" && !(valid && proceed) ==> OnPacketData(t, data, valid, proceed) == Refused
  {
  }

  /** What is left for a handler: the part of the command past its own, and the
      arguments. */
  function LeftOf(h: Handler, command: Bytes, args: Bytes): Bytes {
    if |h.command| <= |command| then command[|h.command|..] + args else args
  }

  function LeftFor(h: Handler, r: Request): Bytes {
    LeftOf(h, CommandOf(r), ArgumentsOf(r))
  }

  lemma CommandMeans(t: Table, command: Bytes, args: Bytes)
    requires Sorted(t) && Unambiguous(t)
    ensures forall h <- t :: Matches(h, command) ==>
              OnCommand(t, command, args)
              == if EscapesComplete(LeftOf(h, command, args)) then Call(h, Unescaped(LeftOf(h, command, args))) else PastTheEnd
    ensures (forall h <- t :: !Matches(h, command)) ==> OnCommand(t, command, args) == Unsupported
  {
    FindIsScan(t, command);
    if i :| Find(t, command) == Some(i) {
      CallWithMeans(t[i], LeftOf(t[i], command, args));
    }
  }

  lemma CommandIs(t: Table, r: Request)
    requires IsRequest(r) && TextOf(r) != "+" && TextOf(r) != "-"
    ensures OnPacketData(t, TextOf(r), true, true) == OnCommand(t, CommandOf(r), ArgumentsOf(r))
  {
    RequestIsCut(r);
  }

  /** In a sound table a packet calls the handler that matches its command, with what is
      left of it unescaped; it is unsupported exactly when none does, and runs past the
      end exactly when one does and the last escape is cut. */
  lemma RequestMeans(t: Table, r: Request)
    requires Sorted(t) && Unambiguous(t) && IsRequest(r) && TextOf(r) != "+" && TextOf(r) != "-"
    ensures forall h <- t :: Matches(h, CommandOf(r)) ==>
              OnPacketData(t, TextOf(r), true, true)
              == if EscapesComplete(LeftFor(h, r)) then Call(h, Unescaped(LeftFor(h, r))) else PastTheEnd
    ensures (forall h <- t :: !Matches(h, CommandOf(r))) ==> OnPacketData(t, TextOf(r), true, true) == Unsupported
  {
    CommandIs(t, r);
    CommandMeans(t, CommandOf(r), ArgumentsOf(r));
  }

  /** Arguments that were escaped arrive as they were. */
  lemma ArgumentsArrive(t: Table, h: Handler, r: Request, text: Bytes)
    requires Sorted(t) && Unambiguous(t) && h in t && IsRequest(r) && TextOf(r) != "+" && TextOf(r) != "-"
    requires h.command == CommandOf(r) && ArgumentsOf(r) == Escaped(text)
    ensures OnPacketData(t, TextOf(r), true, true) == Call(h, text)
  {
    RequestMeans(t, r);
    RoundTrip(text);
    assert CommandOf(r)[|h.command|..] + ArgumentsOf(r) == Escaped(text);
  }
}
