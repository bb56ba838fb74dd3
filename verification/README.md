# Verified model of the ds2 debug server

ds2 is a remote debug server for GDB and LLDB. This project models the parts of it
that hold state or arithmetic worth proving, in Dafny, and proves what they promise.
`dafny verify dfyconfig.toml` checks everything.

| file | module | what it models |
|---|---|---|
| `Common.dfy` | `Common` | an option type and two facts about sets and sequences |
| `Bytes.dfy` | `Bytes` | bytes, hexadecimal text, base-16 `strtoull`, the packet checksum |
| `NumberText.dfy` | `Numbers` | what is printed for a number and what `strtoull` reads in any text, written out |
| `PacketProcessor.dfy` | `Framing` | the incremental packet framer, against a byte-at-a-time automaton |
| `PacketStream.dfy` | `Streams` | what a byte stream means: junk, single bytes and frames with their checksums, written out |
| `ProtocolHelpers.dfy` | `Transport` | escaping, framing and sending, and the whole path from sender to receiver |
| `ProtocolInterpreter.dfy` | `Interpreter` | the handler table, its search, and the split of a packet into command and arguments |
| `ProtocolRequests.dfy` | `Requests` | the kinds of packet, how each is cut, and which handler gets what |
| `SessionThread.dfy` | `SessionThreads` | the reader and main threads and the queue between them, as a state machine over their atomic steps |
| `BreakpointManager.dfy` | `Sites` | breakpoint sites: references and lifetimes |
| `SoftwareBreakpointManager.dfy` | `SoftwareBreakpoints` | patching and restoring target memory on x86 |
| `HardwareBreakpointManager.dfy` | `HardwareBreakpoints` | the four debug-register slots, and the registers of a thread against them |
| `DebugRegisters.dfy` | `DebugRegisters` | the fields of the x86 debug control register DR7 |
| `ThumbBranchInfo.dfy` | `ArmTypes`, `Thumb` | Thumb branch decoding, against the architecture's encodings |
| `ARMBranchInfo.dfy` | `Arm` | ARM branch decoding, likewise |
| `SoftwareSingleStep.dfy` | `SingleStep` | where to stop after one instruction |
| `StepSuccessors.dfy` | `Successors` | the architecture's own next instruction, and that a step asks for a breakpoint there |
| `StepBreakpoints.dfy` | `StepBreakpoints` | adding the breakpoints of a step to an enabled manager: sites and traps in memory |
| `StepSites.dfy` | `StepSites` | both together: from the next instruction to a trap in memory |
| `RegsGen.dfy` | `RegsGen` | the register-definition generator: names, numbers and offsets |
| `RegisterText.dfy` | `RegisterText` | registers as text: the `g` reply and the `G` packet |

Classes and methods stand for the source's objects and loops; each is proved equal to
a function or a relation, and the properties are lemmas about those. What the outside
world answers is part of the state (the addresses a process lets be read and written, the
registers a thread refuses, whether the channel is connected), and may be anything; a
spurious wakeup is an arbitrary step, a chunk boundary an arbitrary cut. Lemmas whose
names end in `Means` or `Is` write a function out in other terms, with its constants. `size_t` and
`uint64_t` counters that cannot wrap are natural numbers; machine words whose bits
matter are bit-vectors.

Some things the proofs show that reading one function does not:

- The append at the end of `parse` (Sources/GDBRemote/PacketProcessor.cpp:132) is
  dead: nothing ever reaches it (`Framing.PacketProcessor.Parse`).
- A prefix command registered after a longer command takes it over. The table stays
  right exactly when that never happens (`Interpreter.RegistrationSound`, with
  `Interpreter.ShadowedCommand` for the failing case).
- Subtracting 0x20 and adding it back is the same as flipping it with an exclusive or,
  as the protocol asks, exactly on texts whose escaped bytes have that bit clear
  (`Transport.UnescapeIsXor`).
- Enabling software breakpoints twice saves the trap as if it were the program;
  `SoftwareBreakpoints.StepIsExact` says exactly which operations do that.
- The fourth hardware slot is never used, since a slot is refused once four sites
  exist (`HardwareBreakpoints.RunHasSlots`); a one-shot site leaves its slot behind
  (`HardwareBreakpoints.StepIsExact`, `HardwareBreakpoints.OneShotStrandsSlot`).
- Removing a hardware breakpoint zeroes its slot before the slot is looked for, so an
  armed register stays armed for good; and a `disable` that cannot clear a register gives
  the thread up all the same. Nothing else arms a register its slot does not stand for
  (`HardwareBreakpoints.RegistersStepIsExact`, `HardwareBreakpoints.RemovedStaysArmed`,
  `HardwareBreakpoints.UnclearedStaysArmed`). A register left over after a removal makes
  the assertion in `hit` fail (`HardwareBreakpoints.StaleHit`). A watchpoint added while
  its thread is enabled takes a slot and is written to no register
  (`HardwareBreakpoints.ArmedStepIsExact`).
- A step is prepared with breakpoints enabled, so it patches memory as it goes. If the
  two successors of a branch lie at one address in different states, one site is made,
  for the branch (`StepBreakpoints.WantedAreSites`, `StepSites.MergedSize`). If they
  overlap, the second trap destroys the first (`StepBreakpoints.TrapsAfter`,
  `StepSites.OverwrittenTrap`). A site whose trap could not be written stays
  (`StepBreakpoints.FailureLeaves`).
- Traps in memory do not change where a step stops unless one lies on the bytes the
  planner reads (`StepSites.ThumbUndisturbed`). One under the program counter hides the
  instruction: the step is then right exactly when the program goes on right after the
  trap (`StepSites.HiddenThumbIsExact`, `StepSites.HiddenBranchIsMissed`).
- In ARM state a conditional load that will not happen makes the step fail if its address
  cannot be read; otherwise every instruction of the forms listed is covered
  (`Successors.ARMStepCovers`).
- Stepping over Thumb `MOV pc` is right exactly when the low bit of the register is set,
  over `TBH` exactly when the entry is below 0x8000, and over `BX` exactly when the
  register is not pc (`Successors.MOVIsExact`, `Successors.TableHIsExact`,
  `SingleStep.BXCovered`).
- A hint opcode is taken for an IT instruction: the step runs over the five instructions
  after it, or past the halfwords read (`SingleStep.HintSkipsFive`,
  `SingleStep.ITInBounds`).

Encodings are those of the ARM Architecture Reference Manual for ARMv7-A and ARMv7-R,
sections A8.8.18, A8.8.25 to A8.8.29, A8.8.58, A8.8.62 to A8.8.66, A8.8.131 and
A8.8.236; debug-register fields are those of section 17.2.4 of the Intel 64 and IA-32
manual, volume 3B.

## Model

| member | source | states |
|---|---|---|
| `Bytes.StrToULLOfDigits` | Sources/GDBRemote/Session.cpp:217-220 | on plain hexadecimal digits that fit 64 bits the parser consumes all of them and returns their value; signs, spaces, prefixes and saturation do not interfere |
| `Bytes.ComputeChecksum` | Headers/DebugServer2/GDBRemote/ProtocolHelpers.h:22-28 | the accumulating loop returns the sum of the bytes modulo 256 |
| `Numbers.TextMeans` | Sources/GDBRemote/Session.cpp:234-252 | the n-th character from the right of a number printed in hexadecimal is the lower-case digit for 16 to the n |
| `Numbers.NumberMeans` | Sources/GDBRemote/Session.cpp:211-232 | for every text cut into blanks, sign, prefix, digits and rest, the parser returns the digits by their places, saturated at 64 bits and negated modulo 2^64 after a minus, and where they end; nothing without digits |
| `Numbers.EveryNumber` | Sources/GDBRemote/Session.cpp:211-232 | every text can be cut so, so that holds of every text |
| `Framing.RunAppend` | Sources/GDBRemote/PacketProcessor.cpp:53-134 | running the automaton on a concatenation is running it on the first part and continuing on the second, for every phase and every cut |
| `Framing.RunFrame` | Sources/GDBRemote/PacketProcessor.cpp:53-134 | a frame whose payload has no `#` gives exactly one packet with that payload; `Streams.AgreesIs` says when it is valid |
| `Framing.PacketProcessor.Validate` | Sources/GDBRemote/PacketProcessor.cpp:23-45 | on a complete frame or single byte the buffer becomes the bare payload, and the answer is whether it is a single or its checksum agrees |
| `Framing.PacketProcessor.Process` | Sources/GDBRemote/PacketProcessor.cpp:47-51 | hands over exactly one packet with that payload and verdict and leaves the framer idle |
| `Framing.PacketProcessor.TakeFrame` | Sources/GDBRemote/PacketProcessor.cpp:80-119 | from the opening `$` or in the middle of a body, either the rest of the chunk is absorbed with no packet, or one packet is delivered and scanning resumes right after its checksum, as the automaton says |
| `Framing.PacketProcessor.TakeChecksum` | Sources/GDBRemote/PacketProcessor.cpp:62-71 | missing checksum characters are taken from the head of the next chunk; the packet completes exactly when enough of them are there |
| `Framing.PacketProcessor.Scan` | Sources/GDBRemote/PacketProcessor.cpp:77-122 | the scanning loop leaves the state and delivers the packets the automaton gives, and finds nothing exactly on junk |
| `Framing.PacketProcessor.Parse` | Sources/GDBRemote/PacketProcessor.cpp:53-134 | one call delivers exactly the packets of the automaton from the state the earlier calls left, the unreachable append is never taken, and junk is reported as such |
| `Framing.ParseStream` | Sources/GDBRemote/PacketProcessor.cpp:53-134 | for every stream and every way of cutting it into chunks, the calls deliver exactly the packets of the byte-at-a-time automaton on the whole stream |
| `Streams.SumOfIs` | Sources/GDBRemote/PacketProcessor.cpp:23-45 | two checksum characters of any kind stand for 16 times the first digit plus the second, in either case; for one digit alone, after a blank or after a sign; or for zero |
| `Streams.AgreesIs` | Sources/GDBRemote/PacketProcessor.cpp:23-45 | for every payload and two characters the packet is valid exactly when that equals the sum of the codes of the payload, by index, modulo 256 |
| `Streams.StreamMeans` | Sources/GDBRemote/PacketProcessor.cpp:53-134 | for every list of junk bytes, single bytes and frames, with an unfinished frame at the end, the framer delivers exactly the single bytes and the frames, in order, each valid as above, and waits in the unfinished frame |
| `Streams.EveryStream` | Sources/GDBRemote/PacketProcessor.cpp:53-134 | every byte stream is such a list, so what is delivered is known for every stream |
| `Streams.ChunkReported` | Sources/GDBRemote/PacketProcessor.cpp:124-134 | after any stream, the next chunk is reported as junk exactly when no frame is open and, past the bytes that complete a checksum, it has some and none is `$`, `+`, `-` or byte 3; the report is those bytes |
| `Transport.Escape` | Headers/DebugServer2/GDBRemote/ProtocolHelpers.h:30-50 | the copying loop produces the escaped form defined byte by byte |
| `Transport.Unescape` | Headers/DebugServer2/GDBRemote/ProtocolHelpers.h:52-70 | likewise for unescaping, on every text: it reads past the end exactly when the last escape is cut |
| `Transport.RoundTrip` | Headers/DebugServer2/GDBRemote/ProtocolHelpers.h:30-70 | unescaping undoes escaping for every byte string, and every escape is complete |
| `Transport.EscapedMeans` | Headers/DebugServer2/GDBRemote/ProtocolHelpers.h:30-50 | byte by byte: `$`, `#`, `}` and `*` become `}` and bytes 4, 3, 0x5d and 0x0a, and every other byte is itself |
| `Transport.UnescapedMeans` | Headers/DebugServer2/GDBRemote/ProtocolHelpers.h:52-70 | `}` and a byte stand for its code plus 32 modulo 256, every other byte for itself, and a `}` at the end is incomplete |
| `Transport.EscapedIsClean` | Headers/DebugServer2/GDBRemote/ProtocolHelpers.h:30-50 | escaped text contains no `$`, `#` or `*` |
| `Transport.UnescapeIsXor` | Headers/DebugServer2/GDBRemote/ProtocolHelpers.h:52-70 | adding 0x20 agrees with the protocol's exclusive or exactly when every escaped byte has bit 0x20 clear |
| `Transport.BuildFrame` | Headers/DebugServer2/GDBRemote/SessionBase.h:69-96 | the text built step by step is `$`, the payload (escaped unless told otherwise), `#` and two checksum digits |
| `Transport.FramedMeans` | Headers/DebugServer2/GDBRemote/SessionBase.h:69-96 | the frame is `$`, the text, `#` and the lower-case digits for 16 and for 1 of the sum of the codes of the text |
| `Transport.Send` | Headers/DebugServer2/GDBRemote/SessionBase.h:69-101 | the channel receives that frame and nothing else when it is connected, and nothing when it is not; the answer says which |
| `Transport.FrameDelimiters` | Headers/DebugServer2/GDBRemote/SessionBase.h:69-101 | in a sent frame `$` occurs only at the start and `#` only before the two checksum digits |
| `Transport.FrameDecodes` | Headers/DebugServer2/GDBRemote/SessionBase.h:69-101 | a sent frame is received as exactly one valid packet with the escaped payload |
| `Transport.RawFrameDecodes` | Headers/DebugServer2/GDBRemote/SessionBase.h:69-101 | a frame sent as already escaped arrives whole exactly when its text has no `#` |
| `Transport.StreamDecodes` | Headers/DebugServer2/GDBRemote/SessionBase.h:69-101 | any sequence of frames one after the other decodes to exactly those packets, all valid |
| `Transport.Deliver` | Headers/DebugServer2/GDBRemote/SessionBase.h:69-101 | payloads framed, concatenated, cut anywhere, parsed and unescaped come back in order and all valid |
| `Interpreter.CompareHandlerMeans` | Sources/GDBRemote/ProtocolInterpreter.cpp:223-229 | the comparison is zero exactly when the handler matches, and negative exactly when its command sorts before a command it does not match |
| `Interpreter.LessIs` | Sources/GDBRemote/ProtocolInterpreter.cpp:197-200 | one command sorts before another exactly when it is a proper prefix of it or smaller at the first byte where they differ |
| `Interpreter.OverlapIsShared` | Sources/GDBRemote/ProtocolInterpreter.cpp:223-229 | two handlers overlap exactly when some command matches both |
| `Interpreter.FindIsScan` | Sources/GDBRemote/ProtocolInterpreter.cpp:205-221 | on a sorted table without overlaps the binary search finds the only matching handler, and nothing exactly when none matches, for every command |
| `Interpreter.SearchLowerBound` | Sources/GDBRemote/ProtocolInterpreter.cpp:208-212 | the halving loop returns the lower bound |
| `Interpreter.SortSorts` | Sources/GDBRemote/ProtocolInterpreter.cpp:197-200 | sorting gives a sorted permutation |
| `Interpreter.RegisterMeans` | Sources/GDBRemote/ProtocolInterpreter.cpp:185-203 | in a sound table a handler is accepted exactly when it has a command, a target and a callback and no handler takes its command; then it joins the others in a sorted table, else nothing changes |
| `Interpreter.RegisterKeeps` | Sources/GDBRemote/ProtocolInterpreter.cpp:185-203 | an accepted handler is added to a table that stays sorted, and that stays without overlaps exactly when the new handler is not a prefix taking over a longer command |
| `Interpreter.RegistrationSound` | Sources/GDBRemote/ProtocolInterpreter.cpp:185-203 | after any sequence of registrations the table is sorted, and free of overlaps exactly when no registration took over a longer command |
| `Interpreter.ShadowedCommand` | Sources/GDBRemote/ProtocolInterpreter.cpp:185-203 | the failing case: an exact command followed by a shorter prefix is no longer found |
| `Interpreter.DispatchMeans` | Sources/GDBRemote/ProtocolInterpreter.cpp:40-183 | a handler is called exactly when it matches the command part, with the rest of the packet unescaped as its text; an unknown command matches no handler; unescaping runs past the end only when the last escape is cut. `Requests.RequestIsCut` says what the command part is |
| `Interpreter.EscapedArgumentsArrive` | Sources/GDBRemote/ProtocolInterpreter.cpp:118-183 | for every command and either way of matching, if what follows the handler's command is an escaped text, the handler receives that text |
| `Requests.RequestIsCut` | Sources/GDBRemote/ProtocolInterpreter.cpp:72-134 | where each kind of packet is cut: v, q and Q packets at the first comma, colon or semicolon, j packets at the first colon, `bc` and `bs` and packets starting with `_M` or `_m` after two bytes, all others after one; separators are dropped |
| `Requests.EveryRequest` | Sources/GDBRemote/ProtocolInterpreter.cpp:72-134 | every packet is of one of these kinds |
| `Requests.LonePackets` | Sources/GDBRemote/ProtocolInterpreter.cpp:40-70 | `+` and `-` are acknowledgements whatever their checksum, and any other packet that is invalid or declined calls no handler |
| `Requests.RequestMeans` | Sources/GDBRemote/ProtocolInterpreter.cpp:40-183 | in a sound table each kind of packet calls the handler that matches its command, with the rest of the command and the arguments unescaped; it is unsupported when none does and runs past the end when the last escape is cut |
| `Requests.ArgumentsArrive` | Sources/GDBRemote/ProtocolInterpreter.cpp:118-183 | arguments that were escaped arrive at the handler of the command as they were |
| `Interpreter.ProtocolInterpreter.FindHandler` | Sources/GDBRemote/ProtocolInterpreter.cpp:205-221 | returns the handler the search finds and the length of its command |
| `Interpreter.ProtocolInterpreter.RegisterHandler` | Sources/GDBRemote/ProtocolInterpreter.cpp:185-203 | refuses an empty or incomplete handler and a command already answered; otherwise appends and sorts |
| `SessionThreads.MessageQueue.Put` | Sources/Core/MessageQueue.cpp:23-27 | the message goes to the back and the flag is untouched |
| `SessionThreads.MessageQueue.GetBegin` | Sources/Core/MessageQueue.cpp:29-51 | takes the front message if there is one; waits exactly when the queue is empty and not terminated |
| `SessionThreads.MessageQueue.GetEnd` | Sources/Core/MessageQueue.cpp:37-50 | after the timed wait the front message is taken unless the wait timed out or nothing came |
| `SessionThreads.MessageQueue.Clear` | Sources/Core/MessageQueue.cpp:68-76 | empties the queue and raises the flag if asked; the caller must not terminate twice |
| `SessionThreads.StepKeepsInv` | Sources/Core/SessionThread.cpp:27-78 | every atomic step of either thread keeps what links the bytes received, the packets handed over, the messages put, taken, dropped and queued, and the two threads' positions |
| `SessionThreads.RunIsSafe` | Sources/Core/SessionThread.cpp:46-78 | in every interleaving, with spurious wakeups: messages are taken in order and once, each call gets the very message put, each message put is exactly one of taken, dropped or still queued, they are the payloads of the packets of the bytes received, and the assertion on the flag never fails. `SessionThreads.RunRoutes` says which packets they are |
| `SessionThreads.HandMeans` | Sources/Core/SessionThread.cpp:46-78 | handing one packet over: it goes on the queue exactly when it is not byte 3 and is valid or no acknowledgements are in use, else straight to the session; byte 3 empties the queue; the flag is untouched |
| `SessionThreads.RunRoutes` | Sources/Core/SessionThread.cpp:46-78 | in every run the packets put on the queue and those passed straight on are, in order, exactly those, each packet handed over being one of the two |
| `SessionThreads.MainMeans` | Sources/Host/Common/QueueChannel.cpp:30-68 | what each step of the main thread does, written out: when it sleeps, when it gives up, which message it gets and what it leaves |
| `SessionThreads.NoLostWakeup` | Sources/Core/MessageQueue.cpp:23-76 | a thread asleep without a notification has nothing to do, and the step that gives it something to do notifies it |
| `SessionThreads.MissingWasCleared` | Sources/Core/SessionThread.cpp:46-78 | a message that left the queue without being taken was in it when an interrupt or the close cleared it |
| `SessionThreads.MainWindsDown` | Sources/Host/Common/QueueChannel.cpp:21-68 | once the reader is gone the main thread can always move, and every move brings it nearer its end |
| `Sites.AddKeepsRefs` | Sources/Core/BreakpointManager.cpp:25-60 | adding keeps the permanent flag in step with the count exactly when the lifetime does not mix Permanent with another flag (or the site is already counted, or refused) |
| `Sites.RemoveKeepsRefs` | Sources/Core/BreakpointManager.cpp:62-104 | removing keeps flag and count in step and passes the assertions on the count |
| `Sites.ExpireKeepsRefs` | Sources/Core/BreakpointManager.cpp:132-155 | so does the end of `disable` |
| `Sites.RunKeepsRefs` | Sources/Core/BreakpointManager.cpp:25-174 | over every run with single-flag lifetimes a site is permanent exactly when its count is positive, and no assertion on the count fires |
| `Sites.RefsAreUnmatchedAdds` | Sources/Core/BreakpointManager.cpp:25-104 | since a site was created, its count is the number of Permanent adds not yet matched by a remove |
| `Sites.OneShotLives` | Sources/Core/BreakpointManager.cpp:132-155 | a one-shot site left alone exists exactly until the first `disable` |
| `Sites.UntilHitLives` | Sources/Core/BreakpointManager.cpp:132-174 | an until-hit site left alone exists exactly until the first `disable` after its first hit |
| `Sites.FlagsAreHistory` | Sources/Core/BreakpointManager.cpp:25-174 | since a site was created, its address, mode and size are those of the first add, it is one-shot exactly when a one-shot add has not been followed by a `disable`, and until-hit exactly when an until-hit add has not been followed by a hit |
| `Sites.LivesOn` | Sources/Core/BreakpointManager.cpp:25-174 | whether the site survives the next operation, from the history alone: a remove, while more than one Permanent add is unmatched or the last is and a temporary flag is due; a `disable`, while an add is unmatched or a hit is due; a clear, never; anything else, always |
| `SoftwareBreakpoints.StepIsExact` | Sources/Core/SoftwareBreakpointManager.cpp:29-105 | from a state where memory is the program with traps exactly at the saved addresses, any operation with any failures leads to such a state exactly when it does not patch a patched address or forget a saved one |
| `SoftwareBreakpoints.RunIsSound` | Sources/Core/SoftwareBreakpointManager.cpp:34-105 | in every run without double enables or clears while patched: memory is the program with 0xcc at exactly the keys saved, each saved byte is the original, and memory is the program whenever breakpoints are disabled and after every `disable` |
| `SoftwareBreakpoints.RunIsTrapped` | Sources/Core/SoftwareBreakpointManager.cpp:34-105 | in every such run, while breakpoints are enabled, 0xcc is in memory at exactly the sites the process let be patched when that was last tried (at the last enable, or when the site was made), and memory is the program elsewhere |
| `SoftwareBreakpoints.SteadyRunIsTrapped` | Sources/Core/SoftwareBreakpointManager.cpp:34-105 | when the process lets the same addresses be patched all along, memory at every moment is the program with 0xcc at exactly the sites among them if the last enable or disable was an enable, and the program otherwise |
| `SoftwareBreakpoints.SitesEvolve` | Sources/Core/BreakpointManager.cpp:25-174 | the sites change as the plain site operations say, whatever fails, so the run theorems on sites apply |
| `SoftwareBreakpoints.DoubleEnableCorrupts` | Sources/Core/SoftwareBreakpointManager.cpp:34-105 | the failing case: add, enable twice and disable leaves the trap in the program |
| `SoftwareBreakpoints.SoftwareBreakpointManager.EnableLocation` | Sources/Core/SoftwareBreakpointManager.cpp:34-69 | succeeds exactly where memory is mapped and the process lets it be read and written; then the byte is saved and the trap written at that address only, else nothing changes |
| `SoftwareBreakpoints.SoftwareBreakpointManager.DisableLocation` | Sources/Core/SoftwareBreakpointManager.cpp:71-93 | succeeds exactly where the process lets memory be written and it is mapped or nothing was saved; then the saved byte is written back and forgotten, else it stays saved |
| `SoftwareBreakpoints.SoftwareBreakpointManager.Add` | Sources/Core/BreakpointManager.cpp:25-60 | the whole new state and the error: the site is added or its lifetime widened, and a new one is patched if breakpoints are enabled, exactly where the process lets it; invalid requests change nothing |
| `SoftwareBreakpoints.SoftwareBreakpointManager.Remove` | Sources/Core/BreakpointManager.cpp:62-104 | the whole new state and the error: a reference is dropped or the site erased, and restored if breakpoints are enabled, exactly where the process lets it |
| `SoftwareBreakpoints.SoftwareBreakpointManager.HitThread` | Sources/Core/X86/SoftwareBreakpointManager.cpp:21-48 | the program counter moves back over the trap exactly when the thread was not stepped there and a site lies one byte before it, and that site records the hit |
| `SoftwareBreakpoints.SoftwareBreakpointManager.Enable` | Sources/Core/SoftwareBreakpointManager.cpp:95-99 | whatever the order, the sites patched are exactly those at mapped addresses the process lets be read and written |
| `SoftwareBreakpoints.SoftwareBreakpointManager.Disable` | Sources/Core/SoftwareBreakpointManager.cpp:101-105 | the sites restored are exactly those the process lets be written and that are mapped or have nothing saved, and expired sites go |
| `SoftwareBreakpoints.SoftwareBreakpointManager.Reset` | Sources/Core/SoftwareBreakpointManager.cpp:29-32 | sites and saved bytes are forgotten and memory is left as it is |
| `SoftwareBreakpoints.ExpireSites` | Sources/Core/BreakpointManager.cpp:143-154 | erasing while iterating leaves exactly the sites with a lifetime left, one-shot flags cleared, in whatever order they are visited |
| `HardwareBreakpoints.FreeSlotExists` | Sources/Core/HardwareBreakpointManager.cpp:98-108 | when fewer than four sites exist and one has no slot, a slot is free among the first three, so the assertion holds |
| `HardwareBreakpoints.AvailableIsFirst` | Sources/Core/HardwareBreakpointManager.cpp:98-108 | the slot handed out is the first one free |
| `HardwareBreakpoints.ValidIsProgrammable` | Sources/Core/X86/HardwareBreakpointManager.cpp:206-237 | for every mode that names an access, what the manager admits is exactly what the debug control register can express, less unset addresses, plain reads and execution over more than one byte |
| `HardwareBreakpoints.AddErrorMeans` | Sources/Core/HardwareBreakpointManager.cpp:27-41 | success tells that the site is there in the mode asked for; failure that nothing changed, or that a new site is there with no slot |
| `HardwareBreakpoints.RemoveErrorMeans` | Sources/Core/HardwareBreakpointManager.cpp:43-50 | removing reports not found exactly when there is no site, and an invalid argument exactly when the site goes while the thread is enabled, but for address zero |
| `HardwareBreakpoints.StepIsExact` | Sources/Core/HardwareBreakpointManager.cpp:27-138 | an operation keeps the occupied slots distinct and at site addresses exactly when it is neither a clear while slots are occupied nor a `disable` while a slot holds a site whose lifetime ends there |
| `HardwareBreakpoints.RunHasSlots` | Sources/Core/HardwareBreakpointManager.cpp:27-138 | in every run with Permanent lifetimes, whatever the threads' writes return: occupied slots are pairwise distinct and hold site addresses, the fourth is never used, and a free one exists when one is asked for |
| `HardwareBreakpoints.OneShotStrandsSlot` | Sources/Core/BreakpointManager.cpp:143-154 | the failing case, from the initial state: a one-shot site is added, enabled and disabled, and its slot keeps the address |
| `HardwareBreakpoints.RegistersStepIsExact` | Sources/Core/HardwareBreakpointManager.cpp:43-138 | from a sound state with Permanent sites, an operation keeps every armed register at the address its slot stands for exactly when it neither removes an armed address nor is a `disable` that fails to clear an armed register |
| `HardwareBreakpoints.DisableClears` | Sources/Core/X86/HardwareBreakpointManager.cpp:64-89 | after a `disable` a register is armed exactly when it was before and could not be cleared |
| `HardwareBreakpoints.RunKeepsRegisters` | Sources/Core/HardwareBreakpointManager.cpp:27-138 | in every run that removes no armed address and clears what it should, a register watches at most the address its slot stands for, and none after a `disable` |
| `HardwareBreakpoints.RemovedStaysArmed` | Sources/Core/HardwareBreakpointManager.cpp:43-50 | the first failing case, from the initial state: add, enable, remove and `disable` leave the register armed with no slot and no site |
| `HardwareBreakpoints.UnclearedStaysArmed` | Sources/Core/HardwareBreakpointManager.cpp:133-138 | the second: a `disable` that cannot clear the register leaves it armed and the thread not enabled, so that the next `disable` changes nothing |
| `HardwareBreakpoints.ArmedStepIsExact` | Sources/Core/HardwareBreakpointManager.cpp:52-77 | from a sound state with every occupied slot armed, an operation keeps it so exactly when it takes no slot while the thread is enabled and, enabling the thread, fails to write no occupied slot |
| `HardwareBreakpoints.RunIsArmed` | Sources/Core/HardwareBreakpointManager.cpp:27-138 | so in every run without such an operation the registers of an enabled thread are the occupied slots |
| `HardwareBreakpoints.HitIsExact` | Sources/Core/X86/HardwareBreakpointManager.cpp:191-199 | the assertion on the slot holds for every status the processor can raise exactly when every armed register's slot is occupied |
| `HardwareBreakpoints.SoundHit` | Sources/Core/X86/HardwareBreakpointManager.cpp:191-199 | in a sound state no such status makes the assertion fail or finds a slot without a site |
| `HardwareBreakpoints.StaleHit` | Sources/Core/X86/HardwareBreakpointManager.cpp:191-199 | the failing case, from the initial state: with two watchpoints, the second added while enabled and the first removed, a hit on the first fails the assertion |
| `HardwareBreakpoints.HardwareBreakpointManager.GetAvailableLocation` | Sources/Core/HardwareBreakpointManager.cpp:98-108 | refuses when four sites exist, else returns the first free slot |
| `HardwareBreakpoints.HardwareBreakpointManager.EnableLocation` | Sources/Core/HardwareBreakpointManager.cpp:52-77 | an already placed address is written again to its slot; a new one takes the first free slot exactly when the last thread tried accepted it; the registers of every stopped thread not enabled that accepts are written, no others; slots stay distinct and the error says which |
| `HardwareBreakpoints.AloneWorks` | Sources/Core/HardwareBreakpointManager.cpp:52-77 | for a thread on its own a site works exactly when the thread is tried and does not refuse it, or is not tried and the unassigned error variable reads success |
| `HardwareBreakpoints.HardwareBreakpointManager.Add` | Sources/Core/HardwareBreakpointManager.cpp:27-41 | the whole new state and the error, keeping slots distinct whatever the threads answer; no register is written, and a slot is taken as the unassigned error variable happens to read |
| `HardwareBreakpoints.HardwareBreakpointManager.Remove` | Sources/Core/HardwareBreakpointManager.cpp:43-50 | the whole new state, registers and error: an erased site frees its slot, and with breakpoints enabled the answer is then an invalid argument and no register is cleared |
| `HardwareBreakpoints.HardwareBreakpointManager.DisableLocation` | Sources/Core/HardwareBreakpointManager.cpp:79-96 | an address without a slot is an invalid argument; otherwise its register is cleared on exactly the stopped and enabled threads that accept it, and the error is the last answer |
| `HardwareBreakpoints.HardwareBreakpointManager.Enable` | Sources/Core/HardwareBreakpointManager.cpp:126-131 | all sites are armed one after the other in the order of their addresses, each as the threads answer for it; the threads join the enabled set; the registers of a thread on its own change as the lemmas say |
| `HardwareBreakpoints.HardwareBreakpointManager.Disable` | Sources/Core/HardwareBreakpointManager.cpp:133-138 | expired sites go, the threads leave the enabled set, and each stopped thread that was enabled has exactly the registers cleared that it does not refuse, in whatever order the sites are visited; others keep theirs |
| `HardwareBreakpoints.HardwareBreakpointManager.Hit` | Sources/Core/X86/HardwareBreakpointManager.cpp:177-204 | the first status bit set decides: its site is reported, or the assertion that its slot is occupied fails, or the site is gone; nothing is reported without sites or without the registers |
| `DebugRegisters.OrSetsBit` | Headers/DebugServer2/Utils/Bits.h:94-96 | setting a bit by an or changes that bit only, for every word and index |
| `DebugRegisters.AndNotClearsBit` | Headers/DebugServer2/Utils/Bits.h:98-100 | clearing one likewise |
| `DebugRegisters.MaskClearsTopHalf` | Headers/DebugServer2/Utils/Bits.h:102-109 | the range mask used clears bits 32 to 63 and nothing else |
| `DebugRegisters.EnableBitIsOr` | Headers/DebugServer2/Utils/Bits.h:94-96 | so on the bits of any word the or is the modelled helper |
| `DebugRegisters.DisableBitIsAnd` | Headers/DebugServer2/Utils/Bits.h:98-100 | likewise for clearing |
| `DebugRegisters.DisableBitsIsMask` | Headers/DebugServer2/Utils/Bits.h:102-109 | likewise for the range |
| `DebugRegisters.Layout` | Sources/Core/X86/HardwareBreakpointManager.cpp:91-113 | which bits the fields of each slot are, by number, on Windows and elsewhere |
| `DebugRegisters.FieldsForReadsBack` | Sources/Core/X86/HardwareBreakpointManager.cpp:91-157 | the fields programmed are exactly those that read back as enabled, with the requested mode (Read as ReadWrite) and size |
| `DebugRegisters.EnableDebugCtrlReg` | Sources/Core/X86/HardwareBreakpointManager.cpp:91-157 | succeeds exactly for the modes and sizes the register can express, and then programs that slot's fields, keeps all other low bits and zeroes the top half |
| `DebugRegisters.DisableDebugCtrlReg` | Sources/Core/X86/HardwareBreakpointManager.cpp:159-175 | clears that slot's enable bit only, and zeroes the top half |
| `DebugRegisters.OtherSlots` | Sources/Core/X86/HardwareBreakpointManager.cpp:91-175 | programming one slot leaves the fields of the other three as they were |
| `DebugRegisters.CarryOut` | Sources/Core/X86/HardwareBreakpointManager.cpp:91-175 | after any sequence of requests from any 64-bit value, each slot's fields are those its own requests give, and the top half is zero |
| `DebugRegisters.LastEnableWins` | Sources/Core/X86/HardwareBreakpointManager.cpp:91-175 | those fields are the last programmed mode and size, enabled exactly when no disable of that slot came after |
| `DebugRegisters.EnableOnThread` | Sources/Core/X86/HardwareBreakpointManager.cpp:35-62 | succeeds exactly when the registers can be read and written and the request is expressible; then the address, control and status registers are set and the other addresses kept, else nothing changes |
| `ArmTypes.CountBits` | Sources/Architecture/ARM/ARMBranchInfo.cpp:285-289 | the shifting loop counts the registers of a list: the result is the size of the set of registers listed |
| `ArmTypes.PopCountIs` | Sources/Architecture/ARM/ThumbBranchInfo.cpp:375-397 | the count the decoders use is the size of that set, for every list |
| `ArmTypes.PopCountOfTop` | Sources/Architecture/ARM/ThumbBranchInfo.cpp:375-397 | adding pc to a list adds one register |
| `Thumb.InstSizeMeans` | Sources/Architecture/ARM/ThumbBranchInfo.cpp:33-36 | an instruction is 32 bits long exactly when its top five bits are 11101, 11110 or 11111 |
| `Thumb.BccNInverts` | Sources/Architecture/ARM/ThumbBranchInfo.cpp:101-115 | every short conditional branch encoded by the manual decodes to its condition and its offset plus 4, whatever halfword follows |
| `Thumb.BNInverts` | Sources/Architecture/ARM/ThumbBranchInfo.cpp:83-96 | so does every short unconditional branch |
| `Thumb.BccWInverts` | Sources/Architecture/ARM/ThumbBranchInfo.cpp:208-236 | every even 21-bit offset and condition, encoded as B.W, decodes to that condition and offset plus 4, and none of the other decoders, before or after, claims the halfwords |
| `Thumb.BWInverts` | Sources/Architecture/ARM/ThumbBranchInfo.cpp:181-207 | every even 25-bit offset of an unconditional B.W decodes to that offset plus 4, and no other decoder claims it |
| `Thumb.BLInverts` | Sources/Architecture/ARM/ThumbBranchInfo.cpp:237-263 | so does every BL, and no other decoder claims it |
| `Thumb.BLXInverts` | Sources/Architecture/ARM/ThumbBranchInfo.cpp:264-287 | every BLX offset, a multiple of 4, decodes to it plus 2 with alignment 4, and no other decoder claims it |
| `Thumb.LongExclusive` | Sources/Architecture/ARM/ThumbBranchInfo.cpp:181-287 | each of the four long branch patterns excludes every other decoder, whatever the remaining bits |
| `Thumb.CBInverts` | Sources/Architecture/ARM/ThumbBranchInfo.cpp:292-305 | every CBZ and CBNZ decodes to its offset plus 4 |
| `Thumb.LDMInverts` | Sources/Architecture/ARM/ThumbBranchInfo.cpp:375-397 | every LDM of pc decodes to its base and the offset of the word holding pc |
| `Thumb.LDRImm8Inverts` | Sources/Architecture/ARM/ThumbBranchInfo.cpp:310-373 | every LDR pc with an 8-bit offset decodes to its base and signed offset, or 0 when it is applied afterwards |
| `Arm.BInverts` | Sources/Architecture/ARM/ARMBranchInfo.cpp:58-82 | every B and BL decodes to its condition and its offset plus 8 |
| `Arm.BLXInverts` | Sources/Architecture/ARM/ARMBranchInfo.cpp:58-82 | every BLX immediate decodes to its offset, with its extra bit, plus 8 |
| `Arm.BXInverts` | Sources/Architecture/ARM/ARMBranchInfo.cpp:88-99 | every BX and BLX register form decodes to its condition and register |
| `Arm.LDRInverts` | Sources/Architecture/ARM/ARMBranchInfo.cpp:202-223 | every LDR pc with an immediate decodes to its base and signed offset, or 0 when it is applied afterwards, and no earlier decoder claims it |
| `Arm.LDMInverts` | Sources/Architecture/ARM/ARMBranchInfo.cpp:270-293 | every LDMIA of pc decodes to its base and the offset of the word holding pc |
| `Arm.MOVInverts` | Sources/Architecture/ARM/ARMBranchInfo.cpp:113-197 | every MOV of a register to pc decodes to its condition and register |
| `Arm.SUBInverts` | Sources/Architecture/ARM/ARMBranchInfo.cpp:113-197 | every SUB of a constant into pc decodes to its condition, register and expanded constant |
| `Arm.LDRRegInverts` | Sources/Architecture/ARM/ARMBranchInfo.cpp:246-262 | every LDR pc at a base plus a shifted register decodes to the two registers and the shift |
| `Arm.PlainIsUnclaimed` | Sources/Architecture/ARM/ARMBranchInfo.cpp:58-293 | no decoder claims a word of the data-processing, load and store classes with another destination than pc |
| `Arm.TrapsAreNotPlain` | Sources/Core/ARM/SoftwareBreakpointManager.cpp:140-145 | undefined instructions, breakpoints, calls to a monitor or hypervisor and exception returns are not among the instructions that go on to the next one |
| `SingleStep.BccNCovered` | Sources/Architecture/ARM/SoftwareSingleStep.cpp:84-110 | the breakpoints placed for a short conditional branch are exactly its target and the next instruction |
| `SingleStep.BccWCovered` | Sources/Architecture/ARM/SoftwareSingleStep.cpp:84-110 | likewise for the long form |
| `SingleStep.BNCovered` | Sources/Architecture/ARM/SoftwareSingleStep.cpp:104-110 | for an unconditional short branch, exactly its target |
| `SingleStep.BWCovered` | Sources/Architecture/ARM/SoftwareSingleStep.cpp:104-110 | likewise for the long form |
| `SingleStep.BLCovered` | Sources/Architecture/ARM/SoftwareSingleStep.cpp:75-110 | for a call, exactly its target and its return address |
| `SingleStep.AlignUpIsDown` | Sources/Architecture/ARM/SoftwareSingleStep.cpp:147-151 | for every even pc and every BLX offset, adding 2 and aligning up equals aligning pc plus 4 down and adding the offset, modulo 2^32 |
| `SingleStep.BLXCovered` | Sources/Architecture/ARM/SoftwareSingleStep.cpp:147-151 | for a call to ARM state, exactly its target with an ARM breakpoint and its return address with a Thumb one |
| `SingleStep.CBCovered` | Sources/Architecture/ARM/SoftwareSingleStep.cpp:84-110 | for CBZ and CBNZ, exactly the target and the next instruction |
| `SingleStep.BXCovered` | Sources/Architecture/ARM/SoftwareSingleStep.cpp:115-119 | for every predictable BX, the one breakpoint is at the architectural target, in its state, exactly when the register is not pc |
| `SingleStep.BLXrCovered` | Sources/Architecture/ARM/SoftwareSingleStep.cpp:75-119 | for a call to a register, exactly the target in its state and the return address |
| `SingleStep.POPCovered` | Sources/Architecture/ARM/SoftwareSingleStep.cpp:138-142 | for POP, exactly the saved pc above the other words, in its state |
| `SingleStep.LDMCovered` | Sources/Architecture/ARM/SoftwareSingleStep.cpp:138-142 | likewise for LDM from any base but pc |
| `SingleStep.LDRImm12Covered` | Sources/Architecture/ARM/SoftwareSingleStep.cpp:124-136 | for LDR with a 12-bit offset, exactly the word loaded, in its state |
| `SingleStep.LDRImm8Covered` | Sources/Architecture/ARM/SoftwareSingleStep.cpp:124-136 | likewise for the indexed forms |
| `SingleStep.LDRRegCovered` | Sources/Architecture/ARM/SoftwareSingleStep.cpp:124-136 | likewise for a register offset with any shift |
| `SingleStep.TBBCovered` | Sources/Architecture/ARM/SoftwareSingleStep.cpp:160-172 | for TBB, exactly pc plus 4 plus twice the entry, with the table relative to pc plus 4 when its base is pc |
| `SingleStep.ITCountMeans` | Sources/Architecture/ARM/ThumbBranchInfo.cpp:67-78 | the block count is one to four exactly when the mask has a bit set, and is then four minus the zeros below it |
| `SingleStep.SkipBlock` | Sources/Architecture/ARM/SoftwareSingleStep.cpp:59-63 | the loop returns the length of that many variable-length instructions, or reports that it would read past its buffer |
| `SingleStep.ITInBounds` | Sources/Architecture/ARM/SoftwareSingleStep.cpp:55-63 | the loop stays in the eight halfwords, whatever they hold, exactly when the mask has a bit set |
| `SingleStep.ITCovered` | Sources/Architecture/ARM/SoftwareSingleStep.cpp:49-73 | for an IT instruction, one breakpoint, just after exactly as many instructions in memory as the mask says |
| `SingleStep.HintSkipsFive` | Sources/Architecture/ARM/SoftwareSingleStep.cpp:49-73 | the failing case of the test for IT: every other halfword from 0xbf01 to 0xbfff has the five instructions after it stepped over, or runs past the halfwords read |
| `SingleStep.ARMBCovered` | Sources/Architecture/ARM/SoftwareSingleStep.cpp:221-235 | for B and BL, exactly the target, and the next instruction when the branch is conditional or a call |
| `SingleStep.ARMBLXCovered` | Sources/Architecture/ARM/SoftwareSingleStep.cpp:288-291 | for a call to Thumb state, exactly the target with a Thumb breakpoint and the return address with an ARM one |
| `SingleStep.ARMBXCovered` | Sources/Architecture/ARM/SoftwareSingleStep.cpp:221-243 | for BX and BLX through any register but pc, exactly the target in its state, and the next instruction when conditional or a call |
| `SingleStep.ARMLDRCovered` | Sources/Architecture/ARM/SoftwareSingleStep.cpp:259-276 | for LDR pc with an immediate, exactly the word loaded in its state, and the next instruction when conditional |
| `SingleStep.ARMLDMCovered` | Sources/Architecture/ARM/SoftwareSingleStep.cpp:278-282 | likewise for LDMIA |
| `SingleStep.ARMMOVCovered` | Sources/Architecture/ARM/SoftwareSingleStep.cpp:245-254 | for MOV to pc, exactly the register's target in its state, and the next instruction when conditional |
| `SingleStep.ARMSUBCovered` | Sources/Architecture/ARM/SoftwareSingleStep.cpp:296-298 | likewise for SUB of a constant into pc |
| `SingleStep.ARMLDRRegCovered` | Sources/Architecture/ARM/SoftwareSingleStep.cpp:259-276 | likewise for LDR at a base plus a shifted register |
| `SingleStep.ARMFallsThrough` | Sources/Architecture/ARM/SoftwareSingleStep.cpp:221-302 | a conditional instruction has the next one covered exactly when its target could be computed |
| `SingleStep.PrepareThumb` | Sources/Architecture/ARM/SoftwareSingleStep.cpp:23-190 | the code that sets the out-parameters along its branches computes the plan the coverage lemmas are about |
| `SingleStep.PrepareARM` | Sources/Architecture/ARM/SoftwareSingleStep.cpp:192-314 | likewise in ARM state |
| `SingleStep.ThumbSizes` | Sources/Architecture/ARM/SoftwareSingleStep.cpp:339-349 | whatever address a Thumb plan sets has size 2 or 4, so the assertions before adding hold |
| `SingleStep.ARMSizes` | Sources/Architecture/ARM/SoftwareSingleStep.cpp:339-349 | likewise in ARM state |
| `Successors.PlainIsUnclaimed` | Sources/Architecture/ARM/ThumbBranchInfo.cpp:83-450 | no decoder claims a 16-bit instruction of the classes that cannot write pc, whatever halfword follows |
| `Successors.PCWordIs` | Sources/Architecture/ARM/ThumbBranchInfo.cpp:375-397 | the offset the decoders give is a word for each register in the set listed, for every base and list |
| `Successors.ConstantIs` | Sources/Architecture/ARM/ARMBranchInfo.cpp:32-36 | the expanded constant is the eight bits rotated right by twice the other four, for every field |
| `Successors.MOVIsExact` | Sources/Architecture/ARM/SoftwareSingleStep.cpp:115-119 | for MOV to pc from any register, the architectural target in Thumb state is covered exactly when the register is not pc and its low bit is set |
| `Successors.TableHIsExact` | Sources/Architecture/ARM/SoftwareSingleStep.cpp:160-172 | for TBH, the target is covered exactly when the entry is below 0x8000 |
| `Successors.ThumbStepCovers` | Sources/Architecture/ARM/SoftwareSingleStep.cpp:23-190 | for every defined and predictable Thumb instruction of 18 forms and all registers, flags and memory, the architecture's next instruction is among the breakpoints asked for, in its state, exactly when the instruction is not BX or MOV from pc, MOV of an even address, or TBH with an entry of 0x8000 or more |
| `Successors.ARMStepCovers` | Sources/Architecture/ARM/SoftwareSingleStep.cpp:192-314 | for every defined and predictable ARM instruction of nine forms, likewise exactly when the instruction is not a load from an address that cannot be read |
| `StepBreakpoints.PlaceSucceeds` | Sources/Architecture/ARM/SoftwareSingleStep.cpp:339-351 | adding the two breakpoints succeeds exactly when no site in the way watches data and every site created can be written into memory |
| `StepBreakpoints.FailureLeaves` | Sources/Core/BreakpointManager.cpp:25-60 | whatever the failure: which sites are left, that memory is as it was but for the branch's trap, and that writing back what was saved for that restores it |
| `StepBreakpoints.NextFailureLeaves` | Sources/Core/BreakpointManager.cpp:25-60 | a next instruction whose trap cannot be written leaves both sites behind and only the branch's trap in memory |
| `StepBreakpoints.WantedAreSites` | Sources/Architecture/ARM/SoftwareSingleStep.cpp:339-351 | after success every address asked for has a one-shot execution site, of the size asked for exactly when no older site there has another and the branch did not take the address with another |
| `StepBreakpoints.OthersAreKept` | Sources/Architecture/ARM/SoftwareSingleStep.cpp:339-351 | whether it succeeds or fails, older sites keep their size and references, and nothing else is added |
| `StepBreakpoints.TrapsAreThere` | Sources/Core/SoftwareBreakpointManager.cpp:34-69 | after success the trap of a new next instruction is in memory, and that of a new branch exactly when the two do not overlap |
| `StepBreakpoints.TrapsAfter` | Sources/Core/SoftwareBreakpointManager.cpp:34-69 | if every site had its trap before, then after success a site, old or new, has its trap in memory exactly when no breakpoint written after it runs into it |
| `StepBreakpoints.PlaceKeepsUnder` | Sources/Core/SoftwareBreakpointManager.cpp:34-69 | whether or not placing fails, memory is the program's wherever no site's trap lies |
| `StepBreakpoints.PlaceIsUndone` | Sources/Core/SoftwareBreakpointManager.cpp:34-93 | writing back what was saved for two traps that do not overlap restores memory, in either order |
| `StepSites.CoveredIsSite` | Sources/Architecture/ARM/SoftwareSingleStep.cpp:316-352 | once a plan is placed there is a one-shot execution site at each instruction it covers, of the size of its state under the same condition |
| `StepSites.CoveredStops` | Sources/Architecture/ARM/SoftwareSingleStep.cpp:316-352 | and, with every site's trap in memory before, its trap is in memory exactly when neither breakpoint of the step runs into it |
| `StepSites.ThumbStepStops` | Sources/Architecture/ARM/SoftwareSingleStep.cpp:316-352 | end to end in Thumb state: for every covered instruction of the program and all registers, flags and memory, with every site's trap in memory and none on what the plan reads, a plan is found; and once it is placed there is a one-shot site at the program's next instruction, of the size of its state and with its trap in memory under those exact conditions |
| `StepSites.ARMStepStops` | Sources/Architecture/ARM/SoftwareSingleStep.cpp:316-352 | likewise in ARM state |
| `StepSites.MergedSize` | Sources/Architecture/ARM/SoftwareSingleStep.cpp:339-351 | the failing case: `BXNE r0` at 0x1000 with r0 = 0x1005 leaves one site of the Thumb size at 0x1004, where the step falls through in ARM state |
| `StepSites.OverwrittenTrap` | Sources/Architecture/ARM/SoftwareSingleStep.cpp:339-351 | the failing case of the trap: `BXNE r0` at 0x1000 with r0 = 0x1007 is placed with success, and the site at its target has no trap |
| `StepSites.HiddenThumbIsExact` | Sources/Architecture/ARM/SoftwareSingleStep.cpp:28-41 | with a two-byte trap at the program counter and any instruction under it, the step stops at the program's next instruction exactly when that is the one two bytes on |
| `StepSites.HiddenLongIsExact` | Sources/Architecture/ARM/SoftwareSingleStep.cpp:28-41 | likewise four bytes on with a long Thumb trap |
| `StepSites.HiddenBranchIsMissed` | Sources/Architecture/ARM/SoftwareSingleStep.cpp:28-41 | the failing case: a branch to itself under a trap is missed |
| `StepSites.HiddenARMIsExact` | Sources/Architecture/ARM/SoftwareSingleStep.cpp:197-207 | likewise four bytes on with an ARM trap |
| `StepSites.ThumbUndisturbed` | Sources/Architecture/ARM/SoftwareSingleStep.cpp:23-190 | if no site lies on the bytes the plan for the program reads, the plan from the patched memory is that plan |
| `StepSites.ARMUndisturbed` | Sources/Architecture/ARM/SoftwareSingleStep.cpp:192-314 | likewise in ARM state |
| `StepSites.ChosenSpans` | Sources/Core/ARM/SoftwareBreakpointManager.cpp:27-56 | when the size is left to the manager, the trap is the short or the long Thumb one as the instruction it replaces is short or long, and the ARM one in ARM state |
| `StepSites.AskedIs` | Sources/Core/ARM/SoftwareBreakpointManager.cpp:24-59 | an unset address asks for no site; any other asks for one at the address without its lowest bit |
| `StepSites.StepManager.EnableLocation` | Sources/Core/SoftwareBreakpointManager.cpp:34-69 | succeeds exactly when all bytes of the trap are mapped and the process lets them be read and written; then the bytes there are saved and the trap of that size written, else nothing changes |
| `StepSites.StepManager.Add` | Sources/Core/ARM/SoftwareBreakpointManager.cpp:24-59 | for every size: other sizes than 2 to 4 are chosen from the state and the instruction, or fail if those cannot be read; the Thumb bit is taken off the address, and the whole new state and error are those of the addition the lemmas are about |
| `StepSites.StepManager.Prepare` | Sources/Architecture/ARM/SoftwareSingleStep.cpp:316-352 | nothing is placed unless a plan is found from the memory as patched so far, and the error says whether the instruction is unsupported; then exactly that plan is placed |
| `RegsGen.SuffixedInjective` | Tools/RegsGen2/main.cpp:149-156 | candidate names with different numbers differ |
| `RegsGen.FreshName` | Tools/RegsGen2/main.cpp:149-156 | the search loop ends for every set of taken names and returns the first free candidate |
| `RegsGen.AssignCNames` | Tools/RegsGen2/main.cpp:144-164 | for every collection of names, each register gets its own name if no earlier register took it, else the first free candidate, and all C names are pairwise distinct |
| `RegsGen.AssignLLDBIndexes` | Tools/RegsGen2/main.cpp:179-191 | each register ends with the number of its last visit |
| `RegsGen.GetRegisterInfo` | Sources/Architecture/RegisterLayout.cpp:415-430 | an index below the total gives the register at that place and the set it lies in; a larger one fails |
| `RegsGen.LookupInverts` | Sources/Architecture/RegisterLayout.cpp:415-430 | whatever looking up i answers is the register numbered i, for every i in range, exactly when no register is listed twice |
| `RegsGen.Finalize` | Tools/RegsGen2/RegisterSet.cpp:76-337 | refuses exactly the sets with a register whose size is too small, no power of two or multiple of eight, or not that of its encoding, or one that does not fit its parent; otherwise subregisters hold their offset in the parent |
| `RegsGen.ComputeLLDBOffsets` | Tools/RegsGen2/main.cpp:202-233 | each parentless register ends at the offset of its last visit, and subregisters are left alone |
| `RegsGen.OffsetIsLeast` | Tools/RegsGen2/main.cpp:214-229 | that offset is aligned, and the least aligned one at or past the ends of all registers laid out before |
| `RegsGen.Disjoint` | Tools/RegsGen2/main.cpp:202-233 | two different parentless registers never share a byte, even when sets are listed twice |
| `RegsGen.SubregisterInside` | Tools/RegsGen2/main.cpp:843-854 | the little-endian range emitted for a subregister lies inside its parent's, at the element times its size in bytes |
| `RegsGen.EmittedIsExact` | Tools/RegsGen2/main.cpp:843-854 | through any chain of parents, the offset emitted for a subregister is where it lies exactly when its parent has no parent or the parent's parent lies at offset zero |
| `RegsGen.ElementsDisjoint` | Tools/RegsGen2/RegisterSet.cpp:320-336 | different elements of one size in one parent do not overlap |
| `RegsGen.RoundingMask` | Tools/RegsGen2/main.cpp:225-225 | on 64-bit words, the mask that is the negated alignment rounds as the offsets' rounding does |
| `RegsGen.AlignMask` | Tools/RegsGen2/main.cpp:214-223 | the alignment is the one the mask test selects, for every size |
| `RegsGen.PowerMask` | Tools/RegsGen2/RegisterSet.cpp:90-97 | a positive size and its predecessor share no bit exactly when the size is a power of two |
| `RegsGen.SizesAre` | Tools/RegsGen2/RegisterSet.cpp:76-149 | the sizes let through: powers of two from 8 bits up, or whole bytes for extended floats and vectors; 32, 64 and 80, 96 or 128 bits for the float encodings |
| `RegsGen.RootsApart` | Tools/RegsGen2/main.cpp:843-854 | registers of different roots never share a byte, subregisters included |
| `RegsGen.Generate` | Tools/RegsGen2/main.cpp:275-294 | the whole run: it succeeds exactly when every register is well sized and fits its parent; then all C names are distinct and chosen as above, an index looks up the register of that number, for every index, exactly when no register is listed twice, every register lies inside its root, and registers of different roots lie apart |
| `RegisterText.SwapTwice` | Headers/DebugServer2/Utils/SwapEndian.h:15-24 | the 16-, 32- and 64-bit swaps are their own inverses |
| `RegisterText.SwapReverses` | Headers/DebugServer2/Utils/SwapEndian.h:15-24 | swapping a value is reading its little-endian bytes as big-endian |
| `RegisterText.AddressRoundTrip` | Sources/GDBRemote/Session.cpp:211-252 | parsing what was formatted gives the value back, reduced to the register size, in both byte orders |
| `RegisterText.WriteHex` | Headers/DebugServer2/Utils/HexValues.h:41-48 | the loop writes two digits for each byte in order |
| `RegisterText.LittleText` | Sources/GDBRemote/Session.cpp:234-252 | little-endian text is the hexadecimal form of the value's little-endian bytes |
| `RegisterText.FormatRegisters` | Sources/GDBRemote/Session.cpp:714-718 | the reply is the registers' texts in order |
| `RegisterText.ParseRegisters` | Sources/GDBRemote/Session.cpp:665-677 | each register is read from its own piece of the text, a piece with no number as zero, and a rest too short is ignored |
| `RegisterText.RegistersMean` | Sources/GDBRemote/Session.cpp:665-677 | there are as many registers as whole pieces, and register i is read from the i-th, for every text |
| `RegisterText.PieceMeans` | Sources/GDBRemote/Session.cpp:211-232 | a piece is read as the number it starts with, in the sense of `Numbers.NumberMeans`, or as zero; on a little-endian target its low bytes, as many as the register has, the other way round |
| `RegisterText.ReplyMeans` | Sources/GDBRemote/Session.cpp:714-718 | the reply is as long as the registers need, and the i-th piece of it is the text of register i |
| `RegisterText.RegistersRoundTrip` | Sources/GDBRemote/Session.cpp:665-718 | for every vector of registers, sizes 32 and 64 and both byte orders, the `G` loop applied to the `g` reply gives the vector back, each value reduced to the register size |
| `RegisterText.InRangeIsKept` | Sources/GDBRemote/Session.cpp:665-718 | for values in range that reduction changes nothing, so the vector comes back as it was |
| `RegisterText.ReadAndWriteBack` | Sources/GDBRemote/Session.cpp:665-718 | the two loops one after the other do that |

## Left out

- Sockets, ptrace, files, platform queries and logging: operating-system calls with no logic of their own.
- The other `Session` handlers, XML and JSON generation and the string tables: argument parsing and formatting that would only add easy members.
- Framing.PacketProcessor.Parse: what is reported as junk depends on where chunks end, so only packets, not junk reports, are proved independent of the chunking.
- Transport.Unescape: run-length encoding with `*` is not modelled, because the source does not expand it either.
- Interpreter.SortSorts: the order `std::sort` gives handlers with equal commands is that of a stable sort; equal commands only occur in tables that already overlap.
- SessionThreads.RunIsSafe: each critical section is one step and `connected` is read atomically; memory ordering below that, and the lifetime of the channel object, are not modelled.
- Sites.RunKeepsRefs: the reference count is unbounded rather than 32 bits wide.
- SoftwareBreakpoints.RunIsSound: one-byte traps of x86; the two- to four-byte patches of ARM are modelled for one step from any state, not over runs.
- SoftwareBreakpoints.SoftwareBreakpointManager.Add: only execution breakpoints, which the source asserts; `Remove` and `Disable` ask for counts in step with flags, which the source asserts.
- HardwareBreakpoints.RegistersStepIsExact: one thread, stopped whenever an operation runs. The class has any number of threads; with several, the slot follows the answer of the last thread tried.
- HardwareBreakpoints.HitIsExact: the processor sets status bits for armed registers only.
- HardwareBreakpoints.RunHasSlots: says nothing of a site at address zero, which never holds a slot, as zero marks a free one.
- DebugRegisters.EnableDebugCtrlReg: words are sequences of 64 bits; `DebugRegisters.EnableBitIsOr` and the two after it tie the bit helpers to that reading.
- Arm.LDMInverts: increment-after only. The source gives the other three addressing modes the same offset, which is not where they load pc from.
- SingleStep.LDRImm12Covered: the base is not pc. With pc as base the source reads the instruction's own address where the architecture reads the aligned address plus 4; the same holds for the other loads and, with 8, in ARM state.
- SingleStep.BLXrCovered: the register is not pc, which is unpredictable; likewise register 15 as an index of the table branches.
- SingleStep.ITCovered: a branch inside the block is not looked for, as in the source, so the breakpoint after the block is all there is. The distance is counted in halfwords.
- SingleStep.PrepareARM: compare instructions and moves to status registers that match the patterns leave the type unset, and a constant moved to pc leaves register -1; both are an outcome of their own, since the source then reads something undefined.
- SingleStep.ARMSUBCovered: the constant form only. For a register operand the source subtracts the shift count.
- SingleStep.ARMLDRRegCovered: adding, with a left shift. The source ignores the subtract flag and refuses the other shifts.
- Successors.ThumbStepCovers: 16-bit instructions that cannot write pc, and the branches and loads into pc named; other 32-bit instructions and instructions inside an IT block are not among the forms. A load into pc from an unaligned address is unpredictable and has no next instruction.
- Successors.ARMStepCovers: of the instructions that do not write pc, data processing and loads and stores of words and bytes; multiplications, halfword and double transfers, block transfers and coprocessors are not among the forms, nor is BX through pc, nor data processing into pc other than MOV and SUB as above, which the source refuses.
- SingleStep.PrepareThumb: `SUBS pc, lr` is planned as the source does, without a coverage lemma, since it is an exception return. A read of memory succeeds only if every byte is mapped. Memory and registers are little-endian.
- StepSites.StepManager.Prepare: a walk past the buffer and the use of an unset type give the error of a failed read.
- SingleStep.ARMBXCovered: states what is asked for, like the other coverage lemmas; when both requests share an address, `StepSites.ARMStepStops` states which one is kept.
- StepSites.HiddenLongIsExact: the trap does not straddle the end of the address space.
- StepBreakpoints.PlaceSucceeds: whether the process lets memory be read and written is one answer for each breakpoint; unmapped bytes always fail.
- SoftwareBreakpoints.SoftwareBreakpointManager.Enable: the addresses a process lets be read and written do not change during one call; they may between calls.
- HardwareBreakpoints.HardwareBreakpointManager.EnableLocation: a thread answers in one way for one site during one call. With no thread to try, the source returns an error variable it never set; the model lets it read as anything.
- Successors.ConstantIs: with no rotation the source shifts a word by 32, which is undefined in C++; it is taken to give zero.
- RegsGen.SubregisterInside: the parent has no parent; `RegsGen.EmittedIsExact` says what happens otherwise. The big-endian form of the macro lacks a closing parenthesis (Tools/RegsGen2/main.cpp:467-469) and is not covered.
- RegsGen.Finalize: the lookups of referenced sets, registers and custom encodings by name are left out; parents are already resolved.
- RegsGen.AssignLLDBIndexes: the sets of all definitions are given as one list, in order; so for the offsets.
- RegsGen.Generate: registers of different sets are different objects, as the parser makes them, and the listed sets are among all sets.
- RegisterText.SwapReverses: fields joined by an or that do not overlap are added.
