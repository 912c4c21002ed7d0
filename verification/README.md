# Verified models of xenolift

xenolift is a static recompiler for PlayStation (MIPS I) code, with a runtime that emulates the
hardware around it. This project models the parts of it where correctness is hardest to see, and
proves what they are for. It verifies with Dafny 4.11:

    dafny verify dfyconfig.toml

## What is modelled

**The recompiler.** `Discovery` walks an image with a worklist and a constant map and finds the reachable
words, the function entries and the resolved register jumps; `Discovered` says what the result means, and
when it is complete. `Split` is the fixpoint that decides where generated functions start, and the
assignment of words to chunks. `CCode` has the plain statements the emitter writes and their meaning,
`Emitter` the chunk bodies: labels, delay slots, gotos, calls, tail calls, dispatch, returns. The output is
a syntax tree, not C text. `Mips` and `Machines` give the two sides their semantics: a machine with branch
delay slots, no load-delay slot, no overflow traps, and a shadow stack of open calls; and C functions on a
call stack with a dispatcher. `Simulation`, `Layout` and `Recompile` prove that every step of the first that
meets the condition `Recompile.Ok` is followed by the second, over runs of any length. `Pipeline` puts
discovery and emission together and leaves only conditions on the image and on the execution: emitted
statements are exact, traps stay in their chunk, linking branches are not taken, and registers that are
jumped through hold what the emitted code takes them to hold. The last is not asked of a resolved jump when
no walked word leads into the middle of the stretch that resolved it and no stub is on it: then every run
keeps what the walk knew. `Limits` takes the conditions one by one: where the emitted code is right exactly
under the condition there is an if-and-only-if, and where it is wrong there is what it does instead.
`Witnesses` has a small text for each, with statements about every discovery of the text and every program
emitted from it (`Witnesses.Make` makes one). `Words`, `Seqs`, `Options` and `Runs` are shared vocabulary.

**Codecs.** `Lzss` has the five decoders of the same stream format as loops over arrays, one specification
for the strict and tolerant ones and one for the append form, the relations between them, and what token
lists the streams are. `GifLzw` is the GIF encoder with its bit accumulator and sub-blocks, `BitStreams` the
bit order, and `GifDecode` a decoder written from Appendix F of the GIF89a specification, independently of
the encoder; the two tables are one entry out of step, and the proof carries that offset.

**CD-ROM controller.** `Cdrom` is the controller as a state machine over register accesses and time slices;
`CdController` is the C file's state, byte arrays with counts and a read index, the pending and queued
structs, the interrupt's globals, with an abstraction function to the machine; each entry point is proved to
do what the machine does. The drive's registers are kept as one record. `XaResample` is the XA audio
resampler.

**Memory card.** `MemCard` has sectors and checksums, `SerialPort` the byte protocol as a state machine,
`SioPort` the class with its FIFO ring, `CardTalk` whole transactions, and `CardFs` the directory and
block allocator over any sequence of calls.

**GPU.** `Gp0` cuts the command stream into packets, `GpuDraw` is how drawing commands take their words,
and lines from packet to pixels, `Blits` moves rectangles, `GpuPort` is the class with the command buffer and
the VRAM, and `GpuLine` is the line loop.

**SPU.** `Adsr` is the volume envelope.

Guest time, DMA activity, sector contents, the region string, coprocessor and unknown-instruction stubs,
BIOS calls and the rasteriser are parameters. Bookkeeping that the code does not keep (the responses set over
an unacknowledged one, the interrupts raised, the bytes sent since the port was idle, the events of the
GP0 port) is marked as such where it is declared.

## Where the code departs from what one would expect

These are properties that fail for the code as written. Each has the exact condition, or what is left of
it, and an input.

- The word after `syscall` or `break` is marked as a delay slot before it is queued, so it is not walked
  (`Discovered.TrapCutsOff`, `Discovered.TrapEndsSearch`), and no hand-off is written behind a trap
  (`Limits.TrapExact`, `Witnesses.TrapLost`).
- A jump onto a delay slot finds it marked, so what is behind it is missed (`Discovered.Complete`,
  `Witnesses.MissedWord`); a goto onto a slot that was written inside its branch's block runs that branch's
  transfer (`Limits.JumpExact`, `Witnesses.LoopLost`).
- The target of a resolved `jalr` becomes a function entry without a range check (`Discovered.FunctionsVisited`,
  `Discovered.ReadyExact`, `Witnesses.FarCall`).
- `jr` through a register reads it after the slot (`Limits.JumpLateExact`, `Witnesses.LateJump`); `jr ra`
  returns to the caller whatever r31 holds (`Limits.ReturnExact`, `Witnesses.OwnReturn`).
- A taken `bltzal` or `bgezal` opens no call (`Limits.LinkExact`, `Witnesses.LinkLost`), and one that tests r31
  tests its own return address (`Limits.LinkTestsItself`).
- Division by zero leaves HI and LO alone, loads to register 0 other than LW do no access
  (`CCode.EmitPlainExact`, `CCode.DivideByZeroDiffers`).
- The GIF encoder's end code can be one bit narrower than the decoder expects; when nothing pads it, the
  decoder runs out of bits after the last pixel (`GifDecode.RoundTrip`, `GifDecode.LosesExact`,
  `GifDecode.EndCodeLost`).
- The XA interpolation product exceeds 32 bits for samples far apart (`XaResample.MixExact`,
  `XaResample.XaMixExact`, `XaResample.MixOverflows`).
- A shaded line announces four words and is drawn to its second color instead of its second end
  (`GpuDraw.DrawLine`, `GpuDraw.ShadedStray`).
- A VRAM copy whose destination follows into its source reads pixels it has already overwritten
  (`Blits.CopyExact`, `Blits.ClobbersExact`, `Blits.Smears`).

Where comments and code disagree, the model follows the code. The header comment of source/lzss_ref.py gives the
offset its high nibble from the first byte of a match and the length from the same byte; the code takes both from
the second. The comment at ext/oracle/psxrecomp_cdrom.c:1439 says that a seek drops a pended INT1; only reads, play,
pause, stop and init call the helper, and since commands execute only with no response outstanding, there
is never one to drop (`Cdrom.RunKeeps`).

## Model

| member | source | states |
|---|---|---|
| Discovery.TrackSound | source/src/discovery.rs:177-256 | a register the constant map knows holds that value after every instruction that is not a coprocessor or unknown stub, if it did before |
| Discovery.StubExact | source/src/discovery.rs:250-254 | tracking survives a coprocessor or unknown stub, whatever the map knows, if and only if the stub writes no register at all |
| Discovery.WalkSound | source/src/discovery.rs:57-71 | what a walk knows at its end holds in every execution that enters at its head |
| Discovery.WalkKeeps | source/src/discovery.rs:60-131 | walking one word keeps the worklist's invariant: walked words have their successors visited or pending, every walked word and entry has a reason |
| Discovery.Walk | source/src/discovery.rs:57-131 | one walk, as a loop, adds exactly the words, entries, register jumps and continuations of the specification function |
| Discovery.Seed | source/src/discovery.rs:41-55 | the queue and the entries begin with the entry point (or the base if it is outside) and the valid seeds, and nothing else |
| Discovery.Discover | source/src/discovery.rs:26-135 | the worklist terminates with an order of walked words in which everything is closed, justified and recorded |
| Discovered.WalkedClosed | source/src/discovery.rs:78-129 | every root, and every address a walked word leads to, is visited if it is a word of the image |
| Discovered.VisitedExact | source/src/discovery.rs:64-76 | the visited words are exactly the walked ones and the slots of walked transfers |
| Discovered.FunctionsExact | source/src/discovery.rs:83-117 | the function entries are exactly the roots, the valid jal targets and the resolved jalr targets of walked words |
| Discovered.WalkedReachable | source/src/discovery.rs:57-132 | nothing is walked that is not reachable from the roots |
| Discovered.Complete | source/src/discovery.rs:57-132 | if nothing reachable jumps onto the word behind a transfer, every root in the image, and every word of the image that a walked word other than a trap leads to, is walked |
| Discovered.WalkedIsLeast | source/src/discovery.rs:57-132 | without traps the walked words are then exactly the words of the image in the least set of addresses that has the roots and all that its words lead to |
| Discovered.CleanIsEnough | source/src/discovery.rs:57-132 | both premises follow from the image and the roots alone: no root, static target or resolvable constant is the word behind a transfer |
| Discovered.AfterTrap | source/src/discovery.rs:73-76 | the word after a trap is visited, and walked if and only if it was walked before the trap |
| Discovered.TrapCutsOff | source/src/discovery.rs:73-76 | it is not walked when it is no root and no other word leads to it, although execution goes on there |
| Discovered.TrapEndsSearch | source/src/discovery.rs:120-123 | an entry point that is a syscall ends the whole search after one word |
| Discovered.ResolvedTargetHolds | source/src/discovery.rs:92-117 | the recorded target of a jr or jalr is the register's value in every execution that meets no stub on the way from the head of the walk that recorded it, which is a root or where a walked transfer leads |
| Discovered.FunctionsVisited | source/src/discovery.rs:115 | every entry is a visited word if and only if the roots and the resolved jalr targets are words of the image |
| Discovered.ReadyExact | source/src/emitter.rs:234-246 | the emitted program can be executed from its entries if and only if roots and resolved jalr targets are words of the image |
| Discovered.WalkedIsEmittable | source/src/emitter.rs:384-390 | at every walked word, flow that continues has a reachable word and calls have a start to call, as far as the image goes |
| Pipeline.StartsWalked | source/src/emitter.rs:233-278 | every start of the emitted program is a word that discovery walked |
| Pipeline.StepActs | source/src/emitter.rs:353-599 | at a walked word of an image that suits, a step that meets the conditions of the execution meets every condition of the emitter, and leads to a walked word again |
| Pipeline.NoStart | source/src/emitter.rs:233-278 | no chunk begins at a word that only the word before it leads to |
| Pipeline.SureHolds | source/src/discovery.rs:92-117 | on track, a register whose walk was undisturbed holds the recorded target |
| Pipeline.StepKeepsTrack | source/src/discovery.rs:57-131 | a step that meets the conditions of the execution, which ask nothing of such registers, meets those of the emitter, and inside every undisturbed stretch the registers go on holding what the walk knew |
| Pipeline.PipelinePreserves | source/src/main.rs:705-793 | discovery and emission together: in an image that suits, every run of the original from a found entry that meets the conditions of the execution is followed by the generated code, however long; of resolved jumps whose walk was undisturbed nothing is asked |
| Pipeline.InOrder | source/src/emitter.rs:280-285 | the visited words in address order, a word apart |
| Pipeline.Translate | source/src/main.rs:705-793 | from a loaded text, an entry and seeds: a finished discovery and the program built from it |
| Split.OwnerShared | source/src/emitter.rs:254-255 | two addresses have the same owner if and only if no start lies between them |
| Split.SplitStarts | source/src/emitter.rs:233-278 | the loop terminates with the least set above the initial starts in which every static or fallthrough edge stays in a chunk or lands on a start |
| Split.StartForced | source/src/emitter.rs:252-272 | a start that the loop adds is in every such set, so the result does not depend on the order of passes |
| Split.ChunkPartition | source/src/emitter.rs:280-285 | each reachable word is in its owner's chunk and no other, in ascending order |
| Split.AssignChunks | source/src/emitter.rs:280-285 | the loop builds exactly that partition |
| CCode.EmitPlainExact | source/src/emitter.rs:86-196 | an emitted plain statement has exactly the instruction's effect on registers, HI, LO and memory if and only if it is no division by zero that shows and no skipped load to register 0 that shows |
| CCode.DivideByZeroDiffers | source/src/emitter.rs:116-123 | a division by zero with a visible difference |
| Emitter.EmitBody | source/src/emitter.rs:354-529 | the loop over a chunk's words writes the units of the words that are not consumed slots, in order |
| Emitter.LabelsAreWords | source/src/emitter.rs:377-378 | every word of a chunk has its label exactly once, in address order |
| Emitter.GotoFinds | source/src/emitter.rs:545-553 | a goto to a word that is not a consumed slot continues with that word's unit |
| Machines.Emit | source/src/emitter.rs:223-351 | the program has the split's starts and a body for every chunk |
| Simulation.LineRuns | source/src/emitter.rs:86-196 | labels, statements and saved temporaries execute one after the other |
| Simulation.UnitRuns | source/src/emitter.rs:411-527 | a unit's straight part and then its exit bring the generated code to the state that matches the original's next one |
| Layout.Onward | source/src/emitter.rs:514-524 | after a unit whose flow continues, the code goes on at the following address, in the chunk or by a hand-off |
| Recompile.StepSimulated | source/src/emitter.rs:353-599 | every step of the original that meets Ok is matched by one or more of the generated code: same registers, HI, LO, memory, place and open calls |
| Recompile.MeaningPreserved | source/src/emitter.rs:223-599 | runs of any length from a start are followed by the generated code, which returns to its host when the original does |
| Limits.TrapExact | source/src/emitter.rs:395-409 | two statements after a trap the C is at what follows in its chunk, and that is where the original is if and only if the next word is in the same chunk |
| Limits.ConsumedGoto | source/src/emitter.rs:535-540 | a goto onto a consumed slot runs the slot and then the transfer of the slot's branch |
| Limits.GotoLands | source/src/emitter.rs:535-540 | it lands right if and only if the code after the slot is the same either way |
| Limits.JumpExact | source/src/emitter.rs:543-559 | that is the case only when the slot's owner jumps to the word after the slot, in another chunk |
| Limits.JumpReadsLate | source/src/emitter.rs:471-483 | an unresolved jr dispatches to what the register holds after the slot |
| Limits.JumpLateExact | source/src/emitter.rs:471-483 | say an unresolved jump's register is y before its slot and x after it: if x or y is a start, the jump is followed if and only if x is y; if neither is, the C is back in the innermost open call, and that is right if and only if y too is outside the region and the outside code at x and y changes the same |
| Limits.SlotLeaves | source/src/emitter.rs:471-483 | a slot that is no stub and does not name the register leaves it |
| Limits.ReturnIgnoresRa | source/src/emitter.rs:478-479 | an unresolved jr ra returns to the suspended activation whatever r31 holds |
| Limits.ReturnExact | source/src/emitter.rs:478-479 | it comes to where the original returns, and matches the original's jump if and only if r31 holds the innermost open return address, or an address outside whose code changes nothing |
| Witnesses.LinkLost | source/src/emitter.rs:583-591 | a five-word text with a taken bltzal: the original is behind the slot, the C has returned to its host |
| Witnesses.LateJump | source/src/emitter.rs:471-483 | jr r8; addiu r8, r8, 4: the original is at the jump again, the C in outside code |
| Witnesses.OwnReturn | source/src/emitter.rs:478-479 | jr ra with r31 at itself: the original stays, the C returns |
| Witnesses.TrapLost | source/src/emitter.rs:395-409 | a syscall before another function: the original goes on there, the C returns |
| Witnesses.LoopLost | source/src/emitter.rs:535-540 | a branch onto the slot of a jump back to it: the original returns after four steps, the C never |
| Witnesses.FarCall | source/src/discovery.rs:108-117 | lui; jalr out of the image: the far address becomes a start without a body |
| Witnesses.FarSure | source/src/discovery.rs:103-117 | in that text only the lui leads to the call, so its register is sure |
| Witnesses.MissedWord | source/src/discovery.rs:57-76 | a jump onto a slot: the word behind the slot is not visited |
| Limits.BranchGoes | source/src/emitter.rs:567-596 | a branch links, decides, executes its slot, and is then at the target's label, in the target's function, dispatched, or behind itself |
| Limits.LinkExact | source/src/emitter.rs:583-596 | the C runs to the end of the branch's block with the machine's decision; there or one step on, the branch is followed if and only if it is not taken, whatever is open and wherever it goes |
| Limits.LinkReturnLost | source/src/emitter.rs:583-591 | after a taken one in its own chunk the function it entered returns past its caller: the original is behind the slot, the C has left the activation |
| Limits.LinkTestsItself | source/src/emitter.rs:583-588 | one that tests r31 tests its own return address: the decisions agree if and only if the signs of the two do |
| Lzss.CopyMatch | source/src/main.rs:104-109 | the copy loop extends the output as the match means, cut at the size |
| Lzss.DecodeUsed | source/src/main.rs:49-81 | the output and the number of input bytes read are those of the strict specification |
| Lzss.DecodeStrict | source/lzss_ref.py:21-61 | the reference form and lzss_decode give the strict specification's output on every input |
| Lzss.DecodeTolerant | source/src/main.rs:133-166 | the tolerant form gives the tolerant specification's output on every input |
| Lzss.Unlzss | tools/fitmod.py:17-35 | the append form gives its specification's output on every input with a header |
| Lzss.CopyPeriodic | source/src/main.rs:105-109 | an overlapping copy repeats with period off |
| Lzss.CopyZeros | source/src/main.rs:87-89 | offset zero, and reads from before the start, give zeros |
| Lzss.StrictExact | source/src/main.rs:103 | the strict forms refuse exactly the streams with a match from before the start, and agree with the tolerant one on all others |
| Lzss.AppendExact | tools/fitmod.py:22-32 | from any point of a stream the append form succeeds if and only if the strict one does and no offset is zero, and then its first size bytes are the same |
| Lzss.FormsAgree | source/src/main.rs:83-166 | the relations of all forms on whole streams |
| Lzss.UsedIsExact | source/src/main.rs:80 | any input that begins with the bytes read decodes alike, and no shorter beginning decodes |
| Lzss.PackDecodes | source/src/main.rs:83-118 | every well-formed token list, packed in groups of eight behind control bytes, decodes to its meaning and to its end, whatever follows |
| Lzss.DecodeHasTokens | source/src/main.rs:83-118 | from any point, whatever decodes is the meaning of well-formed tokens which the bytes that were read spell |
| Lzss.StreamIsPacked | source/src/main.rs:49-118 | every stream that decodes is its header and the packing of well-formed tokens that mean its output, up to the spare bits of the last control byte, and then what was not read |
| Lzss.PackedDiffers | source/src/main.rs:83-118 | such bytes differ from the packing in one byte at most |
| BitStreams.UnpackInjective | tools/frames2gif.py:13-15 | a bit stream has one packing into bytes |
| BitStreams.UnblockBlocked | tools/frames2gif.py:34-38 | cutting into sub-blocks and joining them gives the bytes back |
| GifLzw.Emit | tools/frames2gif.py:11-15 | the accumulator holds exactly the bits of the codes emitted that are not yet written |
| GifLzw.TakeIndex | tools/frames2gif.py:20-30 | one pass of the loop emits the codes and changes the table, the width and the string as specified, clearing at 4096 |
| GifLzw.Terminate | tools/frames2gif.py:31-33 | the last string, the end code and the partial byte complete the stream |
| GifLzw.SubBlocks | tools/frames2gif.py:34-38 | runs of at most 255 bytes behind their length, and a terminator |
| GifLzw.Lzw | tools/frames2gif.py:7-38 | the sub-blocks hold the bits of the code sequence and nothing else, padded to a byte |
| GifDecode.TakeReads | tools/frames2gif.py:20-30 | what one index makes the encoder write, an Appendix F decoder reads, including a code that is not yet in its table, and stays one entry behind |
| GifDecode.RunReads | tools/frames2gif.py:16-30 | after any indices the decoder has put out all but the string still being matched |
| GifDecode.RoundTrip | tools/frames2gif.py:7-38 | the blocks written for any index sequence decode to exactly that sequence; the end code is read unless the decoder's width is one bit ahead and no padding is left |
| GifDecode.LosesExact | tools/frames2gif.py:11-33 | whether the end code is lost depends on the number of data codes alone, by arithmetic on the widths |
| GifDecode.EndCodeLost | tools/frames2gif.py:7-33 | with eight-bit indices, as the program calls it, images of 8445 data codes lose it, and there are such images |
| Cdrom.RunKeeps | ext/oracle/psxrecomp_cdrom.c:858-914 | over every run: no response is set over an unacknowledged one, no generation raised twice, a read has cycles left, what waits waits behind a response, every pended INT1 is accounted for |
| Cdrom.RunFromInit | ext/oracle/psxrecomp_cdrom.c:2424-2511 | the same for the outputs of every run from initialization |
| Cdrom.AckServes | ext/oracle/psxrecomp_cdrom.c:2616-2637 | a full acknowledge serves exactly one waiting thing: the pended INT1, else a due second response, else the queued command, which executes with the parameters it was queued with |
| Cdrom.PartialAckServesNothing | ext/oracle/psxrecomp_cdrom.c:2616-2637 | a partial acknowledge serves nothing |
| Cdrom.RaisedWhenDue | ext/oracle/psxrecomp_cdrom.c:884-901 | a due response that the mask lets through is raised at the next advance, once |
| Cdrom.NoEarlyInterrupt | ext/oracle/psxrecomp_cdrom.c:2651-2689 | without register writes, a run shorter than cdrom_cycles_to_irq said only moves the clock, however it is cut into slices |
| Cdrom.NoInterruptBefore | ext/oracle/psxrecomp_cdrom.c:2651-2689 | so no interrupt is raised before the time that was said |
| Cdrom.ReadsGiveResponse | ext/oracle/psxrecomp_cdrom.c:2539-2543 | reads of the response register give the response's bytes in order, then zeros, and change nothing else |
| CdController.ResponseFifo.Respond | ext/oracle/psxrecomp_cdrom.c:847-856 | pushed bytes are what is left to read, cut at sixteen |
| CdController.ResponseFifo.Take | ext/oracle/psxrecomp_cdrom.c:2539-2543 | the read index takes the oldest byte, or 0 when all are read |
| CdController.QueuedCmd.Put | ext/oracle/psxrecomp_cdrom.c:1749-1762 | the struct holds the command and its parameters |
| CdController.QueuedCmd.Take | ext/oracle/psxrecomp_cdrom.c:1730-1747 | the parameters are back in the FIFO, and the struct is empty |
| CdController.Controller.QueueOrExecCommand | ext/oracle/psxrecomp_cdrom.c:1749-1765 | a command behind an unacknowledged response takes the one queue place, otherwise it executes |
| CdController.Controller.ExecCommand | ext/oracle/psxrecomp_cdrom.c:1795-2218 | the state after each command, its errors included |
| CdController.Controller.ProcessPending | ext/oracle/psxrecomp_cdrom.c:2220-2317 | the second response when it is due and nothing is outstanding |
| CdController.Controller.ProcessReadStream | ext/oracle/psxrecomp_cdrom.c:2344-2406 | sector delivery: INT1, or a pended one, or a lost one |
| CdController.Controller.PresentPendingDataready | ext/oracle/psxrecomp_cdrom.c:2411-2422 | the pended INT1 after an acknowledge |
| CdController.Controller.Write | ext/oracle/psxrecomp_cdrom.c:2570-2643 | every register write to the arrays, structs and globals is the machine's |
| CdController.Controller.Read | ext/oracle/psxrecomp_cdrom.c:2513-2566 | every register read but the data port's |
| CdController.Controller.AdvanceBy | ext/oracle/psxrecomp_cdrom.c:2678-2689 | a slice of time |
| CdController.Controller.CyclesToInterrupt | ext/oracle/psxrecomp_cdrom.c:2651-2676 | the least of the times to the next event |
| XaResample.InsideExact | ext/oracle/psxrecomp_cdrom.c:1219 | output frame k lies inside the input if and only if k is less than the frames times 44100 over the rate, rounded up |
| XaResample.Resample | ext/oracle/psxrecomp_cdrom.c:1212-1237 | frame k interpolates at position k * rate / 44100 with phase k * rate mod 44100; as many frames come out as input and room allow, and nothing else is written |
| XaResample.HalfRateFits | ext/oracle/psxrecomp_cdrom.c:1212-1237 | 4032 frames at 18900 Hz are exactly 9408 |
| XaResample.MixExact | ext/oracle/psxrecomp_cdrom.c:1226-1227 | a sample is interpolated right if and only if the product fits 32 bits |
| XaResample.MixBetween | ext/oracle/psxrecomp_cdrom.c:1226-1227 | the right value lies between the two samples; samples at most 48696 apart give it at every phase |
| XaResample.XaMixExact | ext/oracle/psxrecomp_cdrom.c:1281 | at the two rates of the program, two samples give the right value at every place if and only if they are at most 56811 apart |
| XaResample.MixOverflows | ext/oracle/psxrecomp_cdrom.c:1212-1237 | two full-scale frames at 37800 Hz whose second output frame is wrong |
| MemCard.CalcSectorChecksum | source/hle/hle_memcard.c:157-163 | the checksum is the exclusive-or of the sector number's bytes and the data |
| MemCard.PutSector | source/hle/hle_memcard.c:213-216 | writing a sector changes that sector and no other |
| SioPort.MemcardSio.Push | source/hle/hle_memcard.c:135-142 | the ring behaves as a queue of at most eight bytes |
| SioPort.MemcardSio.Pop | source/hle/hle_memcard.c:144-155 | the oldest byte, or 0xFF from an empty queue |
| SioPort.MemcardSio.ProcessByte | source/hle/hle_memcard.c:324-518 | the state after one byte sent, in every protocol state |
| SioPort.MemcardSio.WriteReg | source/hle/hle_memcard.c:556-580 | the state after a register write |
| SerialPort.RunTracks | source/hle/hle_memcard.c:324-518 | over every run the protocol state is what the bytes sent since idle make it |
| SerialPort.CardChangesByWrite | source/hle/hle_memcard.c:419-475 | the card changes only with the last byte of a complete write with the right checksum, and then exactly the addressed sector becomes the data |
| SerialPort.UnchangedUnlessWritten | source/hle/hle_memcard.c:324-518 | over every stream of register accesses without such a write in it, the card is as it was |
| CardTalk.ReadAnswers | source/hle/hle_memcard.c:362-418 | a read answers the sector's bytes, their checksum and G, and changes nothing |
| CardTalk.WriteAnswers | source/hle/hle_memcard.c:419-475 | a write with the right checksum stores and says G, with a wrong one says N and stores nothing |
| CardTalk.WriteThenRead | source/hle/hle_memcard.c:324-518 | what was written is what a later read answers |
| CardFs.Format | source/hle/hle_memcard.c:165-188 | header frame, fifteen free frames, zeros in every other byte: a card that holds no files |
| SioPort.MemcardSio.Format | source/hle/hle_memcard.c:165-193 | the card of the port is formatted, the unread-directory flag is set, and nothing else of the port changes |
| CardFs.WriteFile | source/hle/hle_memcard.c:244-321 | the file goes into the first free blocks behind the files already there; null arguments, no bytes or too few blocks change nothing |
| CardFs.FreeExact | source/hle/hle_memcard.c:252-262 | a block's frame says free if and only if no file uses the block |
| CardFs.RoomExact | source/hle/hle_memcard.c:249-268 | the free blocks are the fifteen less those of the files |
| CardFs.FilesReadBack | source/hle/hle_memcard.c:244-321 | following the chain of any file on the card gives its exact bytes |
| CardFs.PerformAll | source/hle/hle_memcard.c:165-321 | over any sequence of format and write calls the card holds exactly the files it should: a write is accepted if and only if it has a name, bytes, and room beside the files already there |
| CardFs.StoredReadsBack | source/hle/hle_memcard.c:165-321 | over any sequence of calls, a file that was stored and not formatted away reads back as its exact bytes |
| CardFs.BlocksAccounted | source/hle/hle_memcard.c:165-321 | each of the fifteen blocks is free or in the ascending chain of exactly one file, and every directory frame's checksum is right |
| Gp0.OneWord | source/hle/hle_gpu.c:736-802 | one more word of a packet does exactly what it adds to the packet's meaning, and the port is idle when the packet ends |
| Gp0.PacketsInOrder | source/hle/hle_gpu.c:736-802 | any packets one after the other are executed as exactly those packets in order and leave the port idle |
| Gp0.EveryStream | source/hle/hle_gpu.c:736-802 | every word stream is some packets and the beginning of one more, and does what they mean |
| Gp0.CutIsUnique | source/hle/hle_gpu.c:568-601 | there is only one such cut |
| Gp0.Run | source/hle/hle_gpu.c:794-800 | over every run the buffer stays below its announced count, which is at most twelve, and the image counters stay in range |
| GpuDraw.PolyCountExact | source/hle/hle_gpu.c:576-585 | the announced count is the length of the polygon packet of that shape |
| GpuDraw.ReadPoly | source/hle/hle_gpu.c:425-470 | exec_poly reads every word after the first exactly once, in packet order, and none beyond the last; vertices, palette and page come from their words |
| GpuDraw.PolyUnique | source/hle/hle_gpu.c:425-470 | a packet describes one list of corners only, so what exec_poly reads is what was meant |
| GpuDraw.ReadRect | source/hle/hle_gpu.c:324-365 | exec_rect reads exactly the words announced, and takes its size from them or from the size code |
| GpuDraw.DrawLine | source/hle/hle_gpu.c:503-534 | exec_line from its packet: the points drawn are a line between the packet's two ends if and only if the command is not shaded or its second color happens to be the word of its second end |
| GpuDraw.ShadedStray | source/hle/hle_gpu.c:511-514 | a shaded line of ten pixels that paints a pixel 245 away |
| Blits.AtInjective | source/hle/hle_gpu.c:756-758 | no two pixels of a rectangle go to the same place, however it wraps |
| Blits.UploadReadsBack | source/hle/hle_gpu.c:753-762 | an uploaded image read back from its rectangle is the same words, but for the high half of an odd last word, and then the read is over |
| Blits.UploadStaysInside | source/hle/hle_gpu.c:753-762 | an upload changes nothing outside its rectangle |
| Blits.CopyExact | source/hle/hle_gpu.c:301-322 | a copy gives the destination the source as it was, for every VRAM, if and only if no pixel is read after it was overwritten |
| Blits.ClobbersExact | source/hle/hle_gpu.c:301-322 | that happens if and only if, going one way around an edge or the other, the destination overlaps the source below it, or level and to the right |
| Blits.Smears | source/hle/hle_gpu.c:301-322 | two pixels moved one to the right over the edge: the first is in all three places |
| Blits.FillExact | source/hle/hle_gpu.c:275-299 | a fill colors its rectangle and nothing else |
| GpuPort.SentComesBack | source/hle/hle_gpu.c:637-644 | an upload packet and a read-back packet for the same rectangle, through the port, give the words back, whatever was drawn before |
| GpuPort.Gpu.Fill | source/hle/hle_gpu.c:275-299 | the loops make the specified VRAM |
| GpuPort.Gpu.Copy | source/hle/hle_gpu.c:301-322 | the loops make the specified VRAM |
| GpuPort.Gpu.Exec | source/hle/hle_gpu.c:622-698 | the VRAM and the read-back request after a command |
| GpuPort.Gpu.Gp0Write | source/hle/hle_gpu.c:736-802 | the port, the VRAM and the read-back request after one word |
| GpuPort.Gpu.ReadLatch | source/hle/hle_gpu.c:890-901 | the word read and where the read-back stands |
| GpuLine.PassKeepsCourse | source/hle/hle_gpu.c:531-533 | a pass of the loop makes the step along the longer direction and keeps the error within half a pixel |
| GpuLine.ExecLine | source/hle/hle_gpu.c:516-534 | the loop ends at the second end after exactly max(dx, dy) + 1 points, each within half a pixel of the ideal line, and draws exactly those |
| Adsr.PlayKeeps | source/hle/hle_spu.c:129-259 | over every run of ticks, keys and register writes the level stays at its peak or below, and never falls below zero nor the lowest level a register has put it to |
| Adsr.NextUpdate | source/hle/hle_spu.c:148-150 | until the rest of its period is over only the counter moves, and then the level changes |
| Adsr.AttackEnds | source/hle/hle_spu.c:137-161 | the attack reaches the peak and the decay begins |
| Adsr.DecayEnds | source/hle/hle_spu.c:163-185 | the decay reaches exactly the sustain level and the sustain begins |
| Adsr.ReleaseEnds | source/hle/hle_spu.c:230-254 | a released voice is off within a period for every unit of its level, in both modes |
| Adsr.NoteLives | source/hle/hle_spu.c:262-291 | a held note comes to its sustain level, and released there it falls silent |
| Adsr.LinearRamp | source/hle/hle_spu.c:148-158 | a linear attack or release moves by one step for every whole period |
| Adsr.LinearRampEnds | source/hle/hle_spu.c:148-158 | and ends exactly one period after its last step before the end |
| Adsr.Envelope.Advance | source/hle/hle_spu.c:129-259 | one tick, in every phase |

## Left out

- Decoding of instruction words (source/src/decoder.rs): images are sequences of decoded instructions.
- C text, symbol names, comments, the tracing calls and the idle-tick call of a self-jump: no effect on the state that is modelled.
- BIOS call gates, coprocessor stubs and unknown instructions are one function each that is an input.
- CCode.EmitPlainExact: division of INT_MIN by -1 is outside, because the C that is emitted for it is undefined there.
- Discovered.AfterTrap: its condition is the order of the search, which no caller knows beforehand; `Discovered.TrapCutsOff` and `Discovered.Complete` are about the image.
- Limits.LinkExact: speaks of the state where the branch leaves its block and one step later, because the C can come by other calls to a place that matches again.
- Pointer seeding, overlays, coverage and seam reports in source/src/main.rs: heuristics and reporting. `Discover` takes the seeds as an input.
- Between discovery and emission the program in source/src/main.rs prints, reads the disc and writes files; only the two calls are modelled. `Pipeline.Translate` takes a text that ends eight bytes below the top of the address space or lower.
- Lzss.Unlzss: inputs shorter than the header raise before the decoder starts, so they are outside.
- CD audio playback, warm routes, the debug reinsert hook, the data FIFO and its DMA, the volume ports, save states and telemetry of the CD controller; whether the data FIFO has bytes is an input of a status read.
- Cdrom.NoEarlyInterrupt: slices are below 2^31 cycles, and the 64-bit clock does not wrap.
- The mask helper of the interrupt controller is not part of ext/oracle/psxrecomp_cdrom.c: it is a function that is false when no response is outstanding.
- XA sector decoding and filtering: a sector says whether it brings data.
- Memory-card files on disk, and file sizes near 2^45 bytes where the block count would wrap. The read of a sector past the end of the card takes its checksum from the memory behind the image, which is an input.
- The rasteriser: triangles use floating point, sprites and texture sampling are long and straightforward. Drawing commands hand the VRAM to a function that is a parameter; drawing settings are kept as the events that set them.
- Lines are drawn by `GpuDraw.DrawLine` into an array of pixels; that this array is the VRAM behind the command port is not modelled, nor are lines of more than two points, which the program does not know.
- GP1 and the status register, display modes, and reads of the latch other than image data.
- SPU mixing, ADPCM decoding, pitch and the register file; the geometry coprocessor, the movie decoder and all viewers, scripts and tools.
