# Verified model of six cores of the unit tests

The repository holds hardware unit tests for i.MX boards. Most of it drives the kernel; six parts hold
logic of their own. This project models those parts in Dafny and proves what they are for.

**Trace decoding (`test/etm`).** `etm.c` unpacks CoreSight formatter frames (chapter D4 of Arm
IHI 0029) and decodes ETMv3 (chapter 7 of Arm IHI 0014) and program-flow packets (Arm IHI 0035);
`etm-objdump.py` rebuilds the executed instructions from the decoded lines. `Formatter.dfy` gives frames
a meaning and a packer; `EtmDecode.dfy`, `EtmTable.dfy` and `EtmRun.dfy` are the decoder as functions on
a state, `EtmDecoder.dfy` the decoder as an object whose routines update its fields, each tied to its
function. `EtmAddress.dfy`, `EtmFields.dfy` and `EtmPHeaders.dfy` prove that decoding undoes encoding
and what P-headers add up to; `EtmPackets.dfy` says what every packet of both protocols does to the
decoder, from its header byte on, and over whole streams; `EtmPoints.dfy` counts branch points.
`PathRebuild.dfy` holds the script, as a function and as an object, executions of a program, and the
tracer that sends a trace of one. `TraceWire.dfy` and `EndToEnd.dfy` put all of it in a row: the bytes of a
tracer, mixed with other sources in formatter frames, give the executed instructions back. `EtmPath.dfy`
and `EtmEndToEnd.dfy` do the same for ETMv3 traces, which name every instruction.

**Display signature (`test/mxc_dcic_test`).** `DcicStep.dfy` proves the unrolled XOR matrix equal to 24
steps of the bit-serial CRC-32 register, and what that step keeps apart; `DcicBuffers.dfy` lifts it to
buffers and pixel formats; `DcicBursts.dfy` shows that no burst of errors of up to 32 bits is missed;
`DcicRoi.dfy` fills and signs a rectangle of the framebuffer.

**Sample-rate converter (`test/mxc_asrc_test`).** `RateConvert.dfy` gives the output size a closed form,
the binary digits of the rate ratio, bounds its error, and says when it stays in an int; `WavData.dfy`
holds headers, samples and driver replies, `WavFile.dfy` the program around them, from the header to the
file written.

**Register access (`test/memtool`).** `Memtool.dfy`: bit fields, and a mapping of one page that behaves
like flat memory.

**Asynchronous requests (`test/mxc_sahara_test/callback.c`).** `Callback.dfy`: a state machine in which
every read and write of the shared records by requester, callback and driver is a step, and what a pass
means in every interleaving.

**DMA allocation driver (`module_test/memalloc.c`).** `MemAlloc.dfy`: a list that mirrors the live blocks.

`Octets.dfy`, `WordBits.dfy` and `Arithmetic.dfy` hold words as bit sequences, least significant bit
first, and the facts about them. Shifts drop the bits that leave a word, as in C on unsigned 32-bit
operands, also at `etm.c:189` where the shift passes bit 31.

## Where the code is not what it seems

The model follows the code in these places.

- The five zero bytes of a synchronisation need not be consecutive (`EtmRun.EveryRound`, and such
  a stream in `EndToEnd.ScatteredZeros`).
- A delayed ID change in byte 14 can be overtaken by one in byte 0 of the next frame, and then the byte
  behind goes to the wrong source: exactly when (`Formatter.TagIsOwnership`), and two such frames
  (`Formatter.StackedDelayDiffers`).
- The script pushes a return address for every call instruction, also for one that is skipped
  (`PathCorrect.SkippedCallMisleads`; the exact condition for every program is in `PathCorrect.PathRebuilt`).
- It does not pop it at a return that the trace leaves out if an exception follows
  (`PathCorrect.InterruptedReturnMisleads`).
- The byte that ends a synchronisation is an executed instruction in cycle-accurate program-flow trace and
  a wait in cycle-accurate ETMv3 trace (`EndToEnd.EndOfZeros`, `EtmEndToEnd.EndOfZeros`).
- On ETMv3 traces the script goes wrong when the pc of the decoder goes round 2^32 (`EtmPath.TopOfMemory`, and
  exactly when in `EtmPath.PathRebuilt`).
- An empty output sends the countdown of `convert_data` through all of 32 bits (`WavData.CountdownStops`,
  `WavFile.OneSampleNeverFinishes`), and a data chunk without a whole sample that of `bitshift`
  (`WavFile.Converter.ReadSamples`).
- A rate ratio above about 64 lets a conversion call write behind the output buffer
  (`WavFile.TooLargeRatio`, and exactly when in `WavFile.Converter.RoomFits`), and an input rate above 2^30
  overflows an int (`RateConvert.HighRateOverflows`; when a whole run does is `RunFits` in
  `WavFile.Converter.ConvertWave`).
- For up to 16 bits the block alignment is set to 8 whatever the number of channels, and for 24 bits the
  byte rate counts three bytes a sample though four are written (`WavData.LayoutFails`, and exactly when
  the header is right, for all depths, in `WavData.LayoutIsExact`).
- An access to page 0 before any other faults, because the mapping cache starts out claiming page 0
  (`Memtool.Mapper.Run`).
- The callback test passes when requests end with a bad status, although its comment asks for success
  (`Callback.TenErrorsPass`; what a pass means is in `Callback.PassMeansServed`).
- The driver loses the list entry of every allocation the DMA allocator refuses
  (`MemAlloc.LostAreRefusals`, `MemAlloc.OneRefusalLoses`, `MemAlloc.Driver.Serve`), and rounds sizes near
  2^32 to 0 (`MemAlloc.PageAlignRounds`).

## Model

| member | source | states |
|---|---|---|
| Formatter.TagIsOwnership | test/etm/etm.c:60-105 | On every stream of bytes, reading the frames symbol by symbol gives each data byte to the source its position says (the ID announced last, or the one before it directly behind a delayed change) if and only if no change in byte 0 of a frame overtakes a delayed one in byte 14 of the frame before: one to a new source, followed by a change that is delayed, too, or to the same source. |
| Formatter.TagIsRead | test/etm/etm.c:77-100 | For any symbols reader and rule agree exactly if they give every single data byte the same owner. |
| Formatter.StackedDelayDiffers | test/etm/etm.c:88-92 | Two frames for which they differ: the byte after the second change goes to the source before both. |
| Formatter.MatchesNumber | test/etm/etm.c:99 | A source below 32 is selected exactly if its bit of the mask as a number is 1. |
| FormatterPacking.PackRoundTrip | test/etm/etm.c:60-105 | For every interleaving of sources with 7-bit IDs, packing into 16-byte frames and taking the frames apart gives the same tagged bytes, followed at most by bytes of the null source. |
| FormatterPacking.ReadBack | test/etm/etm.c:99-102 | Reading the sources of a mask back from packed frames gives exactly their bytes in order. |
| EtmDecoder.Decoder.constructor | test/etm/etm.c:695-709 | A new decoder will deliver exactly the data bytes of the sources in the mask, or the whole input without the formatter. |
| EtmDecoder.Decoder.ReadFrame | test/etm/etm.c:67-76 | Fills the buffer with the next 16 bytes, or reports that fewer are left. |
| EtmDecoder.Decoder.GetByteFromFormatter | test/etm/etm.c:60-105 | Each call takes exactly the head of the bytes the frame stream holds for the mask; it reports the end only when none is left. |
| EtmDecoder.Decoder.GetByte | test/etm/etm.c:107-135 | The next byte with the count of zero bytes, and the last wait line at the end of the stream. |
| EtmDecode.Get | test/etm/etm.c:107-135 | A byte is taken off the stream unless it is empty, and sync keeps counting zero bytes. |
| EtmTable.ExactlyOneRow | test/etm/etm.c:605-675 | For both tables and each of the 256 header bytes exactly one row matches, and the search from the front finds it; which packet it starts is in HeaderStarts. |
| EtmTable.HeaderStarts | test/etm/etm.c:605-675 | For both tables and each of the 256 header bytes the row found starts the packet that the protocol gives the byte, or none. |
| EtmDecoder.Decoder.FindRow | test/etm/etm.c:828-829 | The search stops at the first matching row. |
| EtmRun.Round | test/etm/etm.c:826-839 | A round of the main loop that goes on has taken at least one byte. |
| EtmRun.EveryRound | test/etm/etm.c:107-135 | In every reachable state sync is 1 if five zero bytes were delivered since it was last set to 0 (not necessarily in a row) and else minus their number, and n rounds take at least n bytes. |
| EtmRun.RunTakesAll | test/etm/etm.c:107-121 | Of any stream, cut off anywhere, every byte is taken, and the waits pending are printed last. |
| EtmRun.StreamEnds | test/etm/etm.c:826-839 | A stream of k bytes is decoded in at most k + 1 rounds. |
| EtmRun.RoundsReachRun | test/etm/etm.c:826-839 | Going on from any number of rounds ends in the same state. |
| EtmDecoder.Decoder.Dispatch | test/etm/etm.c:833-838 | The handler of a row leaves what its function says. |
| EtmDecoder.Decoder.Decode | test/etm/etm.c:826-839 | The object with its frame buffer ends in exactly the state the pure decoder reaches on the bytes the frames hold for the mask. |
| EtmDecoder.Decoder.NextPc | test/etm/etm.c:142-150 | The fields after program counter or branch-point count are those of the function of the same packet, at the end of the stream too. |
| EtmDecoder.Decoder.PrintInstruction | test/etm/etm.c:152-170 | The fields after one instruction line are those of the function of the same packet, at the end of the stream too. |
| EtmDecoder.Decoder.PrintMany | test/etm/etm.c:403-414 | The fields after a group of instructions, each with its wait are those of the function of the same packet, at the end of the stream too. |
| EtmDecoder.Decoder.GetBranchAddr | test/etm/etm.c:172-216 | The fields after the bytes of a branch address are those of the function of the same packet, at the end of the stream too. |
| EtmDecoder.Decoder.SetAddress | test/etm/etm.c:201-213 | The fields after the address, its known bits and the instruction set are those of the function of the same packet, at the end of the stream too. |
| EtmDecoder.Decoder.Branch | test/etm/etm.c:218-238 | The fields after a branch packet with its exception bytes are those of the function of the same packet, at the end of the stream too. |
| EtmDecoder.Decoder.WaypointUpdate | test/etm/etm.c:520-539 | The fields after a waypoint update are those of the function of the same packet, at the end of the stream too. |
| EtmDecoder.Decoder.TimestampPacket | test/etm/etm.c:240-260 | The fields after a timestamp are those of the function of the same packet, at the end of the stream too. |
| EtmDecoder.Decoder.CountBytes | test/etm/etm.c:272-286 | The fields after the bytes of a count are those of the function of the same packet, at the end of the stream too. |
| EtmDecoder.Decoder.CycleCountPft | test/etm/etm.c:479-498 | The fields after a PFT cycle count are those of the function of the same packet, at the end of the stream too. |
| EtmDecoder.Decoder.WholeBytes | test/etm/etm.c:288-308 | The fields after a field of whole bytes are those of the function of the same packet, at the end of the stream too. |
| EtmDecoder.Decoder.UpdateAddr | test/etm/etm.c:310-324 | The fields after address and instruction set of an I-sync are those of the function of the same packet, at the end of the stream too. |
| EtmDecoder.Decoder.ISyncPacket | test/etm/etm.c:326-338 | The fields after an I-sync are those of the function of the same packet, at the end of the stream too. |
| EtmDecoder.Decoder.ISyncPft | test/etm/etm.c:500-518 | The fields after a PFT I-sync are those of the function of the same packet, at the end of the stream too. |
| EtmDecoder.Decoder.DataPacket | test/etm/etm.c:364-395 | The fields after a data packet are those of the function of the same packet, at the end of the stream too. |
| EtmDecoder.Decoder.PHeaderCycleAccurate | test/etm/etm.c:397-443 | The fields after a cycle-accurate P-header are those of the function of the same packet, at the end of the stream too. |
| EtmDecoder.Decoder.PHeaderNonCycleAccurate | test/etm/etm.c:445-469 | The fields after a P-header without cycles are those of the function of the same packet, at the end of the stream too. |
| EtmDecoder.Decoder.AtomCycleAccurate | test/etm/etm.c:563-569 | The fields after an atom with its count are those of the function of the same packet, at the end of the stream too. |
| EtmDecoder.Decoder.AtomNonCycleAccurate | test/etm/etm.c:571-583 | The fields after a byte of atoms are those of the function of the same packet, at the end of the stream too. |
| EtmAddress.AddressPacket | test/etm/etm.c:172-216 | The exact result of a branch address packet of any length in both encodings, on any state. |
| EtmAddress.ShortPacketReplacesLowBits | test/etm/etm.c:172-216 | A packet of fewer than five bytes replaces exactly the transmitted bits above the unused ones, keeps the rest of the old address and the instruction set. |
| EtmAddress.LongPacketFixesAll | test/etm/etm.c:193-213 | A packet of five bytes fixes address and instruction set whatever they were. |
| EtmAddress.KnownBitsNeverDecrease | test/etm/etm.c:206-212 | The mask of known address bits never gets smaller. |
| EtmAddress.Shortest | test/etm/etm.c:172-216 | The least number of bytes that tells the new address from the old one. |
| EtmAddress.AddressRoundTrip | test/etm/etm.c:172-216 | Decoding any sufficient encoding of an aligned address relative to the old one, the shortest in particular, gives address, instruction set and exception flag back and takes exactly the packet. |
| EtmAddress.ArrivalRoundTrip | test/etm/etm.c:172-216 | The whole state behind such an address, with or without an exception announced: address, instruction set, pc, mask of known bits, and in program-flow trace the executed instruction. |
| EtmFields.TimestampRoundTrip | test/etm/etm.c:240-260 | Every 64-bit timestamp, sent as any sufficient prefix relative to any previous one, comes back, with exactly its bytes consumed. |
| EtmFields.CycleCountRoundTrip | test/etm/etm.c:272-286 | Every 32-bit count comes back from the ETM format. |
| EtmFields.CycleCountPftRoundTrip | test/etm/etm.c:479-498 | Every 32-bit count comes back from the PFT format. |
| EtmFields.AddressWordRoundTrip | test/etm/etm.c:299-308 | A word sent as four bytes comes back. |
| EtmFields.ContextRoundTrip | test/etm/etm.c:288-297 | A context ID of n bytes comes back. |
| EtmFields.AtomsRoundTrip | test/etm/etm.c:571-583 | A byte of one to five atoms prints exactly its instructions, in order. |
| EtmFields.AtomWithCountRoundTrip | test/etm/etm.c:563-569 | An atom with any 32-bit count comes back: the count, then the instruction. |
| EtmFields.DataRoundTrip | test/etm/etm.c:364-395 | Any data address, sent as any sufficient prefix relative to the one before, or none, and any data of up to three bytes come back, with exactly their bytes consumed. |
| EtmFields.WaypointRoundTrip | test/etm/etm.c:520-539 | A waypoint update in any sufficient encoding of its address comes back, with its information byte if announced. |
| EtmPackets.AsyncRound | test/etm/etm.c:262-270 | From the header byte: a zero byte and an ignore packet take one byte and do nothing else. |
| EtmPackets.TriggerRound | test/etm/etm.c:593-597 | A program-flow trigger prints its line. |
| EtmPackets.ExceptionReturnRound | test/etm/etm.c:599-603 | A program-flow exception return prints its line. |
| EtmPackets.UndecodedRound | test/etm/etm.c:836-838 | A header without a decoder, whatever the protocol, prints its byte and loses synchronisation. |
| EtmPackets.VmidRound | test/etm/etm.c:355-362 | From the header byte: the VMID sent is printed. |
| EtmPackets.ContextIdRound | test/etm/etm.c:346-353 | From the header byte: the context ID sent is printed. |
| EtmPackets.CycleCountRound | test/etm/etm.c:272-286 | From the header byte: any 32-bit count is printed. |
| EtmPackets.DataRound | test/etm/etm.c:364-395 | From the header byte: data with or without an address are printed, and the address is kept. |
| EtmPackets.AtomsRound | test/etm/etm.c:571-591 | From the header byte: up to five atoms are printed in order. |
| EtmPackets.CountedAtomRound | test/etm/etm.c:563-569 | From the header byte, in a cycle-accurate trace: the count is printed, then the atom. |
| EtmPackets.PHeaderRound | test/etm/etm.c:471-477 | From the header byte: a P-header the protocol knows prints its waits and atoms, any other loses synchronisation. |
| EtmPackets.TimestampRound | test/etm/etm.c:240-260 | From the header byte, in both protocols: the timestamp is printed and kept, and in a cycle-accurate program-flow trace the count behind it is printed too. |
| EtmPackets.BranchRound | test/etm/etm.c:218-238 | From the header byte, in both protocols: every aligned address in every instruction set, both encodings and any sufficient length, without an exception, with one byte of it, or with two, prints one line with that address and the bits of both bytes; exactly these bytes are taken, and in a cycle-accurate program-flow trace the count behind them. |
| EtmPackets.WaypointRound | test/etm/etm.c:520-539 | From the header byte: address and information byte of a waypoint are printed. |
| EtmPackets.ISyncEtmRound | test/etm/etm.c:326-338 | From the header byte: an I-sync to any address in any of the three instruction sets prints it and leaves the decoder there. |
| EtmPackets.ISyncCountRound | test/etm/etm.c:340-344 | The same behind a cycle count, which is printed first. |
| EtmPackets.ISyncPftRound | test/etm/etm.c:500-518 | The program-flow I-sync, with a count exactly if the trace is cycle accurate and the information byte has bit 5 or 6. |
| EtmPackets.PacketRound | test/etm/etm.c:826-839 | For every packet of both protocols and every state of the decoder it can be sent to: one round of the main loop takes exactly its bytes and leaves the state of After, all fields. |
| EtmPackets.StreamRun | test/etm/etm.c:826-839 | The whole run on any stream of such packets: all of them in order, and the waits pending at the end. |
| EtmPoints.StreamCounts | test/etm/etm.c:142-170 | Over any stream of program-flow packets every instruction is printed with the number of instructions since the last address, itself counted. |
| EtmPHeaders.HeaderPrints | test/etm/etm.c:397-477 | A P-header the protocol knows leaves exactly the state of its waits and instructions printed one by one, and any other one loses synchronisation. |
| EtmPHeaders.HeaderAccount | test/etm/etm.c:397-443 | A cycle-accurate P-header adds exactly the waits and instructions it stands for, in order, to the lines printed plus the pending wait count. |
| EtmPHeaders.OtherHeadersLoseSync | test/etm/etm.c:432-440 | Any other header loses synchronisation and adds nothing. |
| EtmPHeaders.PlainHeaderAccount | test/etm/etm.c:445-469 | A P-header without cycles adds exactly its instructions. |
| EtmPHeaders.HeaderRound | test/etm/etm.c:826-839 | One round of the main loop on a P-header takes its byte and adds its events. |
| EtmPHeaders.RunAccount | test/etm/etm.c:397-477 | The main loop on any stream of P-headers, with or without cycles, known or not, prints exactly the events of the headers behind what it had, in order, the waits pending at the end of the stream included. |
| EtmPHeaders.WaitsConserved | test/etm/etm.c:107-170 | Over the whole run the waits printed, with instructions and in the last line, are the W cycles of the headers and those pending before; each atom is one instruction. |
| EtmPHeaders.RunPc | test/etm/etm.c:142-150 | Over the main loop on any stream of P-headers without program-flow tracing, pc is the one at the start plus one instruction size for each instruction printed, in 32 bits. |
| PathRebuild.ProcessConcat | test/etm/etm-objdump.py:77-171 | Processing lines in two parts is processing them at once. |
| PathRebuild.OutputGrows | test/etm/etm-objdump.py:77-171 | Nothing printed is ever taken back. |
| PathRebuild.SyncRecovers | test/etm/etm-objdump.py:153-168 | Whatever the script has got wrong, from an I-sync on it prints what it prints from its start. |
| PathRebuild.AtomSays | test/etm/etm-objdump.py:94-126 | What is printed for an atom wherever it is: outside the program the address of the decoder, and the instruction there if only that address is in the program. |
| PathRebuild.Rebuilder.ResolveTarget | test/etm/etm-objdump.py:83-92 | The offset for the next atom: a known target first, then the return stack. |
| PathRebuild.Rebuilder.StepThrough | test/etm/etm-objdump.py:108-117 | Steps through exactly the plain instructions up to the next branch. |
| PathRebuild.Rebuilder.FoundInstruction | test/etm/etm-objdump.py:121-139 | The call pushed, the atom printed and the next target for an instruction. |
| PathRebuild.Rebuilder.HandleExecute | test/etm/etm-objdump.py:80-139 | One atom line. |
| PathRebuild.Rebuilder.Rebuild | test/etm/etm-objdump.py:77-171 | The running script leaves what the line-by-line meaning says, for all lines. |
| PathCorrect.BranchLines | test/etm/etm-objdump.py:80-168 | After the lines of one branch instruction the script has printed the stretch up to it and will take the next atom from the right place, unless a return was left out of the trace and its stack does not have the target on top. |
| PathCorrect.PathRebuilt | test/etm/etm-objdump.py:70-171 | For every program, every execution, exceptions behind branch instructions included, and every depth of the tracer's stack: the script prints exactly the executed instructions if and only if every return left out of the trace goes back to the last unmatched call the script has seen. |
| PathCorrect.TakenCallsMatch | test/etm/etm-objdump.py:121-123 | Executions that take all calls and have no exception behind a return meet that condition: the bounded stack of the tracer stays the top of the script's. |
| PathCorrect.PathRebuiltWhenCallsTaken | test/etm/etm-objdump.py:70-171 | So every such execution comes back. |
| PathCorrect.SkippedCallMisleads | test/etm/etm-objdump.py:121-123 | One skipped conditional call is enough to mislead the script: a program, an execution and a wrong output. |
| PathCorrect.InterruptedReturnMisleads | test/etm/etm-objdump.py:83-89 | So is one exception right behind a return that the trace leaves out: the script keeps the address on its stack and uses it for the next return. |
| EtmPath.StepLines | test/etm/etm-objdump.py:80-168 | On a trace that names every instruction: after the lines of one, its atom is printed and the script is ready for the next, unless the pc went round 2^32 and nothing told the address. |
| EtmPath.PathRebuilt | test/etm/etm-objdump.py:70-171 | For every program and every execution, with exceptions and I-syncs anywhere: the script prints exactly the instructions, executed or not, if and only if the pc of the decoder never goes round 2^32 between two instructions of which the first neither branches nor is followed by an exception or an I-sync. |
| EtmPath.LowAddressesHold | test/etm/etm.c:142-150 | It never does where every address leaves room above it for as many instructions as are executed. |
| EtmPath.TopOfMemory | test/etm/etm-objdump.py:83-103 | One jump down from the top of memory is enough for it: a program, an execution and a wrong output. |
| EndToEnd.ScatteredZeros | test/etm/etm.c:127-132 | Five zero bytes with an atom byte between the first two synchronise a decoder, too. |
| EndToEnd.SomeTrace | test/etm/etm.c:826-839 | Every execution has a trace that these theorems are about. |
| EndToEnd.PacketStep | test/etm/etm.c:826-839 | A byte of atoms, a counted atom, a branch, an exception or an I-sync of the tracer, with the count of a cycle-accurate trace, becomes its lines for the script and moves the decoder to its address. |
| EndToEnd.EndOfZeros | test/etm/etm.c:563-569 | The byte that ends a synchronisation prints nothing in a plain trace, and an executed instruction in a cycle-accurate one, which the script takes for one exactly if all of the address is known already. |
| EndToEnd.ASyncDecodes | test/etm/etm.c:127-132 | Five zero bytes and the byte behind them synchronise a decoder that has no address yet, and the script hears nothing. |
| EndToEnd.PacketsDecode | test/etm/etm.c:826-839 | The bytes of any such packets decode to exactly their lines for the script. |
| EndToEnd.BareSame | test/etm/etm.c:571-583 | Grouping atoms differently, other counts, exception bytes, information bytes and context IDs change no line for the script. |
| EndToEnd.WholeTraceDecodes | test/etm/etm.c:826-839 | The bytes of the trace of any execution of an ARM program, cycle accurate or not, decode to exactly the lines of its trace for the script. |
| EndToEnd.DecodedPath | test/etm/etm-objdump.py:70-171 | Decoder and script together: the bytes of a trace become the executed path, exactly under the condition of PathRebuilt. |
| EndToEnd.DecodeAndRebuild | test/etm/etm-objdump.py:76-171 | From formatter frames that mix a trace with any other sources, through the decoder object and the script object: the executed instructions exactly under that condition. |
| EtmEndToEnd.PacketStep | test/etm/etm.c:826-839 | A P-header becomes the lines of its atoms, each at the pc counted on from the last address sent, in 32 bits; a branch, an exception or an I-sync becomes its line and sets the pc. |
| EtmEndToEnd.EndOfZeros | test/etm/etm.c:397-402 | The byte that ends a synchronisation adds one cycle to the waits of a cycle-accurate trace and does nothing else. |
| EtmEndToEnd.PacketsDecode | test/etm/etm.c:826-839 | The bytes of any P-headers, branches, exceptions and I-syncs, with or without counts, decode to exactly their lines for the script. |
| EtmEndToEnd.SomeTrace | test/etm/etm.c:826-839 | Every execution has such a trace, with and without cycle counts. |
| EtmEndToEnd.DecodedPath | test/etm/etm-objdump.py:70-171 | Decoder and script on ETMv3 bytes, with or without cycle counts, in both address encodings: the executed instructions exactly under the condition of PathRebuilt. |
| EtmEndToEnd.DecodeAndRebuild | test/etm/etm-objdump.py:76-171 | The same from formatter frames that mix the trace with any other sources, through the decoder object and the script object. |
| DcicStep.UnrolledIsSerial | test/mxc_dcic_test/mxc_dcic_test.c:63-164 | For every register and word the unrolled XOR matrix is 24 steps of the bit-serial CRC-32 register, generator of section 3.2.9 of IEEE 802.3, most significant bit first. |
| DcicStep.TopByteIgnored | test/mxc_dcic_test/mxc_dcic_test.c:63-164 | The top byte of the data word does not matter. |
| DcicStep.StepLinear | test/mxc_dcic_test/mxc_dcic_test.c:63-164 | The step is linear under XOR of register and data. |
| DcicStep.StepReversible | test/mxc_dcic_test/mxc_dcic_test.c:63-164 | For every data word the step is a bijection of the register, with its inverse. |
| DcicStep.StepInjectiveInData | test/mxc_dcic_test/mxc_dcic_test.c:63-164 | For every register, two words give the same result exactly when their low 24 bits agree. |
| DcicBuffers.SignatureConcat | test/mxc_dcic_test/mxc_dcic_test.c:167-178 | The signature of one buffer behind another continues the signature of the first. |
| DcicBuffers.SignatureLinear | test/mxc_dcic_test/mxc_dcic_test.c:167-178 | The signature is linear under XOR of equally long buffers. |
| DcicBuffers.SignatureInjectiveInRegister | test/mxc_dcic_test/mxc_dcic_test.c:167-178 | For every buffer, different start values give different signatures. |
| DcicBuffers.SingleWordError | test/mxc_dcic_test/mxc_dcic_test.c:167-178 | Two equally long buffers that agree but in one word have the same signature exactly when that word agrees in its low 24 bits: every single-word error is seen. |
| DcicBursts.SignatureIsFeed | test/mxc_dcic_test/mxc_dcic_test.c:167-178 | The signature of a buffer is the bit-serial register after all of its bits, 24 of each word, as one stream. |
| DcicBursts.BurstError | test/mxc_dcic_test/mxc_dcic_test.c:167-178 | Two equally long buffers whose bits agree outside a window of 32, wherever it lies across the words, have the same signature exactly when all their words agree in the low 24 bits: every burst of up to 32 bits is seen. |
| DcicBuffers.Calc24 | test/mxc_dcic_test/mxc_dcic_test.c:167-178 | The loop computes the signature of the first count words, of one word when count is 0. |
| DcicBuffers.Calc18of24 | test/mxc_dcic_test/mxc_dcic_test.c:181-200 | The loop computes the signature of the narrowed words. |
| DcicBuffers.NarrowTakesTopSix | test/mxc_dcic_test/mxc_dcic_test.c:187-188 | For every word the narrow bus gets the top six bits of blue, green and red side by side, zeros above. |
| DcicBuffers.NarrowValue | test/mxc_dcic_test/mxc_dcic_test.c:187-188 | As a number: blue/4 + 64*(green/4) + 4096*(red/4). |
| DcicBuffers.WidenToSix | test/mxc_dcic_test/mxc_dcic_test.c:235-238 | For every 16-bit pixel blue and red get a copy of their highest bit below, green keeps its six bits. |
| DcicBuffers.Calc24of16 | test/mxc_dcic_test/mxc_dcic_test.c:203-226 | The loop computes the signature of the widened 16-bit pixels. |
| DcicBuffers.Calc18of16 | test/mxc_dcic_test/mxc_dcic_test.c:229-252 | The loop computes the signature of the 16-bit pixels on the 18-bit bus. |
| DcicBuffers.WidenReplicates | test/mxc_dcic_test/mxc_dcic_test.c:211-221 | Widening replicates the high bits of each colour into the new low ones. |
| DcicBuffers.SixteenBitOnNarrowBus | test/mxc_dcic_test/mxc_dcic_test.c:229-252 | For every buffer the 16-bit signature on the 18-bit bus is the 18-of-24 signature of the widened pixels. |
| DcicRoi.RoiFbInit | test/mxc_dcic_test/mxc_dcic_test.c:266-316 | After filling an in-range rectangle exactly its bytes hold the pattern, all others are unchanged, and the reference signature is that of the rectangle as read back from the framebuffer in raster order, taken for each pixel size and bus width in its own way and for no other width. |
| DcicRoi.OffsetInside | test/mxc_dcic_test/mxc_dcic_test.c:309-313 | Every pixel of the rectangle lies inside the framebuffer and inside the lines filled. |
| DcicRoi.PatternPixels | test/mxc_dcic_test/mxc_dcic_test.c:282-313 | A filled rectangle reads back as the pattern buffer, for both pixel sizes. |
| DcicRoi.FillLines | test/mxc_dcic_test/mxc_dcic_test.c:309-313 | The copy line by line fills exactly the rectangle. |
| DcicRoi.SignBuffer | test/mxc_dcic_test/mxc_dcic_test.c:288-305 | The signature taken of the pattern buffer for each pixel size and bus width. |
| RateConvert.OutputBufferSize | test/mxc_asrc_test/mxc_asrc_test.c:154-177 | The shift-and-subtract loops compute the whole ratio and the binary digits of the rest, each with its rounded share of the size, rounded down to a multiple of 8; and every number on the way fits a 32-bit int exactly if StaysInInt holds. |
| RateConvert.WhenItStaysInInt | test/mxc_asrc_test/mxc_asrc_test.c:158-176 | For input rates up to 2^30 that is exactly when the result before rounding fits; it is enough that size*out/in does. |
| RateConvert.HighRateOverflows | test/mxc_asrc_test/mxc_asrc_test.c:166-168 | Above 2^30 the doubled rest overflows although the result is small. |
| RateConvert.OutputSizeBounds | test/mxc_asrc_test/mxc_asrc_test.c:154-177 | For all sizes and rates: a multiple of 8, never above size*out/in, and short of it by less than log2(size) + 13. |
| RateConvert.TailCovers | test/mxc_asrc_test/mxc_asrc_test.c:191-194 | For a buffer of 2^k bytes, 4096 among them, size plus tail is above the exact value for any channel count of at least 1. |
| WavData.SamplesOfFile | test/mxc_asrc_test/mxc_asrc_test.c:276-323 | Each sample of the file becomes a word: 256 times its value for up to 16 bits, its value for 24, its value divided by 256 for 32. |
| WavData.SamplesOffered | test/mxc_asrc_test/mxc_asrc_test.c:197-212 | Each sample is offered in exactly one call, that of its number divided by 4096, and silence from the first call behind the last sample on. |
| WavData.MaskedWords | test/mxc_asrc_test/mxc_asrc_test.c:428-433 | Every word written is the word of the output modulo 2^24. |
| WavData.CountdownStops | test/mxc_asrc_test/mxc_asrc_test.c:428-435 | The unsigned countdown by 4 stops exactly for multiples of 4, after size/4 rounds, and after 2^30 from 0. |
| WavData.SlackIsExact | test/mxc_asrc_test/mxc_asrc_test.c:207-228 | For every room offered and every total: all drivers that keep to the room stay inside the output buffer if and only if the room fits the slack. |
| WavData.LayoutIsExact | test/mxc_asrc_test/mxc_asrc_test.c:246-258 | Block alignment and byte rate as set are those of four bytes a channel if and only if LayoutFits holds of depth, channels, block alignment and rate: two channels up to 16 bits; above, an alignment of four bytes a channel and, modulo 2^32, nothing in twice rate times channels for 17 to 23 bits, in rate times channels for 24 to 31, in that times the bytes above four from 40 on, while 32 to 39 ask for no more. |
| WavData.LayoutFails | test/mxc_asrc_test/mxc_asrc_test.c:296-301 | A mono file of 16 bits gets the block alignment of stereo, a file of 24 bits three quarters of its byte rate. |
| WavFile.Converter.UpdateDataChunkLength | test/mxc_asrc_test/mxc_asrc_test.c:239-244 | The two size fields are set, modulo 2^32, and no other field up to the data chunk changes. |
| WavFile.Converter.ParseHeader | test/mxc_asrc_test/mxc_asrc_test.c:361-409 | The fields read, the output size computed, and the header rewritten for the output. |
| WavFile.Converter.ReadSamples | test/mxc_asrc_test/mxc_asrc_test.c:276-316 | The words are the samples of the file, one by one; the loop that counts down after each sample stays in the buffer exactly if there is a sample or no loop for the depth. |
| WavFile.Converter.BitShift | test/mxc_asrc_test/mxc_asrc_test.c:260-323 | It stays in the buffer exactly if the data chunk holds a sample; then 16-bit files have their lengths doubled in fields and header alike, and all have depth 24. |
| WavFile.Converter.PlayFile | test/mxc_asrc_test/mxc_asrc_test.c:179-236 | Used plus left is constant; done means nothing is left; the output is the bytes of the driver in order, cut at the announced length; the calls stop as soon as there is enough; every request is the next chunk inside the sample buffer, then silence; it stops at the first call that writes behind the output buffer, and no call before it does. |
| WavFile.Converter.RoomFits | test/mxc_asrc_test/mxc_asrc_test.c:191-194 | No driver can write behind the output buffer if and only if the room offered fits the slack of 256 KiB; output rates up to 63 times the input rate and up to 512 channels leave that much. |
| WavFile.Converter.WriteWords | test/mxc_asrc_test/mxc_asrc_test.c:427-435 | The words written are the output with its top bytes cleared, and the countdown ends inside the output buffer exactly if the size is a multiple of 4 whose words, 2^30 of them for 0, are in it. |
| WavFile.Converter.ConvertData | test/mxc_asrc_test/mxc_asrc_test.c:411-436 | The file is the header with the final sizes and those words. |
| WavFile.Converter.Prepare | test/mxc_asrc_test/mxc_asrc_test.c:325-411 | Everything announced before the driver is fed, for every input with at least one sample. |
| WavFile.Converter.Finish | test/mxc_asrc_test/mxc_asrc_test.c:413-436 | A complete output is written with sizes that agree; only an empty one runs past the buffer. |
| WavFile.Converter.ConvertWave | test/mxc_asrc_test/mxc_asrc_test.c:588-605 | The whole program on every header and every driver, each ending exactly: past the sample buffer if and only if there is no sample; failed, waiting or past the output buffer at the first call that is refused, missing or too long, the bytes announced not there yet; otherwise the last call brought them, and it finishes if and only if the countdown over them ends inside the output buffer. So with a sample, room within the slack and a non-empty output below 2^32 it finishes for every driver that brings the bytes. The file written has sizes that agree and the data of the driver, top bytes cleared; its block alignment and byte rate are right exactly for the layouts of LayoutFits; and every number fits an int exactly if RunFits holds. |
| WavFile.TooLargeRatio | test/mxc_asrc_test/mxc_asrc_test.c:191-210 | A mono file at a rate ratio of 64 is offered 262152 bytes a call, and for any output some driver that keeps to them writes behind the buffer. |
| WavFile.OneSampleNeverFinishes | test/mxc_asrc_test/mxc_asrc_test.c:411-436 | A file of one 16-bit sample has an output of 0 bytes, and no run on it finishes. |
| WavFile.RunFitsInSteps | test/mxc_asrc_test/mxc_asrc_test.c:154-411 | The numbers the routines compute one after the other all fit an int exactly if RunFits holds of the numbers in the header: sizes, doubled for 16 bits, with the slack, rates of bytes, and both size computations. |
| WavFile.UsualFilesFit | test/mxc_asrc_test/mxc_asrc_test.c:154-411 | They do for files of up to 32 MB, 8 channels and 32 bits, from at least 8 kHz to at most 192 kHz. |
| Memtool.GetValueIsField | test/memtool/memtool.c:143-146 | Extraction gives exactly the bits of the field, whatever the sign of the register. |
| Memtool.SetFieldSplices | test/memtool/memtool.c:229-239 | The mask arithmetic replaces exactly the bits of the field. |
| Memtool.WriteThenRead | test/memtool/memtool.c:221-242 | A field reads back as the value modulo its width. |
| Memtool.OtherFieldsKept | test/memtool/memtool.c:221-242 | A field that does not overlap reads as before. |
| Memtool.LaterWriteWins | test/memtool/memtool.c:221-242 | A later write to the same field wins. |
| Memtool.DisjointWritesCommute | test/memtool/memtool.c:221-242 | Writes to disjoint fields commute. |
| Memtool.LittleEndian | test/memtool/memtool.c:88-141 | Byte i of what is read counts 256^i, and a write puts digit i of the value at address + i and changes no other byte. |
| Memtool.FieldInMemory | test/memtool/memtool.c:221-242 | In memory: the field reads back and no byte outside the register changes. |
| Memtool.LaterFieldWriteWins | test/memtool/memtool.c:221-242 | In memory: a later field write wins. |
| Memtool.FieldWritesCommute | test/memtool/memtool.c:221-242 | In memory: writes to disjoint fields or to registers apart commute. |
| Memtool.Mapper.MapAddress | test/memtool/memtool.c:73-86 | At most one page stays mapped, that of the address. |
| Memtool.Mapper.ReadMem | test/memtool/memtool.c:88-112 | Reads what flat memory holds, unless nothing is mapped and the address is in page 0. |
| Memtool.Mapper.WriteMem | test/memtool/memtool.c:114-141 | Writes as flat memory would, under the same condition. |
| Memtool.Mapper.WriteRegMask | test/memtool/memtool.c:221-242 | A field write through the mapping is a field write to flat memory. |
| Memtool.Mapper.Run | test/memtool/memtool.c:73-141 | Every sequence of accesses inside pages gives the results and the memory of flat memory, exactly unless the first one is in page 0 with nothing mapped. |
| Memtool.Mapper.RunAligned | test/memtool/memtool.c:73-141 | So does every sequence of accesses aligned to their widths. |
| Memtool.WindowCovers | test/memtool/memtool.c:639-644 | The window of the command line covers the bytes asked for, without a page to spare, if and only if their end rounds up within 32 bits. |
| Callback.ClearTestData | test/mxc_sahara_test/callback.c:102-116 | Every record is reset but for its result code. |
| Callback.CheckOne | test/mxc_sahara_test/callback.c:77-88 | It fails a buffer exactly if bytes 0 to 5, 8, 12 and 23 are all zero. |
| Callback.TestCallback | test/mxc_sahara_test/callback.c:341-391 | One pass of the callback over its results. |
| Callback.CallbackAlone | test/mxc_sahara_test/callback.c:341-391 | The steps of the callback, uninterrupted, do exactly that pass. |
| Callback.StepKeeps | test/mxc_sahara_test/callback.c:189-391 | Every step of requester, callback or driver keeps the invariant. |
| Callback.EnoughIsAll | test/mxc_sahara_test/callback.c:226-240 | As many results as accepted requests, and none for another request, are all of them. |
| Callback.ReceivedWasAccepted | test/mxc_sahara_test/callback.c:369-388 | In every run, received results are for accepted requests and none is recorded twice. |
| Callback.RequesterEnds | test/mxc_sahara_test/callback.c:189-263 | Whatever driver and callback do, the requester is done after at most 4400059 steps of its own. |
| Callback.BreakMeansComplete | test/mxc_sahara_test/callback.c:226-240 | Leaving the wait loop by break means every accepted request has its result. |
| Callback.VerdictRun | test/mxc_sahara_test/callback.c:189-391 | From every start, with any result codes and any data, some run of requester, driver and callback finishes with every request received, and it passes if and only if no request with an ok code has data that look unwritten. |
| Callback.TenErrorsPass | test/mxc_sahara_test/callback.c:244-263 | So a run in which all ten requests end with an error passes. |
| Callback.PassMeansServed | test/mxc_sahara_test/callback.c:244-263 | A pass means every request was accepted and received with valid random data or a status that is not ok; after a break the test passes exactly then. |
| MemAlloc.PageAlignRounds | module_test/memalloc.c:229 | Page rounding is right exactly up to 2^32 - 4096; above, the size wraps to 0. |
| MemAlloc.LiveBlocksApart | module_test/memalloc.c:218-277 | In every reachable state no two live blocks have a byte in common. |
| MemAlloc.MappingIsOneBlock | module_test/memalloc.c:287-319 | In every reachable state a mapping that succeeds covers all of one live block, and no byte of it belongs to another. |
| MemAlloc.LostAreRefusals | module_test/memalloc.c:218-249 | Over any sequence of calls the entries lost are the allocations the DMA allocator refuses, one each. |
| MemAlloc.OneRefusalLoses | module_test/memalloc.c:218-249 | One refused allocation on a new driver is enough. |
| MemAlloc.MappingSucceeds | module_test/memalloc.c:287-319 | A mapping succeeds if and only if it asks for a live block with its own size, and changes nothing either way. |
| MemAlloc.BlockStays | module_test/memalloc.c:190-199 | A live block stays, with its addresses and its size, over any calls that do not free it, reset the driver or close it for the last time. |
| MemAlloc.BlockLifetime | module_test/memalloc.c:190-277 | From the call that hands it out on a block is live until the first call that frees it, resets the driver or closes it for the last time, and not after that one. |
| MemAlloc.RefusedChangesNothing | module_test/memalloc.c:114-319 | A call that is refused changes nothing but the number of entries lost. |
| MemAlloc.GetThenFree | module_test/memalloc.c:218-277 | Freeing a buffer just obtained undoes it. |
| MemAlloc.SecondFreeFails | module_test/memalloc.c:258-265 | A second free of an address fails and changes nothing. |
| MemAlloc.NothingLeft | module_test/memalloc.c:190-199 | After a reset, and after the close that matches the first open, no block is left, whatever was called before. |
| MemAlloc.Driver.FreeBuffers | module_test/memalloc.c:62-81 | Every block is given back once, with its own size, and the list is empty. |
| MemAlloc.Driver.FindEntryByBus | module_test/memalloc.c:329-342 | An entry is found exactly for the addresses of live blocks. |
| MemAlloc.Driver.AllocMemory | module_test/memalloc.c:218-249 | The list gains an entry exactly when the allocator gives a block. |
| MemAlloc.Driver.FreeMemory | module_test/memalloc.c:258-277 | The list loses the entry of the block freed and no other. |
| MemAlloc.Driver.MapBuffer | module_test/memalloc.c:287-319 | Only a live block of exactly the size asked for is mapped. |
| MemAlloc.Driver.Control | module_test/memalloc.c:114-163 | The ioctl switch with its refusals. |
| MemAlloc.Driver.ReleaseDevice | module_test/memalloc.c:190-199 | The last close gives all blocks back. |
| MemAlloc.Driver.Serve | module_test/memalloc.c:62-342 | For every sequence of calls the driver with its list answers and ends as the one with a map of live blocks; the entries of the list are the live blocks, each with its page-rounded size, and one more for each allocation the DMA allocator refused: one for each live block if and only if it refused none. |

## Left out

- Printing: lines are datatype values; mnemonics, comments, warnings and the print-input and long-wait output of `etm.c` are not modelled.
- Option parsing, command lines, failure exits and allocation failures, and the start-up report on the packet tables.
- Text: the regular expressions of the script and the parsing of `objdump` output; lines arrive taken apart, instruction kinds as a map.
- EtmPackets.PacketRound: packets that a tracer sends, with at most four bytes of context ID; what the decoder makes of longer encodings and of packets cut off at the end of the stream is in the functions of `EtmDecode.dfy` only.
- Formatter synchronisation packets, gray-code timestamps, and thumb support in the script, which the code does not have either.
- Counters of the decoder (`branchCount`, `waitCount`) are unbounded numbers.
- EtmAddress.KnownBitsNeverDecrease: claims no more about the mask of known address bits, because its shift for ARM addresses is not an extension of the address bits.
- EndToEnd.WholeTraceDecodes: program-flow traces of ARM code; ETMv3 traces are in `EtmEndToEnd.dfy`.
- EndToEnd.DecodeAndRebuild: the tracer sends the shortest address packets, exceptions and I-syncs only behind branch instructions and I-syncs at the start, and one synchronisation; triggers, timestamps and the like, which `EtmPackets.PacketRound` covers, do not occur in its stream. An exception comes before an instruction of the program.
- Formatter.TagIsOwnership: says who owns a byte, not whether it is selected; for source IDs from 32 on C leaves the shift of the mask test undefined, and the model selects none of them (`Matches`).
- EtmEndToEnd.DecodeAndRebuild: ARM code; the tracer sends the shortest branch packets after taken branches to a register, exceptions and I-syncs anywhere, one synchronisation, and no data or timestamps.
- RateConvert.OutputBufferSize: what an int does once it overflows is not modelled, only when it would; a sample rate of 0 makes the loop of the source endless and is excluded.
- WavFile.Converter.ParseHeader: the search for chunks in the file is not modelled; the header buffer holds the three chunk headers already, and its numbers are read as non-negative; `RunFits` tells when an int holds all of them.
- WavFile.Converter.PlayFile: starting and stopping the converter can fail in the source and is left out; a run that the driver never fills ends with the list of replies, and one that writes behind the buffer ends there.
- WavFile.Converter.ReadSamples: a read at the end of a file that has only part of a sample leaves the input variable as it was; a depth without a loop leaves the contents of the sample buffer open.
- WavFile.Converter.ConvertWave: the driver fills no more than the room it is offered; an input rate of 0 is excluded.
- Memtool.Mapper.Run: `mmap` succeeds, widths are 1, 2 or 4, and an access does not cross a page, as no aligned one does.
- The register tables of memtool and its text commands.
- Callback.PassMeansServed: callbacks do not interrupt one another, the driver hands out results of accepted requests only, and it stops writing random data when it hands out the result.
- The second callback test, which the program never runs.
- MemAlloc.LiveBlocksApart: the DMA allocator is trusted not to hand out memory that is in use.
- MemAlloc.Driver.Serve: calls come one after the other; the spinlock, which only the mapping call takes, is not modelled. The list entries are counted, not their memory.
- DcicRoi.RoiFbInit: the framebuffer is as large as the rectangle needs, pixels have 16 or 32 bits.
- All other programs of the repository: wrappers around drivers and libraries, fixed vectors for hardware, user interface, floating point.
