# A verified model of riscv-em

riscv-em is an RV64 emulator. This project models its hard logic in Dafny and proves what that logic is for: the
just-in-time compiler, the table-driven instruction decoder and its cache, the flattened-device-tree serializer, the
virtio block queue, the interrupt controller, trap entry and return, and the carry-less multiply loops.

Pure computations are functions; objects that change in place (`JitBlock`, `JitEmitter`, `JitContext`,
`InstructionDecoder`, `Serializer`, `SizeDesc`, `VirtioBlk`, `PlicController`, `Hart`) are classes whose methods are
proved equal to functions of the old state, and the properties are proved about those functions.

`dafny verify dfyconfig.toml` checks everything.

## The parts

**Just-in-time compiler.** `words`, `guest` (the interpreter's `exec_*` functions), `host` (an x86-64 subset over 16
registers), `allocator` (31 guest registers over 8 host registers), `recency` (what the choice of a spill goes by),
`emit` (what the emitters append), `templates` and `meaning` (one instruction), `stores` (those in RAM), `store_path`
(which ones a block does itself), `blocks` (whole functions), `supported` (the block theorem by operands alone),
`exact` (when one translation is right), `encode` (bytes), `sizes` (the buffer bound), `encodable`, `jit` (the mutable
buffer and emitter), `recorder` (hot-block recording) and `progress` (when it starts a block and that it publishes what
it records). `wrappers`, `powers` and `word_bits` hold what several parts share. Interpreter and host share the word
operations and the bytes of a store; `word_meaning`, `op_meaning` and `store_effect` say what those do, bit by bit and
byte by byte, and `encode_vectors` holds the encoder to instruction bytes as the processor manual lists them.

The central theorem is `Supported.SupportedBlock`: for every straight-line block of supported instructions, every
initial register file and RAM, any pattern of loads and spills and any aliasing of operands, running the emitted
function leaves x1..x31 and RAM as interpreting the block does, and gives the caller back its stack and callee-saved
registers. `Blocks.BlockMeaning` is the sharper form: it asks of each ALU instruction only that it is `Faithful` in the
allocator state it meets, and `Exact.FaithfulExactly` shows that this is exactly when its translation is right.
`Recorder.CachedMeaning` carries the theorem to the bytes of any function a run of the emulator has cached.

What the code does where a reader might expect otherwise, all of it kept in the model:

- The x0 and zero-immediate shortcuts of the shared emitters are wrong for some operations (for example `sub rd, x0, rs`
  becomes a move, and `addiw rd, rs, 0` does not sign-extend). `ShortcutOk` is the exact condition.
- Set-less-than with an x0 operand encodes register number 0xFF, which ends up as RDI, and zeroes RDI whoever owns it.
  Such an instruction is right exactly when RDI is free or holds `rd` harmlessly (`RdiSpare`); `sltu rd, rd, x0` is right
  regardless.
- An allocation that finds a free host register leaves `host_idx` as it was, so later uses of the guest register stamp
  another host register as recently used. `Recency.TouchOwn` gives the exact condition and `Recency.StampGoesAstray` a
  run that shows it. Only the choice of spill victims is affected.
- A store stays in its block exactly when its offset is at most the size of RAM (`StorePath.StoreTaken`). That takes in
  an offset of that size itself and stores that begin inside RAM and end outside. With x0 as base the address is what
  RDI happens to hold.
- The recorder skips instructions it ignores or has cached without ending the block, so a block's instructions are
  consecutive in addresses and recorded in run order, not consecutive in the run.

**Decoder.** `bits` and `places` (sets of bits by repeatedly clearing the lowest), `decoder` (patterns, the two lookup
tables, the linear scan they stand for), `decode_cache`, `pattern_texts` (the 240 texts the emulator registers) and
`registered`, `inst_fields` and `decoded_fields` (the operand fields, bit by bit). `FindExactly` says word by word when
lookup and scan agree, `NoShadowDecodes` gives a condition on the pattern list under which they always do, and
`Registered.RegisteredDecodes` shows that the registered list meets it: the shipped decoder is right about every word.
The pair of patterns in `Decoder.FindShadowed` is hypothetical, a list the emulator never registers; it shows that the
condition is not void.

**Device tree.** `fdt` (the two blocks and a reference reader for section 5.4 of the Devicetree Specification) and
`fdt_writer` (the measuring and writing passes); `fdt_example` spells one small blob out.

**Virtio block queue.** `guest_memory`, `virtio` (chains, one request, the data round trip), `virtio_queue` (a whole
run), `virtio_failures` (what a failed request has done), `virtio_status` (the status byte the driver reads, and the
layout of rings, descriptors and headers), `virtio_blk` (the device object). Kept from the code: an OUT whose size is
not a whole number of sectors is reported as an error but still written (`ErrorWritesExactly`, at work in `ShortOut`);
an IN fills a buffer that is not writable before it stops with an error (`BufferAfter`, `ReadOnlyFilled`, at work in
`ShortIn`); the status byte goes to the last writable descriptor; without one the request is completed with no status
written.

**Interrupt controller.** `plic`, `plic_device`, `plic_registers` (what a register write leaves where). Completion
clears the pending bit, so a source raised between claim and completion is lost: `RaiseLost` shows it for every
controller and every owed source, `SurvivesExactly` says which raises are lost, and `RaisesAccounted` balances raises,
claims, losses and what is pending over whole runs. A claim or completion updates only its own context's line;
`LinesExactly` says when the lines of the others stay right.

**Traps.** `hart`, `hart_nesting`, `hart_device`, `trap_words` (the same by bit and register number). An sstatus write
reaches the UXL field that an mstatus write preserves (`UxlOpen` gives the values that leave it alone); MPRV survives
the SRETs that return to U (`SRetMprv`) and the MRETs whose MPP is M or reserved (`MRetMprv`); MRET with the reserved
MPP value keeps the mode.

**Carry-less multiply.** `clmul`.

## Model

| member | source | states |
|---|---|---|
| Supported.SupportedBlock | include/rvjit/rvjit_x86_64.hpp:764-1050 | For every block of supported instructions with its stores in RAM, prologue, emitted code and epilogue leave x1..x31 and RAM as interpreting the block does, nothing else in memory changed, stack and callee-saved registers restored; nothing is asked of the allocator state |
| Supported.PlainFaithful | include/rvjit/rvjit_x86_64.hpp:969-1041 | Any operands for ADD, XOR, OR, AND and their immediate forms, non-x0 sources elsewhere and a non-zero immediate for the 32-bit immediate forms are translated faithfully from every coherent allocator state |
| Blocks.BlockMeaning | src/sets/rv64i.cpp:582-1061 | The same for any block whose ALU instructions are faithful in the allocator state they meet, for every length, spill pattern and operand aliasing |
| Exact.FaithfulExactly | include/rvjit/rvjit_x86_64.hpp:960-1050 | From a coherent allocator state the translation of an ALU instruction agrees with the interpreter on every machine and guest state if and only if the instruction is faithful: rd is x0, or the shortcut it takes is neutral for it and a zero operand of a comparison does not clobber a live RDI |
| Meaning.AluHolds | src/sets/rv64i.cpp:24-223 | One faithful ALU instruction keeps the agreement of host registers, homes and guest state, with whatever loads and write-backs it causes |
| Stores.StoreHolds | src/sets/rv64i.cpp:1327-1423 | A store wholly inside RAM takes the fast path and writes the bytes the interpreter writes, all registers still agreeing |
| StorePath.StoreTaken | src/sets/rv64i.cpp:1327-1423 | From every state in agreement a compiled store stays in its block if and only if its offset is at most the size of RAM, and then writes all its bytes from that offset on, with everything else in agreement; with x0 as base the offset starts from RDI |
| StorePath.Straddles | src/sets/rv64i.cpp:1327-1423 | A store the block does itself and one of whose bytes falls on the size of RAM writes outside RAM |
| StoreEffect.StoreWrites | src/sets/rv64i.cpp:312-360 | SB, SH, SW and SD leave the low one, two, four or eight bytes of rs2 from the address less 0x80000000 on, the lowest first, and every other byte and every register as it was |
| StoreEffect.WordStored | include/memory_map.hpp:205-225 | SW of 0x11223344 at the start of RAM leaves 44 33 22 11 |
| OpMeaning.ShiftsWide | src/sets/rv64i.cpp:24-223 | Bit k of SLL, SRL and SRA is the bit n places below or above, n being the low six bits of rs2, with zeros or copies of the sign coming in |
| OpMeaning.ShiftsNarrow | src/sets/rv64i.cpp:24-223 | The same of the low half by five bits for SLLW, SRLW and SRAW, sign-extended |
| OpMeaning.ShiftsImmediate | src/sets/rv64i.cpp:24-223 | The same for the immediate shifts |
| OpMeaning.Comparisons | src/sets/rv64i.cpp:24-223 | SLTU and SLT give one or zero, the signed one putting a set top bit first |
| OpMeaning.SumsNarrow | src/sets/rv64i.cpp:24-223 | ADDW, ADDIW and SUBW sign-extend the sum or difference of the low halves modulo 2^32 |
| WordMeaning.ImmBit | src/sets/rv64i.cpp:24-223 | Bit k of an immediate operand is the parity of the immediate over 2^k, rounded down |
| Meaning.AllocHolds | include/rvjit/rvjit_x86_64.hpp:880-957 | An allocation, with any load and write-back it emits, leaves every guest value where the tables say it is |
| Allocator.AllocReg | include/rvjit/rvjit_x86_64.hpp:913-957 | Allocated guest registers and used host registers stay a bijection inside the pool, registers locked for this instruction keep their place, the requested one ends up allocated and off the locked ones |
| Allocator.VictimUsed | include/rvjit/rvjit_x86_64.hpp:888-912 | When no unlocked register is free the spill scan finds an unlocked one in use |
| Recency.VictimOldest | include/rvjit/rvjit_x86_64.hpp:888-912 | The register spilled is the first with the least stamp among those not locked |
| Recency.TouchOwn | include/rvjit/rvjit_x86_64.hpp:913-957 | Using an allocated guest register stamps its own host register as most recent if and only if `host_idx` names that register; otherwise another is stamped and its own keeps its old stamp |
| Recency.IndexAfter | include/rvjit/rvjit_x86_64.hpp:913-957 | After a spill `host_idx` names the register given; an allocation that finds a free register leaves it as it was |
| Recency.StampGoesAstray | include/rvjit/rvjit_x86_64.hpp:913-957 | After allocating x1 and x2 in a fresh table, a use of x2 stamps the host register of x1 and leaves x2's own unstamped |
| Templates.TemplateEffect | src/sets/rv64i.cpp:582-1061 | For operands whose shortcut is neutral (`ShortcutOk`) and that leave no live RDI to be cleared (`RdiOk`), a template writes rd with the interpreter's value, keeps every other pool register except a spare RDI, and faults on no input |
| Blocks.WriteBackRuns | include/rvjit/rvjit_x86_64.hpp:773-790 | The epilogue's write-backs bring the home of every guest register up to date |
| Host.RunAppend | include/rvjit/rvjit_x86_64.hpp:820-879 | Code whose forward jumps stay inside it can be run piece by piece |
| Encode.MemOperandTrip | include/rvjit/rvjit_x86_64.hpp:63-137 | ModR/M, SIB and displacement bytes decode to the operand they came from, for every base, every index but RSP and every 32-bit displacement, RBP/R13 and RSP/R12 included |
| Encode.RoundTrip | include/rvjit/rvjit_x86_64.hpp:140-762 | Decoding the bytes of any emitted instruction gives that instruction and leaves the bytes after it |
| Encode.RoundTripAll | include/rvjit/rvjit_x86_64.hpp:140-762 | Decoding the concatenated bytes of any instruction list recovers the list |
| EncodeVectors.SubBytes | include/rvjit/rvjit_x86_64.hpp:140-153 | SUB of registers is the bytes of the processor manual |
| EncodeVectors.IndexedStores | include/rvjit/rvjit_x86_64.hpp:353-400 | A register stored through an index in each width is the bytes of the processor manual |
| Sizes.EmitCosts | include/rvjit/rvjit_x86_64.hpp:888-957 | Any instruction costs at most 84 bytes, seven for each write-back it makes necessary later included |
| Sizes.FunctionSize | include/rvjit/rvjit_x86_64.hpp:764-796 | A function of n instructions takes at most 25 + 84n bytes, whatever is spilled, reloaded and written back |
| Sizes.BlockFits | include/rvjit/rvjit.hpp:27-29 | Every block of at most 48 instructions fits the 0x1000-byte buffer, in 4057 bytes or fewer |
| EmittedBytes.FunctionBytes | src/rvjit/rvjit.cpp:107-136 | The bytes of any recordable block fit the bound and decode to the emitted function |
| Jit.JitBlock.Put | include/rvjit/rvjit_x86_64.hpp:140-762 | Appending byte by byte stays in the buffer, which then holds exactly the bytes of the instructions so far |
| Jit.JitEmitter.AllocReg | include/rvjit/rvjit_x86_64.hpp:913-957 | The loops over the register tables compute the allocation function and append its code |
| Jit.JitEmitter.EmitAlu | include/rvjit/rvjit_x86_64.hpp:960-1050 | Emitting an ALU instruction changes tables and buffer as the emit function says |
| Jit.JitEmitter.EmitEpilogue | include/rvjit/rvjit_x86_64.hpp:773-796 | The epilogue appends the write-backs of the dirty registers in register order and the return |
| Recorder.Run | src/rvjit/rvjit.cpp:36-140 | After any run of executed instructions every cached function is the translation of at most 48 instructions at consecutive addresses, executed in that order, is stored under the index of its pc and sits in the arena slot it names |
| Recorder.CachedMeaning | src/rvjit/rvjit.cpp:36-140 | The bytes of any cached function decode, and running them leaves the guest as interpreting the recorded instructions does |
| Recorder.JitContext.HandleInstruction | src/rvjit/rvjit.cpp:36-140 | One executed instruction changes recorder, tables and buffers as the recording function says, never overrunning the buffer |
| Progress.EndPublishes | src/rvjit/rvjit.cpp:107-141 | An instruction that is unconvertible, the 49th or not the next address, met while recording, leaves a cached function under the index of the block's first pc, made from just what was recorded, all other entries staying |
| Progress.NextRecorded | src/rvjit/rvjit.cpp:52-69 | Any other instruction met while recording becomes the last of the recording and is ignored from then on |
| Progress.FirstBlock | src/rvjit/rvjit.cpp:71-104 | From the start, whatever is executed, no block starts before a convertible instruction is executed for the 101st time, and that one starts a block holding just it |
| Progress.LoopCached | src/rvjit/rvjit.cpp:36-141 | After 101 rounds of a loop of one convertible instruction and a branch its function is cached |
| Bits.PextInjective | src/decode.cpp:157-158 | pext through a mask is equal for two words exactly when they agree under the mask |
| Bits.NextCounts | src/decode.cpp:179 | Read through the mask, the next submask is the present one plus one, wrapping to zero after the last |
| Bits.SubsetsOnce | src/decode.cpp:154-180 | The enumeration meets every submask exactly once in its first 2^popcount steps and is then back at zero |
| Decoder.ParseText | src/decode.cpp:82-118 | A word matches the mask and value built from a pattern text exactly when it has the text's digits |
| Decoder.BestWins | src/decode.cpp:167-177 | The scan's answer is the earliest-registered of the agreeing patterns with most fixed bits, and none exactly when none agrees |
| Decoder.AddPattern | src/decode.cpp:143-182 | Entering a pattern at every submask leaves, in the slot any word looks up, the scan's answer including that pattern; every index is inside the table |
| Decoder.OneEntry | src/decode.cpp:155-179 | Entering one submask brings exactly the slots it owns up to date |
| DecodeCache.TableSizes | include/decode.hpp:212-218 | The tables have exactly one slot for each value pext can give |
| DecodeCache.InstructionDecoder.BuildLut | src/decode.cpp:141-182 | After building, each table slot a word looks up holds the scan's answer over all registered patterns of that width |
| Decoder.FindExactly | src/decode.cpp:23-80 | Table lookup and most-specific-match scan give the same pattern for a word if and only if a 16-bit pattern takes it, or the 32-bit entry survives the comparison with all its fixed bits, or no 32-bit pattern matches |
| Decoder.NoShadowDecodes | src/decode.cpp:23-80 | When no 32-bit pattern hides another through bits outside the hash, lookup and scan agree on every word |
| PatternTexts.RegisteredSafe | src/decode.cpp:120-139 | Of any two of the registered 32-bit texts, the first says nothing about rd and rs1 or the two ask for different digits where the hash looks |
| Registered.SafeNoShadow | src/decode.cpp:82-118 | Any list of patterns made from such texts, in any order, has no pattern hidden by another |
| Registered.RegisteredDecodes | src/decode.cpp:23-139 | With any of the registered patterns, with or without floating point, the decode of every word is the most-specific-match scan, valid exactly when some pattern matches |
| DecodeCache.RunTransparent | include/decode.hpp:223-244 | Over any run of decodes and FENCE.I flushes every call answers as a decode without cache would |
| DecodeCache.BothStay | src/decode.cpp:52-76 | After two misses in one set both words are found there and nothing moves |
| DecodeCache.LookupSticks | include/decode.hpp:233-241 | A valid decode is found by the next call of the same word |
| DecodeCache.StepGood | src/sets/zifencei.cpp:22-43 | Every call keeps valid ways truthful and never leaves the same pc and word in both ways of a set |
| DecodeCache.InstructionDecoder.DecodeInst | include/decode.hpp:223-244 | The call returns the cache-free decode, its fields those bits of the word, and changes only the set the pc falls into |
| DecodedFields.RegisteredEntry | src/decode.cpp:23-80 | By the registered patterns the entry holds pc and word asked for, rd, rs1 and rs2 as bits 11..7, 19..15 and 24..20 of the word and no others, and is valid exactly when some pattern matches, then with the most specific one's immediate, else with zero |
| InstFields.FieldBits | include/decode.hpp:37-48 | Bit k of each field is the word's bit that far above the field's lowest, for five bits, and clear beyond |
| DecodedFields.SubFields | include/decode.hpp:37-48 | `sub a0, a1, a0` reads rd 10, rs1 11, rs2 10 |
| Fdt.NodeAt | src/libfdt.cpp:310-330 | A reader of structure blocks as section 5.4 of the Devicetree Specification lays them out, applied where a tree's blocks stand, recovers names, properties in order with their bytes, and children in order |
| Fdt.BlocksAligned | src/libfdt.cpp:282-308 | Both blocks of every tree are whole numbers of 4-byte words |
| FdtWriter.BlobRoundTrip | src/libfdt.cpp:342-381 | For every tree with NUL-free names and sizes within 32 bits, reading the serialized blob through its header gives the tree back |
| FdtWriter.LengthsAgree | src/libfdt.cpp:253-271 | The measuring pass gives the lengths of the two blocks the writing pass produces, wherever the names fall |
| FdtWriter.SizeOfTree | src/libfdt.cpp:332-340 | For any tree the result is the size of the blob in 32-bit arithmetic |
| FdtWriter.Serializer.SerTree | src/libfdt.cpp:310-330 | Writing a tree with NUL-free names appends its structure to one region and its names to the other, keeps both offsets 4-aligned and touches nothing outside |
| FdtWriter.Serialize | src/libfdt.cpp:342-381 | With too little space nothing is written and 0 is returned; else exactly the blob is written, its size returned and the rest of the buffer left alone |
| FdtExample.Structure | src/libfdt.cpp:253-330 | The two blocks of a root with one property and one child, byte by byte as sections 5.4 and 5.5 of the Devicetree Specification give them |
| FdtExample.HeaderBytes | src/libfdt.cpp:342-381 | The header of that blob word by word as section 5.2 of the Devicetree Specification gives it |
| Virtio.FetchExactly | src/devices/virtio_blk.cpp:143-168 | A fetch succeeds exactly when the NEXT-linked path ends within the queue size, and returns that path in order |
| Virtio.FetchFails | src/devices/virtio_blk.cpp:143-168 | A fetch fails exactly when every descriptor within the queue size asks for another |
| Virtio.CycleRejected | src/devices/virtio_blk.cpp:165-167 | Every path that comes round to itself is rejected, for every queue size |
| Virtio.DataRoundTrip | src/devices/virtio_blk.cpp:237-298 | After an OUT reported OK and any requests writing elsewhere, an IN of the same sectors into any non-overlapping buffers succeeds exactly when they are writable, and then they hold the bytes written |
| Virtio.RequestFrame | src/devices/virtio_blk.cpp:202-298 | A request changes no memory outside its data buffers and its status byte |
| VirtioStatus.StatusReported | src/devices/virtio_blk.cpp:213-298 | The status byte reads 0 exactly for a request with an image and an offset below 2^63 that is an IN into buffers the device may all write or an OUT of whole sectors, and 1 for every other |
| VirtioStatus.RunReported | src/devices/virtio_blk.cpp:171-318 | After a whole run the status byte of every served request still says so, unless a later request or the used ring is laid over it |
| VirtioStatus.ServedExactly | src/devices/virtio_blk.cpp:183-200 | An entry is served exactly when its chain ends within the queue size, has two descriptors and a whole header |
| VirtioStatus.ImageBytes | src/devices/virtio_blk.cpp:123-141 | A write leaves the data at its offset, what was there elsewhere, and zeros in between |
| VirtioStatus.DescriptorLayout | src/devices/virtio_blk.cpp:143-168 | Sixteen bytes laid out by section 2.6.5 of VIRTIO 1.1 read as that descriptor |
| VirtioStatus.HeaderLayout | src/devices/virtio_blk.cpp:202-214 | A header laid out by section 5.2.6 of VIRTIO 1.1 reads as its type and sector, and the sector starts at 512 times its number |
| VirtioStatus.AvailLayout | src/devices/virtio_blk.cpp:171-190 | idx and heads are read where section 2.6.6 of VIRTIO 1.1 puts them |
| VirtioStatus.UsedLayout | src/devices/virtio_blk.cpp:300-309 | Head, length zero and idx are written where section 2.6.8 of VIRTIO 1.1 puts them |
| VirtioFailures.ErrorWritesExactly | src/devices/virtio_blk.cpp:265-292 | A request reported as an error changes the image if and only if it is an OUT with a status descriptor, an image and a usable offset whose size is no whole number of sectors, and its data are not what the image holds there; then all its data are written |
| VirtioFailures.BufferAfter | src/devices/virtio_blk.cpp:243-263 | Every data buffer apart from the others holds its part of the image after the request if the request is an IN with image and usable offset and all buffers before it are writable, and is unchanged otherwise, be it writable or not |
| VirtioFailures.ReadOnlyFilled | src/devices/virtio_blk.cpp:243-263 | Some buffer the device may only read is filled if and only if an IN with image and usable offset has a data buffer that is not writable; it is the last one filled and the request reports an error |
| VirtioFailures.ShortOut | src/devices/virtio_blk.cpp:265-292 | A one-byte OUT reports an error and its byte is on the disk |
| VirtioFailures.ShortIn | src/devices/virtio_blk.cpp:243-263 | A one-byte IN into a buffer the device may only read reports an error and the buffer holds the image's byte |
| VirtioQueue.DrainCounters | src/devices/virtio_blk.cpp:171-318 | Whatever memory holds, a run ends with last_avail at the sampled index, last_used advanced modulo 2^16 by exactly the accepted entries, and one interrupt for each of them |
| VirtioQueue.DrainReports | src/devices/virtio_blk.cpp:307-309 | used.idx in memory equals last_used after a run that accepts an entry; one that accepts none changes neither memory nor disk |
| VirtioQueue.LogReadsRing | src/devices/virtio_blk.cpp:183-187 | With buffers and used ring off the avail ring, entries are served in ring order with the heads found there before the run |
| VirtioQueue.UsedRingHolds | src/devices/virtio_blk.cpp:300-305 | With buffers off the used ring, every ring slot reported to in a run ends with the head last reported there and length zero, for any queue size and any number of completions |
| VirtioQueue.UsedRingLists | src/devices/virtio_blk.cpp:300-305 | So after at most queue-size completions the used ring lists all accepted heads in avail order, if the size divides 2^16 or the counter does not wrap |
| VirtioQueue.DrainFrame | src/devices/virtio_blk.cpp:171-318 | Memory in no buffer, no status byte and not in the used ring is unchanged by a run |
| VirtioBlkDevice.VirtioBlk.FetchDescriptorChain | src/devices/virtio_blk.cpp:143-168 | The loop returns the chain of the fetch function, or failure when there is none |
| VirtioBlkDevice.VirtioBlk.Serve | src/devices/virtio_blk.cpp:202-298 | The loops of one request leave memory and disk as the request function says |
| VirtioBlkDevice.VirtioBlk.ProcessQueue | src/devices/virtio_blk.cpp:171-318 | The call ends whatever memory holds, in the state the run function gives; another queue, or one not ready or empty, changes nothing |
| Plic.SelectWins | src/devices/plic.cpp:252-286 | The selection is the lowest id of greatest priority strictly above the threshold among pending, enabled sources, and 0 exactly when there is none |
| PlicDevice.PlicController.FindHighestPendingEnabled | src/devices/plic.cpp:252-286 | The double loop over words and lowest set bits computes that selection and ends |
| PlicDevice.OneBit | src/devices/plic.cpp:263-283 | Taking the lowest active bit considers exactly its source in addition |
| Plic.ReactGood | src/devices/plic.cpp:196-351 | Raises, claims, completions and register writes keep: a context with a deliverable source has its line high, and each hart's MEIP and SEIP equal its context lines |
| Plic.RunGood | src/devices/plic.cpp:196-351 | So does every run of them |
| Plic.UpdateAllExact | src/devices/plic.cpp:310-325 | After a source moved or a priority changed every line is exact |
| Plic.ClaimExact | src/devices/plic.cpp:288-299 | After a claim that returns a source the claiming context's line is exact |
| Plic.ClaimTakes | src/devices/plic.cpp:288-299 | A claim takes the pending bit of the source it returns and of no other, and changes no priority, enable or threshold |
| Plic.ClaimStale | src/devices/plic.cpp:288-299 | After a claim the line of another context is high with nothing owed if and only if it was high and nothing but the source claimed was owed to it |
| Plic.CompleteStale | src/devices/plic.cpp:301-309 | The same of a completion and the source completed |
| Plic.LinesExactly | src/devices/plic.cpp:196-351 | Exact lines stay exact through an event if and only if it does not take, by a claim or completion through another context, all that some context is owed |
| Plic.RaisesAccounted | src/devices/plic.cpp:118-134 | Over any run, all contexts together, the claims of a source, the completions and lowerings that hit its set bit and the bit at the end add up to its raises of a clear bit and the bit at the start |
| Plic.SurvivesExactly | src/devices/plic.cpp:288-309 | The bit of a raised source stays set until a claim takes it or the run ends if and only if no completion or lowering of it comes before a claim that returns it |
| Plic.RaiseLost | src/devices/plic.cpp:301-309 | A source claimed, raised again and completed is claimed once and not pending at the end, for every controller and context that owes it |
| Plic.ClaimsBounded | src/devices/plic.cpp:118-134 | Over any run, all contexts together, each source is claimed at most as often as it was raised |
| PlicDevice.PlicController.WriteRegister | src/devices/plic.cpp:196-250 | A register write does what its offset decodes to and nothing for read-only or absent registers |
| PlicRegisters.PriorityWritten | src/devices/plic.cpp:200-212 | A write in the first page leaves the low thirty-one bits in the priority of the source at its offset over four, and no other priority changes by any write |
| PlicRegisters.EnableWritten | src/devices/plic.cpp:217-230 | A write at 0x2000 + 0x80 c + 4 w leaves the value in enable word w of context c, and no other enable word changes by any write |
| PlicRegisters.ThresholdWritten | src/devices/plic.cpp:232-245 | A write at 0x200000 + 0x1000 c leaves the low thirty-one bits in the threshold of context c, and no other threshold changes by any write |
| PlicRegisters.PendingWritten | src/devices/plic.cpp:245-249 | A write clears a pending bit only as a completion of that source at 0x200004 + 0x1000 c, and sets none |
| PlicRegisters.OwedExactly | src/devices/plic.cpp:252-286 | The source claimed next, from pending and enable bits, priorities and threshold |
| PlicRegisters.PinsAre | src/devices/plic.cpp:327-351 | A hart's MEIP is the line of its even context and its SEIP that of its odd one |
| HartNesting.ReturnRestores | src/hart.cpp:206-249 | For any well-bracketed nest of traps whose handlers save when trapped again at their own level, each return restores the interrupted pc, mode, MIE and SIE, SRET is legal, and an M-level trap inside an S handler leaves sepc, SPIE and SPP alone |
| HartNesting.ReTrapLoses | src/hart.cpp:226-234 | A supervisor handler trapped again at its own level without saving returns to its own entry |
| HartState.TrapRaises | src/hart.cpp:206-249 | A trap's target is at least as privileged as the interrupted mode |
| HartState.TrapRecords | src/hart.cpp:223-248 | The handler finds the interrupted pc, the trap value and the cause with its kind in the top bit, at a 4-aligned entry; no other CSR and no interrupt bit has changed |
| TrapWords.TrapEntry | src/hart.cpp:206-242 | A trap goes to S exactly from below M with its cause's bit set in medeleg or mideleg, to the base in stvec or mtvec, and 4 * cause further exactly for an interrupt when bit 0 of that register is set |
| TrapWords.TrapCause | src/hart.cpp:229-244 | By register number: the interrupted pc, the trap value, and the cause with bit 63 for an interrupt |
| TrapWords.UserCall | src/hart.cpp:218-228 | A delegated ECALL from U enters at the base in stvec, vectored or not |
| TrapWords.StatusTrapS | src/hart.cpp:232-234 | Bit by bit: SPIE (5) takes SIE (1), SIE clears, SPP (8) says whether S was interrupted, all other bits stay |
| TrapWords.StatusTrapM | src/hart.cpp:245-247 | The same for MPIE (7), MIE (3) and MPP (12 and 11) |
| TrapWords.StatusMRet | src/sets/priv.cpp:23-46 | MRET bit by bit, with pc from mepc and the mode MPP names |
| TrapWords.StatusSRet | src/sets/priv.cpp:47-70 | SRET bit by bit, with pc from sepc and the mode SPP names |
| HartState.MRetSeen | src/sets/priv.cpp:23-46 | MRET moves MPIE to MIE, sets MPIE, resets MPP and leaves the other trap fields alone |
| HartState.MRetReserved | src/sets/priv.cpp:26-40 | With the reserved MPP value the mode and MPRV stay while pc is taken from mepc |
| HartState.SRetSeen | src/sets/priv.cpp:47-70 | SRET moves SPIE to SIE, sets SPIE, clears SPP and leaves the other trap fields alone |
| HartState.SRetMprv | src/sets/priv.cpp:47-70 | MPRV survives an SRET if and only if it was set and the return is to U |
| HartState.MRetMprv | src/sets/priv.cpp:23-46 | MPRV survives an MRET if and only if it was set and MPP is M or reserved |
| HartDevice.ChosenExactly | src/hart.cpp:153-204 | An interrupt is taken exactly when one is pending, enabled and unmasked at its level, and it is the first: machine-level before delegated, then by the priority table |
| HartDevice.ChosenTarget | src/hart.cpp:153-204 | It goes to S exactly when delegated, and never to a lower privilege than the present mode |
| TrapWords.ReadyBits | src/hart.cpp:153-204 | Which interrupts are ready, by the bits of mip, mie, mideleg and mstatus |
| HartDevice.SstatusWindow | src/hart.cpp:251-325 | sstatus reads a part of mstatus; a write lands there, reads back and leaves the rest alone |
| HartDevice.MstatusReadOnly | src/hart.cpp:255-257 | An mstatus write keeps the read-only bits and sets all others |
| HartDevice.SstatusKeepsMachine | src/hart.cpp:258-260 | An sstatus write cannot change MIE, MPIE, MPP or TSR |
| HartDevice.UxlOpen | src/hart.cpp:255-260 | The read-only bits of mstatus survive an sstatus write if and only if the value written holds the UXL field as it is; UXL then reads what was written |
| HartDevice.UxlZeroed | src/hart.cpp:255-260 | Writing zero keeps a UXL of 64 bits through mstatus and clears it through sstatus |
| TrapWords.EnableWindows | src/hart.cpp:261-272 | mie and mip take the low sixteen bits written; sie and sip take and show bits 1, 5 and 9 |
| TrapWords.CsrPlain | src/hart.cpp:305-340 | A plain register reads what was written and no other changes; writes to counter views and identification registers are lost |
| HartDevice.Hart.CheckInts | src/hart.cpp:153-204 | The method traps with the chosen interrupt, or changes nothing and reports false |
| HartDevice.Hart.TakeTrap | src/hart.cpp:206-249 | The field-by-field entry gives the state of the trap function |
| HartDevice.Hart.ExecSret | src/sets/priv.cpp:47-70 | Illegal in U, and in S with TSR set, changing nothing; else the state of the return function |
| Clmul.ExecClmul | src/sets/zbc.cpp:21-34 | The loop computes coefficients 0 to 63 of the product over GF(2) |
| Clmul.ExecClmulh | src/sets/zbc.cpp:35-48 | The loop computes coefficients 64 to 127 |
| Clmul.ExecClmulr | src/sets/zbc.cpp:49-62 | The loop computes coefficients 63 to 126 |
| Clmul.Commutes | src/sets/zbc.cpp:21-62 | All three results are independent of the order of the operands |
| Clmul.CoefSum | src/sets/zbc.cpp:21-62 | The product distributes over exclusive or |
| Clmul.CoefPower | src/sets/zbc.cpp:21-62 | Multiplying by x^j moves every coefficient up by j |
| Clmul.CoefDegree | src/sets/zbc.cpp:21-62 | The product has no coefficient from 127 on |

## Left out

- JIT loads, branches, jumps, LUI and AUIPC: no entry in the conversion table, so no block contains them.
- Stores that call device code: the call is counted in the buffer bound, its effect is not modelled, and a model run that reaches it stops; RAM is taken to hold a byte at every offset, so what a store past its size hits on the host is not modelled; the block theorems ask for stores inside RAM.
- Stores.StoreHolds: a RAM size above 2^63 bytes is excluded.
- Label patching: the two short jumps of a store are emitted with their final distance.
- Host memory is a set of objects addressed by pointer and displacement, with the stack apart from them.
- Host system calls, page permissions and arena mapping; invalidation of cached functions by page version.
- The recorder indexes hit counters by pc and not through lazily allocated pages, and its debug output is dropped.
- Floating point, its CSRs and the time compare CSR.
- The handlers behind the patterns: an index into the pattern list stands for the function pointer; immediate decoders are parameters.
- Registering patterns after decoding has started: the decoder object asks for an empty cache, as at start-up.
- FdtWriter.Serializer.SerTree: names with NUL bytes are excluded, as the format ends a name at the first one.
- FdtWriter.Serialize: names with NUL bytes and trees beyond 32 bits are excluded, as the format cannot hold them; the null node argument is not modelled.
- Device tree construction: phandles, property replacement and lookup.
- Guest memory regions: every 64-bit address holds a byte, so accesses that would throw for an unmapped address are not modelled, nor is running out of host memory for a transfer buffer.
- Host file errors other than a missing image and an offset `fseek` refuses.
- The virtio register file other than the queue notification, and feature negotiation.
- Plic.ReactGood: source ids without a pending word are excluded, and the hart's bits are taken to be untouched by CSR writes.
- The controller's register reads other than claims.
- HartNesting.ReturnRestores: handler code is any code that leaves mode, xepc and the other status fields alone; a handler that advances xepc returns elsewhere by intention.
- The hypervisor mode number, which no transition enters.
- GDB stub, timers, UART, I2C and HID, framebuffer, ELF loading, the M, A and C extensions and the other bit-manipulation instructions.
