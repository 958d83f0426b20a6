/** Block recording: instructions executed often enough start a block, consecutive ones extend it, and a
    finished block becomes a compiled function in an arena slot, cached under the index of its pc. */
module Recorder {
  import opened Wrappers
  import opened Host
  import opened Encode
  import opened EmittedBytes
  import opened Sizes
  import opened Jit
  import opened Words
  import B = Blocks
  import A = Allocator
  import E = Emit
  import G = Guest

  /** One interpreted instruction; `inst` is absent when the conversion table has no entry for it. */
  datatype Executed = Executed(pc: nat, inst: Option<G.Inst>, size: nat)

  datatype JitFunction = JitFunction(pc: nat, instSize: nat, code: seq<Byte>, arena: nat, slot: nat)

  /** A cached function and the instructions it was recorded from. */
  datatype Entry = Entry(f: JitFunction, source: seq<Executed>)

  datatype State = State(
    building: bool,
    recorded: seq<Executed>,
    hits: map<nat, nat>,
    ignored: set<nat>,
    jits: map<nat, Entry>,
    arenas: seq<seq<seq<Byte>>>)

  const RAM_BASE := 0x8000_0000
  const RVJIT_PC_CAP := 100
  const JIT_CACHE_SIZE := 0x10_0000

  /** Functions per arena: `RVJIT_ARENA_PAGES` host pages of 4096 bytes, one function each. */
  const ARENA_SLOTS := 0x400

  function JitIndex(pc: nat): nat { pc / 4 % JIT_CACHE_SIZE }

  function Total(es: seq<Executed>): nat {
    if es == [] then 0 else Total(es[..|es| - 1]) + es[|es| - 1].size
  }

  function Insts(es: seq<Executed>): (code: seq<G.Inst>)
    requires forall e <- es :: e.inst.Some?
    ensures |code| == |es| && forall k | 0 <= k < |es| :: code[k] == es[k].inst.value
  {
    if es == [] then [] else Insts(es[..|es| - 1]) + [es[|es| - 1].inst.value]
  }

  /** The instructions occur in the run at the increasing positions `at`. */
  ghost predicate Occurs(es: seq<Executed>, run: seq<Executed>, at: seq<nat>) {
    && |at| == |es|
    && (forall k | 0 <= k < |es| :: at[k] < |run| && run[at[k]] == es[k])
    && (forall j, k | 0 <= j < k < |es| :: at[j] < at[k])
  }

  /** They were executed in this order, whatever else came between. */
  ghost predicate InOrder(es: seq<Executed>, run: seq<Executed>) { exists at: seq<nat> :: Occurs(es, run, at) }

  lemma InOrderLater(es: seq<Executed>, run: seq<Executed>, e: Executed)
    requires InOrder(es, run)
    ensures InOrder(es, run + [e])
  {
    var at: seq<nat> :| Occurs(es, run, at);
    assert Occurs(es, run + [e], at);
  }

  lemma InOrderExtended(es: seq<Executed>, run: seq<Executed>, e: Executed)
    requires InOrder(es, run)
    ensures InOrder(es + [e], run + [e])
  {
    var at: seq<nat> :| Occurs(es, run, at);
    assert Occurs(es + [e], run + [e], at + [|run|]);
  }

  lemma InOrderStart(run: seq<Executed>, e: Executed)
    ensures InOrder([e], run + [e])
  {
    assert Occurs([e], run + [e], [|run|]);
  }

  /** Convertible instructions at consecutive addresses. */
  ghost predicate Recording(es: seq<Executed>) {
    && 1 <= |es| <= RVJIT_MAX_INSTRUCTIONS
    && (forall e <- es :: e.inst.Some? && G.Decoded(e.inst.value))
    && (forall k | 0 <= k < |es| :: es[k].pc == es[0].pc + Total(es[..k]))
  }

  function Init(): State { State(false, [], map[], {}, map[], [[]]) }

  /** `push_function` into the last arena, or a new one when that is full. */
  function PushFunction(arenas: seq<seq<seq<Byte>>>, code: seq<Byte>): seq<seq<seq<Byte>>>
    requires arenas != []
  {
    var last := |arenas| - 1;
    if |arenas[last]| == ARENA_SLOTS then arenas + [[code]]
    else arenas[last := arenas[last] + [code]]
  }

  /** The machine code of a recorded block. */
  ghost function CodeOf(es: seq<Executed>): (code: seq<Byte>)
    requires Recording(es)
    ensures |code| <= 4057
  {
    DecodedInsts(es);
    FunctionBytes(Insts(es));
    hide E.Function, Encodable, DecodeAll;
    BytesAll(E.Function(Insts(es)))
  }

  ghost function Finish(s: State, pc: nat): State
    requires s.arenas != [] && Recording(s.recorded)
  {
    hide CodeOf;
    var arenas := PushFunction(s.arenas, CodeOf(s.recorded));
    var last := |arenas| - 1;
    var f := JitFunction(
      s.recorded[0].pc, Total(s.recorded), CodeOf(s.recorded), last, |arenas[last]| - 1);
    s.(building := false, arenas := arenas, ignored := s.ignored + {pc / 2},
       jits := s.jits[JitIndex(f.pc) := Entry(f, s.recorded)])
  }

  lemma DecodedInsts(es: seq<Executed>)
    requires Recording(es)
    ensures forall i <- Insts(es) :: G.Decoded(i)
  {
  }

  /** `handleInstruction`. */
  ghost function Handle(s: State, e: Executed): State
    requires s.arenas != [] && (s.building ==> Recording(s.recorded))
  {
    if e.pc < RAM_BASE || JitIndex(e.pc) in s.jits || e.pc / 2 in s.ignored then s
    else if s.building then
      if e.inst.None? || |s.recorded| >= RVJIT_MAX_INSTRUCTIONS || e.pc != s.recorded[0].pc + Total(s.recorded)
      then Finish(s, e.pc)
      else s.(recorded := s.recorded + [e], ignored := s.ignored + {e.pc / 2})
    else
      var n := ((if e.pc / 2 in s.hits then s.hits[e.pc / 2] else 0) + 1) % 0x1_0000;
      var s := s.(hits := s.hits[e.pc / 2 := n]);
      if n <= RVJIT_PC_CAP then s
      else if e.inst.Some? then s.(building := true, recorded := [e], ignored := s.ignored + {e.pc / 2})
      else s.(ignored := s.ignored + {e.pc / 2})
  }

  /** `stopBlock`, when an instruction faults. */
  function Abandon(s: State): State { s.(building := false) }

  /**
   * A cached function is the translation of at most 48 instructions at consecutive addresses, executed
   * in that order, and sits in the arena slot its pointer names. Instructions the recorder ignored may
   * have been executed between them.
   */
  ghost predicate Published(x: Entry, arenas: seq<seq<seq<Byte>>>, run: seq<Executed>) {
    && Recording(x.source) && InOrder(x.source, run)
    && x.f.pc == x.source[0].pc && x.f.instSize == Total(x.source)
    && x.f.code == CodeOf(x.source)
    && x.f.arena < |arenas| && x.f.slot < |arenas[x.f.arena]|
    && arenas[x.f.arena][x.f.slot] == x.f.code
  }

  ghost predicate Good(s: State, run: seq<Executed>) {
    && (s.building ==> Recording(s.recorded) && InOrder(s.recorded, run))
    && s.arenas != [] && (forall a <- s.arenas :: |a| <= ARENA_SLOTS)
    && (forall k | k in s.jits :: JitIndex(s.jits[k].f.pc) == k && Published(s.jits[k], s.arenas, run))
  }

  lemma PushKeeps(x: Entry, arenas: seq<seq<seq<Byte>>>, code: seq<Byte>, run: seq<Executed>, e: Executed)
    requires arenas != [] && Published(x, arenas, run)
    ensures Published(x, PushFunction(arenas, code), run + [e])
  {
    hide CodeOf, Recording, InOrder;
    InOrderLater(x.source, run, e);
  }

  lemma FinishGood(s: State, run: seq<Executed>, e: Executed)
    requires Good(s, run) && s.building
    ensures Good(Finish(s, e.pc), run + [e])
  {
    RecordingStarts(s.recorded);
    hide Published, Recording, PushFunction, CodeOf, InOrder, JitIndex, Finish;
    NewPublished(s, run, e);
    FinishArenas(s, e);
    FinishKeeps(s, run, e);
    IdleGood(Finish(s, e.pc), run + [e], JitIndex(s.recorded[0].pc));
  }

  lemma IdleGood(s: State, run: seq<Executed>, idx: nat)
    requires !s.building && s.arenas != [] && forall a <- s.arenas :: |a| <= ARENA_SLOTS
    requires idx in s.jits ==> JitIndex(s.jits[idx].f.pc) == idx && Published(s.jits[idx], s.arenas, run)
    requires forall k | k in s.jits && k != idx ::
      JitIndex(s.jits[k].f.pc) == k && Published(s.jits[k], s.arenas, run)
    ensures Good(s, run)
  {
    hide Published, JitIndex;
  }

  lemma FinishArenas(s: State, e: Executed)
    requires s.arenas != [] && Recording(s.recorded) && forall a <- s.arenas :: |a| <= ARENA_SLOTS
    ensures !Finish(s, e.pc).building && Finish(s, e.pc).arenas != []
    ensures forall a <- Finish(s, e.pc).arenas :: |a| <= ARENA_SLOTS
  {
    RecordingStarts(s.recorded);
    hide Recording, PushFunction, CodeOf, JitIndex;
    PushArenas(s.arenas, CodeOf(s.recorded));
  }

  lemma FinishKeeps(s: State, run: seq<Executed>, e: Executed)
    requires s.arenas != [] && Recording(s.recorded) && s.recorded != []
    requires forall k | k in s.jits :: Published(s.jits[k], s.arenas, run)
    ensures forall k | k in Finish(s, e.pc).jits && k != JitIndex(s.recorded[0].pc) ::
      k in s.jits && Finish(s, e.pc).jits[k] == s.jits[k]
      && Published(s.jits[k], Finish(s, e.pc).arenas, run + [e])
  {
    hide Published, Recording, PushFunction, CodeOf, InOrder, JitIndex;
    forall k | k in s.jits ensures Published(s.jits[k], Finish(s, e.pc).arenas, run + [e]) {
      PushKeeps(s.jits[k], s.arenas, CodeOf(s.recorded), run, e);
    }
  }

  lemma PushArenas(arenas: seq<seq<seq<Byte>>>, code: seq<Byte>)
    requires arenas != [] && forall a <- arenas :: |a| <= ARENA_SLOTS
    ensures PushFunction(arenas, code) != [] && forall a <- PushFunction(arenas, code) :: |a| <= ARENA_SLOTS
  {
  }

  lemma NewPublished(s: State, run: seq<Executed>, e: Executed)
    requires s.arenas != [] && Recording(s.recorded) && InOrder(s.recorded, run)
    ensures var k := JitIndex(s.recorded[0].pc);
      && k in Finish(s, e.pc).jits && Finish(s, e.pc).jits[k].f.pc == s.recorded[0].pc
      && Published(Finish(s, e.pc).jits[k], Finish(s, e.pc).arenas, run + [e])
  {
    hide CodeOf, InOrder;
    InOrderLater(s.recorded, run, e);
  }

  lemma RecordingStarts(es: seq<Executed>)
    requires Recording(es)
    ensures es != []
  {
  }

  lemma ExtendRecording(es: seq<Executed>, e: Executed)
    requires Recording(es) && |es| < RVJIT_MAX_INSTRUCTIONS && e.inst.Some? && G.Decoded(e.inst.value)
    requires e.pc == es[0].pc + Total(es)
    ensures Recording(es + [e])
  {
    var es' := es + [e];
    forall k | 0 <= k < |es'| ensures es'[k].pc == es'[0].pc + Total(es'[..k]) {
      assert es'[..k] == es[..k];
      assert es[..|es|] == es;
    }
  }

  lemma HandleGood(s: State, run: seq<Executed>, e: Executed)
    requires Good(s, run) && (e.inst.Some? ==> G.Decoded(e.inst.value))
    ensures Good(Handle(s, e), run + [e])
  {
    hide G.Decoded, Published, Finish, InOrder;
    InOrderStart(run, e);
    if s.building {
      InOrderLater(s.recorded, run, e);
      InOrderExtended(s.recorded, run, e);
    }
    forall k | k in s.jits ensures Published(s.jits[k], s.arenas, run + [e]) { Later(s.jits[k], s.arenas, run, e); }
    if e.pc < RAM_BASE || JitIndex(e.pc) in s.jits || e.pc / 2 in s.ignored {
    } else if s.building {
      if e.inst.None? || |s.recorded| >= RVJIT_MAX_INSTRUCTIONS || e.pc != s.recorded[0].pc + Total(s.recorded) {
        FinishGood(s, run, e);
      } else {
        ExtendRecording(s.recorded, e);
      }
    } else if e.inst.Some? {
      assert [e][..0] == [];
      assert Recording([e]);
    }
  }

  lemma Later(x: Entry, arenas: seq<seq<seq<Byte>>>, run: seq<Executed>, e: Executed)
    requires Published(x, arenas, run)
    ensures Published(x, arenas, run + [e])
  {
    hide CodeOf, Recording, InOrder;
    InOrderLater(x.source, run, e);
  }

  /** Any run of executed instructions, with blocks abandoned where `stops` says. */
  ghost function Run(run: seq<Executed>, stops: set<nat>): (s: State)
    requires forall e <- run :: e.inst.Some? ==> G.Decoded(e.inst.value)
    ensures Good(s, run)
  {
    hide Handle, Published, G.Decoded, InOrder;
    if run == [] then Init()
    else
      var n := |run| - 1;
      var prev := Run(run[..n], stops);
      HandleGood(prev, run[..n], run[n]);
      assert run[..n] + [run[n]] == run;
      var s := Handle(prev, run[n]);
      if n in stops then Abandon(s) else s
  }

  /**
   * End to end: whatever instructions were executed, the bytes of any cached function decode, and
   * running them leaves the guest as interpreting the recorded instructions would.
   */
  lemma CachedMeaning(run: seq<Executed>, stops: set<nat>, k: nat,
                      ctx: Word, file: Word, m: Machine, g: G.State)
    requires forall e <- run :: e.inst.Some? ==> G.Decoded(e.inst.value)
    requires k in Run(run, stops).jits
    requires B.Entry(ctx, file, m, g)
    requires var es := Run(run, stops).jits[k].source;
      && (forall e <- es :: e.inst.Some?) && (forall i <- Insts(es) :: G.Decoded(i))
      && B.AllCovered(Insts(es), g, m.mem[Slot(ctx, E.CTX_MEMSIZE)])
    ensures var x := Run(run, stops).jits[k];
      && x.f.pc == x.source[0].pc && x.f.instSize == Total(x.source) && InOrder(x.source, run)
      && DecodeAll(x.f.code).Some?
      && B.Returned(file, m, Host.Run(DecodeAll(x.f.code).value, m), G.ExecAll(g, Insts(x.source)))
  {
    var s := Run(run, stops);
    var x := s.jits[k];
    assert Published(x, s.arenas, run);
    hide Run, B.AllCovered, B.Entry, B.Returned, DecodeAll, E.Function, Host.Run, G.ExecAll;
    FunctionBytes(Insts(x.source));
    B.BlockMeaning(Insts(x.source), ctx, file, m, g);
  }

  /** Allocator state and body code after a recording. */
  ghost function Compiled(es: seq<Executed>): A.Result
    requires Recording(es)
  {
    DecodedInsts(es);
    E.Compile(Insts(es))
  }

  class JitContext {
    const emitter: JitEmitter
    const blk: JitBlock
    var building: bool
    var blockPc: nat
    var blockSize: nat
    var count: nat
    var hits: map<nat, nat>
    var ignored: set<nat>
    var jits: map<nat, JitFunction>
    var arenas: seq<seq<seq<Byte>>>
    ghost var state: State

    ghost predicate Valid()
      reads this, emitter, emitter.vregs, emitter.hostRegs, blk, blk.bytes
    {
      Tables() && (building ==> InStep())
    }

    /** The caches, and where the block in progress starts and ends. */
    ghost predicate Tables()
      reads this, emitter, emitter.vregs, emitter.hostRegs, blk, blk.bytes
    {
      && emitter.Valid() && blk.Valid() && building == state.building
      && hits == state.hits && ignored == state.ignored && arenas == state.arenas && arenas != []
      && jits.Keys == state.jits.Keys && (forall k | k in jits :: jits[k] == state.jits[k].f)
      && (building ==>
            && Recording(state.recorded)
            && blockPc == state.recorded[0].pc && blockSize == Total(state.recorded)
            && count == |state.recorded|)
    }

    /** The buffer and the allocator are where compiling the recorded instructions leads. */
    ghost predicate InStep()
      requires Recording(state.recorded)
      reads this, emitter, emitter.vregs, emitter.hostRegs, blk
    {
      && emitter.View() == Compiled(state.recorded).a
      && blk.code == E.PROLOGUE + Compiled(state.recorded).code
    }

    constructor ()
      ensures Valid() && state == Init()
    {
      emitter := new JitEmitter();
      blk := new JitBlock();
      building, blockPc, blockSize, count := false, 0, 0, 0;
      hits, ignored, jits, arenas := map[], {}, map[], [[]];
      state := Init();
    }

    /** Translates one instruction into the block in progress. */
    method Emit(i: G.Inst)
      requires emitter.Valid() && blk.Valid() && G.Decoded(i) && blk.pos + 110 <= RVJIT_FUNC_SIZE
      modifies emitter.vregs, emitter.hostRegs, emitter`useCounter, blk`pos, blk`code, blk.bytes
      ensures emitter.Valid() && blk.Valid()
      ensures emitter.View() == E.EmitInst(old(emitter.View()), i).a
      ensures blk.code == old(blk.code) + E.EmitInst(old(emitter.View()), i).code
    {
      if G.IsStore(i.op) { emitter.EmitStore(blk, i); } else { emitter.EmitAlu(blk, i); }
    }

    /** Starts a block with its first instruction. */
    method Start(e: Executed)
      requires Valid() && !building && e.inst.Some? && G.Decoded(e.inst.value)
      modifies this`building, this`blockPc, this`blockSize, this`count, this`state
      modifies emitter.vregs, emitter.hostRegs, emitter`useCounter, blk`pos, blk`code, blk.bytes
      ensures Valid() && state == old(state).(building := true, recorded := [e])
    {
      hide Compiled, E.EmitInst, G.Decoded, A.Coherent, Recording, Total, SizeAll, BytesAll, AllEncodable;
      emitter.Reset();
      blk.Clear();
      FrameSizes();
      FrameEncodable();
      blk.PutAll(E.PROLOGUE);
      assert blk.code == E.PROLOGUE;
      Emit(e.inst.value);
      FirstInst(e);
      building, blockPc, blockSize, count := true, e.pc, e.size, 1;
      state := state.(building := true, recorded := [e]);
    }

    /** Records one more instruction. */
    method Extend(e: Executed)
      requires Valid() && building && e.inst.Some? && G.Decoded(e.inst.value)
      requires count < RVJIT_MAX_INSTRUCTIONS && e.pc == blockPc + blockSize
      modifies this`blockSize, this`count, this`state
      modifies emitter.vregs, emitter.hostRegs, emitter`useCounter, blk`pos, blk`code, blk.bytes
      ensures Valid() && state == old(state).(recorded := old(state).recorded + [e])
    {
      hide Compiled, E.EmitInst, G.Decoded, A.Coherent, Recording, Total, SizeAll, BytesAll, AllEncodable;
      ghost var es := state.recorded;
      RoomForOne(es);
      NextInst(es, e);
      ghost var prev := Compiled(es);
      Emit(e.inst.value);
      Assoc(E.PROLOGUE, prev.code, E.EmitInst(prev.a, e.inst.value).code, []);
      blockSize := blockSize + e.size;
      count := count + 1;
      state := state.(recorded := es + [e]);
    }

    /** Completes the code in the buffer. */
    method Complete()
      requires Valid() && building
      modifies blk`pos, blk`code, blk.bytes
      ensures Tables() && blk.bytes[..blk.pos] == CodeOf(state.recorded)
    {
      hide Compiled, CodeOf, E.WriteBack, A.Coherent, Recording, Total, SizeAll, BytesAll, AllEncodable;
      ghost var es := state.recorded;
      FunctionFits(es);
      emitter.EmitEpilogue(blk);
      Assoc(E.PROLOGUE, Compiled(es).code, E.WriteBack(emitter.View(), 0), E.LEAVE);
    }

    /** Finishes the block and publishes it. */
    method Publish(pc: nat)
      requires Valid() && building
      modifies this`building, this`ignored, this`jits, this`arenas, this`state
      modifies blk`pos, blk`code, blk.bytes
      ensures Valid() && state == Finish(old(state), pc)
    {
      hide Compiled, G.Decoded, A.Coherent, Total, Finish, SizeAll, BytesAll, AllEncodable, CodeOf;
      Complete();
      hide Recording;
      FinishIs(state, pc);
      var code := blk.bytes[..blk.pos];
      arenas := PushFunction(arenas, code);
      var last := |arenas| - 1;
      jits := jits[JitIndex(blockPc) := JitFunction(blockPc, blockSize, code, last, |arenas[last]| - 1)];
      ignored := ignored + {pc / 2};
      building := false;
      state := Finish(state, pc);
    }

    method HandleInstruction(e: Executed)
      requires Valid() && (e.inst.Some? ==> G.Decoded(e.inst.value))
      modifies this`building, this`blockPc, this`blockSize, this`count, this`state
      modifies this`hits, this`ignored, this`jits, this`arenas
      modifies emitter.vregs, emitter.hostRegs, emitter`useCounter, blk`pos, blk`code, blk.bytes
      ensures Valid() && state == Handle(old(state), e)
    {
      hide Compiled, G.Decoded, A.Coherent, Total, Finish;
      if e.pc < RAM_BASE || JitIndex(e.pc) in jits || e.pc / 2 in ignored {
        return;
      }
      if building {
        if e.inst.None? || count >= RVJIT_MAX_INSTRUCTIONS || e.pc != blockPc + blockSize {
          Publish(e.pc);
        } else {
          Extend(e);
          Ignore(e.pc);
        }
        return;
      }
      var n := ((if e.pc / 2 in hits then hits[e.pc / 2] else 0) + 1) % 0x1_0000;
      hits := hits[e.pc / 2 := n];
      state := state.(hits := hits);
      if n > RVJIT_PC_CAP {
        if e.inst.Some? { Start(e); }
        Ignore(e.pc);
      }
    }

    method Ignore(pc: nat)
      requires Valid()
      modifies this`ignored, this`state
      ensures Valid() && state == old(state).(ignored := old(state).ignored + {pc / 2})
    {
      hide Compiled, A.Coherent, Total, Recording;
      ignored := ignored + {pc / 2};
      state := state.(ignored := ignored);
    }

    method StopBlock()
      requires Valid()
      modifies this`building, this`state
      ensures Valid() && state == Abandon(old(state))
    {
      building := false;
      state := Abandon(state);
    }
  }

  lemma CompileLast(code: seq<G.Inst>, i: G.Inst)
    requires (forall x <- code :: G.Decoded(x)) && G.Decoded(i)
    ensures var p := E.Compile(code);
      && A.Coherent(p.a)
      && E.Compile(code + [i]) == A.Result(E.EmitInst(p.a, i).a, p.code + E.EmitInst(p.a, i).code)
  {
    hide E.EmitInst, A.Coherent, G.Decoded;
    assert (code + [i])[..|code|] == code;
  }

  lemma FirstInst(e: Executed)
    requires e.inst.Some? && G.Decoded(e.inst.value)
    ensures Recording([e]) && Total([e]) == e.size
    ensures A.Coherent(A.Fresh()) && Compiled([e]) == E.EmitInst(A.Fresh(), e.inst.value)
  {
    hide E.EmitInst, G.Decoded, A.Coherent, A.Fresh;
    E.FreshCoherent();
    assert [e][..0] == [];
    assert Insts([e]) == [e.inst.value];
    CompileLast([], e.inst.value);
    assert E.Compile([]) == A.Result(A.Fresh(), []);
    assert [] + [e.inst.value] == [e.inst.value];
    assert [] + E.EmitInst(A.Fresh(), e.inst.value).code == E.EmitInst(A.Fresh(), e.inst.value).code;
  }

  lemma NextInst(es: seq<Executed>, e: Executed)
    requires Recording(es) && |es| < RVJIT_MAX_INSTRUCTIONS && e.inst.Some? && G.Decoded(e.inst.value)
    requires e.pc == es[0].pc + Total(es)
    ensures Recording(es + [e]) && Total(es + [e]) == Total(es) + e.size && (es + [e])[0] == es[0]
    ensures var p := Compiled(es);
      && A.Coherent(p.a)
      && Compiled(es + [e])
      == A.Result(E.EmitInst(p.a, e.inst.value).a, p.code + E.EmitInst(p.a, e.inst.value).code)
  {
    hide E.EmitInst, G.Decoded, A.Coherent, E.Compile;
    ExtendRecording(es, e);
    DecodedInsts(es);
    assert (es + [e])[..|es|] == es;
    CompileLast(Insts(es), e.inst.value);
    assert Insts(es + [e]) == Insts(es) + [e.inst.value];
  }

  /** Below the cap there is room for any next instruction, worst case. */
  lemma RoomForOne(es: seq<Executed>)
    requires Recording(es) && |es| < RVJIT_MAX_INSTRUCTIONS
    ensures SizeAll(E.PROLOGUE + Compiled(es).code) + 110 <= RVJIT_FUNC_SIZE
  {
    hide E.Compile, SizeAll, G.Decoded;
    DecodedInsts(es);
    FunctionSize(Insts(es));
  }

  lemma FunctionFits(es: seq<Executed>)
    requires Recording(es)
    ensures var b := Compiled(es);
      && A.Shape(b.a)
      && SizeAll(E.PROLOGUE + b.code) + SizeAll(E.WriteBack(b.a, 0)) + 7 <= RVJIT_FUNC_SIZE
      && AllEncodable(E.PROLOGUE + b.code + E.WriteBack(b.a, 0) + E.LEAVE)
      && CodeOf(es) == BytesAll(E.PROLOGUE + b.code + E.WriteBack(b.a, 0) + E.LEAVE)
  {
    hide E.Compile, E.WriteBack, A.Coherent, Size, G.Decoded, AllEncodable, BytesAll;
    DecodedInsts(es);
    var code := Insts(es);
    CoherentShape(E.Compile(code).a);
    var b := E.Compile(code);
    BlockFits(code);
    FrameSizes();
    FunctionEncodable(code);
    SizeAppend(E.PROLOGUE + b.code, E.WriteBack(b.a, 0));
    SizeAppend(E.PROLOGUE + b.code + E.WriteBack(b.a, 0), E.LEAVE);
  }

  lemma FinishIs(s: State, pc: nat)
    requires s.arenas != [] && Recording(s.recorded)
    ensures s.recorded != []
    ensures var arenas := PushFunction(s.arenas, CodeOf(s.recorded));
      && arenas != []
      && var last := |arenas| - 1;
      var f := JitFunction(s.recorded[0].pc, Total(s.recorded), CodeOf(s.recorded), last, |arenas[last]| - 1);
      Finish(s, pc) == s.(building := false, arenas := arenas, ignored := s.ignored + {pc / 2},
                          jits := s.jits[JitIndex(f.pc) := Entry(f, s.recorded)])
  {
    hide CodeOf;
  }
}
