/** The block theorem for the instructions the emitters support by their operands alone. */
module Supported {
  import opened Words
  import opened Host
  import opened Allocator
  import opened Emit
  import opened Templates
  import opened Meaning
  import opened Blocks
  import G = Guest

  /** Any operands for the operations x0 and 0 are neutral for; elsewhere no x0 source, and for
      the 32-bit immediate forms no zero immediate. */
  predicate Plain(i: G.Inst) {
    match i.op
    case ADD => true
    case XOR => true
    case OR => true
    case AND => true
    case ADDI => true
    case XORI => true
    case ORI => true
    case ANDI => true
    case _ =>
      && i.rs1 != 0 && (G.IsImm(i.op) || i.rs2 != 0)
      && (i.op.ADDIW? || G.IsShiftImmW(i.op) ==> i.imm != 0)
  }

  lemma PlainFaithful(i: G.Inst, a: Alloc)
    requires Coherent(a) && G.Decoded(i) && !G.IsStore(i.op) && Plain(i)
    ensures Faithful(i, a)
  {
    hide Coherent, Operands, RdiSpare;
  }

  /** Every ALU instruction is plain and every store lands in RAM when its turn comes. */
  ghost predicate Runnable(code: seq<G.Inst>, g: G.State, memsize: Word)
    requires G.Valid(g) && forall i <- code :: G.Decoded(i)
  {
    code == [] ||
    var n := |code| - 1;
    Runnable(code[..n], g, memsize)
    && if G.IsStore(code[n].op) then G.InRam(G.ExecAll(g, code[..n]), code[n], memsize) else Plain(code[n])
  }

  lemma {:induction false} RunnableCovered(code: seq<G.Inst>, g: G.State, memsize: Word)
    requires G.Valid(g) && (forall i <- code :: G.Decoded(i)) && Runnable(code, g, memsize)
    ensures AllCovered(code, g, memsize)
    decreases |code|
  {
    hide G.ExecAll, G.InRam, Plain, Faithful, Compile, G.Decoded;
    if code != [] {
      var n := |code| - 1;
      RunnableCovered(code[..n], g, memsize);
      if !G.IsStore(code[n].op) { PlainFaithful(code[n], Compile(code[..n]).a); }
    }
  }

  /** For those blocks, whatever the allocator does, the compiled function and the interpreter agree. */
  lemma SupportedBlock(code: seq<G.Inst>, ctx: Word, file: Word, m: Machine, g: G.State)
    requires forall i <- code :: G.Decoded(i)
    requires Entry(ctx, file, m, g) && Runnable(code, g, m.mem[Slot(ctx, CTX_MEMSIZE)])
    ensures Returned(file, m, Run(Function(code), m), G.ExecAll(g, code))
  {
    hide Run, Function, Runnable, AllCovered, G.ExecAll, Returned;
    RunnableCovered(code, g, m.mem[Slot(ctx, CTX_MEMSIZE)]);
    BlockMeaning(code, ctx, file, m, g);
  }
}
