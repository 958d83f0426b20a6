/** What a register write leaves in each register of the interrupt controller. */
module PlicRegisters {
  import opened Wrappers
  import opened Bits
  import opened Places
  import opened Plic
  import opened PlicDevice

  /** A 32-bit write at an offset in the window. */
  function Written(p: State, offset: nat, value: nat): (q: State)
    requires Shaped(p) && value < 0x1_0000_0000
    requires Decoded(|p.contexts|, offset, value).Some? ==> Allowed(p, Decoded(|p.contexts|, offset, value).value)
    ensures Shaped(q) && |q.contexts| == |p.contexts| && |q.pending| == |p.pending| && q.maxSources == p.maxSources
  {
    match Decoded(|p.contexts|, offset, value)
    case None => p
    case Some(e) => React(p, e)
  }

  /** What an event writes, line and pins apart. */
  lemma ReactWrites(p: State, e: Event, d: nat)
    requires Shaped(p) && Allowed(p, e) && d < |p.contexts|
    ensures
      var q := React(p, e);
      && q.priorities == (if e.SetPriority? && 0 < e.id <= p.maxSources
                          then p.priorities[e.id := e.value % 0x8000_0000] else p.priorities)
      && q.contexts[d].threshold == (if e.SetThreshold? && e.c == d then e.value % 0x8000_0000 else p.contexts[d].threshold)
      && q.contexts[d].enables == (if e.SetEnable? && e.c == d && e.word < |p.pending|
                                   then p.contexts[d].enables[e.word := e.bits] else p.contexts[d].enables)
  {
    hide Highest, Update, UpdateAll, Flagged;
    match e
    case SetPending(id, level) =>
      if 0 < id <= p.maxSources { AllKeeps(p.(pending := Flagged(p.pending, id, level)), d); }
    case SetPriority(id, value) =>
      if 0 < id <= p.maxSources { AllKeeps(p.(priorities := p.priorities[id := value % PRIORITY_MASK]), d); }
    case Claim(c) =>
      HighestInRange(p, c);
      if Highest(p, c) != 0 { UpdateFacts(p.(pending := Flagged(p.pending, Highest(p, c), false)), c, d); }
    case Complete(c, id) =>
      if 0 < id <= p.maxSources { UpdateFacts(p.(pending := Flagged(p.pending, id, false)), c, d); }
    case SetEnable(c, word, bits) =>
      if word < |p.pending| {
        var ctx := p.contexts[c];
        UpdateFacts(p.(contexts := p.contexts[c := ctx.(enables := ctx.enables[word := bits])]), c, d);
      }
    case SetThreshold(c, value) =>
      UpdateFacts(p.(contexts := p.contexts[c := p.contexts[c].(threshold := value % PRIORITY_MASK)]), c, d);
  }

  lemma AllKeeps(p: State, d: nat)
    requires Shaped(p) && d < |p.contexts|
    ensures SameView(p, UpdateAll(p), d)
  {
    hide UpdateFirst, Highest;
    UpdateFirstFacts(p, |p.contexts|, d);
  }

  /** Priorities are at 4 * id from the start, thirty-one bits each; ids 0 and above the maximum are not there. */
  lemma PriorityWritten(p: State, offset: nat, value: nat, id: nat)
    requires Shaped(p) && value < 0x1_0000_0000 && id <= p.maxSources && |p.contexts| > 0
    requires Decoded(|p.contexts|, offset, value).Some? ==> Allowed(p, Decoded(|p.contexts|, offset, value).value)
    ensures Written(p, offset, value).priorities[id]
      == if 0 < id && offset / 4 == id && offset < 0x1000 then value % 0x8000_0000 else p.priorities[id]
  {
    hide React;
    var e := Decoded(|p.contexts|, offset, value);
    if e.Some? { ReactWrites(p, e.value, 0); }
  }

  /** Thresholds are at 0x200000 + 0x1000 * context. */
  lemma ThresholdWritten(p: State, offset: nat, value: nat, d: nat)
    requires Shaped(p) && value < 0x1_0000_0000 && d < |p.contexts|
    requires Decoded(|p.contexts|, offset, value).Some? ==> Allowed(p, Decoded(|p.contexts|, offset, value).value)
    ensures Written(p, offset, value).contexts[d].threshold
      == if offset == 0x20_0000 + 0x1000 * d then value % 0x8000_0000 else p.contexts[d].threshold
  {
    hide React;
    var e := Decoded(|p.contexts|, offset, value);
    if e.Some? { ReactWrites(p, e.value, d); }
  }

  /** Enable words are at 0x2000 + 0x80 * context + 4 * word, below 0x200000. */
  lemma EnableWritten(p: State, offset: nat, value: nat, d: nat, w: nat)
    requires Shaped(p) && value < 0x1_0000_0000 && d < |p.contexts| && w < |p.pending|
    requires Decoded(|p.contexts|, offset, value).Some? ==> Allowed(p, Decoded(|p.contexts|, offset, value).value)
    ensures Written(p, offset, value).contexts[d].enables[w].bits
      == if w < 32 && 0x2000 + 0x80 * d + 4 * w <= offset < 0x2004 + 0x80 * d + 4 * w && offset < 0x20_0000
         then value as bv32 else p.contexts[d].enables[w].bits
  {
    hide React;
    var e := Decoded(|p.contexts|, offset, value);
    if e.Some? { ReactWrites(p, e.value, d); }
  }

  /** A write clears a pending bit only as a completion, at 0x200004 + 0x1000 * context, and sets none. */
  lemma PendingWritten(p: State, offset: nat, value: nat, id: nat)
    requires Shaped(p) && value < 0x1_0000_0000 && 0 < id
    requires Decoded(|p.contexts|, offset, value).Some? ==> Allowed(p, Decoded(|p.contexts|, offset, value).value)
    ensures Flag(Written(p, offset, value).pending, id) <==>
      (Flag(p.pending, id)
       && !(id == value && id <= p.maxSources && exists d :: 0 <= d < |p.contexts| && offset == 0x20_0004 + 0x1000 * d))
  {
    hide React, Flag;
    var e := Decoded(|p.contexts|, offset, value);
    if e.Some? {
      ReactCounts(p, e.value, id);
      if e.value.Complete? { assert offset == 0x20_0004 + 0x1000 * e.value.c; }
    }
  }

  // ---- what a context is owed, from the registers ----

  /** Pending, enabled for the context, and of a priority strictly above its threshold. */
  predicate MayInterrupt(p: State, c: nat, id: nat)
    requires Shaped(p) && c < |p.contexts|
  {
    && 1 <= id <= p.maxSources && id / 32 < |p.pending|
    && Has(p.pending[id / 32], id % 32) && Has(p.contexts[c].enables[id / 32], id % 32)
    && p.priorities[id] > p.contexts[c].threshold
  }

  /** The source claimed next: of those that may interrupt, the lowest id of the greatest priority; 0 for none. */
  lemma OwedExactly(p: State, c: nat)
    requires Shaped(p) && c < |p.contexts|
    ensures Highest(p, c) == 0 <==> forall id: nat :: !MayInterrupt(p, c, id)
    ensures Highest(p, c) != 0 ==> MayInterrupt(p, c, Highest(p, c))
    ensures forall id: nat :: MayInterrupt(p, c, id) && id != Highest(p, c) ==>
      p.priorities[id] < p.priorities[Highest(p, c)]
      || (p.priorities[id] == p.priorities[Highest(p, c)] && Highest(p, c) < id)
  {
    hide Has, Select;
    var r := Highest(p, c);
    SelectWins(p, c, 32 * |p.pending|, r);
    forall id: nat ensures MayInterrupt(p, c, id) <==> Deliverable(p, c, id) {
    }
    forall id: nat | MayInterrupt(p, c, id) ensures id < 32 * |p.pending| && r != 0 {
      HighestExists(p, c, id);
    }
  }

  /** In every reachable state hart h's MEIP is the line of context 2h and its SEIP that of context 2h + 1. */
  lemma PinsAre(p: State, h: nat)
    requires Good(p) && h < |p.harts| && h < 64
    ensures p.harts[h].meip == p.contexts[2 * h].line && p.harts[h].seip == p.contexts[2 * h + 1].line
  {
    assert PinFollows(p, 2 * h) && PinFollows(p, 2 * h + 1);
  }
}
