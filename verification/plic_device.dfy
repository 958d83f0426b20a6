/** The controller as the device object, with the selection loop over bit words and the
    register window. */
module PlicDevice {
  import opened Wrappers
  import opened Bits
  import opened Places
  import opened Plic

  const PRIORITY_END := 0x1000
  const PENDING_END := 0x1080
  const ENABLE_BASE := 0x2000
  const CONTEXT_BASE := 0x200000

  /** Ids dealt with when the loop is in `word` with `active` bits to go. */
  predicate Seen(p: State, c: nat, word: nat, active: Word32, id: nat)
    requires Shaped(p) && c < |p.contexts|
  {
    id / 32 < word || (id / 32 == word && !Has(active, id % 32))
  }

  /** The best of the deliverable ids seen so far. */
  ghost predicate BestSeen(p: State, c: nat, word: nat, active: Word32, r: nat)
    requires Shaped(p) && c < |p.contexts|
  {
    && (r == 0 ==> forall id: nat :: Deliverable(p, c, id) ==> !Seen(p, c, word, active, id))
    && (r > 0 ==> Deliverable(p, c, r))
    && (r > 0 ==> forall id: nat :: Deliverable(p, c, id) && Seen(p, c, word, active, id) ==>
      p.priorities[id] < p.priorities[r] || (p.priorities[id] == p.priorities[r] && r <= id))
  }

  lemma IdParts(word: nat, bit: nat)
    requires bit < 32
    ensures (word * 32 + bit) / 32 == word && (word * 32 + bit) % 32 == bit
  {
  }

  lemma ActiveBits(p: State, c: nat, word: nat, id: nat)
    requires Shaped(p) && c < |p.contexts| && word < |p.pending| && Deliverable(p, c, id) && id / 32 == word
    ensures Has(And(p.pending[word], p.contexts[c].enables[word]), id % 32)
  {
    HasAnd(p.pending[word], p.contexts[c].enables[word], id % 32);
  }

  /** All words before `word` searched. */
  ghost predicate WordsDone(p: State, c: nat, word: nat, r: nat)
    requires Shaped(p) && c < |p.contexts|
  {
    && (r > 0 ==> Deliverable(p, c, r))
    && forall id: nat :: Deliverable(p, c, id) && id / 32 < word ==>
      r > 0 && (p.priorities[id] < p.priorities[r] || (p.priorities[id] == p.priorities[r] && r <= id))
  }

  /** Moving to the next word: what the new word's active bits miss is not deliverable. */
  lemma NextWord(p: State, c: nat, word: nat, r: nat)
    requires Shaped(p) && c < |p.contexts| && word < |p.pending|
    requires WordsDone(p, c, word, r)
    ensures BestSeen(p, c, word, And(p.pending[word], p.contexts[c].enables[word]), r)
  {
    hide And, Has, Deliverable;
    var active := And(p.pending[word], p.contexts[c].enables[word]);
    forall id: nat | Deliverable(p, c, id) && Seen(p, c, word, active, id) ensures id / 32 < word {
      if id / 32 == word { ActiveBits(p, c, word, id); }
    }
  }

  /** One candidate compared with the best so far. */
  function Better(p: State, c: nat, id: nat, best: nat): nat
    requires Shaped(p) && c < |p.contexts| && best <= p.maxSources
  {
    if id != 0 && id <= p.maxSources && p.priorities[id] > p.contexts[c].threshold
      && (best == 0 || p.priorities[id] > p.priorities[best] || (p.priorities[id] == p.priorities[best] && id < best))
    then id
    else best
  }

  function Both(p: State, c: nat, word: nat): Word32
    requires Shaped(p) && c < |p.contexts| && word < |p.pending|
  {
    And(p.pending[word], p.contexts[c].enables[word])
  }

  predicate Among(active: Word32, all: Word32) { forall k :: 0 <= k < 32 && Has(active, k) ==> Has(all, k) }

  /** Clearing the lowest bit sees exactly its id in addition. */
  lemma SeesOneMore(p: State, c: nat, word: nat, active: Word32, id: nat)
    requires Shaped(p) && c < |p.contexts| && active != ZERO
    ensures TrailingZeros(active) < 32
    ensures Seen(p, c, word, ClearLow(active), id) <==>
      Seen(p, c, word, active, id) || id == word * 32 + TrailingZeros(active)
  {
    hide ClearLow, Has, TrailingZeros;
    var bit := TrailingZeros(active);
    SomeBit(active);
    IdParts(word, bit);
    ClearLowBits(active, id % 32);
    if id / 32 == word { SameId(id, word * 32 + bit); }
  }

  lemma ClearAmong(active: Word32, all: Word32)
    requires active != ZERO && Among(active, all)
    ensures Among(ClearLow(active), all) && TrailingZeros(active) < 32 && Has(all, TrailingZeros(active))
  {
    hide Has, ClearLow;
    SomeBit(active);
    forall k | 0 <= k < 32 && Has(ClearLow(active), k) ensures Has(all, k) {
      ClearLowBits(active, k);
    }
  }

  /** An active id is deliverable when its priority passes. */
  lemma ActiveDeliverable(p: State, c: nat, word: nat, bit: nat)
    requires Shaped(p) && c < |p.contexts| && word < |p.pending| && bit < 32 && Has(Both(p, c, word), bit)
    ensures
      var id := word * 32 + bit;
      Deliverable(p, c, id) <==> 0 < id <= p.maxSources && p.priorities[id] > p.contexts[c].threshold
  {
    hide And, Has;
    IdParts(word, bit);
    HasAnd(p.pending[word], p.contexts[c].enables[word], bit);
  }

  lemma OneBit(p: State, c: nat, word: nat, active: Word32, r: nat)
    requires Shaped(p) && c < |p.contexts| && word < |p.pending| && active != ZERO && r <= p.maxSources
    requires BestSeen(p, c, word, active, r) && Among(active, Both(p, c, word))
    ensures BestSeen(p, c, word, ClearLow(active), Better(p, c, word * 32 + TrailingZeros(active), r))
    ensures Among(ClearLow(active), Both(p, c, word))
  {
    hide ClearLow, TrailingZeros, Seen, Has, Both;
    var added := word * 32 + TrailingZeros(active);
    ClearAmong(active, Both(p, c, word));
    ActiveDeliverable(p, c, word, TrailingZeros(active));
    forall id: nat
      ensures Seen(p, c, word, ClearLow(active), id) <==> Seen(p, c, word, active, id) || id == added
    {
      SeesOneMore(p, c, word, active, id);
    }
    hide Deliverable, Among;
  }

  lemma PopDrops(w: Word32)
    requires w != ZERO
    ensures Pop(ClearLow(w)) < Pop(w)
  {
    hide ClearLow;
  }

  lemma AmongSelf(w: Word32)
    ensures Among(w, w)
  {
  }

  class PlicController {
    const maxSources: nat
    var priorities: seq<nat>
    var pendingWords: seq<Word32>
    var contexts: seq<Context>
    var harts: seq<Pins>       // the `ip` bits of the harts it drives

    function Now(): State
      reads this
    {
      State(maxSources, priorities, pendingWords, contexts, harts)
    }

    constructor (sources: nat, hartCount: nat)
      ensures Good(Now()) && maxSources == sources && |contexts| == 2 * hartCount
      ensures forall c :: 0 <= c < |contexts| ==> Highest(Now(), c) == 0
    {
      maxSources := sources;
      priorities := seq<nat>(sources + 1, _ => 0);
      pendingWords := seq<Word32>((sources + 31) / 32, _ => ZERO);
      contexts := seq<Context>(2 * hartCount, _ => Context(0, seq<Word32>((sources + 31) / 32, _ => ZERO), false));
      harts := seq<Pins>(hartCount, _ => Pins(false, false));
      new;
      forall c: nat | c < |contexts| ensures Highest(Now(), c) == 0 {
        NothingPending(Now(), c, 32 * |pendingWords|);
      }
    }

    /** The inner loop: the set bits of one word, lowest first. */
    method SearchWord(c: nat, word: nat, id0: nat, priority0: nat) returns (bestId: nat, bestPriority: nat)
      requires Shaped(Now()) && c < |contexts| && word < |pendingWords| && WordsDone(Now(), c, word, id0)
      requires id0 <= maxSources && priority0 == (if id0 == 0 then 0 else priorities[id0])
      ensures bestId <= maxSources && bestPriority == (if bestId == 0 then 0 else priorities[bestId])
      ensures BestSeen(Now(), c, word, ZERO, bestId)
    {
      hide Deliverable, And, Has, ClearLow, TrailingZeros, BestSeen, Among, Pop;
      bestId, bestPriority := id0, priority0;
      var active := And(pendingWords[word], contexts[c].enables[word]);
      NextWord(Now(), c, word, bestId);
      AmongSelf(active);
      while active != ZERO
        invariant bestId <= maxSources && bestPriority == (if bestId == 0 then 0 else priorities[bestId])
        invariant BestSeen(Now(), c, word, active, bestId) && Among(active, Both(Now(), c, word))
        decreases Pop(active)
      {
        OneBit(Now(), c, word, active, bestId);
        PopDrops(active);
        var id := word * 32 + TrailingZeros(active);
        if id != 0 && id <= maxSources {
          var prio := priorities[id];
          if prio > contexts[c].threshold {
            if prio > bestPriority || (prio == bestPriority && id < bestId) {
              bestPriority := prio;
              bestId := id;
            }
          }
        }
        active := ClearLow(active);
      }
    }

    /** The double loop over words and set bits. */
    method FindHighestPendingEnabled(c: nat) returns (bestId: nat)
      requires Shaped(Now()) && c < |contexts|
      ensures bestId == Highest(Now(), c)
    {
      hide Deliverable, And, Has, ClearLow, TrailingZeros;
      bestId := 0;
      var bestPriority := 0;
      var wordCount := (maxSources + 31) / 32;
      for word := 0 to wordCount
        invariant bestId <= maxSources && bestPriority == (if bestId == 0 then 0 else priorities[bestId])
        invariant WordsDone(Now(), c, word, bestId)
      {
        bestId, bestPriority := SearchWord(c, word, bestId, bestPriority);
        WordDone(Now(), c, word, bestId);
      }
      AllWordsDone(Now(), c, bestId);
    }

    method SignalCpuInterrupt(c: nat, level: bool)
      requires Shaped(Now()) && c < |contexts|
      modifies this`harts
      ensures Now() == WithPin(old(Now()), c, level)
    {
      var h := c / 2;
      if h >= 64 {
        return;
      }
      if c % 2 == 1 {
        harts := harts[h := harts[h].(seip := level)];
      } else {
        harts := harts[h := harts[h].(meip := level)];
      }
    }

    method UpdateContext(c: nat)
      requires Shaped(Now()) && c < |contexts|
      modifies this`contexts, this`harts
      ensures Now() == Update(old(Now()), c)
    {
      hide Highest;
      var id := FindHighestPendingEnabled(c);
      var shouldRaise := id != 0;
      if shouldRaise != contexts[c].line {
        contexts := contexts[c := contexts[c].(line := shouldRaise)];
        SignalCpuInterrupt(c, shouldRaise);
      }
    }

    method UpdateAllContexts()
      requires Shaped(Now())
      modifies this`contexts, this`harts
      ensures Now() == UpdateAll(old(Now()))
    {
      hide Update;
      for c := 0 to |contexts|
        invariant Now() == UpdateFirst(old(Now()), c)
      {
        UpdateContext(c);
      }
    }

    /** A device moves its source. */
    method MovePending(id: nat, level: bool)
      requires Good(Now()) && Allowed(Now(), SetPending(id, level))
      modifies this
      ensures Good(Now()) && Now() == React(old(Now()), SetPending(id, level))
    {
      hide UpdateAll, NeverStaleLow, PinFollows;
      ReactGood(Now(), SetPending(id, level));
      if id == 0 || id > maxSources {
        return;
      }
      var w := pendingWords[id / 32];
      pendingWords := pendingWords[id / 32 := if level then Or(w, Place(id % 32)) else And(w, Not(Place(id % 32)))];
      UpdateAllContexts();
    }

    /** Takes the pending bit of the source it returns. */
    method ClaimInterrupt(c: nat) returns (id: nat)
      requires Good(Now()) && c < |contexts|
      modifies this
      ensures Good(Now()) && Now() == React(old(Now()), Claim(c)) && id == Claimed(old(Now()), Claim(c))
    {
      hide Update, NeverStaleLow, PinFollows, Highest;
      ReactGood(Now(), Claim(c));
      HighestInRange(Now(), c);
      id := FindHighestPendingEnabled(c);
      if id != 0 {
        pendingWords := pendingWords[id / 32 := And(pendingWords[id / 32], Not(Place(id % 32)))];
        UpdateContext(c);
      }
    }

    method CompleteInterrupt(c: nat, id: nat)
      requires Good(Now()) && Allowed(Now(), Complete(c, id))
      modifies this
      ensures Good(Now()) && Now() == React(old(Now()), Complete(c, id))
    {
      hide Update, NeverStaleLow, PinFollows;
      ReactGood(Now(), Complete(c, id));
      if id == 0 || id > maxSources {
        return;
      }
      pendingWords := pendingWords[id / 32 := And(pendingWords[id / 32], Not(Place(id % 32)))];
      UpdateContext(c);
    }

    /** A 32-bit write into the register window. */
    method WriteRegister(offset: nat, value: nat)
      requires Good(Now()) && value < 0x1_0000_0000
      requires Decoded(|contexts|, offset, value).Some? ==> Allowed(Now(), Decoded(|contexts|, offset, value).value)
      modifies this
      ensures Good(Now())
      ensures Now() == match Decoded(|old(contexts)|, offset, value)
                       case None => old(Now())
                       case Some(e) => React(old(Now()), e)
    {
      hide React, NeverStaleLow, PinFollows;
      if offset < PRIORITY_END {
        WritePriority(offset / 4, value);
      } else if PRIORITY_END <= offset < PENDING_END {
        // read-only
      } else if ENABLE_BASE <= offset < CONTEXT_BASE {
        var c := (offset - ENABLE_BASE) / 0x80;
        if c < |contexts| {
          WriteEnable(c, (offset - ENABLE_BASE) % 0x80 / 4, WordOf(value));
        }
      } else if CONTEXT_BASE <= offset < CONTEXT_BASE + |contexts| * 0x1000 {
        var c := (offset - CONTEXT_BASE) / 0x1000;
        var sub := (offset - CONTEXT_BASE) % 0x1000;
        if sub == 0 {
          WriteThreshold(c, value);
        } else if sub == 4 {
          CompleteInterrupt(c, value);
        }
      }
    }

    method WritePriority(id: nat, value: nat)
      requires Good(Now())
      modifies this
      ensures Good(Now()) && Now() == React(old(Now()), SetPriority(id, value))
    {
      hide UpdateAll, NeverStaleLow, PinFollows;
      ReactGood(Now(), SetPriority(id, value));
      if 1 <= id <= maxSources {
        priorities := priorities[id := value % PRIORITY_MASK];
        UpdateAllContexts();
      }
    }

    method WriteEnable(c: nat, word: nat, bits: Word32)
      requires Good(Now()) && c < |contexts|
      modifies this
      ensures Good(Now()) && Now() == React(old(Now()), SetEnable(c, word, bits))
    {
      hide Update, NeverStaleLow, PinFollows;
      ReactGood(Now(), SetEnable(c, word, bits));
      if word < |pendingWords| {
        contexts := contexts[c := contexts[c].(enables := contexts[c].enables[word := bits])];
        UpdateContext(c);
      }
    }

    method WriteThreshold(c: nat, value: nat)
      requires Good(Now()) && c < |contexts|
      modifies this
      ensures Good(Now()) && Now() == React(old(Now()), SetThreshold(c, value))
    {
      hide Update, NeverStaleLow, PinFollows;
      ReactGood(Now(), SetThreshold(c, value));
      contexts := contexts[c := contexts[c].(threshold := value % PRIORITY_MASK)];
      UpdateContext(c);
    }

    /** Reading the claim register claims. */
    method ReadClaim(offset: nat) returns (value: nat)
      requires Good(Now()) && CONTEXT_BASE <= offset < CONTEXT_BASE + |contexts| * 0x1000
      requires (offset - CONTEXT_BASE) % 0x1000 == 4
      modifies this
      ensures Good(Now())
      ensures
        var e := Claim((offset - CONTEXT_BASE) / 0x1000);
        value == Claimed(old(Now()), e) && Now() == React(old(Now()), e)
    {
      value := ClaimInterrupt((offset - CONTEXT_BASE) / 0x1000);
    }
  }

  function WordOf(value: nat): Word32
    requires value < 0x1_0000_0000
  {
    W(value as bv32)
  }

  /** What a register write asks for; nothing for read-only or absent registers. */
  function Decoded(contexts: nat, offset: nat, value: nat): Option<Event>
    requires value < 0x1_0000_0000
  {
    if offset < PRIORITY_END then Some(SetPriority(offset / 4, value))
    else if ENABLE_BASE <= offset < CONTEXT_BASE && (offset - ENABLE_BASE) / 0x80 < contexts then
      Some(SetEnable((offset - ENABLE_BASE) / 0x80, (offset - ENABLE_BASE) % 0x80 / 4, WordOf(value)))
    else if CONTEXT_BASE <= offset < CONTEXT_BASE + contexts * 0x1000 then
      var c, sub := (offset - CONTEXT_BASE) / 0x1000, (offset - CONTEXT_BASE) % 0x1000;
      if sub == 0 then Some(SetThreshold(c, value)) else if sub == 4 then Some(Complete(c, value)) else None
    else None
  }

  lemma WordDone(p: State, c: nat, word: nat, r: nat)
    requires Shaped(p) && c < |p.contexts| && BestSeen(p, c, word, ZERO, r)
    ensures WordsDone(p, c, word + 1, r)
  {
    hide Deliverable, Has;
    forall id: nat | Deliverable(p, c, id) && id / 32 < word + 1 ensures Seen(p, c, word, ZERO, id) {
      ZeroHas(id % 32);
    }
  }

  lemma AllWordsDone(p: State, c: nat, r: nat)
    requires Shaped(p) && c < |p.contexts| && WordsDone(p, c, |p.pending|, r)
    ensures r == Highest(p, c)
  {
    hide Has;
    SelectWins(p, c, 32 * |p.pending|, r);
    forall id: nat | Deliverable(p, c, id) ensures id / 32 < |p.pending| {
    }
    hide Deliverable;
  }

  lemma {:induction false} NothingPending(p: State, c: nat, n: nat)
    requires Shaped(p) && c < |p.contexts| && forall w :: w in p.pending ==> w == ZERO
    ensures Select(p, c, n) == 0
  {
    if n > 0 {
      NothingPending(p, c, n - 1);
      ZeroHas((n - 1) % 32);
      if (n - 1) / 32 < |p.pending| { assert p.pending[(n - 1) / 32] in p.pending; }
    }
  }
}
