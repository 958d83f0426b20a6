/** The interrupt controller: pending, enable, priority and threshold state over many contexts. */
module Plic {
  import opened Bits
  import opened Places

  datatype Context = Context(threshold: nat, enables: seq<Word32>, line: bool)

  /** The external-interrupt bits of one hart's `ip`. */
  datatype Pins = Pins(meip: bool, seip: bool)

  datatype State = State(maxSources: nat, priorities: seq<nat>, pending: seq<Word32>,
                         contexts: seq<Context>, harts: seq<Pins>)

  /** Sizes as the constructor sets them up: two contexts a hart, M before S. */
  predicate Shaped(p: State) {
    && |p.priorities| == p.maxSources + 1 && |p.pending| == (p.maxSources + 31) / 32
    && |p.contexts| == 2 * |p.harts|
    && forall c :: 0 <= c < |p.contexts| ==> |p.contexts[c].enables| == |p.pending|
  }

  predicate Flag(words: seq<Word32>, id: nat) { id / 32 < |words| && Has(words[id / 32], id % 32) }

  /** Source `id` may interrupt context `c`. */
  predicate Deliverable(p: State, c: nat, id: nat)
    requires Shaped(p) && c < |p.contexts|
  {
    && 0 < id <= p.maxSources && Flag(p.pending, id) && Flag(p.contexts[c].enables, id)
    && p.priorities[id] > p.contexts[c].threshold
  }

  /** `r` is the lowest of the deliverable sources of greatest priority below `n`; 0 when there is none. */
  ghost predicate Wins(p: State, c: nat, n: nat, r: nat)
    requires Shaped(p) && c < |p.contexts|
  {
    && (r == 0 ==> forall id: nat :: id < n ==> !Deliverable(p, c, id))
    && (r > 0 ==> r < n && Deliverable(p, c, r))
    && (r > 0 ==> forall id: nat :: id < n && Deliverable(p, c, id) ==>
      p.priorities[id] < p.priorities[r] || (p.priorities[id] == p.priorities[r] && r <= id))
  }

  /** The scan of the ids below `n` in order. */
  function Select(p: State, c: nat, n: nat): (r: nat)
    requires Shaped(p) && c < |p.contexts|
    ensures r > 0 ==> r < n && Deliverable(p, c, r)
  {
    if n == 0 then 0
    else
      var best := Select(p, c, n - 1);
      if Deliverable(p, c, n - 1) && (best == 0 || p.priorities[n - 1] > p.priorities[best]) then n - 1 else best
  }

  lemma {:induction false} SelectWins(p: State, c: nat, n: nat, r: nat)
    requires Shaped(p) && c < |p.contexts|
    ensures r == Select(p, c, n) <==> Wins(p, c, n, r)
  {
    hide Deliverable;
    if n > 0 {
      SelectWins(p, c, n - 1, Select(p, c, n - 1));
      NeverZero(p, c);
      assert Wins(p, c, n, Select(p, c, n));
    }
  }

  lemma NeverZero(p: State, c: nat)
    requires Shaped(p) && c < |p.contexts|
    ensures !Deliverable(p, c, 0)
  {
  }

  /** The source a context is owed. */
  function Highest(p: State, c: nat): nat
    requires Shaped(p) && c < |p.contexts|
  {
    Select(p, c, 32 * |p.pending|)
  }

  lemma HighestExists(p: State, c: nat, id: nat)
    requires Shaped(p) && c < |p.contexts| && Deliverable(p, c, id)
    ensures Highest(p, c) > 0
  {
    assert id < 32 * |p.pending|;
    SelectWins(p, c, 32 * |p.pending|, Highest(p, c));
  }

  // ---- transitions ----

  function WithPin(p: State, c: nat, level: bool): State
    requires Shaped(p) && c < |p.contexts|
  {
    var h := c / 2;
    if h >= 64 then p
    else if c % 2 == 1 then p.(harts := p.harts[h := p.harts[h].(seip := level)])
    else p.(harts := p.harts[h := p.harts[h].(meip := level)])
  }

  function Pin(p: State, c: nat): bool
    requires Shaped(p) && c < |p.contexts|
  {
    if c % 2 == 1 then p.harts[c / 2].seip else p.harts[c / 2].meip
  }

  /** `update_context`: the line follows the selection, and the hart's bit follows a change of the line. */
  function Update(p: State, c: nat): (r: State)
    requires Shaped(p) && c < |p.contexts|
    ensures Shaped(r) && |r.contexts| == |p.contexts| && |r.pending| == |p.pending| && r.maxSources == p.maxSources
  {
    var should := Highest(p, c) != 0;
    if should == p.contexts[c].line then p
    else WithPin(p.(contexts := p.contexts[c := p.contexts[c].(line := should)]), c, should)
  }

  /** The first `n` contexts brought up to date. */
  function UpdateFirst(p: State, n: nat): (r: State)
    requires Shaped(p) && n <= |p.contexts|
    ensures Shaped(r) && |r.contexts| == |p.contexts| && |r.pending| == |p.pending| && r.maxSources == p.maxSources
  {
    if n == 0 then p else Update(UpdateFirst(p, n - 1), n - 1)
  }

  function UpdateAll(p: State): (r: State)
    requires Shaped(p)
    ensures Shaped(r) && |r.contexts| == |p.contexts| && |r.pending| == |p.pending| && r.maxSources == p.maxSources
  {
    UpdateFirst(p, |p.contexts|)
  }

  function Flagged(words: seq<Word32>, id: nat, on: bool): (r: seq<Word32>)
    requires id / 32 < |words|
    ensures |r| == |words|
  {
    var w := words[id / 32];
    words[id / 32 := if on then Or(w, Place(id % 32)) else And(w, Not(Place(id % 32)))]
  }

  /** What reaches the controller: a device moving a source, a claim, and register writes. */
  datatype Event =
    | SetPending(id: nat, level: bool)
    | Claim(c: nat)
    | Complete(c: nat, id: nat)
    | SetPriority(id: nat, value: nat)
    | SetEnable(c: nat, word: nat, bits: Word32)
    | SetThreshold(c: nat, value: nat)

  const PRIORITY_MASK := 0x8000_0000

  /** Context and word numbers that exist, and source ids with a pending word. */
  predicate Allowed(p: State, e: Event) {
    match e
    case SetPending(id, _) => id <= p.maxSources ==> id < 32 * |p.pending|
    case Claim(c) => c < |p.contexts|
    case Complete(c, id) => c < |p.contexts| && (id <= p.maxSources ==> id < 32 * |p.pending|)
    case SetPriority(_, _) => true
    case SetEnable(c, word, _) => c < |p.contexts|
    case SetThreshold(c, _) => c < |p.contexts|
  }

  /** The id a claim returns. */
  function Claimed(p: State, e: Event): nat
    requires Shaped(p) && Allowed(p, e)
  {
    if e.Claim? then Highest(p, e.c) else 0
  }

  function React(p: State, e: Event): (r: State)
    requires Shaped(p) && Allowed(p, e)
    ensures Shaped(r) && |r.contexts| == |p.contexts| && |r.pending| == |p.pending| && r.maxSources == p.maxSources
  {
    match e
    case SetPending(id, level) =>
      if id == 0 || id > p.maxSources then p else UpdateAll(p.(pending := Flagged(p.pending, id, level)))
    case Claim(c) =>
      var id := Highest(p, c);
      if id == 0 then p else Update(p.(pending := Flagged(p.pending, id, false)), c)
    case Complete(c, id) =>
      if id == 0 || id > p.maxSources then p else Update(p.(pending := Flagged(p.pending, id, false)), c)
    case SetPriority(id, value) =>
      if id == 0 || id > p.maxSources then p
      else UpdateAll(p.(priorities := p.priorities[id := value % PRIORITY_MASK]))
    case SetEnable(c, word, value) =>
      if word >= |p.pending| then p
      else
        var ctx := p.contexts[c];
        Update(p.(contexts := p.contexts[c := ctx.(enables := ctx.enables[word := value])]), c)
    case SetThreshold(c, value) =>
      Update(p.(contexts := p.contexts[c := p.contexts[c].(threshold := value % PRIORITY_MASK)]), c)
  }

  // ---- what every reachable state keeps ----

  /** No source is owed without the line saying so. */
  predicate NeverStaleLow(p: State, c: nat)
    requires Shaped(p) && c < |p.contexts|
  {
    Highest(p, c) != 0 ==> p.contexts[c].line
  }

  predicate PinFollows(p: State, c: nat)
    requires Shaped(p) && c < |p.contexts|
  {
    c / 2 < 64 ==> Pin(p, c) == p.contexts[c].line
  }

  ghost predicate Good(p: State) {
    Shaped(p) && forall c: nat :: c < |p.contexts| ==> NeverStaleLow(p, c) && PinFollows(p, c)
  }

  /** Two states deliver the same to a context. */
  predicate SameView(p: State, q: State, c: nat)
    requires Shaped(p) && Shaped(q) && c < |p.contexts| && c < |q.contexts|
  {
    && q.maxSources == p.maxSources && q.priorities == p.priorities && q.pending == p.pending
    && q.contexts[c].threshold == p.contexts[c].threshold && q.contexts[c].enables == p.contexts[c].enables
  }

  lemma {:induction false} SameSelect(p: State, q: State, c: nat, n: nat)
    requires Shaped(p) && Shaped(q) && c < |p.contexts| && c < |q.contexts| && SameView(p, q, c)
    ensures Select(q, c, n) == Select(p, c, n)
  {
    hide Flag;
    if n > 0 { SameSelect(p, q, c, n - 1); }
  }

  /** What an update does to each context. */
  lemma UpdateFacts(p: State, c: nat, d: nat)
    requires Shaped(p) && c < |p.contexts| && d < |p.contexts|
    ensures
      var r := Update(p, c);
      SameView(p, r, d) && Highest(r, d) == Highest(p, d)
      && r.contexts[d].line == (if d == c then Highest(p, c) != 0 else p.contexts[d].line)
      && (d != c ==> Pin(r, d) == Pin(p, d))
      && (PinFollows(p, d) ==> PinFollows(r, d))
  {
    hide Highest;
    SameHighest(p, Update(p, c), d);
  }

  lemma SameHighest(p: State, q: State, c: nat)
    requires Shaped(p) && Shaped(q) && c < |p.contexts| && c < |q.contexts| && SameView(p, q, c)
    ensures Highest(q, c) == Highest(p, c)
  {
    hide Select;
    SameSelect(p, q, c, 32 * |p.pending|);
  }

  lemma {:induction false} UpdateFirstFacts(p: State, n: nat, d: nat)
    requires Shaped(p) && n <= |p.contexts| && d < |p.contexts|
    ensures
      var r := UpdateFirst(p, n);
      SameView(p, r, d) && Highest(r, d) == Highest(p, d)
      && r.contexts[d].line == (if d < n then Highest(p, d) != 0 else p.contexts[d].line)
      && (PinFollows(p, d) ==> PinFollows(r, d))
    decreases n
  {
    hide Highest, Update, Pin, PinFollows;
    if n > 0 {
      UpdateFirstFacts(p, n - 1, d);
      UpdateFacts(UpdateFirst(p, n - 1), n - 1, d);
    }
  }

  /** After a device moved a source or a priority changed, every line is exact. */
  lemma UpdateAllExact(p: State, d: nat)
    requires Shaped(p) && d < |p.contexts|
    ensures UpdateAll(p).contexts[d].line <==> Highest(UpdateAll(p), d) != 0
    ensures PinFollows(p, d) ==> PinFollows(UpdateAll(p), d)
  {
    hide Highest, Update, PinFollows, UpdateFirst;
    UpdateFirstFacts(p, |p.contexts|, d);
  }

  lemma FlaggedAt(words: seq<Word32>, id: nat, on: bool, j: nat)
    requires id / 32 < |words|
    ensures Flag(Flagged(words, id, on), j) <==> if j == id then on else Flag(words, j)
  {
    hide And, Or, Not, Place, Has;
    if j / 32 == id / 32 {
      HasSet(words[id / 32], id % 32, j % 32);
      HasCleared(words[id / 32], id % 32, j % 32);
      SameId(id, j);
    }
  }

  lemma SameId(i: nat, j: nat)
    requires i / 32 == j / 32
    ensures i % 32 == j % 32 <==> i == j
  {
  }

  /** Taking a source away owes nobody anything new. */
  lemma ClearedOwesLess(p: State, id: nat, d: nat)
    requires Shaped(p) && id / 32 < |p.pending| && d < |p.contexts|
    ensures
      var q := p.(pending := Flagged(p.pending, id, false));
      Highest(q, d) != 0 ==> Highest(p, d) != 0
  {
    hide Flag, Flagged, Select;
    var q := p.(pending := Flagged(p.pending, id, false));
    var r := Highest(q, d);
    if r != 0 {
      FlaggedAt(p.pending, id, false, r);
      SelectWins(q, d, 32 * |q.pending|, r);
      assert Deliverable(q, d, r);
      HighestExists(p, d, r);
    }
  }

  /** Changing one context's own registers and updating it. */
  lemma OwnChange(p: State, q: State, c: nat)
    requires Good(p) && Shaped(q) && |q.contexts| == |p.contexts| && |q.pending| == |p.pending| && c < |p.contexts|
    requires q.harts == p.harts && forall d: nat :: d < |p.contexts| ==> q.contexts[d].line == p.contexts[d].line
    requires forall d: nat :: d < |p.contexts| && d != c ==> (Highest(q, d) != 0 ==> Highest(p, d) != 0)
    ensures Good(Update(q, c))
  {
    hide Highest, Update;
    forall d: nat | d < |p.contexts| ensures NeverStaleLow(Update(q, c), d) && PinFollows(Update(q, c), d) {
      assert NeverStaleLow(p, d) && PinFollows(p, d);
      UpdateFacts(q, c, d);
    }
  }

  lemma AllChange(p: State, q: State)
    requires Good(p) && Shaped(q) && |q.contexts| == |p.contexts| && q.harts == p.harts
    requires forall d: nat :: d < |p.contexts| ==> q.contexts[d].line == p.contexts[d].line
    ensures Good(UpdateAll(q))
  {
    hide Highest, UpdateAll;
    forall d: nat | d < |p.contexts| ensures NeverStaleLow(UpdateAll(q), d) && PinFollows(UpdateAll(q), d) {
      assert PinFollows(p, d);
      UpdateAllExact(q, d);
    }
  }

  /** Every event keeps it: a deliverable source has its line high, and each hart's external
      interrupt bits equal its context lines. */
  lemma ReactGood(p: State, e: Event)
    requires Good(p) && Allowed(p, e)
    ensures Good(React(p, e))
  {
    hide Highest, Update, UpdateAll, Flagged, NeverStaleLow, PinFollows;
    match e
    case SetPending(id, level) =>
      if 0 < id <= p.maxSources { AllChange(p, p.(pending := Flagged(p.pending, id, level))); }
    case SetPriority(id, value) =>
      if 0 < id <= p.maxSources { AllChange(p, p.(priorities := p.priorities[id := value % PRIORITY_MASK])); }
    case Claim(c) =>
      var id := Highest(p, c);
      if id != 0 {
        HighestInRange(p, c);
        Taken(p, c, id);
      }
    case Complete(c, id) =>
      if 0 < id <= p.maxSources { Taken(p, c, id); }
    case SetEnable(c, word, value) =>
      if word < |p.pending| {
        var ctx := p.contexts[c];
        Rewritten(p, c, ctx.(enables := ctx.enables[word := value]));
      }
    case SetThreshold(c, value) =>
      Rewritten(p, c, p.contexts[c].(threshold := value % PRIORITY_MASK));
  }

  lemma HighestInRange(p: State, c: nat)
    requires Shaped(p) && c < |p.contexts|
    ensures Highest(p, c) != 0 ==> Deliverable(p, c, Highest(p, c)) && Highest(p, c) / 32 < |p.pending|
  {
    hide Select;
  }

  lemma Taken(p: State, c: nat, id: nat)
    requires Good(p) && c < |p.contexts| && id / 32 < |p.pending|
    ensures Good(Update(p.(pending := Flagged(p.pending, id, false)), c))
  {
    hide Highest, Update, Flagged, NeverStaleLow, PinFollows;
    var q := p.(pending := Flagged(p.pending, id, false));
    forall d: nat | d < |p.contexts| && d != c ensures Highest(q, d) != 0 ==> Highest(p, d) != 0 {
      ClearedOwesLess(p, id, d);
    }
    OwnChange(p, q, c);
  }

  lemma Rewritten(p: State, c: nat, ctx: Context)
    requires Good(p) && c < |p.contexts| && |ctx.enables| == |p.pending| && ctx.line == p.contexts[c].line
    ensures Good(Update(p.(contexts := p.contexts[c := ctx]), c))
  {
    hide Highest, Update, NeverStaleLow, PinFollows;
    var q := p.(contexts := p.contexts[c := ctx]);
    forall d: nat | d < |p.contexts| && d != c ensures Highest(q, d) != 0 ==> Highest(p, d) != 0 {
      SameHighest(p, q, d);
    }
    OwnChange(p, q, c);
  }

  /** A claim leaves its own line exact. */
  lemma ClaimExact(p: State, c: nat)
    requires Good(p) && c < |p.contexts|
    ensures Highest(p, c) != 0 ==>
      (React(p, Claim(c)).contexts[c].line <==> Highest(React(p, Claim(c)), c) != 0)
  {
    hide Highest, Update, Flagged;
    if Highest(p, c) != 0 {
      HighestInRange(p, c);
      UpdateFacts(p.(pending := Flagged(p.pending, Highest(p, c), false)), c, c);
    }
  }

  /** A claim takes the pending bit of the source it returns and of no other, and changes no
      priority, enable or threshold. */
  lemma ClaimTakes(p: State, c: nat, j: nat, d: nat)
    requires Shaped(p) && c < |p.contexts| && d < |p.contexts|
    ensures
      var q := React(p, Claim(c));
      (Flag(q.pending, j) <==> Flag(p.pending, j) && (j == 0 || j != Highest(p, c)))
      && q.priorities == p.priorities && q.contexts[d].enables == p.contexts[d].enables
      && q.contexts[d].threshold == p.contexts[d].threshold
  {
    hide Highest, Update, Flagged, Flag;
    HighestInRange(p, c);
    var id := Highest(p, c);
    if id != 0 {
      UpdateFacts(p.(pending := Flagged(p.pending, id, false)), c, d);
      FlaggedAt(p.pending, id, false, j);
    }
  }

  /** A line that is high with nothing owed. */
  predicate Stale(p: State, d: nat)
    requires Shaped(p) && d < |p.contexts|
  {
    p.contexts[d].line && Highest(p, d) == 0
  }

  /** `id` is the only source `d` could be owed. */
  ghost predicate OnlyOwed(p: State, d: nat, id: nat)
    requires Shaped(p) && d < |p.contexts|
  {
    forall j: nat :: Deliverable(p, d, j) ==> j == id
  }

  /** Clearing a source's bit and updating `c` alone leaves the line of another context stale
      exactly when it was high and nothing else was owed. */
  lemma TakenStale(p: State, c: nat, id: nat, d: nat)
    requires Shaped(p) && id / 32 < |p.pending| && c < |p.contexts| && d < |p.contexts| && c != d
    ensures Stale(Update(p.(pending := Flagged(p.pending, id, false)), c), d) <==> p.contexts[d].line && OnlyOwed(p, d, id)
  {
    hide Highest, Update, Flagged, Flag;
    var q := p.(pending := Flagged(p.pending, id, false));
    UpdateFacts(q, c, d);
    forall j: nat ensures Deliverable(q, d, j) <==> Deliverable(p, d, j) && j != id {
      FlaggedAt(p.pending, id, false, j);
    }
    hide Deliverable;
    if Highest(q, d) != 0 {
      HighestInRange(q, d);
    } else {
      forall j: nat | Deliverable(p, d, j) ensures j == id {
        if j != id { HighestExists(q, d, j); }
      }
    }
  }

  lemma NothingOwed(p: State, d: nat)
    requires Shaped(p) && d < |p.contexts|
    ensures OnlyOwed(p, d, 0) <==> Highest(p, d) == 0
    ensures forall id: nat :: id > p.maxSources ==> (OnlyOwed(p, d, id) <==> Highest(p, d) == 0)
  {
    hide Highest, Flag;
    HighestInRange(p, d);
    if Highest(p, d) == 0 {
      forall j: nat ensures !Deliverable(p, d, j) {
        if Deliverable(p, d, j) { HighestExists(p, d, j); }
      }
    }
  }

  /** After a claim through `c`, the line of any other context is stale exactly when it was high
      and owed nothing but the source claimed. */
  lemma ClaimStale(p: State, c: nat, d: nat)
    requires Shaped(p) && c < |p.contexts| && d < |p.contexts| && c != d
    ensures Stale(React(p, Claim(c)), d) <==> p.contexts[d].line && OnlyOwed(p, d, Highest(p, c))
  {
    hide Highest, Update, Flagged, OnlyOwed;
    HighestInRange(p, c);
    if Highest(p, c) != 0 {
      hide Stale;
      TakenStale(p, c, Highest(p, c), d);
    } else {
      NothingOwed(p, d);
    }
  }

  /** The same of a completion, for the source completed. */
  lemma CompleteStale(p: State, c: nat, id: nat, d: nat)
    requires Shaped(p) && Allowed(p, Complete(c, id)) && d < |p.contexts| && c != d
    ensures Stale(React(p, Complete(c, id)), d) <==> p.contexts[d].line && OnlyOwed(p, d, id)
  {
    hide Highest, Update, Flagged, OnlyOwed;
    if 0 < id <= p.maxSources {
      hide Stale;
      TakenStale(p, c, id, d);
    } else {
      NothingOwed(p, d);
    }
  }

  /** Every line says exactly whether its context is owed something. */
  ghost predicate LinesExact(p: State)
    requires Shaped(p)
  {
    forall d: nat :: d < |p.contexts| ==> (p.contexts[d].line <==> Highest(p, d) != 0)
  }

  /** The event takes, through another context, all that `d` is owed. */
  ghost predicate Strands(p: State, e: Event, d: nat)
    requires Shaped(p) && Allowed(p, e) && d < |p.contexts|
  {
    && Highest(p, d) != 0
    && match e
       case Claim(c) => c != d && OnlyOwed(p, d, Highest(p, c))
       case Complete(c, id) => c != d && OnlyOwed(p, d, id)
       case _ => false
  }

  /** Exact lines stay exact through an event unless it strands some context: only claims and
      completions do, and only those. */
  lemma LinesExactly(p: State, e: Event)
    requires Good(p) && Allowed(p, e) && LinesExact(p)
    ensures LinesExact(React(p, e)) <==> forall d: nat :: d < |p.contexts| ==> !Strands(p, e, d)
  {
    hide Highest, Update, UpdateAll, Flagged, OnlyOwed, PinFollows, React, Strands;
    ReactGood(p, e);
    forall d: nat | d < |p.contexts|
      ensures (React(p, e).contexts[d].line <==> Highest(React(p, e), d) != 0) <==> !Strands(p, e, d)
    {
      assert NeverStaleLow(React(p, e), d);
      OneLine(p, e, d);
    }
  }

  lemma OneLine(p: State, e: Event, d: nat)
    requires Good(p) && Allowed(p, e) && LinesExact(p) && d < |p.contexts| && NeverStaleLow(React(p, e), d)
    ensures Stale(React(p, e), d) <==> Strands(p, e, d)
  {
    hide Highest, Update, UpdateAll, Flagged, OnlyOwed, PinFollows;
    match e
    case SetPending(id, level) =>
      if 0 < id <= p.maxSources { UpdateAllExact(p.(pending := Flagged(p.pending, id, level)), d); }
    case SetPriority(id, value) =>
      if 0 < id <= p.maxSources { UpdateAllExact(p.(priorities := p.priorities[id := value % PRIORITY_MASK]), d); }
    case Claim(c) =>
      if c != d { ClaimStale(p, c, d); } else { ClaimExact(p, c); }
      NothingOwed(p, d);
    case Complete(c, id) =>
      if c != d {
        CompleteStale(p, c, id, d);
      } else if 0 < id <= p.maxSources {
        UpdateFacts(p.(pending := Flagged(p.pending, id, false)), c, d);
      }
      NothingOwed(p, d);
    case SetEnable(c, word, value) =>
      if word < |p.pending| {
        var ctx := p.contexts[c];
        RewrittenExact(p, c, ctx.(enables := ctx.enables[word := value]), d);
      }
    case SetThreshold(c, value) =>
      RewrittenExact(p, c, p.contexts[c].(threshold := value % PRIORITY_MASK), d);
  }

  lemma RewrittenExact(p: State, c: nat, ctx: Context, d: nat)
    requires Shaped(p) && LinesExact(p) && c < |p.contexts| && d < |p.contexts|
    requires |ctx.enables| == |p.pending| && ctx.line == p.contexts[c].line
    ensures !Stale(Update(p.(contexts := p.contexts[c := ctx]), c), d)
  {
    hide Highest, Update;
    var q := p.(contexts := p.contexts[c := ctx]);
    UpdateFacts(q, c, d);
    if d != c { SameHighest(p, q, d); }
  }

  // ---- claims against raises ----

  /** All of a run's events may happen when their turn comes. */
  predicate Runs(p: State, es: seq<Event>)
    requires Shaped(p)
    decreases |es|
  {
    es == [] || (Allowed(p, es[0]) && Runs(React(p, es[0]), es[1..]))
  }

  function After(p: State, es: seq<Event>): (r: State)
    requires Shaped(p) && Runs(p, es)
    ensures Shaped(r)
    decreases |es|
  {
    if es == [] then p else After(React(p, es[0]), es[1..])
  }

  function Claims(p: State, es: seq<Event>, id: nat): nat
    requires Shaped(p) && Runs(p, es)
    decreases |es|
  {
    if es == [] then 0
    else (if Claimed(p, es[0]) == id then 1 else 0) + Claims(React(p, es[0]), es[1..], id)
  }

  function Raises(es: seq<Event>, id: nat): nat {
    if es == [] then 0 else (if es[0] == SetPending(id, true) then 1 else 0) + Raises(es[1..], id)
  }

  function Count(b: bool): nat { if b then 1 else 0 }

  lemma {:induction false} RunGood(p: State, es: seq<Event>)
    requires Good(p) && Runs(p, es)
    ensures Good(After(p, es))
    decreases |es|
  {
    hide React, Allowed, NeverStaleLow, PinFollows;
    if es != [] {
      ReactGood(p, es[0]);
      RunGood(React(p, es[0]), es[1..]);
    }
  }

  lemma UpdateKeepsPending(p: State, c: nat)
    requires Shaped(p) && c < |p.contexts|
    ensures Update(p, c).pending == p.pending
  {
    hide Highest;
  }

  lemma {:induction false} UpdateAllKeepsPending(p: State, n: nat)
    requires Shaped(p) && n <= |p.contexts|
    ensures UpdateFirst(p, n).pending == p.pending
  {
    hide Update;
    if n > 0 {
      UpdateAllKeepsPending(p, n - 1);
      UpdateKeepsPending(UpdateFirst(p, n - 1), n - 1);
    }
  }

  /** A completion or a device lowering of the source clears its bit. */
  predicate Clears(p: State, e: Event, id: nat) {
    0 < id <= p.maxSources && ((e.Complete? && e.id == id) || e == SetPending(id, false))
  }

  /** It hits a set bit: that interrupt is lost. */
  predicate Drops(p: State, e: Event, id: nat) { Clears(p, e, id) && Flag(p.pending, id) }

  predicate FreshRaise(p: State, e: Event, id: nat) {
    0 < id <= p.maxSources && e == SetPending(id, true) && !Flag(p.pending, id)
  }

  /** One event: what was pending or newly raised is claimed, dropped or still pending. */
  lemma ReactCounts(p: State, e: Event, id: nat)
    requires Shaped(p) && Allowed(p, e) && id > 0
    ensures Count(Claimed(p, e) == id) + Count(Drops(p, e, id)) + Count(Flag(React(p, e).pending, id))
      == Count(Flag(p.pending, id)) + Count(FreshRaise(p, e, id))
  {
    hide Highest, Update, UpdateAll, Flagged, Flag;
    match e
    case SetPending(s, level) =>
      if 0 < s <= p.maxSources {
        var q := p.(pending := Flagged(p.pending, s, level));
        AllPending(q);
        FlaggedAt(p.pending, s, level, id);
      }
    case SetPriority(s, value) =>
      if 0 < s <= p.maxSources { AllPending(p.(priorities := p.priorities[s := value % PRIORITY_MASK])); }
    case Claim(c) =>
      HighestInRange(p, c);
      var s := Highest(p, c);
      if s != 0 {
        UpdateKeepsPending(p.(pending := Flagged(p.pending, s, false)), c);
        FlaggedAt(p.pending, s, false, id);
      }
    case Complete(c, s) =>
      if 0 < s <= p.maxSources {
        UpdateKeepsPending(p.(pending := Flagged(p.pending, s, false)), c);
        FlaggedAt(p.pending, s, false, id);
      }
    case SetEnable(c, word, value) =>
      if word < |p.pending| {
        var ctx := p.contexts[c];
        UpdateKeepsPending(p.(contexts := p.contexts[c := ctx.(enables := ctx.enables[word := value])]), c);
      }
    case SetThreshold(c, value) =>
      UpdateKeepsPending(p.(contexts := p.contexts[c := p.contexts[c].(threshold := value % PRIORITY_MASK)]), c);
  }

  lemma AllPending(p: State)
    requires Shaped(p)
    ensures UpdateAll(p).pending == p.pending
  {
    hide UpdateFirst;
    UpdateAllKeepsPending(p, |p.contexts|);
  }

  function Dropped(p: State, es: seq<Event>, id: nat): nat
    requires Shaped(p) && Runs(p, es)
    decreases |es|
  {
    if es == [] then 0 else Count(Drops(p, es[0], id)) + Dropped(React(p, es[0]), es[1..], id)
  }

  function FreshRaises(p: State, es: seq<Event>, id: nat): nat
    requires Shaped(p) && Runs(p, es)
    decreases |es|
  {
    if es == [] then 0 else Count(FreshRaise(p, es[0], id)) + FreshRaises(React(p, es[0]), es[1..], id)
  }

  /** Over any run and all contexts together: the raises of a clear bit, and a pending start, are the
      claims, the drops and what is pending at the end. */
  lemma {:induction false} RaisesAccounted(p: State, es: seq<Event>, id: nat)
    requires Shaped(p) && Runs(p, es) && id > 0
    ensures Claims(p, es, id) + Dropped(p, es, id) + Count(Flag(After(p, es).pending, id))
      == FreshRaises(p, es, id) + Count(Flag(p.pending, id))
    decreases |es|
  {
    hide React, Allowed, Claimed, Flag, Drops, FreshRaise;
    if es != [] {
      ReactCounts(p, es[0], id);
      RaisesAccounted(React(p, es[0]), es[1..], id);
    }
  }

  lemma {:induction false} FreshAmongRaises(p: State, es: seq<Event>, id: nat)
    requires Shaped(p) && Runs(p, es)
    ensures FreshRaises(p, es, id) <= Raises(es, id)
    decreases |es|
  {
    hide React, Allowed, Flag;
    if es != [] { FreshAmongRaises(React(p, es[0]), es[1..], id); }
  }

  /** So no source is claimed more often than it was raised, a pending start counting as one raise. */
  lemma ClaimsBounded(p: State, es: seq<Event>, id: nat)
    requires Shaped(p) && Runs(p, es) && id > 0
    ensures Claims(p, es, id) + Count(Flag(After(p, es).pending, id)) <= Raises(es, id) + Count(Flag(p.pending, id))
  {
    hide Claims, Dropped, FreshRaises, Flag;
    RaisesAccounted(p, es, id);
    FreshAmongRaises(p, es, id);
  }

  // ---- which raises are lost ----

  /** The source's bit stays set until a claim takes it or the run ends. */
  predicate Survives(p: State, es: seq<Event>, id: nat)
    requires Shaped(p) && Runs(p, es)
    decreases |es|
  {
    && Flag(p.pending, id)
    && (es == [] || Claimed(p, es[0]) == id || Survives(React(p, es[0]), es[1..], id))
  }

  /** A completion or lowering of the source comes before every claim that returns it. */
  predicate ClearedFirst(p: State, es: seq<Event>, id: nat)
    requires Shaped(p) && Runs(p, es)
    decreases |es|
  {
    && es != [] && Claimed(p, es[0]) != id
    && (Clears(p, es[0], id) || ClearedFirst(React(p, es[0]), es[1..], id))
  }

  /** A raised source is claimed or still pending at the end exactly when nothing clears it before
      a claim returns it. */
  lemma {:induction false} SurvivesExactly(p: State, es: seq<Event>, id: nat)
    requires Shaped(p) && Runs(p, es) && id > 0 && Flag(p.pending, id)
    ensures Survives(p, es, id) <==> !ClearedFirst(p, es, id)
    decreases |es|
  {
    hide React, Allowed, Claimed, Flag, Clears;
    if es != [] {
      ReactCounts(p, es[0], id);
      if Flag(React(p, es[0]).pending, id) { SurvivesExactly(React(p, es[0]), es[1..], id); }
    }
  }

  /** A source raised again between its claim and its completion. */
  function Relapse(c: nat, id: nat): seq<Event> { [Claim(c)] + ([SetPending(id, true)] + ([Complete(c, id)] + [])) }

  lemma OneStep(p: State, e: Event, es: seq<Event>, id: nat)
    requires Shaped(p) && Allowed(p, e) && Runs(React(p, e), es)
    ensures Runs(p, [e] + es)
    ensures After(p, [e] + es) == After(React(p, e), es)
    ensures Claims(p, [e] + es, id) == Count(Claimed(p, e) == id) + Claims(React(p, e), es, id)
    ensures Dropped(p, [e] + es, id) == Count(Drops(p, e, id)) + Dropped(React(p, e), es, id)
    ensures ClearedFirst(p, [e] + es, id) <==>
      Claimed(p, e) != id && (Clears(p, e, id) || ClearedFirst(React(p, e), es, id))
  {
    hide React, Allowed, Claimed, Clears, Drops;
    assert ([e] + es)[1..] == es;
  }

  /** For every controller and every owed source that second raise is lost: claimed once, nothing
      pending at the end. */
  lemma RaiseLost(p: State, c: nat)
    requires Shaped(p) && c < |p.contexts| && Highest(p, c) != 0
    ensures Runs(p, Relapse(c, Highest(p, c)))
    ensures Claims(p, Relapse(c, Highest(p, c)), Highest(p, c)) == 1
    ensures Dropped(p, Relapse(c, Highest(p, c)), Highest(p, c)) == 1
    ensures !Flag(After(p, Relapse(c, Highest(p, c))).pending, Highest(p, c))
  {
    hide Highest, Flag, React, Runs, After, Claims, Dropped, Deliverable;
    var id := Highest(p, c);
    InRange(p, c);
    var p1 := React(p, Claim(c));
    var p2 := React(p1, SetPending(id, true));
    ReactCounts(p, Claim(c), id);
    ReactCounts(p1, SetPending(id, true), id);
    ReactCounts(p2, Complete(c, id), id);
    Ended(React(p2, Complete(c, id)), id);
    OneStep(p2, Complete(c, id), [], id);
    OneStep(p1, SetPending(id, true), [Complete(c, id)] + [], id);
    OneStep(p, Claim(c), [SetPending(id, true)] + ([Complete(c, id)] + []), id);
  }

  lemma InRange(p: State, c: nat)
    requires Shaped(p) && c < |p.contexts|
    ensures Highest(p, c) != 0 ==>
      Highest(p, c) <= p.maxSources && Highest(p, c) < 32 * |p.pending| && Flag(p.pending, Highest(p, c))
  {
    hide Select;
    HighestInRange(p, c);
  }

  lemma Ended(p: State, id: nat)
    requires Shaped(p)
    ensures Runs(p, []) && After(p, []) == p && Claims(p, [], id) == 0 && Dropped(p, [], id) == 0
    ensures !ClearedFirst(p, [], id)
  {
  }
}
