/** When a block starts, and that its end publishes it. */
module Progress {
  import opened Wrappers
  import opened Recorder
  import G = Guest

  /** An instruction the recorder looks at: in RAM, with no cached function under its index, not ignored. */
  predicate Looked(s: State, e: Executed) {
    e.pc >= 0x8000_0000 && e.pc / 4 % 0x10_0000 !in s.jits && e.pc / 2 !in s.ignored
  }

  /** It cannot go on with the block: no conversion, 48 recorded, or not the next address. */
  predicate Ends(s: State, e: Executed)
    requires s.recorded != []
  {
    e.inst.None? || |s.recorded| >= 48 || e.pc != s.recorded[0].pc + Total(s.recorded)
  }

  /** The instruction that ends a block publishes it: its code is cached under the index of its first pc, made from
      just what was recorded; every other cached function stays, and the instruction itself is not recorded. */
  lemma EndPublishes(s: State, run: seq<Executed>, e: Executed)
    requires Good(s, run) && s.building && Looked(s, e)
    requires s.recorded != [] && Ends(s, e)
    ensures
      var t, k := Handle(s, e), s.recorded[0].pc / 4 % 0x10_0000;
      && !t.building && k in t.jits && t.jits[k].source == s.recorded
      && t.jits[k].f.pc == s.recorded[0].pc && t.jits[k].f.instSize == Total(s.recorded)
      && t.jits[k].f.code == CodeOf(s.recorded)
      && (forall j :: j in s.jits && j != k ==> j in t.jits && t.jits[j] == s.jits[j])
      && t.ignored == s.ignored + {e.pc / 2} && t.hits == s.hits
  {
    hide CodeOf, Published, Recording, PushFunction;
  }

  /** Any other instruction looked at while recording becomes the last of the block. */
  lemma NextRecorded(s: State, run: seq<Executed>, e: Executed)
    requires Good(s, run) && s.building && Looked(s, e)
    requires s.recorded != [] && !Ends(s, e)
    ensures Handle(s, e) == s.(recorded := s.recorded + [e], ignored := s.ignored + {e.pc / 2})
  {
    hide CodeOf, Published, Recording;
  }

  /** An instruction not looked at changes nothing. */
  lemma Overlooked(s: State, e: Executed)
    requires s.arenas != [] && (s.building ==> Recording(s.recorded)) && !Looked(s, e)
    ensures Handle(s, e) == s
  {
    hide Recording, Finish;
  }

  // ---- when the first block starts ----

  /** How often an instruction at this address was executed. */
  function Executions(run: seq<Executed>, key: nat): nat {
    if run == [] then 0
    else
      var e := run[|run| - 1];
      Executions(run[..|run| - 1], key) + if e.pc >= 0x8000_0000 && e.pc / 2 == key then 1 else 0
  }

  /** The last instruction of the run is convertible and executed for the 101st time. */
  predicate Ripe(run: seq<Executed>) {
    && run != []
    && var e := run[|run| - 1];
    e.pc >= 0x8000_0000 && e.inst.Some? && Executions(run, e.pc / 2) == 101
  }

  predicate NeverRipe(run: seq<Executed>)
    decreases |run|
  {
    run == [] || (!Ripe(run) && NeverRipe(run[..|run| - 1]))
  }

  /** Nothing is cached or being recorded; addresses are counted until they are ignored, past 100. */
  ghost predicate Counting(s: State, run: seq<Executed>) {
    && !s.building && s.jits == map[] && s.arenas == [[]]
    && (forall key: nat :: key in s.ignored ==> Executions(run, key) > 100)
    && (forall key: nat :: key !in s.ignored ==>
         Executions(run, key) <= 100 && (if key in s.hits then s.hits[key] else 0) == Executions(run, key))
  }

  /** One more instruction while nothing is recorded: it starts a block exactly when that makes it ripe. */
  lemma CountOne(s: State, run: seq<Executed>, e: Executed)
    requires Counting(s, run)
    ensures Handle(s, e).building <==> Ripe(run + [e])
    ensures Ripe(run + [e]) ==>
      Handle(s, e).recorded == [e] && Handle(s, e).jits == map[] && Handle(s, e).ignored == s.ignored + {e.pc / 2}
    ensures !Ripe(run + [e]) ==> Counting(Handle(s, e), run + [e])
  {
    assert (run + [e])[..|run|] == run;
    forall key: nat
      ensures Executions(run + [e], key) == Executions(run, key) + if e.pc >= 0x8000_0000 && e.pc / 2 == key then 1 else 0
    {
    }
  }

  ghost predicate AllDecoded(run: seq<Executed>) { forall e <- run :: e.inst.Some? ==> G.Decoded(e.inst.value) }

  lemma {:induction false} QuietRun(run: seq<Executed>, stops: set<nat>)
    requires AllDecoded(run) && NeverRipe(run)
    ensures Counting(Run(run, stops), run)
    decreases |run|
  {
    hide Handle, Executions, G.Decoded;
    if run == [] {
      NothingYet();
    } else {
      var n := |run| - 1;
      QuietRun(run[..n], stops);
      RunLast(run[..n], run[n], stops);
      assert run[..n] + [run[n]] == run;
      CountOne(Run(run[..n], stops), run[..n], run[n]);
    }
  }

  lemma NothingYet()
    ensures Counting(Init(), [])
  {
  }

  lemma RunLast(run: seq<Executed>, e: Executed, stops: set<nat>)
    requires AllDecoded(run + [e])
    ensures AllDecoded(run)
    ensures var s := Handle(Run(run, stops), e);
      Run(run + [e], stops) == if |run| in stops then Abandon(s) else s
  {
    hide Handle, Good, G.Decoded;
    forall x | x in run ensures x.inst.Some? ==> G.Decoded(x.inst.value) { assert x in run + [e]; }
    assert (run + [e])[..|run|] == run;
  }

  /** From the start, whatever is executed and wherever blocks are abandoned: no block starts before a convertible
      instruction is executed for the 101st time, and the first that is starts a block holding just it. */
  lemma FirstBlock(run: seq<Executed>, e: Executed, stops: set<nat>)
    requires AllDecoded(run + [e]) && NeverRipe(run)
    ensures AllDecoded(run) && !Run(run, stops).building && Run(run, stops).jits == map[]
    ensures Handle(Run(run, stops), e).building <==> Ripe(run + [e])
    ensures Ripe(run + [e]) ==> Handle(Run(run, stops), e).recorded == [e]
  {
    hide Handle, Run, G.Decoded;
    forall x | x in run ensures x.inst.Some? ==> G.Decoded(x.inst.value) { assert x in run + [e]; }
    QuietRun(run, stops);
    CountOne(Run(run, stops), run, e);
  }

  // ---- a loop gets cached ----

  /** Two instructions executed in turn, `n` times each. */
  function Loop(a: Executed, b: Executed, n: nat): seq<Executed> { if n == 0 then [] else Loop(a, b, n - 1) + [a] + [b] }

  lemma ExecutionsLast(run: seq<Executed>, e: Executed, key: nat)
    ensures Executions(run + [e], key) == Executions(run, key) + if e.pc >= 0x8000_0000 && e.pc / 2 == key then 1 else 0
  {
    assert (run + [e])[..|run|] == run;
  }

  lemma {:induction false} LoopQuiet(a: Executed, b: Executed, n: nat)
    requires a.pc >= 0x8000_0000 && b.pc >= 0x8000_0000 && a.pc / 2 != b.pc / 2 && n <= 100
    ensures Executions(Loop(a, b, n), a.pc / 2) == n && Executions(Loop(a, b, n), b.pc / 2) == n
    ensures NeverRipe(Loop(a, b, n)) && (forall e <- Loop(a, b, n) :: e == a || e == b)
  {
    hide Executions;
    if n == 0 {
      NoExecutions(a.pc / 2);
      NoExecutions(b.pc / 2);
    } else {
      var run := Loop(a, b, n - 1);
      LoopQuiet(a, b, n - 1);
      ExecutionsLast(run, a, a.pc / 2);
      ExecutionsLast(run, a, b.pc / 2);
      ExecutionsLast(run + [a], b, a.pc / 2);
      ExecutionsLast(run + [a], b, b.pc / 2);
      assert (run + [a])[..|run|] == run;
      assert (run + [a] + [b])[..|run + [a]|] == run + [a];
    }
  }

  lemma NoExecutions(key: nat)
    ensures Executions([], key) == 0
  {
  }

  lemma LoopDecoded(a: Executed, b: Executed)
    requires a.inst.Some? && G.Decoded(a.inst.value) && b.inst.None?
    requires forall e <- Loop(a, b, 100) :: e == a || e == b
    ensures AllDecoded(Loop(a, b, 100) + [a]) && AllDecoded(Loop(a, b, 100) + [a] + [b])
    ensures AllDecoded(Loop(a, b, 101)) && Loop(a, b, 101) == Loop(a, b, 100) + [a] + [b]
  {
    hide G.Decoded;
    LoopLast(a, b, 101);
    hide Loop;
  }

  /** After a hundred rounds the next execution of `a` starts a block, and `b` is still looked at. */
  lemma LoopStarts(a: Executed, b: Executed)
    requires a.pc >= 0x8000_0000 && b.pc >= 0x8000_0000 && a.pc / 2 != b.pc / 2
    requires a.inst.Some? && G.Decoded(a.inst.value) && AllDecoded(Loop(a, b, 100) + [a])
    ensures var s := Run(Loop(a, b, 100) + [a], {});
      s.building && s.recorded == [a] && Looked(s, b)
  {
    hide Handle, Run, G.Decoded, Executions, Loop, Good, NeverRipe, Counting, Looked;
    var run := Loop(a, b, 100);
    LoopQuiet(a, b, 100);
    ExecutionsLast(run, a, a.pc / 2);
    assert Ripe(run + [a]) by { assert (run + [a])[|run|] == a; }
    RunLast(run, a, {});
    QuietRun(run, {});
    CountOne(Run(run, {}), run, a);
    StillLooked(Run(run, {}), Run(run + [a], {}), run, a, b);
  }

  /** At work: a loop of one convertible instruction and a branch back has the instruction's function cached after
      101 rounds, under the index of its pc. */
  lemma LoopCached(a: Executed, b: Executed)
    requires a.pc >= 0x8000_0000 && b.pc >= 0x8000_0000 && a.pc / 2 != b.pc / 2
    requires a.inst.Some? && G.Decoded(a.inst.value) && b.inst.None?
    ensures AllDecoded(Loop(a, b, 101))
    ensures var s, k := Run(Loop(a, b, 101), {}), a.pc / 4 % 0x10_0000;
      k in s.jits && s.jits[k].f.pc == a.pc && s.jits[k].source == [a]
  {
    hide Handle, Run, G.Decoded, Executions, Loop, Good, NeverRipe, Counting, Looked;
    LoopQuiet(a, b, 100);
    LoopDecoded(a, b);
    LoopStarts(a, b);
    var run := Loop(a, b, 100) + [a];
    RunLast(run, b, {});
    RunIsGood(run);
    EndPublishes(Run(run, {}), run, b);
  }

  lemma RunIsGood(run: seq<Executed>)
    requires AllDecoded(run)
    ensures Good(Run(run, {}), run)
  {
    hide Good, Handle, G.Decoded;
  }

  lemma LoopLast(a: Executed, b: Executed, n: nat)
    requires n > 0
    ensures Loop(a, b, n) == Loop(a, b, n - 1) + [a] + [b]
  {
  }

  lemma StillLooked(s: State, t: State, run: seq<Executed>, a: Executed, b: Executed)
    requires Counting(s, run) && Executions(run, b.pc / 2) <= 100 && b.pc >= 0x8000_0000 && a.pc / 2 != b.pc / 2
    requires t.jits == map[] && t.ignored == s.ignored + {a.pc / 2}
    ensures Looked(t, b)
  {
    hide Executions;
  }
}
