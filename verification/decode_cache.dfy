/** The two-way cache in front of the decoder tables, and the decoder object. */
module DecodeCache {
  import opened Powers
  import opened Bits
  import Places
  import opened Decoder
  import opened InstFields

  /** One decoded instruction; `inst` is an index into the patterns, -1 for a null pointer. */
  datatype Entry = Entry(pc: int, raw: Word32, inst: int, data: InstructionData, valid: bool)

  datatype CacheSet = CacheSet(way0: Entry, way1: Entry, victim: nat)

  /** What decoding `w` at `pc` means, with no cache: the scan's pattern, its immediate and the
      operand fields; when no pattern matches, an invalid entry with immediate zero. */
  function Decoded(ps: seq<Pattern>, pc: int, w: Word32): Entry {
    var i := Find(ps, w);
    Entry(pc, w, i, Data(w, Field(w, 7), Field(w, 15), Field(w, 20), if i >= 0 then ps[i].immediate(w) else 0), i >= 0)
  }

  lemma DecodedReads(ps: seq<Pattern>, pc: int, w: Word32)
    ensures ReadsFields(Decoded(ps, pc, w).data, w)
  {
    hide Places.Has, Field, Find;
    forall k: nat | k < 32
      ensures Places.Has(Field(w, 7), k) <==> k < 5 && Places.Has(w, 7 + k)
      ensures Places.Has(Field(w, 15), k) <==> k < 5 && Places.Has(w, 15 + k)
      ensures Places.Has(Field(w, 20), k) <==> k < 5 && Places.Has(w, 20 + k)
    {
      FieldBits(w, k);
    }
  }

  predicate Hit(e: Entry, pc: int, w: Word32) { e.valid && e.pc == pc && e.raw == w }

  function IndexOf(pc: int): nat { (pc / 4) % CACHE_SIZE }

  /** A call of `decode_inst` seen on the set it falls into. */
  function Lookup(ps: seq<Pattern>, s: CacheSet, pc: int, w: Word32): (CacheSet, Entry) {
    if Hit(s.way0, pc, w) then (s, s.way0)
    else if Hit(s.way1, pc, w) then (s, s.way1)
    else
      var e := Decoded(ps, pc, w);
      (if s.victim == 0 then CacheSet(e, s.way1, 1) else CacheSet(s.way0, e, 0), e)
  }

  function Flushed(s: CacheSet): CacheSet {
    CacheSet(s.way0.(valid := false), s.way1.(valid := false), 0)
  }

  predicate Current(ps: seq<Pattern>, idx: nat, e: Entry) {
    e.valid ==> e == Decoded(ps, e.pc, e.raw) && IndexOf(e.pc) == idx
  }

  /** What every reachable set keeps: valid ways say what a fresh decode says, and no
      (pc, word) is in both. */
  predicate SetGood(ps: seq<Pattern>, idx: nat, s: CacheSet) {
    && s.victim < 2
    && Current(ps, idx, s.way0) && Current(ps, idx, s.way1)
    && !(s.way0.valid && s.way1.valid && s.way0.pc == s.way1.pc && s.way0.raw == s.way1.raw)
  }

  lemma LookupTransparent(ps: seq<Pattern>, s: CacheSet, pc: int, w: Word32)
    requires SetGood(ps, IndexOf(pc), s)
    ensures Lookup(ps, s, pc, w).1 == Decoded(ps, pc, w)
    ensures SetGood(ps, IndexOf(pc), Lookup(ps, s, pc, w).0)
  {
    hide Decoded, IndexOf;
    DecodedKeys(ps, pc, w);
  }

  lemma DecodedKeys(ps: seq<Pattern>, pc: int, w: Word32)
    ensures Decoded(ps, pc, w).pc == pc && Decoded(ps, pc, w).raw == w
  {
  }

  /** A valid decode is found again by the next call of the same word. */
  lemma LookupSticks(ps: seq<Pattern>, s: CacheSet, pc: int, w: Word32)
    requires Decoded(ps, pc, w).valid
    ensures Lookup(ps, Lookup(ps, s, pc, w).0, pc, w) == (Lookup(ps, s, pc, w).0, Lookup(ps, s, pc, w).1)
  {
    DecodedKeys(ps, pc, w);
    hide Decoded;
  }

  /** The set holds two: after two misses both words are found, and nothing moves. */
  lemma BothStay(ps: seq<Pattern>, s: CacheSet, pc: int, w: Word32, pc': int, w': Word32)
    requires s.victim < 2 && Decoded(ps, pc, w).valid && Decoded(ps, pc', w').valid
    requires !Hit(s.way0, pc, w) && !Hit(s.way1, pc, w)
    requires var t := Lookup(ps, s, pc, w).0; !Hit(t.way0, pc', w') && !Hit(t.way1, pc', w')
    ensures
      var t := Lookup(ps, Lookup(ps, s, pc, w).0, pc', w').0;
      Lookup(ps, t, pc, w) == (t, Decoded(ps, pc, w)) && Lookup(ps, t, pc', w') == (t, Decoded(ps, pc', w'))
  {
    DecodedKeys(ps, pc, w);
    DecodedKeys(ps, pc', w');
    hide Decoded;
  }

  datatype Call = DecodeInst(pc: int, word: Word32) | FenceI

  ghost predicate CacheGood(ps: seq<Pattern>, cache: seq<CacheSet>) {
    |cache| == CACHE_SIZE && forall i :: 0 <= i < CACHE_SIZE ==> SetGood(ps, i, cache[i])
  }

  /** One call on the whole cache. */
  function Step(ps: seq<Pattern>, cache: seq<CacheSet>, c: Call): (r: seq<CacheSet>)
    requires |cache| == CACHE_SIZE
    ensures |r| == CACHE_SIZE
  {
    match c
    case DecodeInst(pc, w) => cache[IndexOf(pc) := Lookup(ps, cache[IndexOf(pc)], pc, w).0]
    case FenceI => seq(CACHE_SIZE, i requires 0 <= i < CACHE_SIZE => Flushed(cache[i]))
  }

  /** The answers of a run of calls, in order. */
  function Answers(ps: seq<Pattern>, cache: seq<CacheSet>, calls: seq<Call>): seq<Entry>
    requires |cache| == CACHE_SIZE
    decreases |calls|
  {
    if calls == [] then []
    else
      (match calls[0]
       case DecodeInst(pc, w) => [Lookup(ps, cache[IndexOf(pc)], pc, w).1]
       case FenceI => [])
      + Answers(ps, Step(ps, cache, calls[0]), calls[1..])
  }

  /** The answers without a cache. */
  function FreshAnswers(ps: seq<Pattern>, calls: seq<Call>): seq<Entry> {
    if calls == [] then []
    else (if calls[0].DecodeInst? then [Decoded(ps, calls[0].pc, calls[0].word)] else []) + FreshAnswers(ps, calls[1..])
  }

  lemma StepGood(ps: seq<Pattern>, cache: seq<CacheSet>, c: Call)
    requires CacheGood(ps, cache)
    ensures CacheGood(ps, Step(ps, cache, c))
  {
    hide Lookup, IndexOf, Current;
    match c
    case DecodeInst(pc, w) =>
      hide SetGood;
      assert 0 <= IndexOf(pc) < CACHE_SIZE by { IndexInRange(pc); }
      LookupTransparent(ps, cache[IndexOf(pc)], pc, w);
    case FenceI =>
      forall i | 0 <= i < CACHE_SIZE ensures SetGood(ps, i, Flushed(cache[i])) {
        FlushGood(ps, i, cache[i]);
      }
  }

  lemma IndexInRange(pc: int)
    ensures 0 <= IndexOf(pc) < CACHE_SIZE
  {
  }

  lemma FlushGood(ps: seq<Pattern>, i: nat, s: CacheSet)
    ensures SetGood(ps, i, Flushed(s))
  {
  }

  /** Over any run of decodes and FENCE.I flushes the cache cannot be noticed, and the
      state it ends in answers truthfully too. */
  lemma {:induction false} RunTransparent(ps: seq<Pattern>, cache: seq<CacheSet>, calls: seq<Call>)
    requires CacheGood(ps, cache)
    ensures Answers(ps, cache, calls) == FreshAnswers(ps, calls)
    decreases |calls|
  {
    hide Lookup, IndexOf, SetGood, Decoded, Step;
    if calls != [] {
      StepGood(ps, cache, calls[0]);
      RunTransparent(ps, Step(ps, cache, calls[0]), calls[1..]);
      if calls[0].DecodeInst? {
        var pc, w := calls[0].pc, calls[0].word;
        IndexInRange(pc);
        LookupTransparent(ps, cache[IndexOf(pc)], pc, w);
      }
    }
  }

  class InstructionDecoder {
    var instructions: seq<Pattern>
    const lut: array<int>
    const lut16: array<int>
    const cache: array<CacheSet>

    /** The tables have been built from the present patterns. */
    ghost predicate Built()
      reads this, lut, lut16
    {
      && Holds(lut[..], instructions, |instructions|, false, HASH_MASK)
      && Holds(lut16[..], instructions, |instructions|, true, HASH_MASK_16)
    }

    ghost predicate Valid()
      reads this, lut, lut16, cache
    {
      lut != lut16 && AllFormed(instructions) && CacheGood(instructions, cache[..])
    }

    ghost predicate Blank()
      reads this, lut, lut16
    {
      && lut.Length == LUT_SIZE && lut16.Length == LUT_SIZE_16
      && (forall i :: 0 <= i < LUT_SIZE ==> lut[i] == -1)
      && (forall i :: 0 <= i < LUT_SIZE_16 ==> lut16[i] == -1)
    }

    constructor ()
      ensures Valid() && Blank() && instructions == []
      ensures fresh(lut) && fresh(lut16) && fresh(cache)
    {
      instructions := [];
      lut := new int[LUT_SIZE](_ => -1);
      lut16 := new int[LUT_SIZE_16](_ => -1);
      var none := Entry(0, ZERO, -1, Data(ZERO, ZERO, ZERO, ZERO, 0), false);
      cache := new CacheSet[CACHE_SIZE](_ => CacheSet(none, none, 0));
    }

    /** Adds a pattern; while the cache is empty, which is when the instruction sets register. */
    method RegisterInstr(text: string, immediate: Word32 -> bv64)
      requires Valid() && (|text| == 16 || |text| == 32)
      requires forall i :: 0 <= i < cache.Length ==> !cache[i].way0.valid && !cache[i].way1.valid
      modifies this`instructions
      ensures Valid() && |instructions| == |old(instructions)| + 1 && instructions[..|old(instructions)|] == old(instructions)
      ensures
        var p := instructions[|old(instructions)|];
        p.size == |text| / 8 && p.immediate == immediate
        && p.mask == MaskUpTo(text, |text|) && p.value == ValueUpTo(text, |text|)
        && forall w :: Matches(p, w) <==> Fits(text, |text|, w)
    {
      var mask, value := ParseText(text);
      hide Within, Fits, MaskUpTo, ValueUpTo;
      var p := Pattern(mask, value, immediate, |text| / 8);
      assert forall w :: Matches(p, w) <==> And(w, mask) == value;
      hide And, Matches;
      instructions := instructions + [p];
      assert forall i :: 0 <= i < |instructions| ==> Formed(instructions[i]);
      assert forall i :: 0 <= i < CACHE_SIZE ==> SetGood(instructions, i, cache[i]);
    }

    method BuildLut()
      requires Valid() && Blank()
      modifies lut, lut16
      ensures Valid() && Built()
    {
      TableSizes();
      NothingHeld(lut[..], instructions, false, HASH_MASK);
      NothingHeld(lut16[..], instructions, true, HASH_MASK_16);
      hide Holds;
      for k := 0 to |instructions|
        invariant Holds(lut[..], instructions, k, false, HASH_MASK)
        invariant Holds(lut16[..], instructions, k, true, HASH_MASK_16)
      {
        assert Formed(instructions[k]);
        if instructions[k].size == 2 {
          AddPattern(lut16, instructions, k, true, HASH_MASK_16);
          Untouched(lut[..], instructions, k, false, HASH_MASK);
        } else {
          AddPattern(lut, instructions, k, false, HASH_MASK);
          Untouched(lut16[..], instructions, k, true, HASH_MASK_16);
        }
      }
    }

    /** The miss path: look the word up in the tables and overwrite the victim way. */
    method DecodeInstSlow(pc: int, w: Word32) returns (e: Entry)
      requires Built() && |cache[..]| == CACHE_SIZE
      requires !Hit(cache[IndexOf(pc)].way0, pc, w) && !Hit(cache[IndexOf(pc)].way1, pc, w)
      modifies cache
      ensures cache[..] == Step(instructions, old(cache[..]), Call.DecodeInst(pc, w))
      ensures e == Decoded(instructions, pc, w)
    {
      hide Holds, AllFormed, SetGood, Pext, And, Best, Matches, Field, CacheGood, IndexOf;
      ReadTables(lut[..], lut16[..], instructions, w);
      IndexInRange(pc);
      var dinst := -1;
      if And(w, W(3)) != W(3) {
        dinst := lut16[Pext(And(w, HASH_MASK_16), HASH_MASK_16)];
      }
      if dinst == -1 {
        dinst := lut[Pext(w, HASH_MASK)];
      }
      var found := dinst != -1 && Matches(instructions[dinst], w);
      var imm := if found then instructions[dinst].immediate(w) else 0;
      e := Entry(pc, w, if found then dinst else -1, Data(w, Field(w, 7), Field(w, 15), Field(w, 20), imm), found);
      assert e == Decoded(instructions, pc, w);
      hide Decoded;
      var s := cache[IndexOf(pc)];
      if s.victim == 0 {
        cache[IndexOf(pc)] := CacheSet(e, s.way1, 1);
      } else {
        cache[IndexOf(pc)] := CacheSet(s.way0, e, 0);
      }
    }

    method DecodeInst(pc: int, w: Word32) returns (e: Entry)
      requires Valid() && Built()
      modifies cache
      ensures Valid() && Built()
      ensures e == Decoded(instructions, pc, w) && ReadsFields(e.data, w)
      ensures cache[..] == Step(instructions, old(cache[..]), Call.DecodeInst(pc, w))
    {
      DecodedReads(instructions, pc, w);
      hide Holds, AllFormed, Decoded, SetGood, ReadsFields;
      var s := cache[IndexOf(pc)];
      StepGood(instructions, cache[..], Call.DecodeInst(pc, w));
      LookupTransparent(instructions, s, pc, w);
      if Hit(s.way0, pc, w) {
        e := s.way0;
        assert cache[..] == cache[..][IndexOf(pc) := s];
      } else if Hit(s.way1, pc, w) {
        e := s.way1;
        assert cache[..] == cache[..][IndexOf(pc) := s];
      } else {
        e := DecodeInstSlow(pc, w);
      }
    }

    /** FENCE.I */
    method FenceI()
      requires Valid() && Built()
      modifies cache
      ensures Valid() && Built()
      ensures cache[..] == Step(instructions, old(cache[..]), Call.FenceI)
    {
      hide Holds, AllFormed;
      StepGood(instructions, cache[..], Call.FenceI);
      for i := 0 to CACHE_SIZE
        invariant forall j :: 0 <= j < i ==> cache[j] == Flushed(old(cache[j]))
        invariant forall j :: i <= j < CACHE_SIZE ==> cache[j] == old(cache[j])
      {
        cache[i] := Flushed(cache[i]);
      }
      assert cache[..] == Step(instructions, old(cache[..]), Call.FenceI);
    }
  }

  lemma ReadTables(lut: seq<int>, lut16: seq<int>, ps: seq<Pattern>, w: Word32)
    requires Holds(lut, ps, |ps|, false, HASH_MASK) && Holds(lut16, ps, |ps|, true, HASH_MASK_16)
    ensures
      var short := And(w, HASH_MASK_16);
      Pext(w, HASH_MASK) < |lut| && lut[Pext(w, HASH_MASK)] == Best(ps, |ps|, false, HASH_MASK, w)
      && Pext(short, HASH_MASK_16) < |lut16|
      && lut16[Pext(short, HASH_MASK_16)] == Best(ps, |ps|, true, HASH_MASK_16, short)
  {
    hide Pext, And, Best;
  }

  lemma NothingHeld(t: seq<int>, ps: seq<Pattern>, short: bool, hash: Word32)
    requires forall i :: 0 <= i < |t| ==> t[i] == -1
    requires |t| == Pow2(Pop(hash))
    ensures Holds(t, ps, 0, short, hash)
  {
    hide Pext, Pop, Pow2;
    forall w ensures Pext(w, hash) < |t| { PextBound(w, hash); }
  }

  /** A pattern of the other width changes nothing in this table's scan. */
  lemma Untouched(t: seq<int>, ps: seq<Pattern>, k: nat, short: bool, hash: Word32)
    requires k < |ps| && (ps[k].size == 2) != short && Holds(t, ps, k, short, hash)
    ensures Holds(t, ps, k + 1, short, hash)
  {
    hide Pext, And, Pop;
  }

  /** The tables have a slot for every value `pext` can give. */
  lemma TableSizes()
    ensures LUT_SIZE == Pow2(Pop(HASH_MASK)) && LUT_SIZE_16 == Pow2(Pop(HASH_MASK_16))
  {
    assert Pop(W(0xF0000000)) == 4;
    assert Pop(W(0xFF000000)) == 8;
    assert Pop(W(0xFFF00000)) == 12;
    assert Pop(W(0xFFF07000)) == 15;
    assert Pop(W(0xFFF07070)) == 18;
    assert Pop(W(0xF000)) == 4;
    assert Pop(W(0xFF00)) == 8;
    assert Pop(W(0xFFF0)) == 12;
    assert Pow2(10) == 1024;
    assert Pow2(16) == 65536;
    assert Pow2(22) == 0x400000;
  }
}
