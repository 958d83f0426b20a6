/** The entry a decode returns, read bit by bit against the instruction word. */
module DecodedFields {
  import opened Bits
  import opened Decoder
  import opened InstFields
  import opened DecodeCache
  import Registered
  import PatternTexts

  /** A decode by the registered patterns: the pc and word it was asked for, the operand fields of the word, and,
      when some pattern matches, the most specific one and its immediate of the word; else zero. */
  lemma RegisteredEntry(ps: seq<Pattern>, pc: int, w: Word32)
    requires Registered.Drawn(ps, PatternTexts.REGISTERED)
    ensures
      var e, best := Decoded(ps, pc, w), Scan(ps, w);
      && e.pc == pc && e.raw == w && ReadsFields(e.data, w) && e.inst == best
      && (e.valid <==> exists i :: 0 <= i < |ps| && Matches(ps[i], w) && (ps[i].size == 2 ==> And(w, W(3)) != W(3)))
      && e.data.imm == if best >= 0 then ps[best].immediate(w) else 0
  {
    hide Find, Scan, Field, Registered.Drawn, ReadsFields, Matches;
    Registered.RegisteredDecodes(ps, pc, w);
    DecodedReads(ps, pc, w);
    ScanFinds(ps, w);
  }

  /** A scan finds something exactly when a pattern of a width the word can have matches. */
  lemma ScanFinds(ps: seq<Pattern>, w: Word32)
    ensures Scan(ps, w) >= 0 <==> exists i :: 0 <= i < |ps| && Matches(ps[i], w) && (ps[i].size == 2 ==> And(w, W(3)) != W(3))
    ensures Scan(ps, w) >= 0 ==> Matches(ps[Scan(ps, w)], w)
  {
    hide And, Best, Pop, Agrees, Matches;
    var s, l := Best(ps, |ps|, true, EVERY_BIT, w), Best(ps, |ps|, false, EVERY_BIT, w);
    BestWins(ps, |ps|, true, EVERY_BIT, w, s);
    BestWins(ps, |ps|, false, EVERY_BIT, w, l);
    forall i | 0 <= i < |ps| ensures Agrees(ps[i], EVERY_BIT, w) <==> Matches(ps[i], w) {
      MatchesIsAgrees(ps[i], w);
    }
    forall i | 0 <= i < |ps|
      ensures Candidate(ps, true, EVERY_BIT, w, i) <==> ps[i].size == 2 && Matches(ps[i], w)
      ensures Candidate(ps, false, EVERY_BIT, w, i) <==> ps[i].size != 2 && Matches(ps[i], w)
    {
    }
  }

  /** At work: 0x40A58533 is `sub a0, a1, a0`. */
  lemma SubFields(ps: seq<Pattern>, pc: int)
    ensures var d := Decoded(ps, pc, W(0x40A58533)).data; d.rd == W(10) && d.rs1 == W(11) && d.rs2 == W(10)
  {
    hide Find;
  }
}
