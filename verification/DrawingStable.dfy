/** Settling stabilises: after a second pass nothing is left to settle (`settleExcalidraw` in
    `packages/plugin/src/excalidraw-model.ts`). */
module DrawingStable {
  import opened Json
  import opened DrawingMerge
  import opened DrawingModel
  import opened DrawingSettle

  /** Nothing would go: a pass over `revs` changes nothing. */
  ghost predicate Quiet(s: Settler, revs: Revs) {
    forall e | e in revs :: !Goes(VerdictOn(s, revs, e))
  }

  lemma QuietPassChangesNothing(s: Settler, revs: Revs, plan: Plan, now: Revs)
    requires Quiet(s, revs) && Settled(s, revs, plan, now)
    ensures now == revs
  {
    assert forall e :: e !in plan;
    WriteFreePass(s, revs, plan, now);
  }

  lemma WriteFreeStanding(s: Settler, before: Revs, plan: Plan, now: Revs, e: Element)
    requires Settled(s, before, plan, now) && WritesNothing(plan) && e in now
    ensures e in before && Standing(now, e.id) == Standing(before, e.id)
  {
    WriteFreePass(s, before, plan, now);
    var w := Standing(before, e.id);
    StandingStays(s, before, plan, now, e.id);
    forall o | o in VersionsOf(now, e.id) && o != w
      ensures Beats(w, o)
    {
      StandingBeats(before, o);
    }
    assert Stands(w, now);
    StandingUnique(w, Standing(now, e.id), now);
  }

  /** After a pass that writes nothing there is nothing left to settle. */
  lemma QuietAfterWriteFree(s: Settler, before: Revs, plan: Plan, now: Revs)
    requires Settled(s, before, plan, now) && WritesNothing(plan)
    ensures Quiet(s, now)
  {
    forall e | e in now
      ensures !Goes(VerdictOn(s, now, e))
    {
      QuietOn(s, before, plan, now, e);
    }
  }

  lemma QuietOn(s: Settler, before: Revs, plan: Plan, now: Revs, e: Element)
    requires Settled(s, before, plan, now) && WritesNothing(plan) && e in now
    ensures !Goes(VerdictOn(s, now, e))
  {
    WriteFreePass(s, before, plan, now);
    WriteFreeStanding(s, before, plan, now, e);
    var w := Standing(before, e.id);
    assert w in now && now[w] == before[w] && now[e] == before[e];
    assert Judge(s, now, w, e) == Judge(s, before, w, e);
  }

  // ---- What the first pass leaves ----

  /** Ids of kept copies are new to the drawing, and no two parts share one. */
  ghost predicate FreshIds(s: Settler, before: Revs) {
    && (forall e, i | IsKept(s, before, e) && 0 <= i < 3 :: PartId(s, e, i) !in Ids(before))
    && (forall e, f, i, j | IsKept(s, before, e) && IsKept(s, before, f) && 0 <= i < 3 && 0 <= j < 3 ::
          PartId(s, e, i) == PartId(s, f, j) ==> e == f && i == j)
  }

  ghost predicate IsKept(s: Settler, before: Revs, e: Element) {
    e in before && VerdictOn(s, before, e).Kept?
  }

  /** The id of the `i`th part of the copy kept of `e`. */
  function PartId(s: Settler, e: Element, i: int): string {
    if i == 0 then s.ids(e).outline else if i == 1 then s.ids(e).copy else s.ids(e).caption
  }

  /** Only what the document held before was written by a fill. */
  ghost predicate FillsAreOld(s: Settler, before: Revs) {
    forall e :: s.fill(e) ==> e in before
  }

  /** A delete said again by the pass over `before`: above what stood, made on it. */
  ghost predicate IsAgain(s: Settler, before: Revs, e: Element, meta: Meta) {
    && e.id in Ids(before) && e !in before && IsDelete(e)
    && e.version == Standing(before, e.id).version + 1
    && meta.base == Some(PairOf(Standing(before, e.id)))
  }

  ghost predicate IsPart(s: Settler, before: Revs, f: Element, i: int, e: Element) {
    IsKept(s, before, f) && 0 <= i < 3 && e.id == PartId(s, f, i)
  }

  /** What is written as `f` goes is a delete said again, or a part of the copy kept of `f`. */
  lemma WrittenKinds(s: Settler, before: Revs, f: Element, written: map<Element, Meta>, c: Element)
    requires f in before && IsWritingFor(s, before, f, written) && c in written
    ensures IsAgain(s, before, c, written[c]) || exists i :: IsPart(s, before, f, i, c)
  {
    var spot :| written == WrittenFor(s, before, Standing(before, f.id), f, spot);
    var v := VerdictOn(s, before, f);
    if v.SaidAgain? {
      AgainIsAgain(s, before, f);
    } else if v.Kept? {
      var i := WhichPart(s, f, spot, c);
      assert IsPart(s, before, f, i, c);
    }
  }

  lemma AgainIsAgain(s: Settler, before: Revs, f: Element)
    requires f in before && VerdictOn(s, before, f).SaidAgain?
    ensures var w := Standing(before, f.id); IsAgain(s, before, Again(s, w, f), AgainMeta(before, w, f))
  {
    AgainIsNew(s, before, f);
  }

  lemma WhichPart(s: Settler, f: Element, spot: Spot, c: Element) returns (i: int)
    requires c in PartsMap(KeptParts(f, s.ids(f), spot))
    ensures 0 <= i < 3 && c == KeptParts(f, s.ids(f), spot)[i] && c.id == PartId(s, f, i)
  {
    i :| 0 <= i < 3 && KeptParts(f, s.ids(f), spot)[i] == c;
  }

  /** What a revision is after one pass: what stood, another vault's that lost, a delete said again, or new. */
  ghost predicate AfterOne(s: Settler, before: Revs, now: Revs, e: Element)
    requires e in now
  {
    || (e in before && now[e] == before[e] && !Goes(VerdictOn(s, before, e)))
    || IsAgain(s, before, e, now[e])
    || e.id !in Ids(before)
  }

  lemma AfterOnePass(s: Settler, before: Revs, plan: Plan, now: Revs, e: Element)
    requires Settled(s, before, plan, now) && FreshIds(s, before) && e in now
    ensures AfterOne(s, before, now, e)
  {
    if e !in before || e in plan {
      assert IsWrittenBy(plan, e, now[e]);
      var f :| f in plan && e in plan[f] && plan[f][e] == now[e];
      assert f in before && IsWritingFor(s, before, f, plan[f]);
      WrittenKinds(s, before, f, plan[f], e);
      if !IsAgain(s, before, e, now[e]) {
        var i :| IsPart(s, before, f, i, e);
        assert PartId(s, f, i) !in Ids(before);
      }
    }
  }

  /** A kept copy's part is the only version of its element. */
  lemma NewIdsAreAlone(s: Settler, before: Revs, plan: Plan, now: Revs, a: Element, b: Element)
    requires Settled(s, before, plan, now) && FreshIds(s, before)
    requires a in now && b in now && a.id == b.id && a.id !in Ids(before)
    ensures a == b
  {
    var f, i := PartWritten(s, before, plan, now, a);
    var g, j := PartWritten(s, before, plan, now, b);
    assert PartId(s, f, i) == PartId(s, g, j);
    assert f == g && i == j;
    SamePartSame(s, before, f, plan[f], i, a, b);
  }

  lemma PartWritten(s: Settler, before: Revs, plan: Plan, now: Revs, a: Element) returns (f: Element, i: int)
    requires Settled(s, before, plan, now) && a in now && a.id !in Ids(before)
    ensures f in before && f in plan && IsWritingFor(s, before, f, plan[f]) && a in plan[f]
        && IsPart(s, before, f, i, a)
  {
    assert a !in before;
    assert IsWrittenBy(plan, a, now[a]);
    f :| f in plan && a in plan[f] && plan[f][a] == now[a];
    assert f in before && IsWritingFor(s, before, f, plan[f]);
    WrittenKinds(s, before, f, plan[f], a);
    i :| IsPart(s, before, f, i, a);
  }

  lemma SamePartSame(s: Settler, before: Revs, f: Element, written: map<Element, Meta>, i: int, a: Element, b: Element)
    requires FreshIds(s, before) && f in before && IsWritingFor(s, before, f, written)
    requires a in written && b in written && IsPart(s, before, f, i, a) && IsPart(s, before, f, i, b)
    ensures a == b
  {
    var spot :| written == WrittenFor(s, before, Standing(before, f.id), f, spot);
    if VerdictOn(s, before, f).Kept? {
      var j := WhichPart(s, f, spot, a);
      var k := WhichPart(s, f, spot, b);
      assert j == i == k;
    }
  }

  /** A kept copy is in the drawing once the pass is over. */
  lemma CopyIsThere(s: Settler, before: Revs, plan: Plan, now: Revs, e: Element) returns (spot: Spot)
    requires Settled(s, before, plan, now) && FreshIds(s, before) && IsKept(s, before, e)
    ensures KeptCopy(e, s.ids(e), spot) in now && IsCopyOf(KeptCopy(e, s.ids(e), spot), e)
  {
    assert IsWritingFor(s, before, e, plan[e]);
    spot := SpotOf(s, before, e, plan[e]);
    var copy := CopyAmongParts(e, s.ids(e), spot);
    assert PartId(s, e, 1) !in Ids(before);
  }

  /** What a plan writes was not there before. */
  lemma WrittenIsNew(s: Settler, before: Revs, plan: Plan, e: Element, c: Element)
    requires IsPlan(s, before, before.Keys, plan) && FreshIds(s, before) && e in plan && c in plan[e]
    ensures c !in before
  {
    assert IsWritingFor(s, before, e, plan[e]);
    WrittenKinds(s, before, e, plan[e], c);
    if !IsAgain(s, before, c, plan[e][c]) {
      var i :| IsPart(s, before, e, i, c);
      assert PartId(s, e, i) !in Ids(before);
    }
  }

  /** The order in which the losing versions are settled makes no difference to which revisions are left:
      with each written for alike, any two orders leave the same. */
  lemma AnyOrder(s: Settler, before: Revs, one: seq<Act>, other: seq<Act>)
    requires IsTrace(s, before, one) && Elements(one) == before.Keys && FreshIds(s, before)
    requires IsTrace(s, before, other) && Elements(other) == before.Keys && PlanOf(one) == PlanOf(other)
    ensures Run(before, one).Keys == Run(before, other).Keys
  {
    TraceSettles(s, before, one);
    TraceSettles(s, before, other);
    PassLeaves(s, before, PlanOf(one), Run(before, one));
    PassLeaves(s, before, PlanOf(one), Run(before, other));
  }

  lemma PassLeaves(s: Settler, before: Revs, plan: Plan, now: Revs)
    requires Settled(s, before, plan, now) && FreshIds(s, before)
    ensures forall c :: c in now <==> (c in before && c !in plan) || exists e | e in plan :: c in plan[e]
  {
    forall c
      ensures c in now <==> (c in before && c !in plan) || exists e | e in plan :: c in plan[e]
    {
      if c in now && !(c in before && c !in plan) { assert IsWrittenBy(plan, c, now[c]); }
      if e :| e in plan && c in plan[e] { WrittenIsNew(s, before, plan, e, c); }
    }
  }

  // ---- The second pass ----

  lemma SecondWinner(s: Settler, r0: Revs, p0: Plan, r1: Revs, id: string)
    requires Settled(s, r0, p0, r1) && FreshIds(s, r0) && id in Ids(r0)
    ensures id in Ids(r1)
    ensures var w := Standing(r1, id);
      (w == Standing(r0, id) && r1[w] == r0[w]) || IsAgain(s, r0, w, r1[w])
  {
    StandingStays(s, r0, p0, r1, id);
    var w0 := Standing(r0, id);
    assert w0 in r1 && w0.id == id;
    var w := Standing(r1, id);
    AfterOnePass(s, r0, p0, r1, w);
    if w in r0 && w != w0 {
      StandingBeats(r0, w);
      assert w0 in VersionsOf(r1, id);
      BeatsTotal(w, w0);
    }
  }

  /** In a second pass nothing is said again and nothing is kept: what goes was superseded, or is one of
      several deletes said again of one element. */
  lemma SecondPassWritesNothing(s: Settler, r0: Revs, p0: Plan, r1: Revs, e: Element)
    requires Settled(s, r0, p0, r1) && FreshIds(s, r0) && FillsAreOld(s, r0) && e in r1
    ensures e.id in Ids(r1)
    ensures WritesNone(VerdictOn(s, r1, e))
  {
    assert e.id in Ids(r1);
    var w := Standing(r1, e.id);
    AfterOnePass(s, r0, p0, r1, e);
    if e.id !in Ids(r0) {
      NewIdsAreAlone(s, r0, p0, r1, e, w);
    } else {
      SecondWinner(s, r0, p0, r1, e.id);
      if w == Standing(r0, e.id) {
        SameWinner(s, r0, r1, w, e);
      } else if e != w {
        BelowAgain(s, r0, r1, w, e);
      }
    }
  }

  predicate WritesNone(v: Verdict) {
    !v.SaidAgain? && !v.Kept?
  }

  lemma SameWinner(s: Settler, r0: Revs, r1: Revs, w: Element, e: Element)
    requires e in r1 && e.id in Ids(r0) && AfterOne(s, r0, r1, e)
    requires w == Standing(r0, e.id) == Standing(r1, e.id) && r1[w] == r0[w]
    ensures WritesNone(VerdictOn(s, r1, e))
  {
    AgainWouldWin(r1, w, e);
    assert e in r0;
  }

  lemma BelowAgain(s: Settler, r0: Revs, r1: Revs, w: Element, e: Element)
    requires FillsAreOld(s, r0) && e in r1 && e.id in Ids(r0) && AfterOne(s, r0, r1, e)
    requires w == Standing(r1, e.id) && w != e && IsAgain(s, r0, w, r1[w])
    ensures WritesNone(Judge(s, r1, w, e))
  {
    if e in r0 {
      var w0 := Standing(r0, e.id);
      assert e in VersionsOf(r0, e.id);
      assert w.version > e.version;
    } else {
      assert !s.fill(e);
    }
  }

  lemma AgainWouldWin(revs: Revs, w: Element, e: Element)
    requires e in revs && Stands(w, revs) && w.id == e.id
    ensures e.version <= w.version
  {
    assert e in VersionsOf(revs, w.id);
  }

  lemma SecondPassIsWriteFree(s: Settler, r0: Revs, p0: Plan, r1: Revs, p1: Plan, r2: Revs)
    requires FreshIds(s, r0) && FillsAreOld(s, r0) && Settled(s, r0, p0, r1) && Settled(s, r1, p1, r2)
    ensures WritesNothing(p1)
  {
    forall e | e in p1
      ensures p1[e] == map[]
    {
      SecondPassWritesNothing(s, r0, p0, r1, e);
      assert IsWritingFor(s, r1, e, p1[e]);
    }
  }

  /** A third pass changes nothing beyond the second. */
  lemma ThirdPassChangesNothing(s: Settler, r0: Revs, p0: Plan, r1: Revs, p1: Plan, r2: Revs, p2: Plan, r3: Revs)
    requires FreshIds(s, r0) && FillsAreOld(s, r0)
    requires Settled(s, r0, p0, r1) && Settled(s, r1, p1, r2) && Settled(s, r2, p2, r3)
    ensures r3 == r2
  {
    SecondPassIsWriteFree(s, r0, p0, r1, p1, r2);
    QuietAfterWriteFree(s, r1, p1, r2);
    QuietPassChangesNothing(s, r2, p2, r3);
  }

  /** No element's winner changes but to a delete said again above it, and that in the first pass only. */
  lemma WinnersStay(s: Settler, r0: Revs, p0: Plan, r1: Revs, p1: Plan, r2: Revs, id: string)
    requires FreshIds(s, r0) && FillsAreOld(s, r0)
    requires Settled(s, r0, p0, r1) && Settled(s, r1, p1, r2) && id in Ids(r0)
    ensures id in Ids(r1) && id in Ids(r2)
    ensures Standing(r1, id) == Standing(r0, id) || IsAgain(s, r0, Standing(r1, id), r1[Standing(r1, id)])
    ensures Standing(r2, id) == Standing(r1, id)
  {
    SecondWinner(s, r0, p0, r1, id);
    SecondPassIsWriteFree(s, r0, p0, r1, p1, r2);
    StandingStays(s, r1, p1, r2, id);
    WriteFreeStanding(s, r1, p1, r2, Standing(r1, id));
  }
}
