/** What a pass decides of a version that lost, read off the fields themselves (`settleExcalidraw` in
    `packages/plugin/src/excalidraw-model.ts`, `fateOf` and `onlyBookkeeping` in
    `packages/plugin/src/excalidraw-merge.ts`). */
module DrawingVerdicts {
  import opened Json
  import opened DrawingMerge
  import opened DrawingModel
  import opened DrawingSettle
  import opened DrawingStable

  // ---- A delete said again ----

  /** A field that is not there, or holds null, false, or an empty text, list or object. */
  predicate IsNothing(v: Option<Json>) {
    v.None? || v.value == Null || v.value == Bool(false) || v.value == Str("") || v.value == Arr([])
    || v.value == Obj(map[])
  }

  predicate IsAlike(a: Option<Json>, b: Option<Json>) {
    a == b || (IsNothing(a) && IsNothing(b))
  }

  /** Nothing a person changes: whether it is deleted, its place in the stack, when it was written, and its seed are
      all that two versions differ in. */
  ghost predicate AreAlike(a: Element, b: Element) {
    forall k | k != "isDeleted" && k != "index" && k != "updated" && k != "seed" ::
      IsAlike(Get(a.fields, k), Get(b.fields, k))
  }

  lemma PartsField(e: Element, k: string)
    requires k != "isDeleted" && k != "index" && k != "updated" && k != "seed"
    ensures k !in BOOKKEEPING
    ensures Get(PersonsPart(e), k) == if IsNothing(Get(e.fields, k)) then None else Get(e.fields, k)
  {
  }

  lemma OnlyBookkeepingExactly(a: Element, b: Element)
    requires a.id == b.id
    ensures OnlyBookkeeping(a, b) <==> AreAlike(a, b)
  {
    forall k | k != "isDeleted" && k != "index" && k != "updated" && k != "seed"
      ensures Get(PersonsPart(a), k) == Get(PersonsPart(b), k) <==> IsAlike(Get(a.fields, k), Get(b.fields, k))
    {
      PartsField(a, k);
      PartsField(b, k);
    }
    if AreAlike(a, b) { SameParts(a, b); }
  }

  lemma SameParts(a: Element, b: Element)
    requires forall k | k !in BOOKKEEPING :: Get(PersonsPart(a), k) == Get(PersonsPart(b), k)
    ensures PersonsPart(a) == PersonsPart(b)
  {
    var p, q := PersonsPart(a), PersonsPart(b);
    forall k
      ensures k in p <==> k in q
      ensures k in p && k in q ==> p[k] == q[k]
    {
      if k !in BOOKKEEPING { assert Get(p, k) == Get(q, k); }
    }
  }

  predicate IsTrue(v: Option<Json>) {
    v == Some(Bool(true))
  }

  /** A delete of this vault's, lost to a version that is no delete and was not made on it, and is the same element in
      all a person changes. */
  ghost predicate IsTakenBack(s: Settler, before: Revs, w: Element, e: Element)
    requires w in before
  {
    && e != w && s.ours(e) && !s.fill(e) && !WasMadeOn(before, w, e)
    && IsTrue(Get(e.fields, "isDeleted")) && !IsTrue(Get(w.fields, "isDeleted")) && AreAlike(e, w)
  }

  /** Just such deletes are said again. */
  lemma SaidAgainExactly(s: Settler, before: Revs, e: Element)
    requires e in before
    ensures VerdictOn(s, before, e).SaidAgain? <==> IsTakenBack(s, before, Standing(before, e.id), e)
  {
    OnlyBookkeepingExactly(e, Standing(before, e.id));
  }

  /** A delete written by a pass was said again for such a delete of its element. */
  lemma AgainWasTakenBack(s: Settler, before: Revs, plan: Plan, now: Revs, x: Element) returns (e: Element)
    requires Settled(s, before, plan, now) && FreshIds(s, before)
    requires x in now && x !in before && x.id in Ids(before)
    ensures e in before && e.id == x.id && IsTakenBack(s, before, Standing(before, x.id), e)
  {
    assert IsWrittenBy(plan, x, now[x]);
    e :| e in plan && x in plan[e] && plan[e][x] == now[x];
    assert e in before && IsWritingFor(s, before, e, plan[e]);
    if VerdictOn(s, before, e).Kept? {
      var spot := SpotOf(s, before, e, plan[e]);
      var i := WhichPart(s, e, spot, x);
      assert false;
    } else {
      OnlyAgainWritten(s, before, e, plan[e], x);
      SaidAgainExactly(s, before, e);
    }
  }

  lemma OnlyAgainWritten(s: Settler, before: Revs, e: Element, written: map<Element, Meta>, x: Element)
    requires e in before && IsWritingFor(s, before, e, written) && x in written && !VerdictOn(s, before, e).Kept?
    ensures VerdictOn(s, before, e).SaidAgain? && x.id == e.id
  {
    var spot :| written == WrittenFor(s, before, Standing(before, e.id), e, spot);
  }

  /** An element's winner falls in a pass if and only if this vault's delete lost to it though it is the same element
      in all a person changes; and then to a delete one version up. One with another text, colour or place stands. */
  lemma WinnerFallsExactly(s: Settler, before: Revs, plan: Plan, now: Revs, id: string)
    requires Settled(s, before, plan, now) && FreshIds(s, before) && id in Ids(before)
    ensures id in Ids(now)
    ensures Standing(now, id) != Standing(before, id) <==>
      exists e | e in before && e.id == id :: IsTakenBack(s, before, Standing(before, id), e)
    ensures Standing(now, id) != Standing(before, id) ==>
      && IsTrue(Get(Standing(now, id).fields, "isDeleted"))
      && Standing(now, id).version == Standing(before, id).version + 1
  {
    SecondWinner(s, before, plan, now, id);
    var w, x := Standing(before, id), Standing(now, id);
    if x != w {
      var e := AgainWasTakenBack(s, before, plan, now, x);
    } else if e :| e in before && e.id == id && IsTakenBack(s, before, w, e) {
      SaidAgainExactly(s, before, e);
      SaidAgainThere(s, before, plan, now, e);
      AgainIsNew(s, before, e);
      assert Again(s, w, e) in VersionsOf(now, id);
      assert Beats(Again(s, w, e), w);
      BeatsTotal(Again(s, w, e), w);
    }
  }

  /** So a winner that differs from every delete of this vault's in something a person changes still stands. */
  lemma EditedWinnerStands(s: Settler, before: Revs, plan: Plan, now: Revs, id: string)
    requires Settled(s, before, plan, now) && FreshIds(s, before) && id in Ids(before)
    requires forall e | e in before && e.id == id && e != Standing(before, id) && IsTrue(Get(e.fields, "isDeleted")) ::
      exists k | k != "isDeleted" && k != "index" && k != "updated" && k != "seed" ::
        !IsAlike(Get(e.fields, k), Get(Standing(before, id).fields, k))
    ensures id in Ids(now) && Standing(now, id) == Standing(before, id)
  {
    WinnerFallsExactly(s, before, plan, now, id);
  }

  // ---- A version kept as a copy ----

  /** What an element says in one field: where it is, its bookkeeping, an arrow's path, and a text as wrapped, are none
      of it. */
  function Said(e: Element, k: string): Option<Json> {
    if k == "x" || k == "y" || k == "width" || k == "height" || k == "angle" || k == "updated" || k == "seed"
      || k == "index" || k == "boundElements" || k == "groupIds" || k == "frameId" then None
    else if Get(e.fields, "type") == Some(Str("arrow")) && (k == "points" || k == "startBinding" || k == "endBinding"
      || k == "lastCommittedPoint" || k == "fixedSegments" || k == "startIsSpecial" || k == "endIsSpecial") then None
    else if k == "text" && Get(e.fields, "type") == Some(Str("text")) && IsText(Get(e.fields, "originalText")) then None
    else Get(e.fields, k)
  }

  predicate IsText(v: Option<Json>) {
    v.Some? && v.value.Str?
  }

  /** As good as nothing: a zero too. */
  predicate IsEmpty(v: Option<Json>) {
    IsNothing(v) || v == Some(Num("0"))
  }

  /** In this field one says something the other does not: another value, or a value where the other has none. */
  predicate IsApartAt(a: Element, b: Element, k: string) {
    Said(a, k) != Said(b, k) && !(Said(a, k).None? && IsEmpty(Said(b, k))) && !(Said(b, k).None? && IsEmpty(Said(a, k)))
  }

  ghost predicate SayApart(a: Element, b: Element) {
    exists k :: IsApartAt(a, b, k)
  }

  /** No field in which both say anything differs. */
  ghost predicate NoneDiffers(a: Element, b: Element) {
    forall k | Said(a, k).Some? && Said(b, k).Some? :: Said(a, k) == Said(b, k)
  }

  lemma ContentIsSaid(e: Element, k: string)
    requires k != "id"
    ensures Get(ContentOf(e), k) == Said(e, k)
  {
  }

  predicate IsSameAt(c: Content, d: Content, oneSidedIsFill: bool, k: string) {
    k in c.Keys + d.Keys ==>
      if k in c && k in d then c[k] == d[k] else oneSidedIsFill || EmptyLike(if k in c then c[k] else d[k])
  }

  lemma SameIsAll(c: Content, d: Content, oneSidedIsFill: bool)
    ensures SameContent(c, d, oneSidedIsFill) <==> forall k :: IsSameAt(c, d, oneSidedIsFill, k)
  {
    if forall k :: IsSameAt(c, d, oneSidedIsFill, k) {
      forall k | k in c.Keys + d.Keys
        ensures if k in c && k in d then c[k] == d[k] else oneSidedIsFill || EmptyLike(if k in c then c[k] else d[k])
      {
        assert IsSameAt(c, d, oneSidedIsFill, k);
      }
    }
  }

  lemma SameOfSaid(c: Content, d: Content, x: Option<Json>, y: Option<Json>, k: string)
    requires Get(c, k) == x && Get(d, k) == y
    ensures IsSameAt(c, d, false, k) <==> x == y || (x.None? && IsEmpty(y)) || (y.None? && IsEmpty(x))
    ensures IsSameAt(c, d, true, k) <==> (x.Some? && y.Some? ==> x == y)
  {
    assert k in c.Keys + d.Keys <==> k in c || k in d;
  }

  lemma SameAtField(a: Element, b: Element, k: string)
    requires a.id == b.id
    ensures IsSameAt(ContentOf(a), ContentOf(b), false, k) <==> !IsApartAt(a, b, k)
    ensures IsSameAt(ContentOf(a), ContentOf(b), true, k) <==>
      (Said(a, k).Some? && Said(b, k).Some? ==> Said(a, k) == Said(b, k))
  {
    if k == "id" {
      SameOfSaid(ContentOf(a), ContentOf(b), Some(Str(a.id)), Some(Str(a.id)), k);
      IdIsNotSaid(a);
      IdIsNotSaid(b);
    } else {
      ContentIsSaid(a, k);
      ContentIsSaid(b, k);
      SameOfSaid(ContentOf(a), ContentOf(b), Said(a, k), Said(b, k), k);
    }
  }

  lemma IdIsNotSaid(e: Element)
    ensures Said(e, "id") == None
  {
    assert !PlainField("id");
  }

  lemma SayExactly(a: Element, b: Element)
    requires a.id == b.id
    ensures SameContent(ContentOf(a), ContentOf(b), false) <==> !SayApart(a, b)
    ensures SameContent(ContentOf(a), ContentOf(b), true) <==> NoneDiffers(a, b)
  {
    var c, d := ContentOf(a), ContentOf(b);
    SameIsAll(c, d, false);
    SameIsAll(c, d, true);
    forall k
      ensures IsSameAt(c, d, false, k) <==> !IsApartAt(a, b, k)
      ensures IsSameAt(c, d, true, k) <==> (Said(a, k).Some? && Said(b, k).Some? ==> Said(a, k) == Said(b, k))
    {
      SameAtField(a, b, k);
    }
  }

  /** A losing version of this vault's or a fill's that was not what the winner was made on, and is no delete. `on` is
      the version its edit was made on. */
  ghost predicate IsDecided(s: Settler, before: Revs, e: Element, on: Option<Element>)
    requires e in before
  {
    var w := Standing(before, e.id);
    && e != w && (s.ours(e) || s.fill(e)) && !WasMadeOn(before, w, e) && IsLive(e)
    && (on.Some? ==> on.value.id == e.id)
    && before[e].baseContent == if on.Some? then Some(ContentOf(on.value)) else None
  }

  /** Not deleted: the flag is not there, or holds what reads as false. */
  predicate IsLive(e: Element) {
    var v := Get(e.fields, "isDeleted");
    v == None || v == Some(Null) || v == Some(Bool(false)) || v == Some(Num("0")) || v == Some(Str(""))
  }

  lemma FateIs(e: Element, w: Element, content: Option<Content>)
    requires !ReadsDeleted(e)
    ensures var fate := FateOf(e, w, content);
      && (fate == KeepFromDelete ==> !IsLive(w)) && (fate == KeepFromEdit ==> !ReadsDeleted(w))
      && (fate == KeepFromDelete || fate == KeepFromEdit <==>
        && !(e.version == w.version && e.nonce == w.nonce && SameContent(ContentOf(e), ContentOf(w), true))
        && (content.Some? ==> !SameContent(ContentOf(e), content.value, false))
        && !SameContent(ContentOf(e), ContentOf(w), false))
  {
  }

  lemma FateExactly(e: Element, w: Element, content: Option<Content>, on: Option<Element>)
    requires e.id == w.id && !ReadsDeleted(e) && (on.Some? ==> on.value.id == e.id)
    requires content == if on.Some? then Some(ContentOf(on.value)) else None
    ensures var fate := FateOf(e, w, content);
      && (fate == KeepFromDelete ==> !IsLive(w)) && (fate == KeepFromEdit ==> !ReadsDeleted(w))
      && (fate == KeepFromDelete || fate == KeepFromEdit <==>
        && !(e.version == w.version && e.nonce == w.nonce && NoneDiffers(e, w))
        && (on.Some? ==> SayApart(e, on.value)) && SayApart(e, w))
  {
    FateIs(e, w, content);
    SayExactly(e, w);
    if on.Some? { SayExactly(e, on.value); }
  }

  /** It is kept if and only if it is not the winner written twice, and says something what it was made on does not,
      and something the winner does not. */
  lemma KeptExactly(s: Settler, before: Revs, e: Element, on: Option<Element>)
    requires e in before && IsDecided(s, before, e, on)
    ensures var w := Standing(before, e.id);
      IsKept(s, before, e) <==>
        && !(e.version == w.version && e.nonce == w.nonce && NoneDiffers(e, w))
        && (on.Some? ==> SayApart(e, on.value)) && SayApart(e, w)
  {
    FateExactly(e, Standing(before, e.id), before[e].baseContent, on);
  }

  /** And if it is not, it goes with nothing written for it: what it says, it says as what it was made on, or as the
      winner does. */
  lemma KeptOrGone(s: Settler, before: Revs, plan: Plan, now: Revs, e: Element, on: Option<Element>)
    requires Settled(s, before, plan, now) && FreshIds(s, before) && e in before && IsDecided(s, before, e, on)
    ensures e !in now && e in plan
    ensures IsKept(s, before, e) ==> exists spot :: KeptCopy(e, s.ids(e), spot) in now
    ensures !IsKept(s, before, e) ==> plan[e] == map[]
  {
    SaidAgainExactly(s, before, e);
    DecidedGoes(s, before, plan, e, on);
    GoneIsGone(s, before, plan, now, e);
    if IsKept(s, before, e) {
      var spot := CopyIsThere(s, before, plan, now, e);
    } else {
      NothingWritten(s, before, e, plan[e]);
    }
  }

  lemma DecidedGoes(s: Settler, before: Revs, plan: Plan, e: Element, on: Option<Element>)
    requires IsPlan(s, before, before.Keys, plan) && e in before && IsDecided(s, before, e, on)
    ensures e in plan && IsWritingFor(s, before, e, plan[e])
  {
    assert Goes(VerdictOn(s, before, e));
  }

  lemma NothingWritten(s: Settler, before: Revs, e: Element, written: map<Element, Meta>)
    requires e in before && IsWritingFor(s, before, e, written)
    requires !VerdictOn(s, before, e).SaidAgain? && !VerdictOn(s, before, e).Kept?
    ensures written == map[]
  {
    var spot :| written == WrittenFor(s, before, Standing(before, e.id), e, spot);
  }

  lemma GoneIsGone(s: Settler, before: Revs, plan: Plan, now: Revs, e: Element)
    requires Settled(s, before, plan, now) && FreshIds(s, before) && e in plan
    ensures e in before && e !in now
  {
    PassLeaves(s, before, plan, now);
    if e in now {
      var f :| f in plan && e in plan[f];
      WrittenIsNew(s, before, plan, f, e);
    }
  }
}
