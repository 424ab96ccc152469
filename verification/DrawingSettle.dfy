/** Settling the versions of a drawing that lost (`settleExcalidraw` in
    `packages/plugin/src/excalidraw-model.ts`): what one pass does to the revisions, and what it
    keeps of everything it removes. */
module DrawingSettle {
  import opened Json
  import opened DrawingMerge
  import opened DrawingModel

  /** Who settles: which revisions are this vault's, which a take-over fill wrote, and what is
      derived from a losing version's key. */
  datatype Settler = Settler(
    ours: Element -> bool, fill: Element -> bool, ids: Element -> CopyIds, againNonce: Element -> int)

  datatype Verdict = Stays | Superseded | LeftToAuthor | SaidAgain | Converged(why: Fate) | Kept(why: Fate)

  /** What a pass does with `e`, where `winner` is the version that stands. */
  function Judge(s: Settler, revs: Revs, winner: Element, e: Element): Verdict
    requires e in revs && winner in revs
  {
    if e == winner then Stays else JudgeLoser(s, winner, revs[winner].base, e, revs[e].baseContent)
  }

  function JudgeLoser(s: Settler, winner: Element, base: Option<Pair>, e: Element,
      baseContent: Option<Content>): Verdict
  {
    if winner.version > e.version && base == Some(PairOf(e)) then Superseded
    else if !s.fill(e) && !s.ours(e) then LeftToAuthor
    else if !s.fill(e) && IsDelete(e) && !IsDelete(winner) && OnlyBookkeeping(e, winner) then SaidAgain
    else
      var fate := FateOf(e, winner, baseContent);
      if fate == KeepFromDelete || fate == KeepFromEdit then Kept(fate) else Converged(fate)
  }

  /** A delete said again, one version above the one it lost to and made on it. */
  function Again(s: Settler, winner: Element, e: Element): Element {
    Element(e.id, winner.version + 1, s.againNonce(e), e.fields)
  }

  function AgainMeta(revs: Revs, winner: Element, e: Element): Meta
    requires e in revs
  {
    Meta(Some(PairOf(winner)), Some(ContentOf(winner)), revs[e].at)
  }

  /** The parts of a kept copy, as they are written. */
  function PartsMap(parts: seq<Element>): map<Element, Meta> {
    map c | c in parts :: NO_META
  }

  /** What is written as `e` goes: a delete said again, or a kept copy drawn at `spot`. */
  function WrittenFor(s: Settler, before: Revs, winner: Element, e: Element, spot: Spot): map<Element, Meta>
    requires e in before && winner in before
  {
    WrittenAs(Judge(s, before, winner, e), s, before, winner, e, spot)
  }

  function WrittenAs(v: Verdict, s: Settler, before: Revs, winner: Element, e: Element, spot: Spot): map<Element, Meta>
    requires e in before
  {
    match v
    case SaidAgain => map[Again(s, winner, e) := AgainMeta(before, winner, e)]
    case Kept(_) => PartsMap(KeptParts(e, s.ids(e), spot))
    case _ => map[]
  }

  predicate Goes(v: Verdict) {
    !v.Stays? && !v.LeftToAuthor?
  }

  /** One version gone, with what is written as it goes; a revision already there is not written over. */
  function Replace(now: Revs, e: Element, written: map<Element, Meta>): Revs {
    (written + now) - {e}
  }

  // ---- A whole pass ----

  ghost function VerdictOn(s: Settler, before: Revs, e: Element): Verdict
    requires e in before
  {
    Judge(s, before, Standing(before, e.id), e)
  }

  /** What goes, with what is written as it goes. */
  type Plan = map<Element, map<Element, Meta>>

  /** `plan` is what the verdicts on `done` ask for. */
  ghost predicate IsPlan(s: Settler, before: Revs, done: set<Element>, plan: Plan) {
    && (forall e | e in plan :: e in done && e in before && Goes(VerdictOn(s, before, e)))
    && (forall e | e in done && e in before && Goes(VerdictOn(s, before, e)) :: e in plan)
    && (forall e | e in plan && e in before :: IsWritingFor(s, before, e, plan[e]))
  }

  ghost predicate IsWritingFor(s: Settler, before: Revs, e: Element, written: map<Element, Meta>)
    requires e in before
  {
    exists spot :: written == WrittenFor(s, before, Standing(before, e.id), e, spot)
  }

  /** `now` is `before` with everything in the plan gone, and what the plan writes written. */
  ghost predicate CarriedOut(before: Revs, plan: Plan, now: Revs) {
    && (forall e | e in before && e !in plan :: e in now && now[e] == before[e])
    && (forall c | c in now && (c !in before || c in plan) :: IsWrittenBy(plan, c, now[c]))
    && (forall e, c | e in plan && c in plan[e] :: c in now || c in plan)
  }

  ghost predicate IsWrittenBy(plan: Plan, c: Element, meta: Meta) {
    exists e | e in plan :: c in plan[e] && plan[e][c] == meta
  }

  /** A pass that took `before` to `now`. */
  ghost predicate Settled(s: Settler, before: Revs, plan: Plan, now: Revs) {
    IsPlan(s, before, before.Keys, plan) && CarriedOut(before, plan, now)
  }

  lemma CarryOutOne(before: Revs, plan: Plan, now: Revs, e: Element, written: map<Element, Meta>)
    requires CarriedOut(before, plan, now) && e in before && e !in plan
    ensures CarriedOut(before, plan[e := written], Replace(now, e, written))
  {
    var plan', now' := plan[e := written], Replace(now, e, written);
    forall c | c in now' && (c !in before || c in plan')
      ensures IsWrittenBy(plan', c, now'[c])
    {
      if c in now {
        assert IsWrittenBy(plan, c, now[c]);
        var d :| d in plan && c in plan[d] && plan[d][c] == now[c];
        assert d in plan' && plan'[d] == plan[d];
      } else {
        assert plan'[e] == written && c in written;
      }
    }
    forall d, c | d in plan' && c in plan'[d]
      ensures c in now' || c in plan'
    {
      if d != e { assert d in plan && c in plan[d]; }
    }
  }

  // ---- A pass, version by version ----

  /** One version settled: what it was found to be, and what was written as it went. */
  datatype Act = Act(e: Element, verdict: Verdict, written: map<Element, Meta>)

  ghost predicate IsActOn(s: Settler, before: Revs, act: Act) {
    act.e in before && act.verdict == VerdictOn(s, before, act.e) && IsWritingFor(s, before, act.e, act.written)
  }

  ghost function After(now: Revs, act: Act): Revs {
    if Goes(act.verdict) then Replace(now, act.e, act.written) else now
  }

  /** What the revisions are once those versions are settled, in that order. */
  ghost function Run(before: Revs, trace: seq<Act>): Revs {
    if trace == [] then before
    else After(Run(before, trace[..|trace| - 1]), trace[|trace| - 1])
  }

  ghost function PlanOf(trace: seq<Act>): Plan {
    if trace == [] then map[]
    else
      var act := trace[|trace| - 1];
      var plan := PlanOf(trace[..|trace| - 1]);
      if Goes(act.verdict) then plan[act.e := act.written] else plan
  }

  function Elements(trace: seq<Act>): set<Element> {
    set act | act in trace :: act.e
  }

  /** Versions settled one after another, each once and by its verdict. */
  ghost predicate IsTrace(s: Settler, before: Revs, trace: seq<Act>) {
    trace == [] ||
    (var n := |trace| - 1;
     IsTrace(s, before, trace[..n]) && IsActOn(s, before, trace[n]) && trace[n].e !in Elements(trace[..n]))
  }

  lemma {:induction false} TraceHoldsAt(s: Settler, before: Revs, trace: seq<Act>, i: nat)
    requires IsTrace(s, before, trace) && i < |trace|
    ensures IsActOn(s, before, trace[i])
  {
    var n := |trace| - 1;
    if i < n {
      TraceHoldsAt(s, before, trace[..n], i);
      assert trace[..n][i] == trace[i];
    }
  }

  lemma TraceHolds(s: Settler, before: Revs, trace: seq<Act>)
    requires IsTrace(s, before, trace)
    ensures forall i | 0 <= i < |trace| :: IsActOn(s, before, trace[i])
  {
    forall i | 0 <= i < |trace|
      ensures IsActOn(s, before, trace[i])
    {
      TraceHoldsAt(s, before, trace, i);
    }
  }

  lemma TraceOne(s: Settler, before: Revs, trace: seq<Act>, act: Act)
    requires IsTrace(s, before, trace) && IsActOn(s, before, act) && act.e !in Elements(trace)
    ensures IsTrace(s, before, trace + [act])
    ensures Run(before, trace + [act]) == After(Run(before, trace), act)
    ensures Elements(trace + [act]) == Elements(trace) + {act.e}
  {
    assert (trace + [act])[..|trace|] == trace;
    assert forall a :: a in trace + [act] <==> a in trace || a == act;
  }

  lemma {:induction false} PlanOfHolds(trace: seq<Act>, e: Element)
    ensures e in PlanOf(trace) ==>
      exists i | 0 <= i < |trace| :: trace[i].e == e && Goes(trace[i].verdict) && PlanOf(trace)[e] == trace[i].written
    ensures forall i | 0 <= i < |trace| && trace[i].e == e && Goes(trace[i].verdict) :: e in PlanOf(trace)
  {
    if trace != [] {
      var n := |trace| - 1;
      PlanOfHolds(trace[..n], e);
      if trace[n].e == e && Goes(trace[n].verdict) {
      } else if e in PlanOf(trace) {
        var i :| 0 <= i < n && trace[..n][i].e == e && Goes(trace[..n][i].verdict)
            && PlanOf(trace)[e] == trace[..n][i].written;
        assert trace[i] == trace[..n][i];
      }
      forall i | 0 <= i < n && trace[i].e == e && Goes(trace[i].verdict)
        ensures e in PlanOf(trace)
      {
        assert trace[..n][i] == trace[i];
      }
    }
  }

  /** Settling version by version carries out a plan. */
  lemma {:induction false} TraceCarriesOut(s: Settler, before: Revs, trace: seq<Act>)
    requires IsTrace(s, before, trace)
    ensures CarriedOut(before, PlanOf(trace), Run(before, trace))
  {
    if trace != [] {
      var n := |trace| - 1;
      TraceCarriesOut(s, before, trace[..n]);
      PlanOfHolds(trace[..n], trace[n].e);
      assert forall i | 0 <= i < n :: trace[..n][i] in trace[..n] && trace[..n][i].e in Elements(trace[..n]);
      CarryOutOne(before, PlanOf(trace[..n]), Run(before, trace[..n]), trace[n].e, trace[n].written);
    }
  }

  /** Settling every version, each by its verdict, is a pass. */
  lemma TraceSettles(s: Settler, before: Revs, trace: seq<Act>)
    requires IsTrace(s, before, trace) && Elements(trace) == before.Keys
    ensures Settled(s, before, PlanOf(trace), Run(before, trace))
  {
    TraceCarriesOut(s, before, trace);
    TraceHolds(s, before, trace);
    forall e
      ensures e in PlanOf(trace) <==> e in before && Goes(VerdictOn(s, before, e))
      ensures e in PlanOf(trace) ==> e in before && IsWritingFor(s, before, e, PlanOf(trace)[e])
    {
      PlanOfHolds(trace, e);
      assert e in before ==> e in Elements(trace);
    }
  }

  /** A pass that writes nothing. */
  ghost predicate WritesNothing(plan: Plan) {
    forall e | e in plan :: plan[e] == map[]
  }

  lemma WriteFreePass(s: Settler, before: Revs, plan: Plan, now: Revs)
    requires Settled(s, before, plan, now) && WritesNothing(plan)
    ensures forall e :: e in now <==> e in before && e !in plan
    ensures forall e | e in now :: now[e] == before[e]
  {
    forall c | c in now
      ensures c in before && c !in plan
    {
      assert c !in before || c in plan ==> IsWrittenBy(plan, c, now[c]);
    }
  }

  // ---- What a pass removes, and what becomes of it ----

  lemma StandingStays(s: Settler, before: Revs, plan: Plan, now: Revs, id: string)
    requires Settled(s, before, plan, now) && id in Ids(before)
    ensures Standing(before, id) in now && now[Standing(before, id)] == before[Standing(before, id)]
  {
    var w := Standing(before, id);
    assert w in before && w.id == id;
    assert VerdictOn(s, before, w).Stays?;
    assert w !in plan;
  }

  lemma StandingBeats(before: Revs, e: Element)
    requires e in before && e != Standing(before, e.id)
    ensures Beats(Standing(before, e.id), e)
  {
    assert e in VersionsOf(before, e.id);
  }

  /** Settling, like editing, removes a revision only where a version of the element that beats it is there. */
  lemma SettleRemovesOnlyBeaten(s: Settler, before: Revs, plan: Plan, now: Revs)
    requires Settled(s, before, plan, now)
    ensures RemovesOnlyBeaten(before, now)
  {
    forall e | e in before && e !in now
      ensures exists w | w in now :: w.id == e.id && Beats(w, e)
    {
      assert e.id in Ids(before);
      assert e in plan && Goes(VerdictOn(s, before, e));
      assert e != Standing(before, e.id);
      StandingStays(s, before, plan, now, e.id);
      StandingBeats(before, e);
    }
  }

  /** `e` was what `w` was made on, and `w`'s author had seen it. */
  predicate WasMadeOn(revs: Revs, w: Element, e: Element)
    requires w in revs
  {
    w.id == e.id && w.version > e.version && revs[w].base == Some(PairOf(e))
  }

  /** Its base, or the version that stands, says what `e` says: every field it has with a value in it. */
  predicate SaidElsewhere(e: Element, w: Element, meta: Meta) {
    || (meta.baseContent.Some? && SameContent(ContentOf(e), meta.baseContent.value, false))
    || SameContent(ContentOf(e), ContentOf(w), false)
  }

  /** `e` and `w` are taken for one version written twice: no field both have differs, whatever else either has. */
  predicate IsWrittenTwice(e: Element, w: Element) {
    PairOf(e) == PairOf(w) && SameContent(ContentOf(e), ContentOf(w), true)
  }

  /** `e` is a delete, said again one version above `w`, which differs from it in nothing a person changes. */
  ghost predicate IsSaidAgain(e: Element, w: Element, now: Revs) {
    && IsDelete(e) && OnlyBookkeeping(e, w)
    && exists c | c in now :: c.id == e.id && c.version == w.version + 1 && c.fields == e.fields
  }

  /** The copy derived from `e`, under the copy's own id, is in the drawing; or was before the pass, and a
      version that beats it is. */
  ghost predicate HasCopy(s: Settler, before: Revs, now: Revs, e: Element) {
    s.ids(e).copy != e.id && exists spot :: IsOrWas(before, now, KeptCopy(e, s.ids(e), spot))
  }

  ghost predicate IsOrWas(before: Revs, now: Revs, c: Element) {
    c in now || (c in before && exists w | w in now :: w.id == c.id && Beats(w, c))
  }

  /** A copy is kept under another id than the element has. */
  ghost predicate DerivesIds(s: Settler) {
    forall e :: s.ids(e).copy != e.id
  }

  /** What becomes of every revision a pass removes, where `w` is the version that stands. */
  ghost predicate Accounted(s: Settler, before: Revs, now: Revs, e: Element)
    requires e in before
  {
    var w := Standing(before, e.id);
    && w in now && Beats(w, e)
    && (|| WasMadeOn(before, w, e)
        || ((s.ours(e) || s.fill(e))
            && (ReadsDeleted(e) || SaidElsewhere(e, w, before[e]) || IsWrittenTwice(e, w)
                || IsSaidAgain(e, w, now) || HasCopy(s, before, now, e))))
  }

  /** No writing is lost: whatever a pass removes was built on by what stands; or it is this vault's own
      or a fill's, and is a delete, or says what its base or the winner says, or is taken for the winner
      written twice, or is said again, or is kept as a copy. */
  lemma NothingLost(s: Settler, before: Revs, plan: Plan, now: Revs, e: Element)
    requires Settled(s, before, plan, now) && e in before && e !in now && DerivesIds(s)
    ensures Accounted(s, before, now, e)
  {
    assert e.id in Ids(before);
    var w := Standing(before, e.id);
    assert e in plan && Goes(VerdictOn(s, before, e));
    StandingStays(s, before, plan, now, e.id);
    StandingBeats(before, e);
    VerdictMeans(s, w, before[w].base, e, before[e]);
    if VerdictOn(s, before, e).SaidAgain? {
      SaidAgainThere(s, before, plan, now, e);
    } else if VerdictOn(s, before, e).Kept? {
      KeptThere(s, before, plan, now, e);
    }
  }

  // ---- What goes with a version taken for the winner written twice ----

  predicate Says(c: Content, k: string, v: Json) {
    k in c && c[k] == v
  }

  /** A field with a value in it that `e` says, and neither what stands nor what `e` was made on does. */
  predicate IsFieldLost(e: Element, w: Element, baseContent: Option<Content>, k: string) {
    var c := ContentOf(e);
    && k in c && !EmptyLike(c[k]) && !Says(ContentOf(w), k, c[k])
    && (baseContent.Some? ==> !Says(baseContent.value, k, c[k]))
  }

  /** Of two that say the same, what one says with a value in it the other says alike, or lacks where that is let go. */
  lemma SaidAlike(c: Content, other: Content, oneSidedIsFill: bool, k: string)
    requires SameContent(c, other, oneSidedIsFill) && k in c && !EmptyLike(c[k])
    ensures Says(other, k, c[k]) || (oneSidedIsFill && k !in other)
  {
    assert k in c.Keys + other.Keys;
  }

  /** What a version that converges and is no delete says is lost in exactly the fields the winner does not
      have, and its base not as `e` has them, where the two are taken for one version written twice. */
  lemma LostExactly(e: Element, w: Element, baseContent: Option<Content>, k: string)
    requires var fate := FateOf(e, w, baseContent); fate.WrittenTwice? || fate.OnlyMoved? || fate.SaysTheSame?
    ensures IsFieldLost(e, w, baseContent, k) <==>
      && IsWrittenTwice(e, w)
      && k in ContentOf(e) && k !in ContentOf(w) && !EmptyLike(ContentOf(e)[k])
      && (baseContent.Some? ==> !Says(baseContent.value, k, ContentOf(e)[k]))
  {
    var c, other := ContentOf(e), ContentOf(w);
    if k in c && !EmptyLike(c[k]) {
      if IsWrittenTwice(e, w) {
        SaidAlike(c, other, true, k);
      } else if FateOf(e, w, baseContent).OnlyMoved? {
        SaidAlike(c, baseContent.value, false, k);
      } else {
        SaidAlike(c, other, false, k);
      }
    }
  }

  lemma TwiceConverges(s: Settler, w: Element, e: Element)
    requires IsWrittenTwice(e, w) && !ReadsDeleted(e) && s.ours(e)
    ensures JudgeLoser(s, w, None, e, None) == Converged(WrittenTwice)
  {
  }

  /** The map has these two revisions, new to it, and no other. */
  ghost predicate AreBoth(revs: Revs, a: Element, b: Element) {
    (forall o :: o in revs <==> o == a || o == b) && revs[a] == revs[b] == NO_META
  }

  ghost predicate IsAllOf(now: Revs, e: Element) {
    forall o :: o in now <==> o == e
  }

  lemma TwiceVerdicts(s: Settler, before: Revs, e: Element, w: Element)
    requires AreBoth(before, e, w) && e != w && e.id == w.id && Standing(before, e.id) == w
    requires IsWrittenTwice(e, w) && !ReadsDeleted(e) && s.ours(e)
    ensures VerdictOn(s, before, e) == Converged(WrittenTwice) && VerdictOn(s, before, w) == Stays
  {
    TwiceConverges(s, w, e);
  }

  lemma TwicePlan(s: Settler, before: Revs, e: Element, w: Element, plan: Plan)
    requires AreBoth(before, e, w) && e != w && IsPlan(s, before, before.Keys, plan)
    requires VerdictOn(s, before, e) == Converged(WrittenTwice) && VerdictOn(s, before, w) == Stays
    ensures (forall o :: o in plan <==> o == e) && WritesNothing(plan)
  {
    assert IsWritingFor(s, before, e, plan[e]);
  }

  lemma TwiceLeaves(before: Revs, e: Element, w: Element, plan: Plan, now: Revs)
    requires AreBoth(before, e, w) && e != w
    requires (forall o :: o in plan <==> o == e) && forall o :: o in now <==> o in before && o !in plan
    ensures IsAllOf(now, w)
  {
    assert w in before && w !in plan;
  }

  /** Of two versions of this vault's, new to it and taken for one written twice, a pass leaves one alone. */
  lemma OneOfTwo(s: Settler, before: Revs, e: Element, w: Element, plan: Plan, now: Revs)
    requires AreBoth(before, e, w) && e != w && e.id == w.id && Standing(before, e.id) == w
    requires IsWrittenTwice(e, w) && !ReadsDeleted(e) && s.ours(e)
    requires Settled(s, before, plan, now)
    ensures IsAllOf(now, w)
  {
    TwiceVerdicts(s, before, e, w);
    TwicePlan(s, before, e, w, plan);
    WriteFreePass(s, before, plan, now);
    TwiceLeaves(before, e, w, plan, now);
  }

  /** A version that says one thing. */
  function Saying(k: string, v: Json): Element
    requires PlainField(k)
  {
    Element("a", 1, 7, map[k := v])
  }

  predicate IsPlainContent(k: string) {
    PlainField(k) && k !in NOT_CONTENT && k != "type" && k != "isDeleted"
  }

  lemma SayingSays(k: string, v: Json)
    requires IsPlainContent(k)
    ensures ContentOf(Saying(k, v)) == map[k := v, "id" := Str("a")] && !ReadsDeleted(Saying(k, v))
  {
  }

  /** Two that say one thing each, of different fields, are taken for one version written twice. */
  lemma ApartIsTwice(k: string, v: Json, l: string, u: Json)
    requires IsPlainContent(k) && IsPlainContent(l) && k != l
    ensures IsWrittenTwice(Saying(k, v), Saying(l, u))
    ensures k !in ContentOf(Saying(l, u)) && Says(ContentOf(Saying(k, v)), k, v)
  {
    SayingSays(k, v);
    SayingSays(l, u);
  }

  lemma LinksAndColours()
    ensures IsPlainContent("link") && IsPlainContent("strokeColor") && "link" != "strokeColor"
  {
    assert |"link"| == 4 && |"strokeColor"| == 11;
  }

  lemma ApartLoses(k: string, v: Json, l: string, u: Json)
    requires IsPlainContent(k) && IsPlainContent(l) && k != l && !EmptyLike(v)
    ensures IsFieldLost(Saying(k, v), Saying(l, u), None, k)
  {
    ApartIsTwice(k, v, l, u);
  }

  /** So writing can go: of two versions of one element that share version and nonce and say one thing each,
      a pass removes the one that loses, and what only it says is nowhere. */
  lemma OneSidedGoes(s: Settler, before: Revs, a: Element, k: string, v: Json, b: Element, l: string, u: Json,
                     plan: Plan, now: Revs)
    requires IsPlainContent(k) && IsPlainContent(l) && k != l && !EmptyLike(v) && !EmptyLike(u)
    requires a == Saying(k, v) && b == Saying(l, u) && AreBoth(before, a, b)
    requires s.ours(a) && s.ours(b) && Settled(s, before, plan, now)
    ensures IsFieldLost(a, b, None, k) && IsFieldLost(b, a, None, l)
    ensures IsAllOf(now, a) || IsAllOf(now, b)
  {
    ApartLoses(k, v, l, u);
    ApartLoses(l, u, k, v);
    ApartIsTwice(k, v, l, u);
    ApartIsTwice(l, u, k, v);
    SayingSays(k, v);
    SayingSays(l, u);
    assert a in before;
    OneIsLeft(s, before, a, b, Standing(before, a.id), plan, now);
  }

  lemma OneIsLeft(s: Settler, before: Revs, a: Element, b: Element, w: Element, plan: Plan, now: Revs)
    requires AreBoth(before, a, b) && a != b && a.id == b.id
    requires IsWrittenTwice(a, b) && IsWrittenTwice(b, a) && !ReadsDeleted(a) && !ReadsDeleted(b)
    requires s.ours(a) && s.ours(b) && Settled(s, before, plan, now) && a in before && w == Standing(before, a.id)
    ensures IsAllOf(now, a) || IsAllOf(now, b)
  {
    if w == b {
      OneOfTwo(s, before, a, b, plan, now);
    } else {
      OneOfTwo(s, before, b, a, plan, now);
    }
  }

  /** What each verdict on a version that goes says of it. */
  lemma VerdictMeans(s: Settler, w: Element, base: Option<Pair>, e: Element, meta: Meta)
    ensures var v := JudgeLoser(s, w, base, e, meta.baseContent);
      && (v.Superseded? ==> w.version > e.version && base == Some(PairOf(e)))
      && (v.SaidAgain? || v.Converged? || v.Kept? ==> s.ours(e) || s.fill(e))
      && (v.Converged? ==> ReadsDeleted(e) || SaidElsewhere(e, w, meta) || IsWrittenTwice(e, w))
  {
  }

  lemma SaidAgainThere(s: Settler, before: Revs, plan: Plan, now: Revs, e: Element)
    requires Settled(s, before, plan, now) && e in before && VerdictOn(s, before, e).SaidAgain?
    ensures Again(s, Standing(before, e.id), e) in now
    ensures IsSaidAgain(e, Standing(before, e.id), now)
  {
    AgainWritten(s, before, plan, e);
    AgainIsNew(s, before, e);
    WrittenIsThere(before, plan, now, e, Again(s, Standing(before, e.id), e));
    AgainIsSaid(s, Standing(before, e.id), e, before[Standing(before, e.id)].base, before[e], now);
  }

  lemma WrittenIsThere(before: Revs, plan: Plan, now: Revs, e: Element, c: Element)
    requires CarriedOut(before, plan, now) && e in plan && c in plan[e] && c !in plan
    ensures c in now
  {
  }

  lemma AgainIsSaid(s: Settler, w: Element, e: Element, base: Option<Pair>, meta: Meta, now: Revs)
    requires JudgeLoser(s, w, base, e, meta.baseContent).SaidAgain? && w.id == e.id && Again(s, w, e) in now
    ensures IsSaidAgain(e, w, now)
  {
  }

  lemma AgainWritten(s: Settler, before: Revs, plan: Plan, e: Element)
    requires IsPlan(s, before, before.Keys, plan) && e in before && VerdictOn(s, before, e).SaidAgain?
    ensures e in plan && Again(s, Standing(before, e.id), e) in plan[e]
    ensures forall c | c in plan :: c in before
  {
    assert IsWritingFor(s, before, e, plan[e]);
  }

  /** A delete said again is a version the document did not have: it beats everything of its element. */
  lemma AgainIsNew(s: Settler, before: Revs, e: Element)
    requires e in before
    ensures var c := Again(s, Standing(before, e.id), e);
      c !in before && forall o | o in before && o.id == e.id :: c.version > o.version && Beats(c, o)
  {
    var w := Standing(before, e.id);
    forall o | o in before && o.id == e.id
      ensures w.version + 1 > o.version
    {
      assert o in VersionsOf(before, e.id);
    }
  }

  lemma KeptThere(s: Settler, before: Revs, plan: Plan, now: Revs, e: Element)
    requires Settled(s, before, plan, now) && e in before && VerdictOn(s, before, e).Kept? && DerivesIds(s)
    ensures HasCopy(s, before, now, e)
  {
    assert e in plan && IsWritingFor(s, before, e, plan[e]);
    var spot := SpotOf(s, before, e, plan[e]);
    var copy := CopyAmongParts(e, s.ids(e), spot);
    assert copy in now || copy in plan;
    if copy !in now {
      SettleRemovesOnlyBeaten(s, before, plan, now);
      assert copy in before;
    }
    assert IsOrWas(before, now, KeptCopy(e, s.ids(e), spot));
  }

  lemma SpotOf(s: Settler, before: Revs, e: Element, written: map<Element, Meta>) returns (spot: Spot)
    requires e in before && VerdictOn(s, before, e).Kept? && IsWritingFor(s, before, e, written)
    ensures written == PartsMap(KeptParts(e, s.ids(e), spot))
  {
    spot :| written == WrittenFor(s, before, Standing(before, e.id), e, spot);
  }

  lemma CopyAmongParts(e: Element, ids: CopyIds, spot: Spot) returns (copy: Element)
    ensures copy == KeptCopy(e, ids, spot) && copy in PartsMap(KeptParts(e, ids, spot)) && IsCopyOf(copy, e)
  {
    copy := KeptCopy(e, ids, spot);
    KeptCopyIsCopy(e, ids, spot);
    InParts(KeptParts(e, ids, spot), 1);
  }

  lemma InParts(parts: seq<Element>, i: nat)
    requires i < |parts|
    ensures parts[i] in PartsMap(parts) && PartsMap(parts)[parts[i]] == NO_META
  {
  }

  /** A version that lost, of another vault's and no fill's, stays for its author unless what stands was made on it. */
  lemma LeftToItsAuthor(s: Settler, before: Revs, plan: Plan, now: Revs, e: Element)
    requires Settled(s, before, plan, now) && e in before
    requires !s.ours(e) && !s.fill(e) && !WasMadeOn(before, Standing(before, e.id), e)
    ensures e in now && now[e] == before[e]
  {
    assert e !in plan;
  }
}
