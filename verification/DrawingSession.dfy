/** An open drawing over whole runs (`packages/plugin/src/excalidraw-live.ts`): attach, edits here, whatever happens
    to the document elsewhere, carrying in and drawing; and what carrying in can take from the document. */
module DrawingSession {
  import opened Json
  import opened DrawingMerge
  import opened DrawingModel
  import opened DrawingLive

  // ---- What a view last held, as it is bound ----

  predicate HasPair(revs: Revs, id: string, p: Pair) {
    exists r | r in revs :: r.id == id && PairOf(r) == p
  }

  /** The latest of the pairs that the document still has. */
  function LastHeld(revs: Revs, id: string, pairs: seq<Pair>): Option<Pair> {
    if pairs == [] then None
    else if HasPair(revs, id, pairs[|pairs| - 1]) then Some(pairs[|pairs| - 1])
    else LastHeld(revs, id, pairs[..|pairs| - 1])
  }

  /** What a view being bound last held of an element: its own version, or the latest before it. */
  function SeedOf(revs: Revs, scene: Scene, history: map<string, seq<Pair>>, id: string): Option<Pair> {
    if id !in scene || id !in Ids(revs) then None
    else if HasPair(revs, id, PairOf(scene[id])) then Some(PairOf(scene[id]))
    else if id in history then LastHeld(revs, id, history[id])
    else None
  }

  function Seeds(revs: Revs, scene: Scene, history: map<string, seq<Pair>>): map<string, Pair> {
    map id | id in scene && SeedOf(revs, scene, history, id).Some? :: SeedOf(revs, scene, history, id).value
  }

  /** Some version of the element with this version and nonce was shown. */
  ghost predicate WasShown(shown: iset<Element>, id: string, p: Pair) {
    exists x | x in shown :: x.id == id && PairOf(x) == p
  }

  ghost predicate IsHistoryOf(history: map<string, seq<Pair>>, shown: iset<Element>) {
    forall id, p | id in history && p in history[id] :: WasShown(shown, id, p)
  }

  lemma {:induction false} LastHeldIn(revs: Revs, id: string, pairs: seq<Pair>)
    ensures LastHeld(revs, id, pairs).Some? ==>
      LastHeld(revs, id, pairs).value in pairs && HasPair(revs, id, LastHeld(revs, id, pairs).value)
  {
    if pairs != [] { LastHeldIn(revs, id, pairs[..|pairs| - 1]); }
  }

  /** The document has this one and none after it; or none of them at all. */
  predicate IsLatest(revs: Revs, id: string, pairs: seq<Pair>, r: Option<Pair>) {
    if r.None? then forall p | p in pairs :: !exists x | x in revs :: x.id == id && PairOf(x) == p
    else
      && (exists x | x in revs :: x.id == id && PairOf(x) == r.value)
      && exists i | 0 <= i < |pairs| ::
        pairs[i] == r.value
        && forall j, x | i < j < |pairs| && x in revs :: !(x.id == id && PairOf(x) == pairs[j])
  }

  lemma {:induction false} LastHeldIsLatest(revs: Revs, id: string, pairs: seq<Pair>)
    ensures IsLatest(revs, id, pairs, LastHeld(revs, id, pairs))
  {
    if pairs != [] {
      var n := |pairs| - 1;
      var before, p := pairs[..n], pairs[n];
      LastHeldIsLatest(revs, id, before);
      if !HasPair(revs, id, p) {
        OneAfter(revs, id, pairs, LastHeld(revs, id, before));
      } else {
        assert pairs[n] == p;
      }
    }
  }

  lemma OneAfter(revs: Revs, id: string, pairs: seq<Pair>, r: Option<Pair>)
    requires pairs != [] && IsLatest(revs, id, pairs[..|pairs| - 1], r) && !HasPair(revs, id, pairs[|pairs| - 1])
    ensures IsLatest(revs, id, pairs, r)
  {
    var n := |pairs| - 1;
    var before := pairs[..n];
    if r.Some? {
      var i :| 0 <= i < n && before[i] == r.value
        && forall j, x | i < j < n && x in revs :: !(x.id == id && PairOf(x) == before[j]);
      assert pairs[i] == r.value;
      forall j, x | i < j < |pairs| && x in revs
        ensures !(x.id == id && PairOf(x) == pairs[j])
      {
        if j < n { assert before[j] == pairs[j]; }
      }
    } else {
      forall p | p in pairs
        ensures !exists x | x in revs :: x.id == id && PairOf(x) == p
      {
        assert p in before || !HasPair(revs, id, p);
      }
    }
  }

  /** What a bound view is taken to have held: of an element the document has, its own version, where the document has
      that; and else the latest before it that the document has. */
  lemma SeedExactly(revs: Revs, scene: Scene, history: map<string, seq<Pair>>, id: string)
    requires id in scene && id in Ids(revs)
    ensures (exists x | x in revs :: x.id == id && PairOf(x) == PairOf(scene[id])) ==>
      SeedOf(revs, scene, history, id) == Some(PairOf(scene[id]))
    ensures (forall x | x in revs :: !(x.id == id && PairOf(x) == PairOf(scene[id]))) && id in history ==>
      IsLatest(revs, id, history[id], SeedOf(revs, scene, history, id))
  {
    if id in history { LastHeldIsLatest(revs, id, history[id]); }
  }

  lemma SeedWasShown(revs: Revs, scene: Scene, history: map<string, seq<Pair>>, shown: iset<Element>, id: string)
    requires IsScene(scene) && IsHistoryOf(history, shown) && forall i | i in scene :: scene[i] in shown
    ensures var p := SeedOf(revs, scene, history, id); p.Some? ==>
        WasShown(shown, id, p.value) && HasPair(revs, id, p.value)
  {
    if id in history { LastHeldIn(revs, id, history[id]); }
    if id in scene { assert scene[id] in shown; }
  }

  // ---- States and steps ----

  /** A bound view: its document, what it shows, what it last held of each element, and every element it has
      shown, or was seen to show before. */
  datatype State = State(revs: Revs, scene: Scene, seen: map<string, Pair>, shown: iset<Element>)

  ghost function ShownBy(scene: Scene): iset<Element> {
    iset id | id in scene :: scene[id]
  }

  ghost function Attached(revs: Revs, scene: Scene, history: map<string, seq<Pair>>, before: iset<Element>): State {
    State(revs, scene, Seeds(revs, scene, history), before + ShownBy(scene))
  }

  ghost function Edited(st: State, to: Scene): State {
    st.(scene := to, shown := st.shown + ShownBy(to))
  }

  function CarriedIn(scene: Scene, changed: seq<Element>): map<string, Element> {
    map id | id in scene && scene[id] in changed :: scene[id]
  }

  ghost function Carried(st: State, changed: seq<Element>, bases: seq<BaseElement>): State {
    st.(revs := Applied(st.revs, changed, bases), seen := Seen(st.seen, CarriedIn(st.scene, changed)))
  }

  ghost function Drawn(st: State, winners: map<string, Element>, editing: set<string>): State {
    var remote := RemoteFrom(winners, st.scene);
    var next := DrawnScene(st.scene, remote, editing);
    st.(scene := next, seen := Seen(st.seen, DrawnFrom(next, remote)), shown := st.shown + ShownBy(next))
  }

  datatype Step =
    | Edit(to: Scene)
    | Remote(revs: Revs)
    | CarryIn(changed: seq<Element>, bases: seq<BaseElement>)
    | Draw(changed: seq<Element>, bases: seq<BaseElement>, winners: map<string, Element>, editing: set<string>)

  ghost predicate Next(st: State, step: Step, st': State) {
    match step
    case Edit(to) => IsScene(to) && st' == Edited(st, to)
    case Remote(revs) => st' == st.(revs := revs)
    case CarryIn(changed, bases) =>
      Carries(st.revs, st.scene, st.seen, changed, bases) && st' == Carried(st, changed, bases)
    case Draw(changed, bases, winners, editing) =>
      && Carries(st.revs, st.scene, st.seen, changed, bases)
      && AreWinners(winners, Applied(st.revs, changed, bases))
      && st' == Drawn(Carried(st, changed, bases), winners, editing)
  }

  ghost predicate IsStart(st: State) {
    exists history, before :: IsScene(st.scene) && IsHistoryOf(history, before)
      && st == Attached(st.revs, st.scene, history, before)
  }

  ghost predicate IsRun(states: seq<State>, steps: seq<Step>) {
    && |states| == |steps| + 1
    && IsStart(states[0])
    && forall k | 0 <= k < |steps| :: Next(states[k], steps[k], states[k + 1])
  }

  ghost predicate Valid(st: State) {
    IsScene(st.scene) && forall id | id in st.scene :: st.scene[id] in st.shown
  }

  /** Of what the view is taken to have held, some version with that version and nonce was shown. */
  ghost predicate IsHonest(st: State) {
    forall id | id in st.seen :: WasShown(st.shown, id, st.seen[id])
  }

  // ---- What carrying in can take that was never shown ----

  /** The document has a revision with the version and nonce the view last held of its element, which the view
      never showed. */
  ghost predicate IsExposed(st: State, r: Element) {
    IsSeen(st.revs, st.seen, r) && r !in st.shown
  }

  /** An edit to this scene, carried in, removes `r`, and the view never showed it. */
  ghost predicate Loses(st: State, to: Scene, changed: seq<Element>, bases: seq<BaseElement>, r: Element) {
    && IsScene(to) && Carries(st.revs, to, st.seen, changed, bases)
    && r in st.revs && r !in Carried(Edited(st, to), changed, bases).revs
    && r !in Edited(st, to).shown
  }

  function OneUp(e: Element): Element {
    Element(e.id, e.version + 1, e.nonce, e.fields)
  }

  lemma OneBase(r: Element)
    ensures ById([BaseElement(r, false)]) == map[r.id := BaseElement(r, false)]
  {
    var bases := [BaseElement(r, false)];
    assert bases[..0] == [];
  }

  /** One newer version of an element carried in, as made on the version the view last held. */
  lemma OneCarries(revs: Revs, seen: map<string, Pair>, r: Element, e: Element)
    requires IsSeen(revs, seen, r) && e.id == r.id && IsNewer(revs, e)
    ensures Carries(revs, map[e.id := e], seen, [e], [BaseElement(r, false)])
  {
    var bases := [BaseElement(r, false)];
    assert bases[0] in bases;
    assert [e][0] in [e];
  }

  lemma OneCarried(revs: Revs, seen: map<string, Pair>, r: Element, e: Element)
    requires IsSeen(revs, seen, r) && e.id == r.id && IsNewer(revs, e)
    ensures r !in Applied(revs, [e], [BaseElement(r, false)])
  {
    var els, bases := [e], [BaseElement(r, false)];
    assert els[0] in els;
    StandingIsHighest(revs, r);
    OneBase(r);
    AppliedEffect(revs, els, bases);
    assert EffectOn(revs, els, ById(bases), Applied(revs, els, bases), e);
  }

  lemma ExposedIsLost(st: State, r: Element, e: Element)
    requires IsExposed(st, r) && e == OneUp(Standing(st.revs, r.id))
    ensures Loses(st, map[e.id := e], [e], [BaseElement(r, false)], r)
  {
    StandingIsHighest(st.revs, r);
    OneCarries(st.revs, st.seen, r, e);
    OneCarried(st.revs, st.seen, r, e);
    InShownBy(map[e.id := e], r);
  }

  lemma LostWasExposed(st: State, to: Scene, changed: seq<Element>, bases: seq<BaseElement>, r: Element)
    requires Loses(st, to, changed, bases, r)
    ensures IsExposed(st, r)
  {
    CarryPrunesOnlySeen(st.revs, to, st.seen, changed, bases, r);
  }

  ghost predicate CanLose(st: State, r: Element) {
    exists to, changed, bases :: Loses(st, to, changed, bases, r)
  }

  /** Exactly the exposed revisions can be lost unseen by an edit here. */
  lemma ExposedExactly(st: State, r: Element)
    ensures IsExposed(st, r) <==> CanLose(st, r)
  {
    if IsExposed(st, r) {
      ExposedIsLost(st, r, OneUp(Standing(st.revs, r.id)));
    } else if CanLose(st, r) {
      var to, changed, bases :| Loses(st, to, changed, bases, r);
      LostWasExposed(st, to, changed, bases, r);
    }
  }

  /** What counts as drawn shows as drawn, but where it is being edited and not in the scene. */
  lemma DrawnShows(scene: Scene, winners: map<string, Element>, editing: set<string>, id: string)
    requires var remote := RemoteFrom(winners, scene); id in DrawnFrom(DrawnScene(scene, remote, editing), remote)
    requires forall i | i in winners :: winners[i].id == i
    ensures var next := DrawnScene(scene, RemoteFrom(winners, scene), editing);
      && (id in next <==> !(id in editing && id !in scene))
      && (id in next ==> next[id] == winners[id])
  {
  }

  lemma DrawnExposes(st: State, winners: map<string, Element>, editing: set<string>, r: Element)
    requires Valid(st) && AreWinners(winners, st.revs)
    requires var remote := RemoteFrom(winners, st.scene);
      r.id in DrawnFrom(DrawnScene(st.scene, remote, editing), remote)
    ensures IsExposed(Drawn(st, winners, editing), r) <==>
      r in st.revs && r !in st.shown && PairOf(r) == PairOf(winners[r.id])
        && (r == winners[r.id] ==> r.id in editing && r.id !in st.scene)
  {
    DrawnShows(st.scene, winners, editing, r.id);
    InShownBy(DrawnScene(st.scene, RemoteFrom(winners, st.scene), editing), r);
    var st' := Drawn(st, winners, editing);
    assert st'.revs == st.revs && r.id in st'.seen && st'.seen[r.id] == PairOf(winners[r.id]);
    assert r in st'.shown <==> r in st.shown || r in ShownBy(st'.scene);
  }

  lemma UndrawnExposes(st: State, winners: map<string, Element>, editing: set<string>, r: Element)
    requires Valid(st) && AreWinners(winners, st.revs)
    requires var remote := RemoteFrom(winners, st.scene);
      r.id !in DrawnFrom(DrawnScene(st.scene, remote, editing), remote)
    ensures IsExposed(Drawn(st, winners, editing), r) <==> IsExposed(st, r)
  {
    InShownBy(DrawnScene(st.scene, RemoteFrom(winners, st.scene), editing), r);
  }

  /** What drawing exposes: a revision never shown that shares version and nonce with what is drawn, or is
      itself drawn while being edited and not in the scene; and what was exposed and not drawn over. */
  lemma DrawingExposes(st: State, winners: map<string, Element>, editing: set<string>, r: Element)
    requires Valid(st) && AreWinners(winners, st.revs)
    ensures var remote := RemoteFrom(winners, st.scene);
      var drawn := DrawnFrom(DrawnScene(st.scene, remote, editing), remote);
      IsExposed(Drawn(st, winners, editing), r) <==>
        if r.id in drawn
        then r in st.revs && r !in st.shown && PairOf(r) == PairOf(winners[r.id])
          && (r == winners[r.id] ==> r.id in editing && r.id !in st.scene)
        else IsExposed(st, r)
  {
    var remote := RemoteFrom(winners, st.scene);
    if r.id in DrawnFrom(DrawnScene(st.scene, remote, editing), remote) {
      DrawnExposes(st, winners, editing, r);
    } else {
      UndrawnExposes(st, winners, editing, r);
    }
  }

  lemma InShownBy(scene: Scene, e: Element)
    requires IsScene(scene)
    ensures e in ShownBy(scene) <==> e.id in scene && scene[e.id] == e
  {
  }

  /** What carrying in exposes: a revision never shown that shares version and nonce with what is carried in;
      and what was exposed and stays. */
  lemma CarryingExposes(st: State, changed: seq<Element>, bases: seq<BaseElement>, r: Element)
    requires Valid(st) && Carries(st.revs, st.scene, st.seen, changed, bases)
    ensures var after := Carried(st, changed, bases);
      IsExposed(after, r) <==>
        && r in st.revs && r in after.revs && r !in st.shown
        && if r.id in CarriedIn(st.scene, changed) then PairOf(r) == PairOf(st.scene[r.id])
           else IsExposed(st, r)
  {
    AppliedEffect(st.revs, changed, bases);
    assert EffectOn(st.revs, changed, ById(bases), Applied(st.revs, changed, bases), r);
  }

  // ---- An edit on what the view held ----

  /** What is carried in, and what is drawn, the view then holds. */
  lemma HeldFromNowOn(st: State, changed: seq<Element>, bases: seq<BaseElement>, winners: map<string, Element>,
                      editing: set<string>, e: Element)
    requires Valid(st)
    ensures e in changed && e.id in st.scene && st.scene[e.id] == e ==>
      Get(Carried(st, changed, bases).seen, e.id) == Some(PairOf(e))
    ensures e.id in RemoteFrom(winners, st.scene) && winners[e.id] == e && e.id !in editing ==>
      var after := Drawn(st, winners, editing);
      Get(after.seen, e.id) == Some(PairOf(e)) && Get(after.scene, e.id) == Some(e)
  {
  }

  /** A newer version in the view, carried in, takes the one the view last held out of the document, if it has it, and
      names it as what it was made on. */
  lemma NewerTakesItsPlace(st: State, changed: seq<Element>, bases: seq<BaseElement>, r: Element)
    requires Valid(st) && Carries(st.revs, st.scene, st.seen, changed, bases)
    requires IsSeen(st.revs, st.seen, r) && r.id in st.scene && IsNewer(st.revs, st.scene[r.id])
    requires forall x | x in st.revs && x.id == r.id && PairOf(x) == PairOf(r) :: x == r
    ensures r !in Carried(st, changed, bases).revs
    ensures var e, after := st.scene[r.id], Carried(st, changed, bases).revs;
      e in after && (e !in st.revs ==> after[e].base == Some(PairOf(r)))
  {
    var e := st.scene[r.id];
    assert IsNew(st.revs, e);
    assert e in changed && HasSeen(st.revs, st.seen, e.id);
    assert HasBase(bases, e.id);
    SeenBase(st, bases, r);
    StandingIsHighest(st.revs, r);
    AppliedExactly(st.revs, changed, bases, r);
    CarriedIsIn(st.revs, st.scene, st.seen, changed, bases, e);
    if e !in st.revs { NewSaysWhatOn(st.revs, changed, bases, e); }
  }

  lemma SeenBase(st: State, bases: seq<BaseElement>, r: Element)
    requires forall b | b in bases :: IsBaseIn(st.revs, st.scene, st.seen, b)
    requires HasBase(bases, r.id) && IsSeen(st.revs, st.seen, r)
    requires forall x | x in st.revs && x.id == r.id && PairOf(x) == PairOf(r) :: x == r
    ensures r.id in ById(bases) && ById(bases)[r.id] == BaseElement(r, false)
  {
    var b :| b in bases && b.el.id == r.id;
    InById(bases, b);
    var c := ById(bases)[r.id];
    assert c in bases && IsBaseIn(st.revs, st.scene, st.seen, c);
  }

  lemma {:induction false} InById(bases: seq<BaseElement>, b: BaseElement)
    requires b in bases
    ensures b.el.id in ById(bases)
  {
    var n := |bases| - 1;
    if b != bases[n] {
      assert b in bases[..n];
      InById(bases[..n], b);
    }
  }

  // ---- Runs in which nothing unseen is lost ----

  /** Nothing the document has for the view, and the view does not show, counts as being edited. */
  predicate IsClear(scene: Scene, winners: map<string, Element>, editing: set<string>) {
    forall id | id in RemoteFrom(winners, scene) && id in editing :: id in scene
  }

  predicate IsClearStep(st: State, step: Step) {
    step.Draw? ==> IsClear(st.scene, step.winners, step.editing)
  }

  ghost predicate DrawsClear(states: seq<State>, steps: seq<Step>)
    requires |states| == |steps| + 1
  {
    forall k, id | 0 <= k < |steps| && steps[k].Draw? && id in RemoteFrom(steps[k].winners, states[k].scene)
        && id in steps[k].editing :: id in states[k].scene
  }

  /** The document or the view held it at some moment of the run, or the view was seen to show it before. */
  ghost predicate IsKnown(states: seq<State>, x: Element)
    requires states != []
  {
    x in states[0].shown ||
    exists k | 0 <= k < |states| :: x in states[k].revs || (x.id in states[k].scene && states[k].scene[x.id] == x)
  }

  /** No two versions of one element share version and nonce. */
  ghost predicate PairsTell(states: seq<State>)
    requires states != []
  {
    forall x, y | IsKnown(states, x) && IsKnown(states, y) && x.id == y.id && PairOf(x) == PairOf(y) :: x == y
  }

  lemma StartHolds(st: State)
    requires IsStart(st)
    ensures Valid(st) && IsHonest(st)
  {
    var history, before :| IsScene(st.scene) && IsHistoryOf(history, before)
      && st == Attached(st.revs, st.scene, history, before);
    forall id, p | id in history && p in history[id]
      ensures WasShown(st.shown, id, p)
    {
      assert WasShown(before, id, p);
    }
    forall id | id in st.seen
      ensures WasShown(st.shown, id, st.seen[id])
    {
      SeedWasShown(st.revs, st.scene, history, st.shown, id);
    }
  }

  lemma EditHolds(st: State, to: Scene)
    requires Valid(st) && IsScene(to)
    ensures Valid(Edited(st, to)) && (IsHonest(st) ==> IsHonest(Edited(st, to)))
  {
    if IsHonest(st) {
      forall id | id in st.seen
        ensures WasShown(Edited(st, to).shown, id, st.seen[id])
      {
        assert WasShown(st.shown, id, st.seen[id]);
      }
    }
  }

  lemma CarryHolds(st: State, changed: seq<Element>, bases: seq<BaseElement>)
    requires Valid(st)
    ensures Valid(Carried(st, changed, bases)) && (IsHonest(st) ==> IsHonest(Carried(st, changed, bases)))
  {
    if IsHonest(st) {
      var st' := Carried(st, changed, bases);
      forall id | id in st'.seen
        ensures WasShown(st'.shown, id, st'.seen[id])
      {
        if id in CarriedIn(st.scene, changed) {
          assert st.scene[id] in st.shown;
        } else {
          assert WasShown(st.shown, id, st.seen[id]);
        }
      }
    }
  }

  lemma DrawIsHonest(st: State, winners: map<string, Element>, editing: set<string>, id: string)
    requires IsHonest(st) && IsClear(st.scene, winners, editing) && forall i | i in winners :: winners[i].id == i
    requires Valid(st) && id in Drawn(st, winners, editing).seen
    ensures WasShown(Drawn(st, winners, editing).shown, id, Drawn(st, winners, editing).seen[id])
  {
    var st' := Drawn(st, winners, editing);
    if id in DrawnFrom(st'.scene, RemoteFrom(winners, st.scene)) {
      assert st'.scene[id] in ShownBy(st'.scene) && PairOf(st'.scene[id]) == st'.seen[id];
    } else {
      assert WasShown(st.shown, id, st.seen[id]);
    }
  }

  lemma DrawIsValid(st: State, winners: map<string, Element>, editing: set<string>)
    requires Valid(st) && forall id | id in winners :: winners[id].id == id
    ensures Valid(Drawn(st, winners, editing))
  {
    var st' := Drawn(st, winners, editing);
    assert forall id | id in st'.scene :: st'.scene[id] in ShownBy(st'.scene);
  }

  lemma DrawHolds(st: State, winners: map<string, Element>, editing: set<string>)
    requires Valid(st) && forall id | id in winners :: winners[id].id == id
    ensures Valid(Drawn(st, winners, editing))
    ensures IsHonest(st) && IsClear(st.scene, winners, editing) ==> IsHonest(Drawn(st, winners, editing))
  {
    var st' := Drawn(st, winners, editing);
    DrawIsValid(st, winners, editing);
    if IsHonest(st) && IsClear(st.scene, winners, editing) {
      forall id | id in st'.seen
        ensures WasShown(st'.shown, id, st'.seen[id])
      {
        DrawIsHonest(st, winners, editing, id);
      }
    }
  }

  lemma NextHolds(st: State, step: Step, st': State)
    requires Valid(st) && Next(st, step, st')
    ensures Valid(st') && st.shown <= st'.shown
    ensures IsHonest(st) && IsClearStep(st, step) ==> IsHonest(st')
    ensures forall x | x in st'.shown && x !in st.shown :: x.id in st'.scene && st'.scene[x.id] == x
  {
    match step {
      case Edit(to) =>
        EditHolds(st, to);
      case Remote(_) =>
      case CarryIn(changed, bases) =>
        CarryHolds(st, changed, bases);
      case Draw(changed, bases, winners, editing) =>
        CarryHolds(st, changed, bases);
        DrawHolds(Carried(st, changed, bases), winners, editing);
    }
  }

  lemma ClearAt(states: seq<State>, steps: seq<Step>, k: nat)
    requires |states| == |steps| + 1 && k < |steps| && DrawsClear(states, steps)
    ensures IsClearStep(states[k], steps[k])
  {
  }

  lemma StepHolds(states: seq<State>, steps: seq<Step>, k: nat)
    requires IsRun(states, steps) && 0 < k < |states| && Valid(states[k - 1])
    ensures Valid(states[k])
    ensures IsHonest(states[k - 1]) && IsClearStep(states[k - 1], steps[k - 1]) ==> IsHonest(states[k])
  {
    var j := k - 1;
    assert Next(states[j], steps[j], states[j + 1]);
    NextHolds(states[j], steps[j], states[k]);
  }

  lemma {:induction false} RunHolds(states: seq<State>, steps: seq<Step>, k: nat)
    requires IsRun(states, steps) && k < |states|
    ensures Valid(states[k])
  {
    if k == 0 {
      StartHolds(states[0]);
    } else {
      RunHolds(states, steps, k - 1);
      StepHolds(states, steps, k);
    }
  }

  lemma {:induction false} RunIsHonest(states: seq<State>, steps: seq<Step>, k: nat)
    requires IsRun(states, steps) && k < |states| && DrawsClear(states, steps)
    ensures IsHonest(states[k])
  {
    if k == 0 {
      StartHolds(states[0]);
    } else {
      RunIsHonest(states, steps, k - 1);
      RunHolds(states, steps, k - 1);
      ClearAt(states, steps, k - 1);
      StepHolds(states, steps, k);
    }
  }

  lemma {:induction false} ShownIsKnown(states: seq<State>, steps: seq<Step>, k: nat, x: Element)
    requires IsRun(states, steps) && k < |states| && x in states[k].shown
    ensures IsKnown(states, x)
  {
    if k > 0 && x in states[k - 1].shown {
      ShownIsKnown(states, steps, k - 1, x);
    } else if k > 0 {
      RunHolds(states, steps, k - 1);
      NextHolds(states[k - 1], steps[k - 1], states[k]);
    }
  }

  /** In every run in which no two versions of one element share version and nonce, and nothing the document has
      for the view counts as being edited where the view does not show it, no moment exposes a revision: nothing
      is ever carried over that the view had not itself shown. */
  lemma NothingExposed(states: seq<State>, steps: seq<Step>, k: nat, r: Element)
    requires IsRun(states, steps) && k < |states| && PairsTell(states) && DrawsClear(states, steps)
    ensures !IsExposed(states[k], r)
  {
    RunHolds(states, steps, k);
    RunIsHonest(states, steps, k);
    if IsSeen(states[k].revs, states[k].seen, r) {
      assert WasShown(states[k].shown, r.id, states[k].seen[r.id]);
      var x :| x in states[k].shown && x.id == r.id && PairOf(x) == PairOf(r);
      ShownIsKnown(states, steps, k, x);
      assert IsKnown(states, r);
    }
  }

  /** So what carrying in removes, in such a run, was shown, and the view shows a newer version, which is there. */
  lemma RemovedWasShown(states: seq<State>, steps: seq<Step>, k: nat, e: Element)
    requires IsRun(states, steps) && k < |steps| && PairsTell(states) && DrawsClear(states, steps)
    requires (steps[k].CarryIn? || steps[k].Draw?) && e in states[k].revs && e !in states[k + 1].revs
    ensures e in states[k].shown && e.id in states[k].scene && states[k].scene[e.id].version > e.version
    ensures states[k].scene[e.id] in states[k + 1].revs
  {
    var st := states[k];
    assert Next(st, steps[k], states[k + 1]);
    RunHolds(states, steps, k);
    CarryPrunesOnlySeen(st.revs, st.scene, st.seen, steps[k].changed, steps[k].bases, e);
    NothingExposed(states, steps, k, e);
  }

  // ---- Runs in which something unseen is lost ----

  /** The run goes on with an edit here that is carried in, and `r`, never shown, is gone. */
  ghost predicate EndsUnseen(states: seq<State>, steps: seq<Step>, r: Element) {
    && IsRun(states, steps) && |steps| >= 2 && steps[|steps| - 2].Edit? && steps[|steps| - 1].CarryIn?
    && r in states[|steps| - 1].revs && r !in states[|steps|].revs && r !in states[|steps|].shown
  }

  lemma OneMore(states: seq<State>, steps: seq<Step>, step: Step, st: State)
    requires IsRun(states, steps) && Next(states[|steps|], step, st)
    ensures IsRun(states + [st], steps + [step])
  {
    var more, on := states + [st], steps + [step];
    forall k | 0 <= k < |on|
      ensures Next(more[k], on[k], more[k + 1])
    {
      if k < |steps| { assert Next(states[k], steps[k], states[k + 1]); }
    }
  }

  lemma LosingSteps(st: State, to: Scene, changed: seq<Element>, bases: seq<BaseElement>, r: Element)
    requires Loses(st, to, changed, bases, r)
    ensures var s1 := Edited(st, to); var s2 := Carried(s1, changed, bases);
      && Next(st, Edit(to), s1) && Next(s1, CarryIn(changed, bases), s2)
      && r in s1.revs && r !in s2.revs && r !in s2.shown
  {
  }

  lemma LosingEnds(states: seq<State>, steps: seq<Step>, r: Element, edit: Step, s1: State, carry: Step, s2: State)
    requires IsRun(states, steps) && Next(states[|steps|], edit, s1) && Next(s1, carry, s2)
    requires edit.Edit? && carry.CarryIn? && r in s1.revs && r !in s2.revs && r !in s2.shown
    ensures EndsUnseen(states + [s1] + [s2], steps + [edit] + [carry], r)
  {
    OneMore(states, steps, edit, s1);
    OneMore(states + [s1], steps + [edit], carry, s2);
  }

  lemma Prefixes<T>(s: seq<T>, x: T, y: T)
    ensures s <= s + [x] + [y]
  {
  }

  lemma GoesOn(states: seq<State>, steps: seq<Step>, st: State, to: Scene, changed: seq<Element>,
               bases: seq<BaseElement>, r: Element)
    returns (more: seq<State>, on: seq<Step>)
    requires IsRun(states, steps) && st == states[|steps|] && Loses(st, to, changed, bases, r)
    ensures states <= more && steps <= on && EndsUnseen(more, on, r)
  {
    LosingSteps(st, to, changed, bases, r);
    var edit, carry := Edit(to), CarryIn(changed, bases);
    var s1 := Edited(st, to);
    var s2 := Carried(s1, changed, bases);
    LosingEnds(states, steps, r, edit, s1, carry, s2);
    Prefixes(states, s1, s2);
    Prefixes(steps, edit, carry);
    more, on := states + [s1] + [s2], steps + [edit] + [carry];
  }

  /** A run that exposes a revision can lose it. */
  lemma ExposedCanGo(states: seq<State>, steps: seq<Step>, r: Element) returns (more: seq<State>, on: seq<Step>)
    requires IsRun(states, steps) && IsExposed(states[|steps|], r)
    ensures states <= more && steps <= on && EndsUnseen(more, on, r)
  {
    ExposedExactly(states[|steps|], r);
    var to, changed, bases :| Loses(states[|steps|], to, changed, bases, r);
    more, on := GoesOn(states, steps, states[|steps|], to, changed, bases, r);
  }

  /** The draw that ends a run counts `w`, never shown, as drawn, for it is being edited and not in the scene:
      the run can go on to lose it. */
  lemma EditedUnseenGoes(states: seq<State>, steps: seq<Step>, w: Element)
    returns (more: seq<State>, on: seq<Step>)
    requires IsRun(states, steps) && |steps| > 0 && steps[|steps| - 1].Draw?
    requires var d := steps[|steps| - 1];
      && w.id in d.winners && d.winners[w.id] == w && w.id in d.editing && w.id !in states[|steps| - 1].scene
      && !IsDelete(w) && w !in states[|steps| - 1].shown
    ensures states <= more && steps <= on && EndsUnseen(more, on, w)
  {
    var n := |steps| - 1;
    var st, d := states[n], steps[n];
    assert Next(st, d, states[n + 1]);
    RunHolds(states, steps, n);
    var mid := Carried(st, d.changed, d.bases);
    CarryHolds(st, d.changed, d.bases);
    DrawingExposes(mid, d.winners, d.editing, w);
    more, on := ExposedCanGo(states, steps, w);
  }

  /** The view last held `x`, and the document has another revision of its version and nonce, never shown: the
      run can go on to lose it. */
  lemma TwinGoes(states: seq<State>, steps: seq<Step>, x: Element, r: Element)
    returns (more: seq<State>, on: seq<Step>)
    requires IsRun(states, steps)
    requires var st := states[|steps|];
      && x.id in st.seen && st.seen[x.id] == PairOf(x)
      && r in st.revs && r.id == x.id && PairOf(r) == PairOf(x) && r !in st.shown
    ensures states <= more && steps <= on && EndsUnseen(more, on, r)
  {
    more, on := ExposedCanGo(states, steps, r);
  }

  /** A view bound with nothing seen before. */
  lemma BoundAfresh(st: State, revs: Revs, scene: Scene)
    requires IsScene(scene) && st == Attached(revs, scene, map[], iset{})
    ensures IsStart(st) && IsRun([st], []) && st.revs == revs && st.scene == scene && st.shown == ShownBy(scene)
  {
    assert IsHistoryOf(map[], iset{});
    assert st == Attached(st.revs, st.scene, map[], iset{});
  }

  /** Both happen: a view bound to a document whose revision shares the version and nonce of what the view shows
      loses it unseen. */
  lemma BoundToTwin(x: Element, r: Element) returns (states: seq<State>, steps: seq<Step>)
    requires x != r && x.id == r.id && PairOf(x) == PairOf(r)
    ensures EndsUnseen(states, steps, r) && states[0].revs == map[r := NO_META] && states[0].scene == map[x.id := x]
  {
    var revs: Revs, scene: Scene := map[r := NO_META], map[x.id := x];
    var st := Attached(revs, scene, map[], iset{});
    assert r in revs && HasPair(revs, x.id, PairOf(x));
    BoundAfresh(st, revs, scene);
    InShownBy(scene, r);
    states, steps := TwinGoes([st], [], x, r);
    assert states[0] == [st][0];
  }

  /** The first draw of a view that shows nothing, while the document's one element counts as being edited. */
  lemma CarriesNothing(revs: Revs, w: Element, seen: map<string, Pair>)
    requires revs == map[w := NO_META]
    ensures Applied(revs, [], []) == revs && Carries(revs, map[], seen, [], [])
  {
  }

  lemma DrawsEdited(st: State, w: Element, winners: map<string, Element>)
    requires st.revs == map[w := NO_META] && st.scene == map[] && winners == map[w.id := w]
    ensures Next(st, Draw([], [], winners, {w.id}), Drawn(Carried(st, [], []), winners, {w.id}))
  {
    CarriesNothing(st.revs, w, st.seen);
    OnlyStands(st.revs, w);
  }

  /** And a view bound to a document with an element it does not show, which the app state still names as being
      edited, loses it unseen once it has drawn. */
  lemma BoundWhileEditing(w: Element) returns (states: seq<State>, steps: seq<Step>)
    requires !IsDelete(w)
    ensures EndsUnseen(states, steps, w) && states[0].revs == map[w := NO_META] && states[0].scene == map[]
  {
    var revs: Revs, scene: Scene := map[w := NO_META], map[];
    var st := Attached(revs, scene, map[], iset{});
    BoundAfresh(st, revs, scene);
    InShownBy(scene, w);
    var winners := map[w.id := w];
    DrawsEdited(st, w, winners);
    states, steps := DrawnAndGone(st, Draw([], [], winners, {w.id}), w);
  }

  lemma DrawnAndGone(st: State, draw: Step, w: Element) returns (states: seq<State>, steps: seq<Step>)
    requires IsRun([st], []) && draw.Draw? && w.id in draw.winners && draw.winners[w.id] == w && w.id in draw.editing
    requires w.id !in st.scene && !IsDelete(w) && w !in st.shown
    requires Next(st, draw, Drawn(Carried(st, draw.changed, draw.bases), draw.winners, draw.editing))
    ensures EndsUnseen(states, steps, w) && states[0] == st
  {
    var drawn := Drawn(Carried(st, draw.changed, draw.bases), draw.winners, draw.editing);
    OneMore([st], [], draw, drawn);
    var before, first := [st] + [drawn], [] + [draw];
    assert before[0] == st && first[0] == draw && |first| == 1;
    states, steps := EditedUnseenGoes(before, first, w);
    assert states[0] == before[0];
  }

  lemma OnlyStands(revs: Revs, w: Element)
    requires revs.Keys == {w}
    ensures Ids(revs) == {w.id} && Stands(w, revs)
  {
    assert w in revs;
  }
}
