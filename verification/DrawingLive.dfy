/** An open drawing bound to its document (`packages/plugin/src/excalidraw-live.ts`): carrying in what only the
    view holds, and drawing what it lacks.

    Drawing follows the path taken without Excalidraw's own `reconcileElements`. Saves, recorded deletes and
    images are left out. */
module DrawingLive {
  import opened DrawingMerge
  import opened DrawingModel

  /** What a view shows, deleted elements included. */
  type Scene = map<string, Element>

  predicate IsScene(scene: Scene) {
    forall id | id in scene :: scene[id].id == id
  }

  // ---- Carrying in ----

  /** The view's version is above the one the document reads as. */
  ghost predicate IsNewer(revs: Revs, e: Element) {
    e.id in Ids(revs) && e.version > Standing(revs, e.id).version
  }

  /** The document lacks the view's version: the element is new to it, or the version is newer than its own, or
      of the same number with another nonce. */
  ghost predicate IsNew(revs: Revs, e: Element) {
    if e.id !in Ids(revs) then !IsDelete(e)
    else IsNewer(revs, e) || (e.version == Standing(revs, e.id).version && e.nonce != Standing(revs, e.id).nonce)
  }

  /** A version the view last held, that the document still has. */
  predicate IsSeen(revs: Revs, seen: map<string, Pair>, e: Element) {
    e in revs && e.id in seen && PairOf(e) == seen[e.id]
  }

  /** What of a scene is carried in, and the base of each that has one. */
  ghost predicate Carries(revs: Revs, scene: Scene, seen: map<string, Pair>, changed: seq<Element>,
      bases: seq<BaseElement>)
  {
    && (forall e :: e in changed <==> e.id in scene && scene[e.id] == e && IsNew(revs, e))
    && (forall b | b in bases :: IsBaseIn(revs, scene, seen, b))
    && (forall e | e in changed && IsNewer(revs, e) && HasSeen(revs, seen, e.id) :: HasBase(bases, e.id))
  }

  /** A base is a version the view last held, of an element it has a newer version of. */
  ghost predicate IsBaseIn(revs: Revs, scene: Scene, seen: map<string, Pair>, b: BaseElement) {
    !b.unverified && IsSeen(revs, seen, b.el) && b.el.id in scene && IsNewer(revs, scene[b.el.id])
  }

  ghost predicate HasSeen(revs: Revs, seen: map<string, Pair>, id: string) {
    exists r | r in revs :: r.id == id && IsSeen(revs, seen, r)
  }

  predicate HasBase(bases: seq<BaseElement>, id: string) {
    exists b | b in bases :: b.el.id == id
  }

  lemma StandingIsHighest(revs: Revs, r: Element)
    requires r in revs
    ensures r.id in Ids(revs) && r.version <= Standing(revs, r.id).version
  {
    assert r in VersionsOf(revs, r.id);
  }

  /** A base never makes what is carried in pass for unchanged. */
  lemma NonePassed(revs: Revs, scene: Scene, seen: map<string, Pair>, changed: seq<Element>, bases: seq<BaseElement>,
      e: Element)
    requires IsScene(scene) && Carries(revs, scene, seen, changed, bases) && e in changed
    ensures !Passed(e, BaseFor(ById(bases), e.id))
    ensures e.id in ById(bases) ==> IsNewer(revs, e) && IsSeen(revs, seen, ById(bases)[e.id].el)
  {
    if e.id in ById(bases) {
      var b := ById(bases)[e.id];
      assert b in bases && IsBaseIn(revs, scene, seen, b);
      StandingIsHighest(revs, b.el);
    }
  }

  /** Everything the document lacked of the view is in it. */
  lemma CarriedIsIn(revs: Revs, scene: Scene, seen: map<string, Pair>, changed: seq<Element>, bases: seq<BaseElement>,
      e: Element)
    requires IsScene(scene) && Carries(revs, scene, seen, changed, bases) && e in changed
    ensures e in Applied(revs, changed, bases)
  {
    NonePassed(revs, scene, seen, changed, bases, e);
    AppliedEffect(revs, changed, bases);
    assert EffectOn(revs, changed, ById(bases), Applied(revs, changed, bases), e);
  }

  /** Carrying in removes a revision only where the view last held that very version and now shows, and has
      carried in, a newer one. */
  lemma CarryPrunesOnlySeen(revs: Revs, scene: Scene, seen: map<string, Pair>, changed: seq<Element>,
      bases: seq<BaseElement>, e: Element)
    requires IsScene(scene) && Carries(revs, scene, seen, changed, bases)
    requires e in revs && e !in Applied(revs, changed, bases)
    ensures IsSeen(revs, seen, e) && e.id in scene && scene[e.id].version > e.version
    ensures scene[e.id] in Applied(revs, changed, bases)
  {
    AppliedEffect(revs, changed, bases);
    assert EffectOn(revs, changed, ById(bases), Applied(revs, changed, bases), e);
    var el :| el in changed && el in Applied(revs, changed, bases) && IsSupersededBy(e, el, ById(bases));
    NonePassed(revs, scene, seen, changed, bases, el);
  }

  lemma IsHeld(revs: Revs, id: string)
    ensures id in Ids(revs) <==> VersionsOf(revs, id) != {}
  {
    if id in Ids(revs) {
      var e :| e in revs && e.id == id;
      assert e in VersionsOf(revs, id);
    }
  }

  /** Of an element whose version in the view is not new, the document keeps exactly the versions it has. */
  lemma NotNewNotTouched(revs: Revs, scene: Scene, seen: map<string, Pair>, changed: seq<Element>,
      bases: seq<BaseElement>, id: string)
    requires IsScene(scene) && Carries(revs, scene, seen, changed, bases)
    requires id in scene ==> !IsNew(revs, scene[id])
    ensures VersionsOf(Applied(revs, changed, bases), id) == VersionsOf(revs, id)
    ensures id in Ids(Applied(revs, changed, bases)) <==> id in Ids(revs)
  {
    var after := Applied(revs, changed, bases);
    AppliedEffect(revs, changed, bases);
    forall e: Element | e.id == id
      ensures e in after <==> e in revs
    {
      assert EffectOn(revs, changed, ById(bases), after, e);
    }
    IsHeld(after, id);
    IsHeld(revs, id);
  }

  // ---- Drawing ----

  /** The document's version of an element is to be drawn: the view shows another, and there is something to show. */
  predicate NeedsDraw(scene: Scene, w: Element) {
    if w.id in scene then PairOf(scene[w.id]) != PairOf(w) else !IsDelete(w)
  }

  function RemoteFrom(winners: map<string, Element>, scene: Scene): map<string, Element> {
    map id | id in winners && NeedsDraw(scene, winners[id]) :: winners[id]
  }

  /** The scene with what is not being edited drawn. */
  function DrawnScene(scene: Scene, remote: map<string, Element>, editing: set<string>): Scene {
    scene + (remote - editing)
  }

  /** What counts as drawn: what the view shows next at the document's version, or does not show at all. */
  function DrawnFrom(next: Scene, remote: map<string, Element>): map<string, Element> {
    map id | id in remote && (id in next ==> PairOf(next[id]) == PairOf(remote[id])) :: remote[id]
  }

  function Seen(seen: map<string, Pair>, shown: map<string, Element>): map<string, Pair> {
    seen + map id | id in shown :: PairOf(shown[id])
  }

  ghost predicate AreWinners(winners: map<string, Element>, revs: Revs) {
    winners.Keys == Ids(revs) && forall id | id in winners :: winners[id].id == id && Stands(winners[id], revs)
  }

  /** The view shows each element the document holds at the document's version, and lacks only deleted ones;
      what it shows that the document does not hold is deleted. */
  ghost predicate Agrees(revs: Revs, scene: Scene) {
    && (forall id | id in Ids(revs) ::
          if id in scene then PairOf(scene[id]) == PairOf(Standing(revs, id)) else IsDelete(Standing(revs, id)))
    && (forall id | id in scene && id !in Ids(revs) :: IsDelete(scene[id]))
  }

  lemma DrawnAgrees(revs: Revs, scene: Scene, winners: map<string, Element>, id: string)
    requires AreWinners(winners, revs) && id in Ids(revs)
    ensures var next := DrawnScene(scene, RemoteFrom(winners, scene), {});
      if id in next then PairOf(next[id]) == PairOf(Standing(revs, id)) else IsDelete(Standing(revs, id))
  {
    StandingUnique(winners[id], Standing(revs, id), revs);
  }

  /** With nothing being edited, carrying in and then drawing leaves the view on the document. */
  lemma RoundAgrees(revs: Revs, scene: Scene, seen: map<string, Pair>, changed: seq<Element>, bases: seq<BaseElement>,
                    winners: map<string, Element>)
    requires IsScene(scene) && Carries(revs, scene, seen, changed, bases)
    requires AreWinners(winners, Applied(revs, changed, bases))
    ensures Agrees(Applied(revs, changed, bases), DrawnScene(scene, RemoteFrom(winners, scene), {}))
  {
    var after := Applied(revs, changed, bases);
    var next := DrawnScene(scene, RemoteFrom(winners, scene), {});
    forall id | id in Ids(after)
      ensures if id in next then PairOf(next[id]) == PairOf(Standing(after, id)) else IsDelete(Standing(after, id))
    {
      DrawnAgrees(after, scene, winners, id);
    }
    forall id | id in next && id !in Ids(after)
      ensures IsDelete(next[id])
    {
      assert id in scene && next[id] == scene[id];
      if IsNew(revs, scene[id]) {
        CarriedIsIn(revs, scene, seen, changed, bases, scene[id]);
      } else {
        NotNewNotTouched(revs, scene, seen, changed, bases, id);
      }
    }
  }

  lemma AgreedIsNotNew(revs: Revs, scene: Scene, e: Element)
    requires IsScene(scene) && Agrees(revs, scene)
    ensures !(e.id in scene && scene[e.id] == e && IsNew(revs, e))
  {
  }

  lemma NothingToCarry(revs: Revs, scene: Scene, seen: map<string, Pair>, changed: seq<Element>,
      bases: seq<BaseElement>)
    requires IsScene(scene) && Agrees(revs, scene) && Carries(revs, scene, seen, changed, bases)
    ensures changed == []
  {
    assert changed != [] ==> changed[0] in changed;
    forall e
      ensures e !in changed
    {
      AgreedIsNotNew(revs, scene, e);
    }
  }

  /** Once the view is on the document there is nothing to carry in and nothing to draw: a second round changes
      nothing. */
  lemma SecondRoundIsQuiet(revs: Revs, scene: Scene, seen: map<string, Pair>, changed: seq<Element>,
      bases: seq<BaseElement>, winners: map<string, Element>)
    requires IsScene(scene) && Agrees(revs, scene) && Carries(revs, scene, seen, changed, bases)
        && AreWinners(winners, revs)
    ensures changed == [] && RemoteFrom(winners, scene) == map[]
  {
    NothingToCarry(revs, scene, seen, changed, bases);
    forall id | id in winners
      ensures !NeedsDraw(scene, winners[id])
    {
      StandingUnique(winners[id], Standing(revs, id), revs);
    }
  }

  /** Nothing the view alone held is drawn over: what is, the document has, or it is older than what the document
      reads as. */
  lemma DrawnOverIsKept(revs: Revs, scene: Scene, seen: map<string, Pair>, changed: seq<Element>,
      bases: seq<BaseElement>, id: string)
    requires IsScene(scene) && Carries(revs, scene, seen, changed, bases)
    requires id in scene && id in Ids(Applied(revs, changed, bases))
    requires NeedsDraw(scene, Standing(Applied(revs, changed, bases), id))
    ensures var after := Applied(revs, changed, bases);
      (scene[id] in after && Beats(Standing(after, id), scene[id])) || scene[id].version < Standing(after, id).version
  {
    var after, e := Applied(revs, changed, bases), scene[id];
    if IsNew(revs, e) {
      CarriedIsIn(revs, scene, seen, changed, bases, e);
      assert e in VersionsOf(after, id);
    } else {
      NotNewNotTouched(revs, scene, seen, changed, bases, id);
      StandingUnique(Standing(after, id), Standing(revs, id), revs);
    }
  }
}
