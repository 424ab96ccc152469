/** The binding of an open drawing, changed in place (`packages/plugin/src/excalidraw-live.ts`): what the view
    shows, the version of each element it last held, and the document it is bound to. */
module DrawingView {
  import opened Json
  import opened DrawingMerge
  import opened DrawingModel
  import opened DrawingDoc
  import opened DrawingLive
  import opened DrawingSession

  /** The version a view last held, among those the document has of an element. */
  method Find(list: seq<Element>, p: Pair) returns (r: Option<Element>)
    ensures r.Some? ==> r.value in list && PairOf(r.value) == p
    ensures r.None? ==> forall e | e in list :: PairOf(e) != p
  {
    for i := 0 to |list|
      invariant forall j | 0 <= j < i :: PairOf(list[j]) != p
    {
      if PairOf(list[i]) == p {
        return Some(list[i]);
      }
    }
    r := None;
  }

  function WithChange(changed: seq<Element>, e: Element, more: bool): seq<Element> {
    if more then changed + [e] else changed
  }

  function WithBase(bases: seq<BaseElement>, base: Option<Element>): seq<BaseElement> {
    if base.Some? then bases + [BaseElement(base.value, false)] else bases
  }

  /** The document's version that an element of the view was made on: one the view last held. */
  ghost predicate IsMadeFrom(revs: Revs, seen: map<string, Pair>, e: Element, base: Option<Element>) {
    match base
    case Some(b) => IsNewer(revs, e) && b.id == e.id && IsSeen(revs, seen, b)
    case None => IsNewer(revs, e) ==> !HasSeen(revs, seen, e.id)
  }

  /** One more element of the scene looked at. */
  lemma CarriesMore(revs: Revs, scene: Scene, seen: map<string, Pair>, e: Element,
                    changed: seq<Element>, bases: seq<BaseElement>, more: bool, base: Option<Element>)
    requires IsScene(scene) && Carries(revs, scene, seen, changed, bases) && e.id !in scene
    requires more == IsNew(revs, e) && IsMadeFrom(revs, seen, e, base)
    ensures Carries(revs, scene[e.id := e], seen, WithChange(changed, e, more), WithBase(bases, base))
  {
    BasesMore(revs, scene, seen, e, bases, base);
    forall x | x in WithChange(changed, e, more) && IsNewer(revs, x) && HasSeen(revs, seen, x.id)
      ensures HasBase(WithBase(bases, base), x.id)
    {
      assert x == e || x in changed;
    }
  }

  lemma BasesMore(revs: Revs, scene: Scene, seen: map<string, Pair>, e: Element, bases: seq<BaseElement>,
      base: Option<Element>)
    requires IsMadeFrom(revs, seen, e, base) && e.id !in scene
        && forall b | b in bases :: IsBaseIn(revs, scene, seen, b)
    ensures forall b | b in WithBase(bases, base) :: IsBaseIn(revs, scene[e.id := e], seen, b)
    ensures forall id | HasBase(bases, id) :: HasBase(WithBase(bases, base), id)
    ensures base.Some? ==> HasBase(WithBase(bases, base), e.id)
  {
    var more := WithBase(bases, base);
    assert base.Some? ==> more[|bases|] in more;
    assert forall b | b in bases :: b in more;
  }

  /** Gone is only a version this view has shown, of an element whose newer version it shows is there. */
  ghost predicate PrunesOnlyShown(before: Revs, after: Revs, scene: Scene, shown: iset<Element>) {
    forall e | e in before && e !in after ::
      WasShown(shown, e.id, PairOf(e)) && e.id in scene && scene[e.id].version > e.version && scene[e.id] in after
  }

  lemma CarryIsSafe(revs: Revs, scene: Scene, seen: map<string, Pair>, changed: seq<Element>, bases: seq<BaseElement>,
      shown: iset<Element>)
    requires IsScene(scene) && Carries(revs, scene, seen, changed, bases)
    requires forall id | id in seen :: WasShown(shown, id, seen[id])
    ensures PrunesOnlyShown(revs, Applied(revs, changed, bases), scene, shown)
  {
    var after := Applied(revs, changed, bases);
    forall e | e in revs && e !in after
      ensures WasShown(shown, e.id, PairOf(e)) && e.id in scene && scene[e.id].version > e.version
          && scene[e.id] in after
    {
      CarryPrunesOnlySeen(revs, scene, seen, changed, bases, e);
    }
  }

  lemma DrawnIs(scene: Scene, winners: map<string, Element>, editing: set<string>, id: string)
    requires forall i | i in winners :: winners[i].id == i
    ensures var remote := RemoteFrom(winners, scene);
      id in DrawnFrom(DrawnScene(scene, remote, editing), remote) <==>
        id in remote && !(id in editing && id in scene)
  {
  }

  /** What counts as drawn is what is not being edited, or not in the scene: what is held back is the rest. */
  lemma DrawnIsRest(scene: Scene, winners: map<string, Element>, editing: set<string>)
    requires IsScene(scene) && forall id | id in winners :: winners[id].id == id
    ensures var remote := RemoteFrom(winners, scene); var next := DrawnScene(scene, remote, editing);
      && IsScene(next) && DrawnFrom(next, remote).Keys == remote.Keys - editing * scene.Keys
      && (DrawnFrom(next, remote).Keys != remote.Keys <==> remote.Keys * (editing * scene.Keys) != {})
  {
    var remote := RemoteFrom(winners, scene);
    forall id
      ensures id in DrawnFrom(DrawnScene(scene, remote, editing), remote) <==>
        id in remote.Keys - editing * scene.Keys
    {
      DrawnIs(scene, winners, editing, id);
    }
    TakesSome(remote.Keys, editing * scene.Keys);
  }

  lemma NoneDrawnIsSame(scene: Scene, winners: map<string, Element>, editing: set<string>)
    requires forall id | id in winners :: winners[id].id == id
    requires DrawnFrom(DrawnScene(scene, RemoteFrom(winners, scene), editing), RemoteFrom(winners, scene)) == map[]
    ensures DrawnScene(scene, RemoteFrom(winners, scene), editing) == scene
  {
    var remote := RemoteFrom(winners, scene);
    forall id | id in remote
      ensures id in editing
    {
      DrawnIs(scene, winners, editing, id);
    }
    assert remote - editing == map[];
  }

  lemma TakesSome<T>(s: set<T>, t: set<T>)
    ensures s - t != s <==> s * t != {}
  {
    if s * t == {} {
      forall x | x in s
        ensures x !in t
      {
        assert x in t ==> x in s * t;
      }
    } else {
      var x :| x in s * t;
      assert x in s && x !in s - t;
    }
  }

  lemma BeatenTwice(a: Revs, b: Revs, c: Revs)
    requires RemovesOnlyBeaten(a, b) && RemovesOnlyBeaten(b, c)
    ensures RemovesOnlyBeaten(a, c)
  {
    forall e | e in a && e !in c
      ensures exists w | w in c :: w.id == e.id && Beats(w, e)
    {
      if e !in b {
        var w :| w in b && w.id == e.id && Beats(w, e);
        if w !in c {
          var x :| x in c && x.id == w.id && Beats(x, w);
          BeatsTransitive(x, w, e);
        }
      }
    }
  }

  lemma NothingCarried(st: State, changed: seq<Element>, bases: seq<BaseElement>)
    requires changed == []
    ensures Carried(st, changed, bases) == st
  {
  }

  lemma NothingDrawn(st: State, winners: map<string, Element>, editing: set<string>)
    requires Valid(st) && forall id | id in winners :: winners[id].id == id
    requires var remote := RemoteFrom(winners, st.scene);
      DrawnFrom(DrawnScene(st.scene, remote, editing), remote) == map[]
    ensures Drawn(st, winners, editing) == st
  {
    NoneDrawnIsSame(st.scene, winners, editing);
    assert st.shown + ShownBy(st.scene) == st.shown;
  }

  /** What counts as drawn and is not shown: exactly what is being edited and is not in the scene. */
  lemma DrawnUnshown(scene: Scene, winners: map<string, Element>, editing: set<string>, id: string)
    ensures var remote := RemoteFrom(winners, scene); var next := DrawnScene(scene, remote, editing);
      id in DrawnFrom(next, remote) && id !in next <==> id in remote && id in editing && id !in scene
  {
  }

  class View {
    const doc: Drawing
    var scene: Scene
    var seen: map<string, Pair>
    var deferred: bool
    /** Every element this view has shown, or the witness saw it show before. */
    ghost var shown: iset<Element>

    ghost function Now(): State
      reads this, doc
    {
      State(doc.revs, scene, seen, shown)
    }

    ghost predicate Valid()
      reads this
    {
      IsScene(scene) && forall id | id in scene :: scene[id] in shown
    }

    /** Bind a view: what it last held is what it shows, where the document has that, or the latest version before
        it that the document still has. */
    constructor Attach(doc: Drawing, scene: Scene, history: map<string, seq<Pair>>, ghost before: iset<Element>)
      requires IsScene(scene) && IsHistoryOf(history, before)
      ensures this.doc == doc && Valid() && !deferred
      ensures Now() == Attached(doc.revs, scene, history, before) && IsStart(Now()) && IsHonest(Now())
    {
      this.doc, this.scene, deferred := doc, scene, false;
      shown := before + ShownBy(scene);
      seen := Seeds(doc.revs, scene, history);
      new;
      assert Now() == Attached(doc.revs, scene, history, before);
      StartHolds(Now());
    }

    /** The view's scene changes: an edit here, or Excalidraw's own. */
    method Edit(to: Scene)
      requires Valid() && IsScene(to)
      modifies this`scene, this`shown
      ensures Valid() && Now() == Edited(old(Now()), to)
      ensures old(IsHonest(Now())) ==> IsHonest(Now())
    {
      EditHolds(Now(), to);
      scene := to;
      shown := shown + ShownBy(to);
    }

    /** Of the scene, what the document does not have, with the document's version each was made on. */
    method NewerThanDocument() returns (changed: seq<Element>, bases: seq<BaseElement>)
      requires Valid()
      ensures Carries(doc.revs, scene, seen, changed, bases)
    {
      changed, bases := [], [];
      var rest := scene.Keys;
      while rest != {}
        invariant rest <= scene.Keys
        invariant Carries(doc.revs, scene - rest, seen, changed, bases)
        decreases |rest|
      {
        var id :| id in rest;
        var more, base := Consider(scene[id]);
        CarriesMore(doc.revs, scene - rest, seen, scene[id], changed, bases, more, base);
        changed, bases := WithChange(changed, scene[id], more), WithBase(bases, base);
        assert scene - (rest - {id}) == (scene - rest)[id := scene[id]];
        rest := rest - {id};
      }
      assert scene - {} == scene;
    }

    /** Whether the document lacks this version, and the version of the document's it was made on. */
    method Consider(e: Element) returns (more: bool, base: Option<Element>)
      ensures more == IsNew(doc.revs, e) && IsMadeFrom(doc.revs, seen, e, base)
    {
      base := None;
      if e.id !in Ids(doc.revs) {
        return !IsDelete(e), None;
      }
      var list, w := VersionsAndWinner(doc.revs, e.id);
      more := e.version > w.version || (e.version == w.version && e.nonce != w.nonce);
      if e.version > w.version && e.id in seen {
        base := Find(list, seen[e.id]);
        assert base.None? ==> forall r | r in doc.revs && r.id == e.id :: r in list && PairOf(r) != seen[e.id];
      }
    }

    /** Bring the view's own versions into the document. Where what the view is taken to have held was
        shown, only a version with the version and nonce of one it showed is removed from the document, and the
        view has since brought in a newer one. */
    method CarryIn() returns (carried: bool, ghost changed: seq<Element>, ghost bases: seq<BaseElement>)
      requires Valid()
      modifies this`seen, doc
      ensures Valid() && carried == (changed != [])
      ensures Carries(old(doc.revs), scene, old(seen), changed, bases)
      ensures Now() == Carried(old(Now()), changed, bases)
      ensures old(IsHonest(Now())) ==>
        IsHonest(Now()) && PrunesOnlyShown(old(doc.revs), doc.revs, scene, shown)
    {
      var els, on := NewerThanDocument();
      changed, bases := els, on;
      carried := els != [];
      CarryHolds(Now(), els, on);
      if IsHonest(Now()) { CarryIsSafe(doc.revs, scene, seen, els, on, shown); }
      if !carried {
        NothingCarried(Now(), els, on);
        return;
      }
      doc.Apply(els, on);
      seen := Seen(seen, CarriedIn(scene, els));
    }

    /** After carrying in, bring the view up to the document, but for what is being edited. */
    method Draw(editing: set<string>) returns (ghost changed: seq<Element>, ghost bases: seq<BaseElement>,
        winners: map<string, Element>)
      requires Valid()
      modifies this, doc
      ensures Valid()
      ensures Carries(old(doc.revs), old(scene), old(seen), changed, bases)
      ensures AreWinners(winners, doc.revs)
      ensures Now() == Drawn(Carried(old(Now()), changed, bases), winners, editing)
      ensures deferred == (RemoteFrom(winners, old(scene)).Keys * (editing * old(scene).Keys) != {})
      ensures editing == {} ==> Agrees(doc.revs, scene)
      ensures old(IsHonest(Now())) ==> PrunesOnlyShown(old(doc.revs), doc.revs, old(scene), old(shown))
      ensures old(IsHonest(Now())) && IsClear(old(scene), winners, editing) ==> IsHonest(Now())
    {
      var _, els, on := CarryIn();
      changed, bases := els, on;
      winners := doc.Read();
      if editing == {} { RoundAgrees(old(doc.revs), scene, old(seen), changed, bases, winners); }
      DrawWinners(editing, winners);
    }

    /** Draw the standing versions the view shows otherwise, but of what is being edited. */
    method DrawWinners(editing: set<string>, winners: map<string, Element>)
      requires Valid() && forall id | id in winners :: winners[id].id == id
      modifies this
      ensures Valid() && Now() == Drawn(old(Now()), winners, editing)
      ensures deferred == (RemoteFrom(winners, old(scene)).Keys * (editing * old(scene).Keys) != {})
      ensures old(IsHonest(Now())) && IsClear(old(scene), winners, editing) ==> IsHonest(Now())
    {
      var remote := RemoteFrom(winners, scene);
      var next := DrawnScene(scene, remote, editing);
      var drawn := DrawnFrom(next, remote);
      DrawnIsRest(scene, winners, editing);
      DrawHolds(Now(), winners, editing);
      deferred := drawn.Keys != remote.Keys;
      if drawn == map[] {
        NothingDrawn(Now(), winners, editing);
        return;
      }
      Show(next, drawn);
    }

    /** The scene is replaced, and the view holds what was drawn from now on. */
    method Show(next: Scene, drawn: map<string, Element>)
      modifies this`scene, this`seen, this`shown
      ensures scene == next && seen == Seen(old(seen), drawn) && shown == old(shown) + ShownBy(next)
    {
      shown := shown + ShownBy(next);
      scene := next;
      seen := Seen(seen, drawn);
    }

    /** Carry in, then draw, if there is anything to. */
    method Capture(editing: set<string>)
      requires Valid()
      modifies this, doc
      ensures Valid()
      ensures editing == {} && (doc.revs != old(doc.revs) || old(deferred)) ==> Agrees(doc.revs, scene)
      ensures RemovesOnlyBeaten(old(doc.revs), doc.revs)
    {
      ghost var was := doc.revs;
      var carried, changed, bases := CarryIn();
      AppliedEffect(was, changed, bases);
      if !carried && !deferred {
        return;
      }
      ghost var now := doc.revs;
      var more, moreBases, _ := Draw(editing);
      AppliedEffect(now, more, moreBases);
      BeatenTwice(was, now, doc.revs);
    }
  }
}
