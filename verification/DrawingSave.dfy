/** The base a save of a drawing may be read in against (`DeleteWitness.verifiedBase` in
    `packages/plugin/src/excalidraw-live.ts`): what no open view was seen to show is not superseded by it. */
module DrawingSave {
  import opened Json
  import opened DrawingMerge
  import opened DrawingModel

  /** The versions a view was seen to show of each element. */
  type Shown = map<string, seq<Pair>>

  /** A delete read back from before a restart, and the version it was made on. */
  datatype Delete = Delete(element: Element, on: Option<Pair>, restored: bool)

  /** What was seen of the views of a file: of any of them, if any was seen, and of each open now. */
  datatype Witness = Witness(any: Option<Shown>, open: seq<Option<Shown>>, deletes: map<string, Delete>)

  predicate DidShow(shown: Option<Shown>, e: Element) {
    shown.Some? && e.id in shown.value && PairOf(e) in shown.value[e.id]
  }

  /** Shown by every open view; with none open, by any view. */
  predicate IsVerified(w: Witness, e: Element) {
    if w.open != [] then forall v | v in w.open :: DidShow(v, e) else DidShow(w.any, e)
  }

  /** The save holds a delete read back, which names `e` as what it was made on. */
  predicate IsDeleteOf(w: Witness, e: Element, saved: Element) {
    e.id in w.deletes && w.deletes[e.id].restored && w.deletes[e.id].on == Some(PairOf(e)) &&
    PairOf(w.deletes[e.id].element) == PairOf(saved)
  }

  /** A save by id; of two elements with one id, the later. */
  function SavedById(save: seq<Element>): (m: map<string, Element>)
    ensures forall id | id in m :: m[id] in save && m[id].id == id
    ensures forall e | e in save :: e.id in m
  {
    if save == [] then map[]
    else SavedById(save[..|save| - 1])[save[|save| - 1].id := save[|save| - 1]]
  }

  function VerifiedOne(w: Witness, saved: map<string, Element>, b: BaseElement): BaseElement {
    if b.el.id !in saved || saved[b.el.id].version <= b.el.version then b
    else if IsVerified(w, b.el) || IsDeleteOf(w, b.el, saved[b.el.id]) then b
    else b.(unverified := true)
  }

  /** Taken on trust: no view of the file has been seen yet, and the base was not read back from before a restart. */
  predicate IsTrusted(w: Witness, fromRecord: bool) {
    w.any.None? && !fromRecord
  }

  function AllVerified(w: Witness, save: seq<Element>, base: seq<BaseElement>): (verified: seq<BaseElement>)
    ensures |verified| == |base|
  {
    seq(|base|, i requires 0 <= i < |base| => VerifiedOne(w, SavedById(save), base[i]))
  }

  function VerifiedBase(w: Witness, save: seq<Element>, base: seq<BaseElement>,
      fromRecord: bool): (verified: seq<BaseElement>)
    ensures |verified| == |base|
  {
    if IsTrusted(w, fromRecord) then base else AllVerified(w, save, base)
  }

  /** Of several elements of a save with one id, the last is the newest: so of any save with no id twice. */
  predicate LastIsNewest(save: seq<Element>) {
    forall e | e in save :: e.version <= SavedById(save)[e.id].version
  }

  lemma {:induction false} NoIdTwice(save: seq<Element>)
    requires forall i, j | 0 <= i < j < |save| :: save[i].id != save[j].id
    ensures LastIsNewest(save) && forall e | e in save :: SavedById(save)[e.id] == e
  {
    if save != [] {
      var n := |save| - 1;
      NoIdTwice(save[..n]);
      forall e | e in save
        ensures SavedById(save)[e.id] == e
      {
        if e != save[n] { assert e in save[..n]; }
      }
    }
  }

  /** What may be superseded by a save: what every view that can have made it was seen to show, or a delete read
      back was made on, or anything where the base is this session's own and no view was seen. */
  predicate MaySupersede(w: Witness, save: seq<Element>, fromRecord: bool, e: Element) {
    || (w.any.None? && !fromRecord)
    || (w.open != [] && forall v | v in w.open :: v.Some? && e.id in v.value && PairOf(e) in v.value[e.id])
    || (w.open == [] && w.any.Some? && e.id in w.any.value && PairOf(e) in w.any.value[e.id])
    || (e.id in w.deletes && w.deletes[e.id].restored && w.deletes[e.id].on == Some(PairOf(e))
        && e.id in SavedById(save) && PairOf(w.deletes[e.id].element) == PairOf(SavedById(save)[e.id]))
  }

  lemma VerifiedMay(w: Witness, save: seq<Element>, fromRecord: bool, b: BaseElement)
    requires b.el.id in SavedById(save) && SavedById(save)[b.el.id].version > b.el.version
    requires !VerifiedOne(w, SavedById(save), b).unverified
    ensures MaySupersede(w, save, fromRecord, b.el)
  {
  }

  /** Reading a save in against its verified base removes only what the save may supersede. */
  lemma UnseenIsNeverSuperseded(revs: Revs, w: Witness, save: seq<Element>, base: seq<BaseElement>, fromRecord: bool,
      e: Element)
    requires LastIsNewest(save)
    requires e in revs && e !in Applied(revs, save, VerifiedBase(w, save, base, fromRecord))
    ensures MaySupersede(w, save, fromRecord, e)
  {
    var verified := VerifiedBase(w, save, base, fromRecord);
    AppliedExactly(revs, save, verified, e);
    assert IsSuperseded(save, verified, e);
    var el :| el in save && el.id == e.id && el.version > e.version;
    if !IsTrusted(w, fromRecord) {
      var i :| 0 <= i < |verified| && verified[i] == BaseElement(e, false);
      assert verified[i] == VerifiedOne(w, SavedById(save), base[i]) && base[i].el == e;
      assert el.version <= SavedById(save)[el.id].version;
      VerifiedMay(w, save, fromRecord, base[i]);
    }
  }

  // ---- What is superseded ----

  lemma {:induction false} VerifiedById(w: Witness, save: seq<Element>, base: seq<BaseElement>, id: string)
    requires id in ById(base)
    ensures id in ById(AllVerified(w, save, base))
    ensures ById(AllVerified(w, save, base))[id] == VerifiedOne(w, SavedById(save), ById(base)[id])
  {
    var n := |base| - 1;
    assert AllVerified(w, save, base)[..n] == AllVerified(w, save, base[..n]);
    if base[n].el.id != id { VerifiedById(w, save, base[..n], id); }
  }

  /** And all that the save may supersede, it does: a base version that a newer one is saved of goes, where it was shown
      by every view that can have made the save, or a delete read back was made on it, or the base is taken on trust. */
  lemma SeenIsSuperseded(revs: Revs, w: Witness, save: seq<Element>, base: seq<BaseElement>, fromRecord: bool,
                         b: BaseElement)
    requires b.el.id in ById(base) && ById(base)[b.el.id] == b && !b.unverified
    requires b.el.id in SavedById(save) && SavedById(save)[b.el.id].version > b.el.version
    requires MaySupersede(w, save, fromRecord, b.el)
    ensures b.el !in Applied(revs, save, VerifiedBase(w, save, base, fromRecord))
    ensures SavedById(save)[b.el.id] in Applied(revs, save, VerifiedBase(w, save, base, fromRecord))
  {
    var verified := VerifiedBase(w, save, base, fromRecord);
    VerifiedById(w, save, base, b.el.id);
    assert b.el.id in ById(verified) && ById(verified)[b.el.id] == b;
    var saved := SavedById(save)[b.el.id];
    AppliedEffect(revs, save, verified);
    assert EffectOn(revs, save, ById(verified), Applied(revs, save, verified), saved);
  }

  lemma OneBaseVerified(w: Witness, save: seq<Element>, e: Element)
    requires e.id in SavedById(save) && SavedById(save)[e.id].version <= e.version
    ensures VerifiedBase(w, save, [BaseElement(e, false)], true) == [BaseElement(e, false)]
  {
  }

  lemma OneBase(e: Element)
    ensures ById([BaseElement(e, false)]) == map[e.id := BaseElement(e, false)]
  {
    assert [BaseElement(e, false)][..0] == [];
  }

  /** A newer version supersedes the one base it is read against. */
  lemma NewerSupersedes(revs: Revs, save: seq<Element>, el: Element, e: Element)
    requires el in save && el.id == e.id && el.version > e.version
    ensures e !in Applied(revs, save, [BaseElement(e, false)])
  {
    AppliedEffect(revs, save, [BaseElement(e, false)]);
    OneBase(e);
    assert EffectOn(revs, save, ById([BaseElement(e, false)]), Applied(revs, save, [BaseElement(e, false)]), el);
  }

  /** And only such saves: where an earlier element of an id is newer than the last, a version between them that
      no view ever showed is superseded. */
  lemma OlderLastSupersedes(revs: Revs, save: seq<Element>, el: Element, e: Element)
    requires el in save && el.id == e.id && SavedById(save)[e.id].version <= e.version < el.version
    ensures var w := Witness(None, [], map[]);
      !MaySupersede(w, save, true, e) && e !in Applied(revs, save, VerifiedBase(w, save, [BaseElement(e, false)], true))
  {
    OneBaseVerified(Witness(None, [], map[]), save, e);
    NewerSupersedes(revs, save, el, e);
    NeverShown(save, e);
  }

  lemma NeverShown(save: seq<Element>, e: Element)
    ensures !MaySupersede(Witness(None, [], map[]), save, true, e)
  {
  }
}
