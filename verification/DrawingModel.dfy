/** A drawing as a replicated map of revisions: reading it, bringing an edit in, and settling
    versions that lost (`packages/plugin/src/excalidraw-model.ts`).

    A revision's key is its id, version, nonce and a hash of the whole element. The hash is taken to
    be injective, so the element is its own key here. */
module DrawingModel {
  import opened Json
  import opened DrawingMerge

  // ---- The document ----

  /** What a revision says it was made on. */
  datatype Pair = Pair(version: int, nonce: int)

  function PairOf(e: Element): Pair {
    Pair(e.version, e.nonce)
  }

  /** What a revision carries beside the element: what its author built it on, what that said, and
      where it sat in the file. */
  datatype Meta = Meta(base: Option<Pair>, baseContent: Option<Content>, at: Option<int>)

  const NO_META := Meta(None, None, None)

  type Revs = map<Element, Meta>

  /** Every version the document holds of one element. */
  function VersionsOf(revs: Revs, id: string): set<Element> {
    set e | e in revs && e.id == id
  }

  function Ids(revs: Revs): set<string> {
    set e | e in revs :: e.id
  }

  /** `e` is the version of its element that `revs` reads as. */
  ghost predicate Stands(e: Element, revs: Revs) {
    IsTop(e, VersionsOf(revs, e.id))
  }

  lemma HasStanding(revs: Revs, id: string)
    requires id in Ids(revs)
    ensures exists e :: Stands(e, revs) && e.id == id
  {
    var some :| some in revs && some.id == id;
    assert some in VersionsOf(revs, id);
    HasTop(VersionsOf(revs, id));
    var e :| IsTop(e, VersionsOf(revs, id));
    assert Stands(e, revs);
  }

  lemma StandingUnique(a: Element, b: Element, revs: Revs)
    requires Stands(a, revs) && Stands(b, revs) && a.id == b.id
    ensures a == b
  {
    TopUnique(a, b, VersionsOf(revs, a.id));
  }

  ghost function Standing(revs: Revs, id: string): (e: Element)
    requires id in Ids(revs)
    ensures Stands(e, revs) && e.id == id
  {
    HasStanding(revs, id);
    var e :| Stands(e, revs) && e.id == id;
    e
  }

  // ---- Bringing an edit in ----

  /** An element of the base an edit is read against. Unverified: whoever edited may not have seen it. */
  datatype BaseElement = BaseElement(el: Element, unverified: bool)

  /** The base by id; of two elements with one id, the later. */
  function ById(base: seq<BaseElement>): (m: map<string, BaseElement>)
    ensures forall id | id in m :: m[id] in base && m[id].el.id == id
  {
    if base == [] then map[]
    else
      var last := base[|base| - 1];
      ById(base[..|base| - 1])[last.el.id := last]
  }

  function MetaFor(was: Option<BaseElement>, at: int): Meta {
    match was
    case None => Meta(None, None, Some(at))
    case Some(b) => Meta(if b.unverified then None else Some(PairOf(b.el)), Some(ContentOf(b.el)), Some(at))
  }

  function BaseFor(base: map<string, BaseElement>, id: string): Option<BaseElement> {
    if id in base then Some(base[id]) else None
  }

  /** Unchanged since the base, or older than it: written nowhere. */
  predicate Passed(el: Element, was: Option<BaseElement>) {
    was.Some? && (PairOf(was.value.el) == PairOf(el) || el.version < was.value.el.version)
  }

  /** The base version an edit supersedes: seen by whoever edits, and lower. */
  predicate Supersedes(el: Element, was: Option<BaseElement>) {
    was.Some? && el.version > was.value.el.version && !was.value.unverified
  }

  /** One element of an edit, brought into the document. */
  function ApplyOne(revs: Revs, el: Element, at: int, was: Option<BaseElement>): Revs {
    if Passed(el, was) then revs
    else
      var added := if el in revs then revs else revs[el := MetaFor(was, at)];
      if Supersedes(el, was) then added - {was.value.el} else added
  }

  /** The first `n` elements of an edit, brought in one after another. */
  function ApplyFirst(revs: Revs, els: seq<Element>, n: nat, base: map<string, BaseElement>): Revs
    requires n <= |els|
  {
    if n == 0 then revs
    else ApplyOne(ApplyFirst(revs, els, n - 1, base), els[n - 1], n - 1, BaseFor(base, els[n - 1].id))
  }

  function Applied(revs: Revs, els: seq<Element>, base: seq<BaseElement>): Revs {
    ApplyFirst(revs, els, |els|, ById(base))
  }

  /** What an edit does to the revisions: `els` brought in against `base` takes `before` to `after`. */
  ghost predicate EditEffect(before: Revs, els: seq<Element>, base: map<string, BaseElement>, after: Revs) {
    forall e :: EffectOn(before, els, base, after, e)
  }

  /** Gone only if superseded; new only if brought in, and then made on its base; else as it was. What is
      brought in is there, and what it supersedes is not. */
  ghost predicate EffectOn(before: Revs, els: seq<Element>, base: map<string, BaseElement>, after: Revs, e: Element) {
    && (e in before && e !in after ==> exists el | el in els :: el in after && IsSupersededBy(e, el, base))
    && (e in after && e !in before ==>
          e in els && !Passed(e, BaseFor(base, e.id)) && IsMadeOn(after[e], BaseFor(base, e.id)))
    && (e in after && e in before ==> after[e] == before[e])
    && (e in els && !Passed(e, BaseFor(base, e.id)) ==> e in after)
    && (e in els && Supersedes(e, BaseFor(base, e.id)) ==> base[e.id].el !in after)
  }

  /** What a new revision says it was made on. */
  predicate IsMadeOn(meta: Meta, was: Option<BaseElement>) {
    && meta.base == (if was.Some? && !was.value.unverified
                     then Some(Pair(was.value.el.version, was.value.el.nonce)) else None)
    && meta.baseContent == (if was.Some? then Some(ContentOf(was.value.el)) else None)
  }

  /** `el` was made on `e`, by someone who saw it, with a higher version. */
  predicate IsSupersededBy(e: Element, el: Element, base: map<string, BaseElement>) {
    el.id in base && base[el.id].el == e && e.id == el.id && !base[el.id].unverified && el.version > e.version
  }

  lemma {:induction false} ApplyEffect(revs: Revs, els: seq<Element>, n: nat, base: map<string, BaseElement>)
    requires n <= |els| && forall id | id in base :: base[id].el.id == id
    ensures EditEffect(revs, els[..n], base, ApplyFirst(revs, els, n, base))
  {
    if n == 0 {
      assert els[..n] == [];
    } else {
      var done, now, el := els[..n - 1], ApplyFirst(revs, els, n - 1, base), els[n - 1];
      ApplyEffect(revs, els, n - 1, base);
      assert els[..n] == done + [el];
      var all, after := els[..n], ApplyOne(now, el, n - 1, BaseFor(base, el.id));
      forall e
        ensures EffectOn(revs, all, base, after, e)
      {
        ApplyOneEffect(revs, done, now, el, n - 1, base, e);
      }
    }
  }

  lemma ApplyOneEffect(revs: Revs, done: seq<Element>, now: Revs, el: Element, at: int,
      base: map<string, BaseElement>, e: Element)
    requires forall id | id in base :: base[id].el.id == id
    requires EditEffect(revs, done, base, now)
    ensures EffectOn(revs, done + [el], base, ApplyOne(now, el, at, BaseFor(base, el.id)), e)
  {
    var after := ApplyOne(now, el, at, BaseFor(base, el.id));
    assert EffectOn(revs, done, base, now, e);
    assert e in done + [el] <==> e in done || e == el;
    if e in revs && e !in after {
      if e in now {
        assert el in done + [el] && IsSupersededBy(e, el, base);
      } else {
        var x :| x in done && x in now && IsSupersededBy(e, x, base);
        assert x in done + [el] && x in after;
      }
    }
  }

  // ---- Exactly what an edit writes and removes ----

  /** Written: new to the base, or a higher version than the base's, or its version with another nonce. */
  predicate IsWritten(els: seq<Element>, base: seq<BaseElement>, e: Element) {
    e in els &&
    (e.id in ById(base) ==>
       var b := ById(base)[e.id].el;
       e.version > b.version || (e.version == b.version && e.nonce != b.nonce))
  }

  /** Superseded: the base's version of an element that a higher one is brought in of, and seen by whoever edited. */
  predicate IsSuperseded(els: seq<Element>, base: seq<BaseElement>, e: Element) {
    e.id in ById(base) && ById(base)[e.id] == BaseElement(e, false) &&
    exists el | el in els :: el.id == e.id && el.version > e.version
  }

  /** After an edit just what it wrote and what was there is there, but what it supersedes. What is unchanged since the
      base, or older than it, is written nowhere. */
  lemma AppliedExactly(before: Revs, els: seq<Element>, base: seq<BaseElement>, e: Element)
    ensures e in Applied(before, els, base) <==>
      (IsWritten(els, base, e) || e in before) && !IsSuperseded(els, base, e)
  {
    AppliedEffect(before, els, base);
    var after := Applied(before, els, base);
    assert EffectOn(before, els, ById(base), after, e);
    if IsSuperseded(els, base, e) {
      var el :| el in els && el.id == e.id && el.version > e.version;
      assert EffectOn(before, els, ById(base), after, el);
    }
  }

  /** A new revision says what it was made on: the version in the base, if it was seen, and what that said. */
  lemma NewSaysWhatOn(before: Revs, els: seq<Element>, base: seq<BaseElement>, e: Element)
    requires e in Applied(before, els, base) && e !in before
    ensures var meta, b := Applied(before, els, base)[e], ById(base);
      if e.id !in b then meta.base == None && meta.baseContent == None
      else
        && meta.baseContent == Some(ContentOf(b[e.id].el))
        && meta.base == if b[e.id].unverified then None else Some(Pair(b[e.id].el.version, b[e.id].el.nonce))
  {
    AppliedEffect(before, els, base);
    assert EffectOn(before, els, ById(base), Applied(before, els, base), e);
  }

  // ---- What an edit or a pass may remove ----

  /** Every revision gone is beaten by one of its element that is there. */
  ghost predicate RemovesOnlyBeaten(before: Revs, after: Revs) {
    forall e | e in before && e !in after :: exists w | w in after :: w.id == e.id && Beats(w, e)
  }

  lemma EditRemovesOnlyBeaten(before: Revs, els: seq<Element>, base: map<string, BaseElement>, after: Revs)
    requires EditEffect(before, els, base, after)
    ensures RemovesOnlyBeaten(before, after)
  {
    forall e | e in before && e !in after
      ensures exists w | w in after :: w.id == e.id && Beats(w, e)
    {
      assert EffectOn(before, els, base, after, e);
      var el :| el in els && el in after && IsSupersededBy(e, el, base);
      assert el.id == e.id && Beats(el, e);
    }
  }

  /** An edit removes a revision only where a version of the element that beats it is there. */
  lemma AppliedEffect(before: Revs, els: seq<Element>, base: seq<BaseElement>)
    ensures EditEffect(before, els, ById(base), Applied(before, els, base))
    ensures RemovesOnlyBeaten(before, Applied(before, els, base))
  {
    ApplyEffect(before, els, |els|, ById(base));
    assert els[..|els|] == els;
    EditRemovesOnlyBeaten(before, els, ById(base), Applied(before, els, base));
  }
}
