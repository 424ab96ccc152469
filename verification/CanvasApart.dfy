/** Two edits of a canvas made apart from one base, brought in one after the other in either order
    (`packages/plugin/src/canvas-model.ts`). */
module CanvasApart {
  import opened Json
  import opened TextMerge
  import opened CanvasModel
  import opened CanvasEdit
  import opened CanvasLaws

  // ---- An edit beats a delete ----

  lemma BaseHeldAfter(doc: Doc, me: nat, kind: Kind, value: CanvasValue, base: CanvasValue, after: Doc, id: string)
    requires IsEditOf(doc, value, base) && Applied(doc, me, value, base, after) && id in Records(base, kind)
    ensures id in Held(doc, kind) && id in Held(after, kind) && Valid(after)
  {
    BaseIsHeld(doc, kind, base, id);
    EditIsValid(doc, me, value, base, after);
    assert kind.Node? || kind.Edge?;
    KeepsId(doc, kind, value, base, after, id);
    HeldById(after, kind, id);
  }

  lemma EditIsValid(doc: Doc, me: nat, value: CanvasValue, base: CanvasValue, after: Doc)
    requires IsEditOf(doc, value, base) && Applied(doc, me, value, base, after)
    ensures Valid(after)
  {
    forall id | id in base.nodes
      ensures id in Held(doc, Node)
    {
      BaseIsHeld(doc, Node, base, id);
    }
    forall id | id in base.edges
      ensures id in Held(doc, Edge)
    {
      BaseIsHeld(doc, Edge, base, id);
    }
    ValidAfter(doc, me, value, base, after);
  }

  /** A record that `v` deletes and `w` really changes. */
  ghost predicate IsContested(doc: Doc, v: CanvasValue, w: CanvasValue, base: CanvasValue, kind: Kind, id: string) {
    && id in Records(base, kind) && id !in Records(v, kind) && id in Records(w, kind)
    && Records(w, kind)[id] != Records(base, kind)[id]
    && (kind.Node? ==> TakesWhole(CellOf(doc, id), w.nodes[id]))
  }

  /** The record stands, as the edit that changed it says. */
  ghost predicate Stands(doc: Doc, kind: Kind, id: string, rec: Rec) {
    && id in Held(doc, kind) && Raw(doc, kind, id) == rec && !IsBuried(doc, kind, id)
  }

  /** No grave is of the record as `rec` says it. */
  predicate NoGraveOf(doc: Doc, kind: Kind, id: string, rec: Rec) {
    forall k | k in doc.tombs && k.0 == kind && k.1 == id :: doc.tombs[k].snapshot != rec
  }

  /** An edit that has the record, or whose base had it otherwise, digs no grave of it as `rec` says it. */
  lemma StillNoGrave(doc: Doc, me: nat, value: CanvasValue, base: CanvasValue, after: Doc, kind: Kind, id: string,
      rec: Rec)
    requires Applied(doc, me, value, base, after) && NoGraveOf(doc, kind, id, rec)
    requires id in Records(value, kind) || Get(Records(base, kind), id) != Some(rec)
    ensures NoGraveOf(after, kind, id, rec)
  {
    forall k | k in after.tombs && k.0 == kind && k.1 == id
      ensures after.tombs[k].snapshot != rec
    {
      assert Get(after.tombs, k) == TombAfter(doc, me, value, base, k);
    }
  }

  lemma StandingIsLive(doc: Doc, kind: Kind, id: string, rec: Rec)
    requires Stands(doc, kind, id, rec)
    ensures kind.Node? ==> Get(Reads(doc).nodes, id) == Some(rec)
    ensures kind.Edge? ==> Get(Reads(doc).edges, id) == Some(rec)
    ensures kind.Edge? ==> forall n | n in Ends(rec) && n in Held(doc, Node) :: n in Reads(doc).nodes
  {
    DeadIsGreatest(doc);
    if kind.Edge? {
      forall n | n in Ends(rec) && n in Held(doc, Node)
        ensures n in Reads(doc).nodes
      {
        LiveEdgesKeepTheirEnds(doc, id, n);
      }
    }
  }

  /** The delete first, then the edit. */
  lemma DeletedThenEdited(doc: Doc, a: nat, b: nat, v: CanvasValue, w: CanvasValue, base: CanvasValue,
                          first: Doc, last: Doc, kind: Kind, id: string)
    requires IsEditOf(doc, v, base) && IsEditOf(doc, w, base) && IsContested(doc, v, w, base, kind, id)
    requires Applied(doc, a, v, base, first) && Applied(first, b, w, base, last)
    ensures Stands(last, kind, id, Records(w, kind)[id])
  {
    BaseHeldAfter(doc, a, kind, v, base, first, id);
    BaseIsHeld(doc, kind, base, id);
    RawUntouched(doc, a, kind, v, base, first, id);
    ThenValid(doc, a, b, v, w, base, first, last);
    if kind.Node? { SameCell(doc, a, v, base, first, id); }
    RawExact(first, b, kind, w, base, last, id);
    assert kind.Node? || kind.Edge?;
    KeepsId(first, kind, w, base, last, id);
    HeldById(last, kind, id);
    StillNoGrave(doc, a, v, base, first, kind, id, Records(w, kind)[id]);
    StillNoGrave(first, b, w, base, last, kind, id, Records(w, kind)[id]);
  }

  lemma SameCell(doc: Doc, me: nat, value: CanvasValue, base: CanvasValue, after: Doc, id: string)
    requires Applied(doc, me, value, base, after) && id !in value.nodes
    ensures CellOf(after, id) == CellOf(doc, id)
  {
    assert Get(after.texts, id) == TextAfter(doc, value, base, id);
    assert Get(FieldsRoot(after, Node), (id, TEXT_GONE)) == FieldAfter(doc, Node, value, base, id, TEXT_GONE);
  }

  lemma ThenValid(doc: Doc, a: nat, b: nat, v: CanvasValue, w: CanvasValue, base: CanvasValue, first: Doc, last: Doc)
    requires IsEditOf(doc, v, base) && IsEditOf(doc, w, base)
    requires Applied(doc, a, v, base, first) && Applied(first, b, w, base, last)
    ensures Valid(first) && Valid(last)
  {
    EditIsValid(doc, a, v, base, first);
    forall id | id in base.nodes
      ensures id in Held(first, Node)
    {
      BaseHeldAfter(doc, a, Node, v, base, first, id);
    }
    forall id | id in base.edges
      ensures id in Held(first, Edge)
    {
      BaseHeldAfter(doc, a, Edge, v, base, first, id);
    }
    ValidAfter(first, b, w, base, last);
  }

  /** The edit first, then the delete: it buries what the deleter saw, which the record no longer is. */
  lemma EditedThenDeleted(doc: Doc, a: nat, b: nat, v: CanvasValue, w: CanvasValue, base: CanvasValue,
                          first: Doc, last: Doc, kind: Kind, id: string)
    requires IsEditOf(doc, v, base) && IsEditOf(doc, w, base) && IsContested(doc, v, w, base, kind, id)
    requires Applied(doc, b, w, base, first) && Applied(first, a, v, base, last)
    ensures Stands(last, kind, id, Records(w, kind)[id])
  {
    EditIsHeld(doc, b, kind, w, base, first, id);
    RawUntouched(first, a, kind, v, base, last, id);
    StillNoGrave(doc, b, w, base, first, kind, id, Records(w, kind)[id]);
    StillNoGrave(first, a, v, base, last, kind, id, Records(w, kind)[id]);
  }

  /** An edit beats a delete made apart from it, whichever comes in first: the record is live and says what
      the edit says; and an edge so kept brings back both its ends, the node the other side deleted it with
      among them. */
  lemma EditBeatsDelete(doc: Doc, a: nat, b: nat, v: CanvasValue, w: CanvasValue, base: CanvasValue,
                        first: Doc, last: Doc, kind: Kind, id: string)
    requires IsEditOf(doc, v, base) && IsEditOf(doc, w, base) && IsContested(doc, v, w, base, kind, id)
    requires
      || (Applied(doc, a, v, base, first) && Applied(first, b, w, base, last))
      || (Applied(doc, b, w, base, first) && Applied(first, a, v, base, last))
    ensures Get(Records(Reads(last), kind), id) == Some(Records(w, kind)[id])
    ensures kind.Edge? ==> forall n | n in Ends(w.edges[id]) :: n in Reads(last).nodes
  {
    if Applied(doc, a, v, base, first) && Applied(first, b, w, base, last) {
      DeletedThenEdited(doc, a, b, v, w, base, first, last, kind, id);
      EndsHeld(doc, a, b, v, w, base, first, last, kind, id);
    } else {
      EditedThenDeleted(doc, a, b, v, w, base, first, last, kind, id);
      EndsHeldFirst(doc, b, a, w, v, base, first, last, kind, id);
    }
    StandingIsLive(last, kind, id, Records(w, kind)[id]);
  }

  lemma EndsHeld(doc: Doc, a: nat, b: nat, v: CanvasValue, w: CanvasValue, base: CanvasValue, first: Doc, last: Doc,
      kind: Kind, id: string)
    requires IsEditOf(doc, v, base) && IsEditOf(doc, w, base) && id in Records(w, kind)
    requires Applied(doc, a, v, base, first) && Applied(first, b, w, base, last)
    ensures kind.Edge? ==> forall n | n in Ends(w.edges[id]) :: n in Held(last, Node)
  {
    if kind.Edge? {
      forall n | n in Ends(w.edges[id])
        ensures n in Held(last, Node)
      {
        assert n in w.nodes;
        if n in base.nodes {
          BaseHeldAfter(doc, a, Node, v, base, first, n);
        }
        KeepsId(first, Node, w, base, last, n);
        HeldById(last, Node, n);
      }
    }
  }

  lemma EndsHeldFirst(doc: Doc, b: nat, a: nat, w: CanvasValue, v: CanvasValue, base: CanvasValue, first: Doc,
      last: Doc, kind: Kind, id: string)
    requires IsEditOf(doc, v, base) && IsEditOf(doc, w, base) && id in Records(w, kind)
    requires Applied(doc, b, w, base, first) && Applied(first, a, v, base, last)
    ensures kind.Edge? ==> forall n | n in Ends(w.edges[id]) :: n in Held(last, Node)
  {
    if kind.Edge? {
      forall n | n in Ends(w.edges[id])
        ensures n in Held(last, Node)
      {
        EditIsHeld(doc, b, Node, w, base, first, n);
        KeepsId(first, Node, v, base, last, n);
        HeldById(last, Node, n);
      }
    }
  }

  // ---- An edge deleted along with its end ----

  predicate IsGone(v: CanvasValue, base: CanvasValue, n: string) {
    n in base.nodes && n !in v.nodes
  }

  /** The end an edge goes along with: the node it comes from, if that goes; or else the one it goes to. */
  ghost predicate IsFirstGone(rec: Rec, v: CanvasValue, base: CanvasValue, n: string) {
    IsGone(v, base, n) &&
    (Get(rec, "fromNode") == Some(Str(n)) ||
     (Get(rec, "toNode") == Some(Str(n)) && forall m :: Get(rec, "fromNode") == Some(Str(m)) ==> !IsGone(v, base, m)))
  }

  lemma AlongIsFirst(rec: Rec, v: CanvasValue, base: CanvasValue, n: string)
    ensures AlongWith(Edge, rec, base.nodes.Keys - v.nodes.Keys) == Some(n) <==> IsFirstGone(rec, v, base, n)
  {
  }

  /** An edge of the base that `v` deletes and `w` leaves as it was. */
  predicate IsLeftEdge(v: CanvasValue, w: CanvasValue, base: CanvasValue, id: string) {
    id in base.edges && id !in v.edges && id in w.edges && w.edges[id] == base.edges[id]
  }

  /** Its one grave is the new one, which names the end it went along with. */
  ghost predicate LiesInGrave(last: Doc, a: nat, v: CanvasValue, base: CanvasValue, id: string) {
    && id in Held(last, Edge) && id in base.edges && Raw(last, Edge, id) == base.edges[id]
    && (forall k :: Matches(last, Edge, id, k) <==> k == (Edge, id, a))
    && Get(last.tombs, (Edge, id, a)) == Some(Grave(Edge, v, base, id))
  }

  /** What makes it so: the record is as it was, its new grave is dug, and no other grave is of it. */
  lemma InGrave(last: Doc, a: nat, v: CanvasValue, base: CanvasValue, id: string)
    requires id in Held(last, Edge) && id in base.edges && Raw(last, Edge, id) == base.edges[id]
    requires Get(last.tombs, (Edge, id, a)) == Some(Grave(Edge, v, base, id))
    requires forall k | k in last.tombs && k.0 == Edge && k.1 == id && k.2 != a ::
      last.tombs[k].snapshot != base.edges[id]
    ensures LiesInGrave(last, a, v, base, id)
  {
    forall k
      ensures Matches(last, Edge, id, k) <==> k == (Edge, id, a)
    {
      assert k == (k.0, k.1, k.2);
    }
  }

  /** Another client's graves of the edge are as they were before either edit. */
  lemma OldGraves(doc: Doc, a: nat, b: nat, v: CanvasValue, w: CanvasValue, base: CanvasValue, first: Doc, last: Doc,
                  id: string, k: (Kind, string, nat))
    requires IsLeftEdge(v, w, base, id) && NoOldGraves(doc, base)
    requires
      || (Applied(doc, a, v, base, first) && Applied(first, b, w, base, last))
      || (Applied(doc, b, w, base, first) && Applied(first, a, v, base, last))
    requires k in last.tombs && k.0 == Edge && k.1 == id && k.2 != a
    ensures last.tombs[k].snapshot != base.edges[id]
  {
    if Applied(doc, a, v, base, first) && Applied(first, b, w, base, last) {
      assert Get(last.tombs, k) == TombAfter(first, b, w, base, k);
      assert Get(first.tombs, k) == TombAfter(doc, a, v, base, k);
    } else {
      assert Get(last.tombs, k) == TombAfter(first, a, v, base, k);
      assert Get(first.tombs, k) == TombAfter(doc, b, w, base, k);
    }
  }

  lemma LeftThenGone(doc: Doc, a: nat, b: nat, v: CanvasValue, w: CanvasValue, base: CanvasValue, first: Doc, last: Doc,
                     id: string)
    requires IsEditOf(doc, v, base) && IsEditOf(doc, w, base) && IsLeftEdge(v, w, base, id)
    requires Applied(doc, b, w, base, first) && Applied(first, a, v, base, last)
    ensures id in Held(last, Edge) && Raw(last, Edge, id) == base.edges[id]
    ensures Get(last.tombs, (Edge, id, a)) == Some(Grave(Edge, v, base, id))
  {
    EditIsHeld(doc, b, Edge, w, base, first, id);
    RawUntouched(first, a, Edge, v, base, last, id);
    GraveDug(first, a, Edge, v, base, last, id);
  }

  lemma GoneThenLeft(doc: Doc, a: nat, b: nat, v: CanvasValue, w: CanvasValue, base: CanvasValue, first: Doc, last: Doc,
                     id: string)
    requires IsEditOf(doc, v, base) && IsEditOf(doc, w, base) && IsLeftEdge(v, w, base, id)
    requires Applied(doc, a, v, base, first) && Applied(first, b, w, base, last)
    ensures id in Held(last, Edge) && Raw(last, Edge, id) == base.edges[id]
  {
    ThenValid(doc, a, b, v, w, base, first, last);
    BaseHeldAfter(doc, a, Edge, v, base, first, id);
    BaseIsHeld(doc, Edge, base, id);
    RawUntouched(doc, a, Edge, v, base, first, id);
    RawExact(first, b, Edge, w, base, last, id);
    KeepsId(first, Edge, w, base, last, id);
    HeldById(last, Edge, id);
  }

  lemma StillInGrave(doc: Doc, a: nat, b: nat, v: CanvasValue, w: CanvasValue, base: CanvasValue, first: Doc, last: Doc,
                     id: string)
    requires IsEditOf(doc, v, base) && IsLeftEdge(v, w, base, id)
    requires Applied(doc, a, v, base, first) && Applied(first, b, w, base, last)
    ensures Get(last.tombs, (Edge, id, a)) == Some(Grave(Edge, v, base, id))
  {
    BuriedNow(doc, a, Edge, v, base, first, id);
    assert Get(last.tombs, (Edge, id, a)) == TombAfter(first, b, w, base, (Edge, id, a));
  }

  /** An edge one side deletes and the other leaves as it was is live, in either order, if and only if the end it went
      along with is. */
  lemma EdgeGoesWithItsEnd(doc: Doc, a: nat, b: nat, v: CanvasValue, w: CanvasValue, base: CanvasValue,
                           first: Doc, last: Doc, id: string)
    requires IsEditOf(doc, v, base) && IsEditOf(doc, w, base) && IsLeftEdge(v, w, base, id)
    requires
      || (Applied(doc, a, v, base, first) && Applied(first, b, w, base, last))
      || (Applied(doc, b, w, base, first) && Applied(first, a, v, base, last))
    ensures id in Reads(last).edges <==>
      exists n :: IsFirstGone(base.edges[id], v, base, n) && n in Reads(last).nodes
    ensures id in Reads(last).edges ==> Reads(last).edges[id] == base.edges[id]
  {
    if Applied(doc, a, v, base, first) && Applied(first, b, w, base, last) {
      GoneThenLeft(doc, a, b, v, w, base, first, last, id);
      StillInGrave(doc, a, b, v, w, base, first, last, id);
    } else {
      LeftThenGone(doc, a, b, v, w, base, first, last, id);
    }
    forall k | k in last.tombs && k.0 == Edge && k.1 == id && k.2 != a
      ensures last.tombs[k].snapshot != base.edges[id]
    {
      OldGraves(doc, a, b, v, w, base, first, last, id, k);
    }
    InGrave(last, a, v, base, id);
    forall n | IsGone(v, base, n)
      ensures n in Held(last, Node)
    {
      NodeStillHeld(doc, a, b, v, w, base, first, last, n);
    }
    LiveWithAlong(last, a, v, base, id);
  }

  lemma NodeStillHeld(doc: Doc, a: nat, b: nat, v: CanvasValue, w: CanvasValue, base: CanvasValue,
                      first: Doc, last: Doc, n: string)
    requires IsEditOf(doc, v, base) && IsEditOf(doc, w, base) && n in base.nodes
    requires
      || (Applied(doc, a, v, base, first) && Applied(first, b, w, base, last))
      || (Applied(doc, b, w, base, first) && Applied(first, a, v, base, last))
    ensures n in Held(last, Node)
  {
    if Applied(doc, a, v, base, first) && Applied(first, b, w, base, last) {
      HeldTwice(doc, a, b, v, w, base, first, last, n);
    } else {
      HeldTwice(doc, b, a, w, v, base, first, last, n);
    }
  }

  lemma HeldTwice(doc: Doc, a: nat, b: nat, v: CanvasValue, w: CanvasValue, base: CanvasValue,
                  first: Doc, last: Doc, n: string)
    requires IsEditOf(doc, v, base) && IsEditOf(doc, w, base) && n in base.nodes
    requires Applied(doc, a, v, base, first) && Applied(first, b, w, base, last)
    ensures n in Held(last, Node)
  {
    ThenValid(doc, a, b, v, w, base, first, last);
    BaseHeldAfter(doc, a, Node, v, base, first, n);
    if n in w.nodes {
      KeepsId(first, Node, w, base, last, n);
      HeldById(last, Node, n);
    } else {
      RawUntouched(first, b, Node, w, base, last, n);
    }
  }

  lemma LiveWithAlong(last: Doc, a: nat, v: CanvasValue, base: CanvasValue, id: string)
    requires LiesInGrave(last, a, v, base, id) && forall n | IsGone(v, base, n) :: n in Held(last, Node)
    ensures id in Reads(last).edges <==>
      exists n :: IsFirstGone(base.edges[id], v, base, n) && n in Reads(last).nodes
    ensures id in Reads(last).edges ==> Reads(last).edges[id] == base.edges[id]
  {
    var along := AlongWith(Edge, base.edges[id], base.nodes.Keys - v.nodes.Keys);
    assert Matches(last, Edge, id, (Edge, id, a));
    assert EdgeLive(last, Dead(last), id) <==> along.Some? && along.value !in Dead(last);
    if along.Some? { AlongIsFirst(base.edges[id], v, base, along.value); }
    forall n | IsFirstGone(base.edges[id], v, base, n)
      ensures along == Some(n)
    {
      AlongIsFirst(base.edges[id], v, base, n);
    }
  }

  /** So an edge deleted along with a node that the other side really changed comes back with it. */
  lemma EdgeComesBack(doc: Doc, a: nat, b: nat, v: CanvasValue, w: CanvasValue, base: CanvasValue,
                      first: Doc, last: Doc, id: string, n: string)
    requires IsEditOf(doc, v, base) && IsEditOf(doc, w, base) && IsLeftEdge(v, w, base, id)
    requires
      || (Applied(doc, a, v, base, first) && Applied(first, b, w, base, last))
      || (Applied(doc, b, w, base, first) && Applied(first, a, v, base, last))
    requires IsFirstGone(base.edges[id], v, base, n) && IsContested(doc, v, w, base, Node, n)
    ensures Get(Reads(last).edges, id) == Some(base.edges[id])
  {
    EditBeatsDelete(doc, a, b, v, w, base, first, last, Node, n);
    EdgeGoesWithItsEnd(doc, a, b, v, w, base, first, last, id);
  }

  /** And one deleted while both its ends were kept stays deleted. */
  lemma EdgeAloneStaysGone(doc: Doc, a: nat, b: nat, v: CanvasValue, w: CanvasValue, base: CanvasValue,
                           first: Doc, last: Doc, id: string)
    requires IsEditOf(doc, v, base) && IsEditOf(doc, w, base) && IsLeftEdge(v, w, base, id)
    requires
      || (Applied(doc, a, v, base, first) && Applied(first, b, w, base, last))
      || (Applied(doc, b, w, base, first) && Applied(first, a, v, base, last))
    requires forall n | IsGone(v, base, n) ::
      Get(base.edges[id], "fromNode") != Some(Str(n)) && Get(base.edges[id], "toNode") != Some(Str(n))
    ensures id !in Reads(last).edges
  {
    EdgeGoesWithItsEnd(doc, a, b, v, w, base, first, last, id);
  }

  // ---- Edits that touch no common field ----

  /** The edit changes this field of this record; of a record it makes, every field. */
  predicate Changes(value: CanvasValue, base: CanvasValue, kind: Kind, id: string, f: string) {
    id in Records(value, kind) &&
    (id in Records(base, kind) ==> Get(Records(base, kind)[id], f) != Get(Records(value, kind)[id], f))
  }

  ghost predicate Apart(v: CanvasValue, w: CanvasValue, base: CanvasValue) {
    forall kind, id, f :: !(Changes(v, base, kind, id, f) && Changes(w, base, kind, id, f))
  }

  /** `v` takes a card's text away, and `w` still has the card. */
  predicate TakesTextFrom(v: CanvasValue, w: CanvasValue, base: CanvasValue, id: string) {
    id in base.nodes && id in v.nodes && id in w.nodes && "text" in base.nodes[id] && "text" !in v.nodes[id]
  }

  predicate NeitherTakes(v: CanvasValue, w: CanvasValue, base: CanvasValue, id: string) {
    !TakesTextFrom(v, w, base, id) && !TakesTextFrom(w, v, base, id)
  }

  /** A card both edits have: neither takes its text away, and it takes what either says whole. */
  predicate IsTextApart(cell: Cell, v: CanvasValue, w: CanvasValue, base: CanvasValue, id: string) {
    NeitherTakes(v, w, base, id) &&
    (id in base.nodes && id in v.nodes && id in w.nodes ==>
      TakesWhole(cell, v.nodes[id]) && TakesWhole(cell, w.nodes[id]))
  }

  /** A card's shared text after an edit. */
  function CellAfter(cell: Cell, value: CanvasValue, base: CanvasValue, id: string): Cell {
    if id in value.nodes then NewCell(cell, value.nodes[id], Get(base.nodes, id)) else cell
  }

  /** And after `v` and then `w`. */
  function CellAfterBoth(cell: Cell, v: CanvasValue, w: CanvasValue, base: CanvasValue, id: string): Cell {
    CellAfter(CellAfter(cell, v, base, id), w, base, id)
  }

  lemma AppliedCell(doc: Doc, me: nat, value: CanvasValue, base: CanvasValue, after: Doc, id: string)
    requires Applied(doc, me, value, base, after)
    ensures CellOf(after, id) == CellAfter(CellOf(doc, id), value, base, id)
  {
    assert Get(after.texts, id) == TextAfter(doc, value, base, id);
    assert Get(FieldsRoot(after, Node), (id, TEXT_GONE)) == FieldAfter(doc, Node, value, base, id, TEXT_GONE);
  }

  /** An edit that leaves a card's text as it shows only ends its being hidden. */
  lemma UnchangedCell(cell: Cell, s: string, w: CanvasValue, base: CanvasValue, id: string)
    requires id in base.nodes && id in w.nodes && Shown(cell) == Some(Str(s))
    requires Get(base.nodes[id], "text") == Some(Str(s)) == Get(w.nodes[id], "text")
    ensures CellAfter(cell, w, base, id) == Cell(Some(s), None) && TakesWhole(cell, w.nodes[id])
  {
    if IsTypedOver(cell) {
      EqualMergesToItself(s, cell.gone.value.s, s);
      MergeIsNextExactly(s, cell.gone.value.s, s);
    }
  }

  /** A card that shows its base text, both edits having the card and `w` not changing its text: the two
      orders agree exactly where `v` does not take the text away and the card takes what `v` says whole. */
  lemma CellsCommute(cell: Cell, s: string, v: CanvasValue, w: CanvasValue, base: CanvasValue, id: string)
    requires id in base.nodes && id in v.nodes && id in w.nodes && Shown(cell) == Some(Str(s))
    requires Get(base.nodes[id], "text") == Some(Str(s)) == Get(w.nodes[id], "text")
    requires "text" in v.nodes[id] ==> v.nodes[id]["text"].Str?
    ensures CellAfterBoth(cell, v, w, base, id) == CellAfterBoth(cell, w, v, base, id) <==>
      "text" in v.nodes[id] && TakesWhole(cell, v.nodes[id])
    ensures Shown(CellAfterBoth(cell, v, w, base, id)) == Shown(CellAfterBoth(cell, w, v, base, id)) <==>
      "text" in v.nodes[id] && TakesWhole(cell, v.nodes[id])
  {
    UnchangedCell(cell, s, w, base, id);
    EqualMergesToItself(s, s, s);
    if "text" in v.nodes[id] {
      var n := v.nodes[id]["text"].s;
      EqualMergesToItself(s, s, n);
      TextExact(cell, v.nodes[id], base.nodes[id]);
      assert CellAfterBoth(cell, w, v, base, id) == Cell(Some(n), None);
    }
  }

  lemma CellOrder(doc: Doc, v: CanvasValue, w: CanvasValue, base: CanvasValue, id: string)
    requires IsEditOf(doc, v, base) && IsEditOf(doc, w, base) && Apart(v, w, base)
    ensures var cell := CellOf(doc, id);
      CellAfterBoth(cell, v, w, base, id) == CellAfterBoth(cell, w, v, base, id) <==> IsTextApart(cell, v, w, base, id)
    ensures var cell := CellOf(doc, id);
      Shown(CellAfterBoth(cell, v, w, base, id)) == Shown(CellAfterBoth(cell, w, v, base, id)) <==>
        IsTextApart(cell, v, w, base, id)
  {
    if id in v.nodes && id in w.nodes {
      assert !(Changes(v, base, Node, id, "text") && Changes(w, base, Node, id, "text"));
      assert id in base.nodes;
      BaseIsHeld(doc, Node, base, id);
      RawText(doc, id);
      if "text" in base.nodes[id] {
        var cell := CellOf(doc, id);
        var s := cell.text.value;
        if Changes(v, base, Node, id, "text") {
          UnchangedCell(cell, s, w, base, id);
          CellsCommute(cell, s, v, w, base, id);
        } else {
          UnchangedCell(cell, s, v, base, id);
          CellsCommute(cell, s, w, v, base, id);
        }
      }
    }
  }

  /** A field other than a card's text, after both edits, in either order. */
  lemma FieldsCommute(doc: Doc, a: nat, b: nat, v: CanvasValue, w: CanvasValue, base: CanvasValue,
                      d1: Doc, d12: Doc, d2: Doc, d21: Doc, kind: Kind, id: string, f: string)
    requires Applied(doc, a, v, base, d1) && Applied(d1, b, w, base, d12)
    requires Applied(doc, b, w, base, d2) && Applied(d2, a, v, base, d21)
    requires Apart(v, w, base) && (kind.Node? ==> f != TEXT_GONE)
    ensures Get(FieldsRoot(d12, kind), (id, f)) == Get(FieldsRoot(d21, kind), (id, f))
  {
    assert !(Changes(v, base, kind, id, f) && Changes(w, base, kind, id, f));
    assert kind.Node? || kind.Edge?;
    assert Get(FieldsRoot(d1, kind), (id, f)) == FieldAfter(doc, kind, v, base, id, f);
    assert Get(FieldsRoot(d2, kind), (id, f)) == FieldAfter(doc, kind, w, base, id, f);
    assert Get(FieldsRoot(d12, kind), (id, f)) == FieldAfter(d1, kind, w, base, id, f);
    assert Get(FieldsRoot(d21, kind), (id, f)) == FieldAfter(d2, kind, v, base, id, f);
  }

  lemma TombsAgree(doc: Doc, a: nat, b: nat, v: CanvasValue, w: CanvasValue, base: CanvasValue,
                   d1: Doc, d12: Doc, d2: Doc, d21: Doc, k: (Kind, string, nat))
    requires k.1 in Records(base, k.0) ==> k.1 in Held(doc, k.0) && k.1 in Held(d1, k.0) && k.1 in Held(d2, k.0)
    requires k.1 in Records(base, k.0) || k.1 !in Records(v, k.0) || k.1 !in Records(w, k.0)
    requires a != b
    requires Get(d1.tombs, k) == TombAfter(doc, a, v, base, k) && Get(d12.tombs, k) == TombAfter(d1, b, w, base, k)
    requires Get(d2.tombs, k) == TombAfter(doc, b, w, base, k) && Get(d21.tombs, k) == TombAfter(d2, a, v, base, k)
    ensures Get(d12.tombs, k) == Get(d21.tombs, k)
  {
  }

  lemma TombsCommute(doc: Doc, a: nat, b: nat, v: CanvasValue, w: CanvasValue, base: CanvasValue,
                     d1: Doc, d12: Doc, d2: Doc, d21: Doc, k: (Kind, string, nat))
    requires IsEditOf(doc, v, base) && IsEditOf(doc, w, base) && Apart(v, w, base) && a != b
    requires Applied(doc, a, v, base, d1) && Applied(d1, b, w, base, d12)
    requires Applied(doc, b, w, base, d2) && Applied(d2, a, v, base, d21)
    ensures Get(d12.tombs, k) == Get(d21.tombs, k)
  {
    assert !(Changes(v, base, k.0, k.1, "") && Changes(w, base, k.0, k.1, ""));
    if k.1 in Records(base, k.0) {
      BaseHeldAfter(doc, a, k.0, v, base, d1, k.1);
      BaseHeldAfter(doc, b, k.0, w, base, d2, k.1);
    }
    TombsAgree(doc, a, b, v, w, base, d1, d12, d2, d21, k);
  }

  lemma SameByGet<K, V>(a: map<K, V>, b: map<K, V>)
    ensures a == b <==> forall k :: Get(a, k) == Get(b, k)
  {
    if forall k :: Get(a, k) == Get(b, k) {
      forall k
        ensures k in a <==> k in b
        ensures k in a && k in b ==> a[k] == b[k]
      {
        assert Get(a, k) == Get(b, k);
      }
    }
  }

  lemma CellsAgree(doc: Doc, a: nat, b: nat, v: CanvasValue, w: CanvasValue, base: CanvasValue,
                   d1: Doc, d12: Doc, d2: Doc, d21: Doc, id: string)
    requires IsEditOf(doc, v, base) && IsEditOf(doc, w, base) && Apart(v, w, base)
    requires Applied(doc, a, v, base, d1) && Applied(d1, b, w, base, d12)
    requires Applied(doc, b, w, base, d2) && Applied(d2, a, v, base, d21)
    ensures CellOf(d12, id) == CellOf(d21, id) <==> IsTextApart(CellOf(doc, id), v, w, base, id)
    ensures Shown(CellOf(d12, id)) == Shown(CellOf(d21, id)) <==> IsTextApart(CellOf(doc, id), v, w, base, id)
  {
    CellOrder(doc, v, w, base, id);
    AppliedCell(doc, a, v, base, d1, id);
    AppliedCell(d1, b, w, base, d12, id);
    AppliedCell(doc, b, w, base, d2, id);
    AppliedCell(d2, a, v, base, d21, id);
  }

  /** Two edits from one base that touch no common field make the same document in either order, if and only
      if neither takes the text from a card the other still has, where the other edit, naming the text it
      knew, would show it again, and every card both have takes what they say whole. */
  lemma EditsCommute(doc: Doc, a: nat, b: nat, v: CanvasValue, w: CanvasValue, base: CanvasValue,
                     d1: Doc, d12: Doc, d2: Doc, d21: Doc)
    requires IsEditOf(doc, v, base) && IsEditOf(doc, w, base) && Apart(v, w, base) && a != b
    requires Applied(doc, a, v, base, d1) && Applied(d1, b, w, base, d12)
    requires Applied(doc, b, w, base, d2) && Applied(d2, a, v, base, d21)
    ensures d12 == d21 <==> forall id :: IsTextApart(CellOf(doc, id), v, w, base, id)
  {
    if d12 == d21 {
      forall id
        ensures IsTextApart(CellOf(doc, id), v, w, base, id)
      {
        CellsAgree(doc, a, b, v, w, base, d1, d12, d2, d21, id);
      }
    }
    if forall id :: IsTextApart(CellOf(doc, id), v, w, base, id) {
      forall id
        ensures CellOf(d12, id) == CellOf(d21, id)
      {
        CellsAgree(doc, a, b, v, w, base, d1, d12, d2, d21, id);
      }
      SameDocs(doc, a, b, v, w, base, d1, d12, d2, d21);
    }
  }

  /** Of a card both edits have, no grave is of it as it is after one of the orders. */
  ghost predicate NoneBuriedBoth(v: CanvasValue, w: CanvasValue, base: CanvasValue, d12: Doc, d21: Doc) {
    forall id | id in v.nodes && id in w.nodes && id in base.nodes ::
      !IsBuried(d12, Node, id) || !IsBuried(d21, Node, id)
  }

  /** And so the canvas reads the same in either order, under the same condition, where no old grave is of a card as
      both edits leave it. */
  lemma EditsReadTheSame(doc: Doc, a: nat, b: nat, v: CanvasValue, w: CanvasValue, base: CanvasValue,
                         d1: Doc, d12: Doc, d2: Doc, d21: Doc)
    requires IsEditOf(doc, v, base) && IsEditOf(doc, w, base) && Apart(v, w, base) && a != b
    requires Applied(doc, a, v, base, d1) && Applied(d1, b, w, base, d12)
    requires Applied(doc, b, w, base, d2) && Applied(d2, a, v, base, d21)
    requires NoneBuriedBoth(v, w, base, d12, d21)
    ensures Reads(d12) == Reads(d21) <==> forall id :: IsTextApart(CellOf(doc, id), v, w, base, id)
  {
    EditsCommute(doc, a, b, v, w, base, d1, d12, d2, d21);
    if Reads(d12) == Reads(d21) {
      forall id
        ensures IsTextApart(CellOf(doc, id), v, w, base, id)
      {
        CardReadsApart(doc, a, b, v, w, base, d1, d12, d2, d21, id);
      }
    }
  }

  lemma CardReadsApart(doc: Doc, a: nat, b: nat, v: CanvasValue, w: CanvasValue, base: CanvasValue,
                       d1: Doc, d12: Doc, d2: Doc, d21: Doc, id: string)
    requires IsEditOf(doc, v, base) && IsEditOf(doc, w, base) && Apart(v, w, base)
    requires Applied(doc, a, v, base, d1) && Applied(d1, b, w, base, d12)
    requires Applied(doc, b, w, base, d2) && Applied(d2, a, v, base, d21)
    requires NoneBuriedBoth(v, w, base, d12, d21) && Reads(d12) == Reads(d21)
    ensures IsTextApart(CellOf(doc, id), v, w, base, id)
  {
    CellsAgree(doc, a, b, v, w, base, d1, d12, d2, d21, id);
    if id in v.nodes && id in w.nodes && id in base.nodes {
      CardHeld(doc, a, b, v, w, base, d1, d12, id);
      CardHeld(doc, b, a, w, v, base, d2, d21, id);
      SameCard(d12, d21, id);
    }
  }

  lemma CardHeld(doc: Doc, a: nat, b: nat, v: CanvasValue, w: CanvasValue, base: CanvasValue, first: Doc, last: Doc,
                 id: string)
    requires IsEditOf(doc, v, base) && IsEditOf(doc, w, base) && id in w.nodes && id in base.nodes
    requires Applied(doc, a, v, base, first) && Applied(first, b, w, base, last)
    ensures Valid(last) && id in Held(last, Node)
  {
    ThenValid(doc, a, b, v, w, base, first, last);
    BaseHeldAfter(doc, a, Node, v, base, first, id);
    KeepsId(first, Node, w, base, last, id);
    HeldById(last, Node, id);
  }

  /** Two documents that read the same show the same of a card that one of them does not bury. */
  lemma SameCard(x: Doc, y: Doc, id: string)
    requires Valid(x) && Valid(y) && id in Held(x, Node) && id in Held(y, Node) && Reads(x) == Reads(y)
    requires !IsBuried(x, Node, id) || !IsBuried(y, Node, id)
    ensures Shown(CellOf(x, id)) == Shown(CellOf(y, id))
  {
    assert Get(Reads(x).nodes, id) == Get(Reads(y).nodes, id);
    DeadIsGreatest(x);
    DeadIsGreatest(y);
    RawText(x, id);
    RawText(y, id);
  }

  lemma SameDocs(doc: Doc, a: nat, b: nat, v: CanvasValue, w: CanvasValue, base: CanvasValue,
                 d1: Doc, d12: Doc, d2: Doc, d21: Doc)
    requires IsEditOf(doc, v, base) && IsEditOf(doc, w, base) && Apart(v, w, base) && a != b
    requires Applied(doc, a, v, base, d1) && Applied(d1, b, w, base, d12)
    requires Applied(doc, b, w, base, d2) && Applied(d2, a, v, base, d21)
    requires forall id :: CellOf(d12, id) == CellOf(d21, id)
    ensures d12 == d21
  {
    forall k
      ensures Get(d12.nodeFields, k) == Get(d21.nodeFields, k)
      ensures Get(d12.edgeFields, k) == Get(d21.edgeFields, k)
    {
      assert CellOf(d12, k.0) == CellOf(d21, k.0);
      if k.1 != TEXT_GONE { FieldsCommute(doc, a, b, v, w, base, d1, d12, d2, d21, Node, k.0, k.1); }
      FieldsCommute(doc, a, b, v, w, base, d1, d12, d2, d21, Edge, k.0, k.1);
    }
    forall k
      ensures Get(d12.tombs, k) == Get(d21.tombs, k)
    {
      TombsCommute(doc, a, b, v, w, base, d1, d12, d2, d21, k);
    }
    forall id
      ensures Get(d12.texts, id) == Get(d21.texts, id)
    {
      assert CellOf(d12, id) == CellOf(d21, id);
    }
    SameByGet(d12.nodeFields, d21.nodeFields);
    SameByGet(d12.edgeFields, d21.edgeFields);
    SameByGet(d12.texts, d21.texts);
    SameByGet(d12.tombs, d21.tombs);
  }
}
