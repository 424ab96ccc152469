/** What bringing an edit into a canvas document means for what it reads as: exactness, edits against
    deletes, and edits made apart (`packages/plugin/src/canvas-model.ts`). */
module CanvasLaws {
  import opened Json
  import opened TextMerge
  import opened CanvasModel
  import opened CanvasEdit

  // ---- Documents as edits leave them ----

  /** A record is held with its id, a card's text only as a text, and a text only of a card held. */
  ghost predicate Valid(doc: Doc) {
    && (forall id | id in Held(doc, Node) :: (id, "id") in doc.nodeFields)
    && (forall id | id in Held(doc, Edge) :: (id, "id") in doc.edgeFields)
    && (forall id :: (id, "text") !in doc.nodeFields)
    && (forall id | id in doc.texts :: id in Held(doc, Node))
  }

  ghost predicate HasNames(value: CanvasValue) {
    "" !in value.nodes && "" !in value.edges
  }

  lemma HeldById(doc: Doc, kind: Kind, id: string)
    requires id != "" && (id, "id") in FieldsRoot(doc, kind)
    ensures id in Held(doc, kind)
  {
  }

  /** A record with a field that the edit neither names nor changes the base of keeps it; so its id. */
  lemma KeepsId(doc: Doc, kind: Kind, value: CanvasValue, base: CanvasValue, after: Doc, id: string)
    requires FieldsApplied(doc, kind, value, base, after)
    requires (id, "id") in FieldsRoot(doc, kind) || (id in Records(value, kind) && id !in Records(base, kind))
    ensures (id, "id") in FieldsRoot(after, kind)
  {
    assert Get(FieldsRoot(after, kind), (id, "id")) == FieldAfter(doc, kind, value, base, id, "id");
  }

  lemma Untouched(doc: Doc, kind: Kind, value: CanvasValue, base: CanvasValue, after: Doc, id: string)
    requires FieldsApplied(doc, kind, value, base, after) && id !in Records(value, kind)
    ensures FieldsOf(FieldsRoot(after, kind), id) == FieldsOf(FieldsRoot(doc, kind), id)
    ensures id in Held(after, kind) <==> id in Held(doc, kind)
  {
    assert forall f :: Get(FieldsRoot(after, kind), (id, f)) == Get(FieldsRoot(doc, kind), (id, f));
    if id in Held(after, kind) {
      var k :| k in FieldsRoot(after, kind) && k.0 == id;
      assert Get(FieldsRoot(doc, kind), (id, k.1)).Some?;
    }
    if id in Held(doc, kind) {
      var k :| k in FieldsRoot(doc, kind) && k.0 == id;
      assert Get(FieldsRoot(after, kind), (id, k.1)).Some?;
    }
  }

  /** A record the edit does not have is as it was. */
  lemma RawUntouched(doc: Doc, me: nat, kind: Kind, value: CanvasValue, base: CanvasValue, after: Doc, id: string)
    requires Applied(doc, me, value, base, after) && id !in Records(value, kind)
    ensures Raw(after, kind, id) == Raw(doc, kind, id)
    ensures id in Held(after, kind) <==> id in Held(doc, kind)
  {
    Untouched(doc, kind, value, base, after, id);
    if kind.Node? { assert Get(after.texts, id) == TextAfter(doc, value, base, id); }
  }

  // ---- A card's text after an edit ----

  /** What shows of a card's text. */
  function Shown(cell: Cell): Option<Json> {
    if cell.text.Some? && cell.gone != Some(Str(cell.text.value)) then Some(Str(cell.text.value)) else None
  }

  /** The text an edit took away and someone typed in since: it shows over what was hidden. */
  predicate IsTypedOver(cell: Cell) {
    cell.gone.Some? && cell.gone.value.Str? && cell.text.Some? && cell.gone.value.s != cell.text.value
  }

  /** A card shown over a hidden text takes an edit of its text whole only where the edit is smaller from
      what it shows than from what was hidden. */
  predicate TakesWhole(cell: Cell, rec: Rec) {
    IsTypedOver(cell) && "text" in rec && rec["text"].Str? ==>
      Size(HunkBetween(cell.text.value, rec["text"].s)) < Size(HunkBetween(cell.gone.value.s, rec["text"].s))
  }

  /** A card that showed the text the edit was made from shows the text the edit says, exactly where it
      takes the edit whole. */
  lemma TextExact(cell: Cell, rec: Rec, base: Rec)
    requires Shown(cell) == Get(base, "text")
    requires "text" in rec ==> rec["text"].Str?
    ensures Shown(NewCell(cell, rec, Some(base))) == Get(rec, "text") <==> TakesWhole(cell, rec)
  {
    if "text" in rec && cell.text.Some? {
      var n := rec["text"].s;
      EqualMergesToItself(cell.text.value, cell.text.value, n);
      if cell.gone.Some? && cell.gone.value.Str? {
        MergeIsNextExactly(cell.text.value, cell.gone.value.s, n);
        EqualMergesToItself(cell.text.value, cell.gone.value.s, n);
      }
    }
  }

  lemma NewTextExact(rec: Rec)
    requires "text" in rec ==> rec["text"].Str?
    ensures Shown(NewCell(Cell(None, None), rec, None)) == Get(rec, "text")
  {
  }

  /** A card that does not: hidden, typed over with at least as much, and then emptied, it is not empty. */
  lemma EmptiedButTypedOver(cell: Cell, base: Rec)
    requires Shown(cell) == Get(base, "text") && IsTypedOver(cell)
    requires |cell.text.value| >= |cell.gone.value.s|
    ensures var rec: Rec := map["text" := Str("")];
      !TakesWhole(cell, rec) && Shown(NewCell(cell, rec, Some(base))) != Some(Str(""))
  {
    var rec: Rec := map["text" := Str("")];
    ToEmpty(cell.text.value);
    ToEmpty(cell.gone.value.s);
    TextExact(cell, rec, base);
  }

  lemma ToEmpty(a: string)
    ensures Size(HunkBetween(a, "")) == |a|
  {
    assert PrefixFrom(a, "", 0) == 0 && SuffixFrom(a, "", 0, 0) == 0;
  }

  // ---- A record after an edit ----

  lemma RawText(doc: Doc, id: string)
    requires Valid(doc)
    ensures Get(Raw(doc, Node, id), "text") == Shown(CellOf(doc, id))
  {
    assert Get(doc.nodeFields, (id, "text")) == None;
    assert Get(FieldsOf(doc.nodeFields, id), TEXT_GONE) == Get(doc.nodeFields, (id, TEXT_GONE));
  }

  lemma RawField(doc: Doc, kind: Kind, id: string, f: string)
    requires f != "id" && (kind.Node? ==> f != "text" && f != TEXT_GONE)
    ensures Get(Raw(doc, kind, id), f) == Get(FieldsRoot(doc, kind), (id, f))
  {
    assert Get(FieldsOf(FieldsRoot(doc, kind), id), f) == Get(FieldsRoot(doc, kind), (id, f));
  }

  /** Records and their ids are kept apart, and a card's text is a text. */
  ghost predicate IsWellFormed(value: CanvasValue) {
    && IsPlain(value) && HasNames(value)
    && (forall id | id in value.nodes ::
          "id" !in value.nodes[id] && ("text" in value.nodes[id] ==> value.nodes[id]["text"].Str?))
    && (forall id | id in value.edges :: "id" !in value.edges[id])
  }

  /** A record whose base is what the document holds, or which the document does not hold. */
  ghost predicate IsFresh(doc: Doc, kind: Kind, base: CanvasValue, id: string) {
    if id in Records(base, kind) then id in Held(doc, kind) && Raw(doc, kind, id) == Records(base, kind)[id]
    else id !in Held(doc, kind)
  }

  lemma NotHeldNotThere(doc: Doc, kind: Kind, id: string, f: string)
    requires id != "" && id !in Held(doc, kind)
    ensures (id, f) !in FieldsRoot(doc, kind)
  {
    assert forall k | k in FieldsRoot(doc, kind) && k.0 != "" :: k.0 in Held(doc, kind);
  }

  /** Each field of a record the edit has is, after it, what the edit says. */
  lemma FieldExact(doc: Doc, me: nat, kind: Kind, value: CanvasValue, base: CanvasValue, after: Doc, id: string,
      f: string)
    requires Applied(doc, me, value, base, after) && IsFresh(doc, kind, base, id)
    requires id in Records(value, kind) && id != "" && IsWellFormed(value)
    requires f != "id" && (kind.Node? ==> f != "text" && f != TEXT_GONE)
    ensures Get(Raw(after, kind, id), f) == Get(Records(value, kind)[id], f)
  {
    RawField(doc, kind, id, f);
    RawField(after, kind, id, f);
    assert Get(FieldsRoot(after, kind), (id, f)) == FieldAfter(doc, kind, value, base, id, f);
    if id !in Held(doc, kind) { NotHeldNotThere(doc, kind, id, f); }
  }

  lemma CardTextExact(doc: Doc, me: nat, value: CanvasValue, base: CanvasValue, after: Doc, id: string)
    requires Applied(doc, me, value, base, after) && IsFresh(doc, Node, base, id) && Valid(doc) && Valid(after)
    requires id in value.nodes && IsWellFormed(value)
    ensures Get(Raw(after, Node, id), "text") == Get(value.nodes[id], "text") <==>
      (id in base.nodes ==> TakesWhole(CellOf(doc, id), value.nodes[id]))
  {
    RawText(doc, id);
    RawText(after, id);
    assert Get(after.texts, id) == TextAfter(doc, value, base, id);
    assert Get(after.nodeFields, (id, TEXT_GONE)) == FieldAfter(doc, Node, value, base, id, TEXT_GONE);
    assert CellOf(after, id) == NewCell(CellOf(doc, id), value.nodes[id], Get(base.nodes, id));
    if id in base.nodes {
      TextExact(CellOf(doc, id), value.nodes[id], base.nodes[id]);
    } else {
      NotHeldNotThere(doc, Node, id, TEXT_GONE);
      NewTextExact(value.nodes[id]);
    }
  }

  /** A record the edit has reads, after it, as the edit says; a card, exactly where it takes its text whole. */
  lemma RawExact(doc: Doc, me: nat, kind: Kind, value: CanvasValue, base: CanvasValue, after: Doc, id: string)
    requires Applied(doc, me, value, base, after) && IsFresh(doc, kind, base, id) && Valid(doc) && Valid(after)
    requires id in Records(value, kind) && IsWellFormed(value)
    ensures Raw(after, kind, id) == Records(value, kind)[id] <==>
      (kind.Node? && id in base.nodes ==> TakesWhole(CellOf(doc, id), value.nodes[id]))
  {
    var raw, rec := Raw(after, kind, id), Records(value, kind)[id];
    if kind.Node? { CardTextExact(doc, me, value, base, after, id); }
    forall f | !(kind.Node? && f == "text")
      ensures Get(raw, f) == Get(rec, f)
    {
      AnyFieldExact(doc, me, kind, value, base, after, id, f);
    }
    SameByFields(raw, rec);
  }

  lemma AnyFieldExact(doc: Doc, me: nat, kind: Kind, value: CanvasValue, base: CanvasValue, after: Doc, id: string,
      f: string)
    requires Applied(doc, me, value, base, after) && IsFresh(doc, kind, base, id)
    requires id in Records(value, kind) && id != "" && IsWellFormed(value) && !(kind.Node? && f == "text")
    ensures Get(Raw(after, kind, id), f) == Get(Records(value, kind)[id], f)
  {
    if f != "id" && !(kind.Node? && f == TEXT_GONE) {
      FieldExact(doc, me, kind, value, base, after, id, f);
    }
  }

  lemma SameByFields(a: Rec, b: Rec)
    ensures a == b <==> forall f :: Get(a, f) == Get(b, f)
  {
    if forall f :: Get(a, f) == Get(b, f) {
      forall f
        ensures f in a <==> f in b
        ensures f in a && f in b ==> a[f] == b[f]
      {
        assert Get(a, f) == Get(b, f);
      }
    }
  }

  // ---- Exactness ----

  /** Nothing in the document's graves is a record the editor had or has. */
  ghost predicate NoOldGraves(doc: Doc, v: CanvasValue) {
    forall k | k in doc.tombs && k.1 in Records(v, k.0) :: doc.tombs[k].snapshot != Records(v, k.0)[k.1]
  }

  ghost predicate EndsWithin(value: CanvasValue) {
    forall id | id in value.edges :: Ends(value.edges[id]) <= value.nodes.Keys
  }

  /** The document reads as the editor's base, and what is new to the edit is new to the document. */
  ghost predicate IsEditOf(doc: Doc, value: CanvasValue, base: CanvasValue) {
    && Valid(doc) && IsWellFormed(value) && IsPlain(base) && Reads(doc) == base
    && NoOldGraves(doc, base) && NoOldGraves(doc, value) && EndsWithin(value)
    && (forall id | id in value.nodes && id !in base.nodes :: id !in Held(doc, Node))
    && (forall id | id in value.edges && id !in base.edges :: id !in Held(doc, Edge))
  }

  lemma BaseIsHeld(doc: Doc, kind: Kind, base: CanvasValue, id: string)
    requires Reads(doc) == base && id in Records(base, kind)
    ensures id in Held(doc, kind) && Raw(doc, kind, id) == Records(base, kind)[id]
  {
  }

  lemma EditIsFresh(doc: Doc, kind: Kind, value: CanvasValue, base: CanvasValue, id: string)
    requires IsEditOf(doc, value, base) && id in Records(value, kind)
    ensures IsFresh(doc, kind, base, id)
  {
    if id in Records(base, kind) { BaseIsHeld(doc, kind, base, id); }
  }

  lemma ValidAfter(doc: Doc, me: nat, value: CanvasValue, base: CanvasValue, after: Doc)
    requires Valid(doc) && Applied(doc, me, value, base, after) && HasNames(value)
    requires forall id | id in value.nodes && id in base.nodes :: id in Held(doc, Node)
    requires forall id | id in value.edges && id in base.edges :: id in Held(doc, Edge)
    ensures Valid(after)
  {
    forall kind: Kind, id | id in Held(after, kind)
      ensures (id, "id") in FieldsRoot(after, kind)
    {
      IdAfter(doc, me, kind, value, base, after, id);
    }
    assert forall id | id in Held(after, Node) :: (id, "id") in FieldsRoot(after, Node);
    assert forall id | id in Held(after, Edge) :: (id, "id") in FieldsRoot(after, Edge);
    forall id
      ensures (id, "text") !in after.nodeFields
      ensures id in after.texts ==> id in Held(after, Node)
    {
      assert Get(FieldsRoot(after, Node), (id, "text")) == FieldAfter(doc, Node, value, base, id, "text");
      assert Get(after.texts, id) == TextAfter(doc, value, base, id);
      if id in value.nodes {
        KeepsId(doc, Node, value, base, after, id);
        HeldById(after, Node, id);
      } else {
        Untouched(doc, Node, value, base, after, id);
      }
    }
  }

  lemma IdAfter(doc: Doc, me: nat, kind: Kind, value: CanvasValue, base: CanvasValue, after: Doc, id: string)
    requires Valid(doc) && Applied(doc, me, value, base, after) && id in Held(after, kind)
    requires id in Records(value, kind) && id in Records(base, kind) ==> id in Held(doc, kind)
    ensures (id, "id") in FieldsRoot(after, kind)
  {
    if id !in Records(value, kind) { Untouched(doc, kind, value, base, after, id); }
    assert kind.Node? || kind.Edge?;
    KeepsId(doc, kind, value, base, after, id);
  }

  /** A record the edit has, read exactly, matches no grave. */
  lemma NotBuried(doc: Doc, me: nat, kind: Kind, value: CanvasValue, base: CanvasValue, after: Doc, id: string)
    requires IsEditOf(doc, value, base) && Applied(doc, me, value, base, after)
    requires id in Records(value, kind) && Raw(after, kind, id) == Records(value, kind)[id]
    ensures !IsBuried(after, kind, id)
  {
    forall k | k in after.tombs
      ensures !Matches(after, kind, id, k)
    {
      assert Get(after.tombs, k) == TombAfter(doc, me, value, base, k);
    }
  }

  /** A record of the base that the edit no longer has lies in its new grave, and matches no other. */
  lemma BuriedNow(doc: Doc, me: nat, kind: Kind, value: CanvasValue, base: CanvasValue, after: Doc, id: string)
    requires IsEditOf(doc, value, base) && Applied(doc, me, value, base, after)
    requires id in Records(base, kind) && id !in Records(value, kind)
    ensures Get(after.tombs, (kind, id, me)) == Some(Grave(kind, value, base, id))
    ensures Matches(after, kind, id, (kind, id, me))
    ensures forall k | k in after.tombs && Matches(after, kind, id, k) :: k == (kind, id, me)
  {
    BaseIsHeld(doc, kind, base, id);
    RawUntouched(doc, me, kind, value, base, after, id);
    GraveDug(doc, me, kind, value, base, after, id);
    forall k | k in after.tombs && Matches(after, kind, id, k)
      ensures k == (kind, id, me)
    {
      OnlyGrave(doc, me, kind, value, base, after, id, k);
    }
  }

  lemma GraveDug(doc: Doc, me: nat, kind: Kind, value: CanvasValue, base: CanvasValue, after: Doc, id: string)
    requires Applied(doc, me, value, base, after) && id in Held(doc, kind)
    requires id in Records(base, kind) && id !in Records(value, kind)
    ensures Get(after.tombs, (kind, id, me)) == Some(Grave(kind, value, base, id))
  {
    assert Get(after.tombs, (kind, id, me)) == TombAfter(doc, me, value, base, (kind, id, me));
  }

  lemma OnlyGrave(doc: Doc, me: nat, kind: Kind, value: CanvasValue, base: CanvasValue, after: Doc, id: string,
      k: (Kind, string, nat))
    requires NoOldGraves(doc, base) && Applied(doc, me, value, base, after) && id in Records(base, kind)
    requires Raw(after, kind, id) == Records(base, kind)[id] && Matches(after, kind, id, k)
    ensures k == (kind, id, me)
  {
    assert Get(after.tombs, k) == TombAfter(doc, me, value, base, k);
  }

  /** A record neither has: its graves are as they were. */
  lemma SameGraves(doc: Doc, me: nat, kind: Kind, value: CanvasValue, base: CanvasValue, after: Doc, id: string)
    requires Applied(doc, me, value, base, after) && id !in Records(base, kind) && id !in Records(value, kind)
    ensures forall k :: Matches(after, kind, id, k) <==> Matches(doc, kind, id, k)
    ensures forall k | Matches(doc, kind, id, k) :: Get(after.tombs, k) == Get(doc.tombs, k)
  {
    RawUntouched(doc, me, kind, value, base, after, id);
    forall k: (Kind, string, nat) | k.0 == kind && k.1 == id
      ensures Get(after.tombs, k) == Get(doc.tombs, k)
    {
      assert Get(after.tombs, k) == TombAfter(doc, me, value, base, k);
    }
  }

  /** The nodes held that the edit does not have. */
  function Rest(value: CanvasValue, after: Doc): set<string> {
    Held(after, Node) - value.nodes.Keys
  }

  lemma RestIsBuried(doc: Doc, me: nat, value: CanvasValue, base: CanvasValue, after: Doc)
    requires IsEditOf(doc, value, base) && Applied(doc, me, value, base, after)
    ensures Rest(value, after) <= DeadFirst(after)
    ensures base.nodes.Keys - value.nodes.Keys <= Rest(value, after) && Dead(doc) <= Rest(value, after)
  {
    DeadIsGreatest(doc);
    forall id | id in Rest(value, after)
      ensures IsBuried(after, Node, id)
    {
      if id in base.nodes {
        BuriedNow(doc, me, Node, value, base, after, id);
      } else {
        RawUntouched(doc, me, Node, value, base, after, id);
        SameGraves(doc, me, Node, value, base, after, id);
        assert id in Dead(doc);
      }
    }
    forall id | id in Held(doc, Node) && id !in value.nodes
      ensures id in Rest(value, after)
    {
      RawUntouched(doc, me, Node, value, base, after, id);
    }
    forall id | id in Dead(doc)
      ensures id !in value.nodes
    {
      assert id !in LiveNodes(doc);
    }
  }

  /** Every edge the edit does not have is dead while those nodes are. */
  lemma OtherEdgesDead(doc: Doc, me: nat, value: CanvasValue, base: CanvasValue, after: Doc, id: string)
    requires IsEditOf(doc, value, base) && Applied(doc, me, value, base, after)
    requires id in Held(after, Edge) && id !in value.edges
    ensures !EdgeLive(after, Rest(value, after), id)
  {
    RestIsBuried(doc, me, value, base, after);
    if id in base.edges {
      GoneEdgeDead(doc, me, value, base, after, id);
    } else {
      OldEdgeDead(doc, me, value, base, after, id);
    }
  }

  lemma GoneEdgeDead(doc: Doc, me: nat, value: CanvasValue, base: CanvasValue, after: Doc, id: string)
    requires IsEditOf(doc, value, base) && Applied(doc, me, value, base, after)
    requires id in base.edges && id !in value.edges
    requires base.nodes.Keys - value.nodes.Keys <= Rest(value, after)
    ensures !EdgeLive(after, Rest(value, after), id)
  {
    BuriedNow(doc, me, Edge, value, base, after, id);
    var k := (Edge, id, me);
    AlongIsDeleted(base.edges[id], base.nodes.Keys - value.nodes.Keys);
    assert Get(after.tombs, k) == Some(after.tombs[k]);
    assert after.tombs[k].along == AlongWith(Edge, base.edges[id], base.nodes.Keys - value.nodes.Keys);
    DeadInGrave(after, Rest(value, after), id, k);
  }

  lemma AlongIsDeleted(rec: Rec, deleted: set<string>)
    ensures AlongWith(Edge, rec, deleted).Some? ==> AlongWith(Edge, rec, deleted).value in deleted
  {
  }

  lemma OldEdgeDead(doc: Doc, me: nat, value: CanvasValue, base: CanvasValue, after: Doc, id: string)
    requires IsEditOf(doc, value, base) && Applied(doc, me, value, base, after)
    requires id in Held(after, Edge) && id !in value.edges && id !in base.edges
    requires Dead(doc) <= Rest(value, after)
    ensures !EdgeLive(after, Rest(value, after), id)
  {
    DeadBefore(doc, me, value, base, after, id);
    SameGraves(doc, me, Edge, value, base, after, id);
    StillDead(doc, after, Dead(doc), Rest(value, after), id);
  }

  lemma DeadBefore(doc: Doc, me: nat, value: CanvasValue, base: CanvasValue, after: Doc, id: string)
    requires IsEditOf(doc, value, base) && Applied(doc, me, value, base, after)
    requires id in Held(after, Edge) && id !in value.edges && id !in base.edges
    ensures !EdgeLive(doc, Dead(doc), id)
  {
    RawUntouched(doc, me, Edge, value, base, after, id);
    assert id !in LiveEdges(doc);
  }

  /** An edge in one grave, dug alone or along with a node that is dead, is dead. */
  lemma DeadInGrave(doc: Doc, dead: set<string>, id: string, k: (Kind, string, nat))
    requires k in doc.tombs && Matches(doc, Edge, id, k)
    requires forall j | j in doc.tombs && Matches(doc, Edge, id, j) :: j == k
    requires doc.tombs[k].along.Some? ==> doc.tombs[k].along.value in dead
    ensures !EdgeLive(doc, dead, id)
  {
  }

  lemma StillDead(doc: Doc, after: Doc, small: set<string>, big: set<string>, id: string)
    requires small <= big && !EdgeLive(doc, small, id)
    requires forall k :: Matches(after, Edge, id, k) <==> Matches(doc, Edge, id, k)
    requires forall k | Matches(doc, Edge, id, k) :: Get(after.tombs, k) == Get(doc.tombs, k)
    ensures !EdgeLive(after, big, id)
  {
    var k :| k in doc.tombs && Matches(doc, Edge, id, k);
    assert Matches(after, Edge, id, k);
    if exists j | j in doc.tombs :: Matches(doc, Edge, id, j) && doc.tombs[j].along.None? {
      var j :| j in doc.tombs && Matches(doc, Edge, id, j) && doc.tombs[j].along.None?;
      assert Matches(after, Edge, id, j);
    }
  }

  /** Every card the edit has takes its text whole. */
  ghost predicate AllTakeWhole(doc: Doc, value: CanvasValue, base: CanvasValue) {
    forall id | id in value.nodes && id in base.nodes :: TakesWhole(CellOf(doc, id), value.nodes[id])
  }

  /** Each record of the edit is held and reads as the edit says. */
  ghost predicate IsThere(value: CanvasValue, after: Doc) {
    && (forall id | id in value.nodes :: id in Held(after, Node) && Raw(after, Node, id) == value.nodes[id])
    && (forall id | id in value.edges :: id in Held(after, Edge) && Raw(after, Edge, id) == value.edges[id])
  }

  lemma ReadsRest(doc: Doc, me: nat, value: CanvasValue, base: CanvasValue, after: Doc)
    requires IsEditOf(doc, value, base) && Applied(doc, me, value, base, after)
    requires IsThere(value, after)
    ensures Dead(after) == Rest(value, after)
  {
    RestIsBuried(doc, me, value, base, after);
    DeadIsGreatest(after);
    forall id | id in Held(after, Edge) && EdgeLive(after, Rest(value, after), id)
      ensures Ends(Raw(after, Edge, id)) !! Rest(value, after)
    {
      if id !in value.edges { OtherEdgesDead(doc, me, value, base, after, id); }
    }
    assert Stable(after, Rest(value, after));
    forall id | id in value.nodes
      ensures id !in DeadFirst(after)
    {
      NotBuried(doc, me, Node, value, base, after, id);
    }
  }

  lemma EdgesRead(doc: Doc, me: nat, value: CanvasValue, base: CanvasValue, after: Doc, id: string)
    requires IsEditOf(doc, value, base) && Applied(doc, me, value, base, after) && IsThere(value, after)
    requires Dead(after) == Rest(value, after)
    ensures id in LiveEdges(after) <==> id in value.edges
  {
    if id in value.edges {
      NotBuried(doc, me, Edge, value, base, after, id);
    } else if id in Held(after, Edge) {
      OtherEdgesDead(doc, me, value, base, after, id);
    }
  }

  lemma NodesAre(value: CanvasValue, after: Doc)
    requires IsThere(value, after) && Dead(after) == Rest(value, after)
    ensures LiveNodes(after) == value.nodes
  {
  }

  lemma EdgesAre(value: CanvasValue, after: Doc)
    requires IsThere(value, after) && LiveEdges(after).Keys == value.edges.Keys
    ensures LiveEdges(after) == value.edges
  {
  }

  lemma ReadsValue(doc: Doc, me: nat, value: CanvasValue, base: CanvasValue, after: Doc)
    requires IsEditOf(doc, value, base) && Applied(doc, me, value, base, after) && IsThere(value, after)
    ensures Reads(after) == value
  {
    ReadsRest(doc, me, value, base, after);
    NodesAre(value, after);
    forall id
      ensures id in LiveEdges(after).Keys <==> id in value.edges.Keys
    {
      EdgesRead(doc, me, value, base, after, id);
    }
    EdgesAre(value, after);
  }

  lemma EditIsHeld(doc: Doc, me: nat, kind: Kind, value: CanvasValue, base: CanvasValue, after: Doc, id: string)
    requires IsEditOf(doc, value, base) && Applied(doc, me, value, base, after) && id in Records(value, kind)
    ensures id in Held(after, kind) && Valid(after)
    ensures Raw(after, kind, id) == Records(value, kind)[id] <==>
      (kind.Node? && id in base.nodes ==> TakesWhole(CellOf(doc, id), value.nodes[id]))
  {
    EditIsFresh(doc, kind, value, base, id);
    forall i | i in value.nodes && i in base.nodes
      ensures i in Held(doc, Node)
    {
      BaseIsHeld(doc, Node, base, i);
    }
    forall i | i in value.edges && i in base.edges
      ensures i in Held(doc, Edge)
    {
      BaseIsHeld(doc, Edge, base, i);
    }
    ValidAfter(doc, me, value, base, after);
    RawExact(doc, me, kind, value, base, after, id);
    assert kind.Node? || kind.Edge?;
    KeepsId(doc, kind, value, base, after, id);
    HeldById(after, kind, id);
  }

  /** Exactness: a document that reads as the base reads, once the edit is in, as exactly what the edit says —
      if and only if every card in both takes its text whole. */
  lemma EditIsExact(doc: Doc, me: nat, value: CanvasValue, base: CanvasValue, after: Doc)
    requires IsEditOf(doc, value, base) && Applied(doc, me, value, base, after)
    ensures Reads(after) == value <==> AllTakeWhole(doc, value, base)
  {
    forall id | id in value.nodes
      ensures id in Held(after, Node)
      ensures Raw(after, Node, id) == value.nodes[id] <==>
          (id in base.nodes ==> TakesWhole(CellOf(doc, id), value.nodes[id]))
    {
      EditIsHeld(doc, me, Node, value, base, after, id);
    }
    forall id | id in value.edges
      ensures id in Held(after, Edge) && Raw(after, Edge, id) == value.edges[id]
    {
      EditIsHeld(doc, me, Edge, value, base, after, id);
    }
    if AllTakeWhole(doc, value, base) {
      ReadsValue(doc, me, value, base, after);
    } else {
      var id :| id in value.nodes && id in base.nodes && !TakesWhole(CellOf(doc, id), value.nodes[id]);
      assert id in LiveNodes(after) ==> LiveNodes(after)[id] == Raw(after, Node, id);
    }
  }
}
