/** Bringing an edit into a canvas document, as a keyed diff from what its editor last saw
    (`applyCanvas` in `packages/plugin/src/canvas-model.ts`). No base is an empty base. */
module CanvasEdit {
  import opened Json
  import opened TextMerge
  import opened CanvasModel

  // ---- A record's fields ----

  /** A field of a record after an edit: only what changed since the base is written; with no base, only
      what the record says. */
  function NewField(was: Option<Json>, id: string, f: string, rec: Rec, base: Option<Rec>): Option<Json> {
    match base
    case Some(b) => if f == "id" || Get(b, f) == Get(rec, f) then was else Get(rec, f)
    case None => if f == "id" then Some(Str(id)) else if f in rec then Some(rec[f]) else was
  }

  // ---- A card's text ----

  /** A card's shared text, and the text an edit hid. */
  datatype Cell = Cell(text: Option<string>, gone: Option<Json>)

  function CellOf(doc: Doc, id: string): Cell {
    Cell(Get(doc.texts, id), Get(doc.nodeFields, (id, TEXT_GONE)))
  }

  /** `next` brought into a card's text: hidden when it is no text, shown again over what was hidden, made
      when there is none, and else merged from `base`. */
  function NewText(cell: Cell, base: Option<string>, next: Option<Json>): Cell {
    if next.None? || !next.value.Str? then
      if base.Some? && cell.text.Some? then cell.(gone := Some(Str(base.value))) else cell
    else
      var n := next.value.s;
      if cell.text.None? then Cell(Some(n), None)
      else if cell.gone.Some? && cell.gone.value.Str?
          then Cell(Some(Merge(cell.text.value, cell.gone.value.s, n)), None)
      else if base.None? then Cell(Some(Merge(cell.text.value, cell.text.value, n)), None)
      else Cell(Some(if base.value == n then cell.text.value else Merge(cell.text.value, base.value, n)), None)
  }

  /** The text of the base an edit of a card is made from: none for a card new to the editor. */
  function TextBase(base: Option<Rec>): Option<string> {
    match base
    case None => None
    case Some(b) => Some(if "text" in b && b["text"].Str? then b["text"].s else "")
  }

  predicate NamesText(rec: Rec, base: Option<Rec>) {
    "text" in rec || (base.Some? && "text" in base.value)
  }

  function NewCell(cell: Cell, rec: Rec, base: Option<Rec>): Cell {
    if NamesText(rec, base) then NewText(cell, TextBase(base), Get(rec, "text")) else cell
  }

  // ---- The whole edit ----

  function Records(value: CanvasValue, kind: Kind): map<string, Rec> {
    if kind.Node? then value.nodes else value.edges
  }

  /** A field of the document after the edit. */
  function FieldAfter(doc: Doc, kind: Kind, value: CanvasValue, base: CanvasValue, id: string,
      f: string): Option<Json>
  {
    var was := Get(FieldsRoot(doc, kind), (id, f));
    if id !in Records(value, kind) then was
    else
      var rec, b := Records(value, kind)[id], Get(Records(base, kind), id);
      if kind.Node? && f == "text" then was
      else if kind.Node? && f == TEXT_GONE then NewCell(CellOf(doc, id), rec, b).gone
      else NewField(was, id, f, rec, b)
  }

  function TextAfter(doc: Doc, value: CanvasValue, base: CanvasValue, id: string): Option<string> {
    if id in value.nodes then NewCell(CellOf(doc, id), value.nodes[id], Get(base.nodes, id)).text
    else Get(doc.texts, id)
  }

  /** The node an edge is deleted along with, if one of its ends is deleted by the same edit. */
  function AlongWith(kind: Kind, rec: Rec, deleted: set<string>): Option<string> {
    if kind.Node? then None
    else if "fromNode" in rec && rec["fromNode"].Str? && rec["fromNode"].s in deleted then Some(rec["fromNode"].s)
    else if "toNode" in rec && rec["toNode"].Str? && rec["toNode"].s in deleted then Some(rec["toNode"].s)
    else None
  }

  /** A tombstone after the edit: answered for a record new to the editor, and left, by client `me`, for a
      record of the base that the edit no longer has. */
  function TombAfter(doc: Doc, me: nat, value: CanvasValue, base: CanvasValue,
      k: (Kind, string, nat)): Option<Tombstone>
  {
    var now, was := Records(value, k.0), Records(base, k.0);
    if k.1 in now then (if k.1 in was then Get(doc.tombs, k) else None)
    else if k.1 in was && k.2 == me && k.1 in Held(doc, k.0)
    then Some(Grave(k.0, value, base, k.1))
    else Get(doc.tombs, k)
  }

  ghost predicate FieldsApplied(doc: Doc, kind: Kind, value: CanvasValue, base: CanvasValue, after: Doc) {
    forall id, f :: Get(FieldsRoot(after, kind), (id, f)) == FieldAfter(doc, kind, value, base, id, f)
  }

  /** `after` is `doc` with the edit from `base` to `value` brought in by client `me`. */
  ghost predicate Applied(doc: Doc, me: nat, value: CanvasValue, base: CanvasValue, after: Doc) {
    && FieldsApplied(doc, Node, value, base, after)
    && FieldsApplied(doc, Edge, value, base, after)
    && (forall id :: Get(after.texts, id) == TextAfter(doc, value, base, id))
    && (forall k :: Get(after.tombs, k) == TombAfter(doc, me, value, base, k))
  }

  /** Records without the model's own field: what a file or a view holds. */
  ghost predicate IsPlain(value: CanvasValue) {
    forall id | id in value.nodes :: TEXT_GONE !in value.nodes[id]
  }

  // ---- Edited in place ----

  type Fields = map<(string, string), Json>

  function Put(root: Fields, k: (string, string), v: Option<Json>): Fields {
    if v.Some? then root[k := v.value] else root - {k}
  }

  lemma PutGets(root: Fields, k: (string, string), v: Option<Json>, j: (string, string))
    ensures Get(Put(root, k, v), j) == if j == k then v else Get(root, j)
  {
  }

  /** These fields of one record, written as they differ from its base. */
  method SetThese(root: Fields, id: string, rec: Rec, base: Option<Rec>, all: set<string>) returns (out: Fields)
    ensures FieldsSet(root, id, rec, base, all, out)
  {
    out := root;
    var rest := all;
    while rest != {}
      invariant rest <= all
      invariant FieldsSet(root, id, rec, base, all - rest, out)
      decreases |rest|
    {
      var f :| f in rest;
      ghost var now := out;
      out := Put(out, (id, f), NewField(Get(out, (id, f)), id, f, rec, base));
      OneMoreField(root, id, rec, base, all - rest, f, now, out);
      assert all - (rest - {f}) == (all - rest) + {f};
      rest := rest - {f};
    }
    assert all - {} == all;
  }

  class CanvasDoc {
    var nodeFields: Fields
    var edgeFields: Fields
    var texts: map<string, string>
    var tombs: map<(Kind, string, nat), Tombstone>
    const me: nat

    constructor (client: nat)
      ensures me == client && Value() == Doc(map[], map[], map[], map[])
    {
      me := client;
      nodeFields, edgeFields, texts, tombs := map[], map[], map[], map[];
    }

    function Value(): Doc
      reads this
    {
      Doc(nodeFields, edgeFields, texts, tombs)
    }

    function Root(kind: Kind): Fields
      reads this
    {
      if kind.Node? then nodeFields else edgeFields
    }

    /** The fields of one record, written as they differ from its base. */
    method SetFields(kind: Kind, id: string, rec: Rec, base: Option<Rec>)
      requires kind.Node? ==> TEXT_GONE !in rec && (base.Some? ==> TEXT_GONE !in base.value)
      modifies this`nodeFields, this`edgeFields, this`texts
      ensures RecordSet(old(Value()), kind, id, rec, base, Value())
    {
      SetPlainFields(kind, id, rec, base);
      ghost var plain := Value();
      if kind.Node? && NamesText(rec, base) {
        ApplyText(id, TextBase(base), Get(rec, "text"));
      }
      FieldsThenText(old(Value()), kind, id, rec, base, plain, Value());
    }

    /** Every field but a card's text. */
    method SetPlainFields(kind: Kind, id: string, rec: Rec, base: Option<Rec>)
      modifies this`nodeFields, this`edgeFields
      ensures PlainSet(old(Root(kind)), kind, id, rec, base, Root(kind))
      ensures kind.Node? ==> edgeFields == old(edgeFields)
      ensures kind.Edge? ==> nodeFields == old(nodeFields)
    {
      ghost var root := Root(kind);
      var out := SetThese(Root(kind), id, rec, base, FieldNames(kind, rec, base));
      AllFieldsSet(root, kind, id, rec, base, out);
      if kind.Node? {
        nodeFields := out;
      } else {
        edgeFields := out;
      }
    }

    /** A card's text. */
    method ApplyText(id: string, base: Option<string>, next: Option<Json>)
      modifies this`nodeFields, this`texts
      ensures CellOf(Value(), id) == NewText(CellOf(old(Value()), id), base, next)
      ensures forall k | k != (id, TEXT_GONE) :: Get(nodeFields, k) == Get(old(nodeFields), k)
      ensures forall k | k != id :: Get(texts, k) == Get(old(texts), k)
    {
      var text, gone := Get(texts, id), Get(nodeFields, (id, TEXT_GONE));
      if next.None? || !next.value.Str? {
        if base.Some? && text.Some? {
          nodeFields := nodeFields[(id, TEXT_GONE) := Str(base.value)];
        }
        return;
      }
      var n := next.value.s;
      if gone.Some? {
        nodeFields := nodeFields - {(id, TEXT_GONE)};
        if text.Some? && gone.value.Str? {
          texts := texts[id := Merge(text.value, gone.value.s, n)];
          return;
        }
      }
      if text.None? {
        texts := texts[id := n];
        return;
      }
      if base.None? {
        texts := texts[id := Merge(text.value, text.value, n)];
        return;
      }
      if base.value != n {
        texts := texts[id := Merge(text.value, base.value, n)];
      }
    }

    /** A record wanted again: its tombstones are answered. */
    method ClearTombstones(kind: Kind, id: string)
      modifies this`tombs
      ensures forall k :: Get(tombs, k) == if k.0 == kind && k.1 == id then None else Get(old(tombs), k)
    {
      tombs := map k | k in tombs && !(k.0 == kind && k.1 == id) :: tombs[k];
    }

    /** Delete a record by tombstone, if the document holds anything of it. */
    method Bury(kind: Kind, id: string, snapshot: Rec, along: Option<string>)
      modifies this`tombs
      ensures tombs == BuriedIn(old(Value()), kind, me, id, Tombstone(snapshot, along))
    {
      if id in Held(Value(), kind) {
        tombs := tombs[(kind, id, me) := Tombstone(snapshot, along)];
      }
    }

    /** The records of one kind that the edit has. */
    method SetRecords(kind: Kind, value: CanvasValue, base: CanvasValue)
      requires IsPlain(value) && IsPlain(base)
      modifies this`nodeFields, this`edgeFields, this`texts, this`tombs
      ensures RecordsSet(old(Value()), kind, value, base, Records(value, kind).Keys, Value())
    {
      var all := Records(value, kind).Keys;
      var rest := all;
      ghost var doc := Value();
      while rest != {}
        invariant rest <= all
        invariant RecordsSet(doc, kind, value, base, all - rest, Value())
        decreases |rest|
      {
        var id :| id in rest;
        ghost var now := Value();
        var was := Get(Records(base, kind), id);
        if was.None? {
          ClearTombstones(kind, id);
        }
        ghost var cleared := Value();
        SetFields(kind, id, Records(value, kind)[id], was);
        OneMoreRecord(doc, kind, value, base, all - rest, id, now, cleared, Value());
        assert all - (rest - {id}) == (all - rest) + {id};
        rest := rest - {id};
      }
    }

    /** The records of one kind that the edit no longer has. */
    method BuryGone(kind: Kind, value: CanvasValue, base: CanvasValue)
      modifies this`tombs
      ensures GoneBuried(old(Value()), kind, me, value, base, Records(base, kind).Keys - Records(value, kind).Keys,
          Value())
    {
      NoneBuried(Value(), kind, me, value, base);
      BuryAll(Value(), kind, value, base, {}, Records(base, kind).Keys - Records(value, kind).Keys);
      assert {} + (Records(base, kind).Keys - Records(value, kind).Keys) ==
          Records(base, kind).Keys - Records(value, kind).Keys;
    }

    method BuryAll(ghost doc: Doc, kind: Kind, value: CanvasValue, base: CanvasValue, ghost before: set<string>,
        all: set<string>)
      requires all <= Records(base, kind).Keys && before !! all
      requires GoneBuried(doc, kind, me, value, base, before, Value())
      modifies this`tombs
      ensures GoneBuried(doc, kind, me, value, base, before + all, Value())
    {
      var rest := all;
      ghost var done := before;
      while rest != {}
        invariant rest <= all && done !! rest && done + rest == before + all
        invariant GoneBuried(doc, kind, me, value, base, done, Value())
        decreases |rest|
      {
        var id :| id in rest;
        BuryNext(doc, kind, value, base, done, id);
        done := done + {id};
        rest := rest - {id};
      }
      assert done == before + all;
    }

    method BuryNext(ghost doc: Doc, kind: Kind, value: CanvasValue, base: CanvasValue, ghost done: set<string>,
        id: string)
      requires id in Records(base, kind) && id !in done
      requires GoneBuried(doc, kind, me, value, base, done, Value())
      modifies this`tombs
      ensures GoneBuried(doc, kind, me, value, base, done + {id}, Value())
    {
      ghost var now := Value();
      var deleted := base.nodes.Keys - value.nodes.Keys;
      var snapshot := Records(base, kind)[id];
      Bury(kind, id, snapshot, AlongWith(kind, snapshot, deleted));
      OneMoreGone(doc, kind, me, value, base, done, id, now, Value());
    }

    /** Bring an edit in: nodes, then edges. */
    method ApplyCanvas(value: CanvasValue, base: CanvasValue)
      requires IsPlain(value) && IsPlain(base)
      modifies this
      ensures Applied(old(Value()), me, value, base, Value())
    {
      ghost var doc := Value();
      SetRecords(Node, value, base);
      ghost var nodesSet := Value();
      BuryGone(Node, value, base);
      ghost var nodesDone := Value();
      SetRecords(Edge, value, base);
      ghost var edgesSet := Value();
      BuryGone(Edge, value, base);
      BothKinds(doc, me, value, base, nodesSet, nodesDone, edgesSet, Value());
    }
  }

  /** The fields in `done` of one record are set in `now`, and no other entry is touched. */
  ghost predicate FieldsSet(root: Fields, id: string, rec: Rec, base: Option<Rec>, done: set<string>, now: Fields) {
    forall k :: Get(now, k) ==
      if k.0 == id && k.1 in done then NewField(Get(root, k), id, k.1, rec, base) else Get(root, k)
  }

  lemma OneMoreField(root: Fields, id: string, rec: Rec, base: Option<Rec>, done: set<string>, f: string, was: Fields,
      now: Fields)
    requires FieldsSet(root, id, rec, base, done, was) && f !in done
    requires now == Put(was, (id, f), NewField(Get(was, (id, f)), id, f, rec, base))
    ensures FieldsSet(root, id, rec, base, done + {f}, now)
  {
    forall k
      ensures Get(now, k) ==
        if k.0 == id && k.1 in done + {f} then NewField(Get(root, k), id, k.1, rec, base) else Get(root, k)
    {
      PutGets(was, (id, f), NewField(Get(was, (id, f)), id, f, rec, base), k);
    }
  }

  /** `after` is `doc` with one record set. */
  ghost predicate RecordSet(doc: Doc, kind: Kind, id: string, rec: Rec, base: Option<Rec>, after: Doc) {
    && after.tombs == doc.tombs
    && (kind.Node? ==> after.edgeFields == doc.edgeFields)
    && (kind.Edge? ==> after.nodeFields == doc.nodeFields && after.texts == doc.texts)
    && (forall k :: Get(FieldsRoot(after, kind), k) ==
          if k.0 != id then Get(FieldsRoot(doc, kind), k)
          else if kind.Node? && k.1 == "text" then Get(FieldsRoot(doc, kind), k)
          else if kind.Node? && k.1 == TEXT_GONE then NewCell(CellOf(doc, id), rec, base).gone
          else NewField(Get(FieldsRoot(doc, kind), k), id, k.1, rec, base))
    && (kind.Node? ==> forall k ::
          Get(after.texts, k) == if k == id then NewCell(CellOf(doc, id), rec, base).text else Get(doc.texts, k))
  }

  /** The fields an edit of a record may write, a card's text apart. */
  function FieldNames(kind: Kind, rec: Rec, base: Option<Rec>): set<string> {
    rec.Keys + {"id"} + (if base.Some? then base.value.Keys else {}) - (if kind.Node? then {"text"} else {})
  }

  ghost predicate PlainSet(root: Fields, kind: Kind, id: string, rec: Rec, base: Option<Rec>, now: Fields) {
    forall k :: Get(now, k) ==
      if k.0 == id && !(kind.Node? && k.1 == "text") then NewField(Get(root, k), id, k.1, rec, base) else Get(root, k)
  }

  /** Fields neither the record nor its base has are as they were. */
  lemma AllFieldsSet(root: Fields, kind: Kind, id: string, rec: Rec, base: Option<Rec>, now: Fields)
    requires FieldsSet(root, id, rec, base, FieldNames(kind, rec, base), now)
    ensures PlainSet(root, kind, id, rec, base, now)
  {
  }

  lemma FieldsThenText(doc: Doc, kind: Kind, id: string, rec: Rec, base: Option<Rec>, plain: Doc, after: Doc)
    requires kind.Node? ==> TEXT_GONE !in rec && (base.Some? ==> TEXT_GONE !in base.value)
    requires PlainSet(FieldsRoot(doc, kind), kind, id, rec, base, FieldsRoot(plain, kind))
    requires plain == if kind.Node? then doc.(nodeFields := plain.nodeFields) else doc.(edgeFields := plain.edgeFields)
    requires after == plain.(nodeFields := after.nodeFields, texts := after.texts)
    requires if kind.Node? && NamesText(rec, base) then
        && CellOf(after, id) == NewText(CellOf(plain, id), TextBase(base), Get(rec, "text"))
        && (forall k | k != (id, TEXT_GONE) :: Get(after.nodeFields, k) == Get(plain.nodeFields, k))
        && (forall k | k != id :: Get(after.texts, k) == Get(plain.texts, k))
      else after == plain
    ensures RecordSet(doc, kind, id, rec, base, after)
  {
    assert kind.Node? ==> CellOf(plain, id) == CellOf(doc, id);
  }

  // ---- Records, one after another ----

  /** The records in `done` are set in `now`, and nothing else of `doc` is touched. */
  ghost predicate RecordsSet(doc: Doc, kind: Kind, value: CanvasValue, base: CanvasValue, done: set<string>, now: Doc) {
    && done <= Records(value, kind).Keys
    && (kind.Node? ==> now.edgeFields == doc.edgeFields)
    && (kind.Edge? ==> now.nodeFields == doc.nodeFields && now.texts == doc.texts)
    && (forall id, f :: Get(FieldsRoot(now, kind), (id, f)) ==
          if id in done then FieldAfter(doc, kind, value, base, id, f) else Get(FieldsRoot(doc, kind), (id, f)))
    && (kind.Node? ==> forall id ::
          Get(now.texts, id) == if id in done then TextAfter(doc, value, base, id) else Get(doc.texts, id))
    && (forall k :: Get(now.tombs, k) ==
          if k.0 == kind && k.1 in done && k.1 !in Records(base, kind) then None else Get(doc.tombs, k))
  }

  lemma OneMoreRecord(doc: Doc, kind: Kind, value: CanvasValue, base: CanvasValue, done: set<string>, id: string,
                      now: Doc, cleared: Doc, after: Doc)
    requires RecordsSet(doc, kind, value, base, done, now) && id in Records(value, kind) && id !in done
    requires cleared == now.(tombs := cleared.tombs)
    requires id in Records(base, kind) ==> cleared == now
    requires id !in Records(base, kind) ==>
      forall k :: Get(cleared.tombs, k) == if k.0 == kind && k.1 == id then None else Get(now.tombs, k)
    requires RecordSet(cleared, kind, id, Records(value, kind)[id], Get(Records(base, kind), id), after)
    ensures RecordsSet(doc, kind, value, base, done + {id}, after)
  {
    if kind.Node? { assert CellOf(cleared, id) == CellOf(doc, id); }
    forall i, f
      ensures Get(FieldsRoot(after, kind), (i, f)) ==
        if i in done + {id} then FieldAfter(doc, kind, value, base, i, f) else Get(FieldsRoot(doc, kind), (i, f))
    {
      assert Get(FieldsRoot(cleared, kind), (i, f)) == Get(FieldsRoot(now, kind), (i, f));
    }
  }

  /** The records in `done` are buried in `now` where `doc` holds anything of them, and nothing else is touched. */
  ghost predicate GoneBuried(doc: Doc, kind: Kind, me: nat, value: CanvasValue, base: CanvasValue, done: set<string>,
      now: Doc)
  {
    && now == doc.(tombs := now.tombs)
    && done <= Records(base, kind).Keys
    && forall k :: Get(now.tombs, k) ==
         if k.0 == kind && k.1 in done && k.2 == me && k.1 in Held(doc, kind) then Some(Grave(kind, value, base, k.1))
         else Get(doc.tombs, k)
  }

  /** The tombstone an edit leaves for a record of its base. */
  function Grave(kind: Kind, value: CanvasValue, base: CanvasValue, id: string): Tombstone
    requires id in Records(base, kind)
  {
    var snapshot := Records(base, kind)[id];
    Tombstone(snapshot, AlongWith(kind, snapshot, base.nodes.Keys - value.nodes.Keys))
  }

  function BuriedIn(doc: Doc, kind: Kind, me: nat, id: string, t: Tombstone): map<(Kind, string, nat), Tombstone> {
    if id in Held(doc, kind) then doc.tombs[(kind, id, me) := t] else doc.tombs
  }

  lemma NoneBuried(doc: Doc, kind: Kind, me: nat, value: CanvasValue, base: CanvasValue)
    ensures GoneBuried(doc, kind, me, value, base, {}, doc)
  {
  }

  lemma OneMoreGone(doc: Doc, kind: Kind, me: nat, value: CanvasValue, base: CanvasValue, done: set<string>, id: string,
                    now: Doc, after: Doc)
    requires GoneBuried(doc, kind, me, value, base, done, now) && id in Records(base, kind) && id !in done
    requires after == now.(tombs := after.tombs)
    requires after.tombs == BuriedIn(now, kind, me, id, Grave(kind, value, base, id))
    ensures GoneBuried(doc, kind, me, value, base, done + {id}, after)
  {
    assert Held(now, kind) == Held(doc, kind);
  }

  lemma HeldOutside(doc: Doc, kind: Kind, value: CanvasValue, base: CanvasValue, now: Doc, id: string)
    requires RecordsSet(doc, kind, value, base, Records(value, kind).Keys, now) && id !in Records(value, kind)
    ensures id in Held(now, kind) <==> id in Held(doc, kind)
  {
    assert forall f :: Get(FieldsRoot(now, kind), (id, f)) == Get(FieldsRoot(doc, kind), (id, f));
    if id in Held(now, kind) {
      var k :| k in FieldsRoot(now, kind) && k.0 == id;
      assert Get(FieldsRoot(doc, kind), (id, k.1)).Some?;
    }
    if id in Held(doc, kind) {
      var k :| k in FieldsRoot(doc, kind) && k.0 == id;
      assert Get(FieldsRoot(now, kind), (id, k.1)).Some?;
    }
  }

  lemma KindTombs(doc: Doc, kind: Kind, me: nat, value: CanvasValue, base: CanvasValue, now: Doc, after: Doc,
      k: (Kind, string, nat))
    requires RecordsSet(doc, kind, value, base, Records(value, kind).Keys, now)
    requires GoneBuried(now, kind, me, value, base, Records(base, kind).Keys - Records(value, kind).Keys, after)
    ensures Get(after.tombs, k) == if k.0 == kind then TombAfter(doc, me, value, base, k) else Get(doc.tombs, k)
  {
    if k.1 !in Records(value, kind) { HeldOutside(doc, kind, value, base, now, k.1); }
  }

  lemma BothKinds(doc: Doc, me: nat, value: CanvasValue, base: CanvasValue, nodesSet: Doc, nodesDone: Doc,
      edgesSet: Doc, after: Doc)
    requires RecordsSet(doc, Node, value, base, value.nodes.Keys, nodesSet)
    requires GoneBuried(nodesSet, Node, me, value, base, base.nodes.Keys - value.nodes.Keys, nodesDone)
    requires RecordsSet(nodesDone, Edge, value, base, value.edges.Keys, edgesSet)
    requires GoneBuried(edgesSet, Edge, me, value, base, base.edges.Keys - value.edges.Keys, after)
    ensures Applied(doc, me, value, base, after)
  {
    forall k
      ensures Get(after.tombs, k) == TombAfter(doc, me, value, base, k)
    {
      KindTombs(doc, Node, me, value, base, nodesSet, nodesDone, k);
      KindTombs(nodesDone, Edge, me, value, base, edgesSet, after, k);
      assert Held(nodesDone, Edge) == Held(doc, Edge);
    }
    forall id, f
      ensures Get(FieldsRoot(after, Node), (id, f)) == FieldAfter(doc, Node, value, base, id, f)
      ensures Get(FieldsRoot(after, Edge), (id, f)) == FieldAfter(doc, Edge, value, base, id, f)
    {
      assert FieldsRoot(nodesDone, Edge) == FieldsRoot(doc, Edge);
      assert FieldsRoot(after, Node) == FieldsRoot(nodesSet, Node);
    }
  }
}
