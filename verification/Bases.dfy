/** The views of an Obsidian base as a document: a view's fields, and its three lists as sets of items
    (`packages/plugin/src/bases-model.ts`). The order of views and of list items, and column widths, are not part of
    this model. */
module Bases {
  import opened Json

  type Rec = map<string, Json>

  /** Entries of one root: a view and a field of it, or a view and an item of one of its lists. */
  type Root = map<(string, string), Json>

  datatype Part = Fields | Columns | Sorts | Lanes

  /** A view, its lists by item id. */
  datatype BView = BView(kind: string, fields: Rec, columns: Option<Rec>, sorts: Option<Rec>, lanes: Option<Rec>)

  /** The document. Its root of list items is kept as one root a list. */
  datatype Doc = Doc(fields: Root, columns: Root, sorts: Root, lanes: Root, tombs: map<(string, nat), BView>)

  const TYPE := "type"
  const ORDER := "order"
  const SORT := "sort"
  const GROUP_ORDER := "groupOrder"

  function RootOf(doc: Doc, part: Part): Root {
    match part
    case Fields => doc.fields
    case Columns => doc.columns
    case Sorts => doc.sorts
    case Lanes => doc.lanes
  }

  function Of(root: Root, view: string): (rec: Rec)
    ensures forall k :: Get(rec, k) == Get(root, (view, k))
  {
    var keys := set e | e in root && e.0 == view :: e.1;
    assert forall k :: k in keys ==> (view, k) in root;
    map k | k in keys :: root[(view, k)]
  }

  lemma SameRec(a: Rec, b: Rec)
    requires forall k :: Get(a, k) == Get(b, k)
    ensures a == b
  {
    forall k
      ensures k in a <==> k in b
      ensures k in a && k in b ==> a[k] == b[k]
    {
      assert Get(a, k) == Get(b, k);
    }
  }

  // ---- List items ----

  /** The id of a list item: a column's property, the property a sort entry sorts by, a lane's value as text. */
  function ItemId(part: Part, item: Json): Option<string> {
    match part
    case Columns => if item.Str? then Some(item.s) else None
    case Sorts => if item.Obj? && "property" in item.fields && item.fields["property"].Str?
      then Some(item.fields["property"].s) else None
    case _ => Some(Canonical(item))
  }

  ghost predicate IsKeyed(part: Part, items: Rec) {
    forall id | id in items :: ItemId(part, items[id]) == Some(id)
  }

  /** Of columns and lanes, an item is its id: two items of one id are the same. */
  lemma ItemIsItsId(part: Part, a: Rec, b: Rec, id: string)
    requires part.Columns? || part.Lanes?
    requires IsKeyed(part, a) && IsKeyed(part, b) && id in a && id in b
    ensures a[id] == b[id]
  {
    if part.Lanes? {
      SameIsEquality(a[id], b[id]);
    } else {
      assert ItemId(part, a[id]) == Some(id) == ItemId(part, b[id]);
    }
  }

  // ---- Reading ----

  datatype ListView = NoList | Items(items: Rec) | Stored(whole: Json)

  /** A list shows while its flag is set or while it holds items; a whole list of an earlier build is as stored. */
  function ListOf(flag: Option<Json>, items: Rec): ListView {
    if flag == Some(Bool(true)) || items != map[] then Items(items)
    else if flag.Some? && flag.value.Arr? then Stored(flag.value)
    else NoList
  }

  datatype ReadView = ReadView(kind: string, fields: Rec, columns: ListView, sorts: ListView, lanes: ListView)

  function KindOf(rec: Rec): string {
    if TYPE in rec && rec[TYPE].Str? then rec[TYPE].s else ""
  }

  /** A view's own fields; among them a value under `groupOrder` that is no list of any kind. */
  function OwnFields(rec: Rec, lanes: ListView): Rec {
    var own := rec - {TYPE, ORDER, SORT, GROUP_ORDER};
    if lanes.NoList? && GROUP_ORDER in rec then own[GROUP_ORDER := rec[GROUP_ORDER]] else own
  }

  /** A view as the document holds it. */
  function Read(doc: Doc, view: string): ReadView {
    var rec := Of(doc.fields, view);
    var lanes := ListOf(Get(rec, GROUP_ORDER), Of(doc.lanes, view));
    ReadView(
      KindOf(rec), OwnFields(rec, lanes),
      ListOf(Get(rec, ORDER), Of(doc.columns, view)), ListOf(Get(rec, SORT), Of(doc.sorts, view)), lanes)
  }

  /** Shown: held, and none of its graves is of it as it is. What makes a grave that is left to `matches`. */
  predicate Shows(doc: Doc, view: string, matches: (BView, ReadView) -> bool) {
    (exists e | e in doc.fields :: e.0 == view) &&
    forall k | k in doc.tombs && k.0 == view :: !matches(doc.tombs[k], Read(doc, view))
  }

  // ---- Bringing an edit in ----

  /** A view as its record: its type, its fields, and a flag for each list it has. */
  function RecordOf(v: BView): Rec {
    (map[TYPE := Str(v.kind)] + v.fields)
      + (if v.columns.Some? then map[ORDER := Bool(true)] else map[])
      + (if v.sorts.Some? then map[SORT := Bool(true)] else map[])
      + (if v.lanes.Some? then map[GROUP_ORDER := Bool(true)] else map[])
  }

  function ItemsOf(list: Option<Rec>): Rec {
    if list.Some? then list.value else map[]
  }

  function PartOf(v: BView, part: Part): Rec {
    match part
    case Fields => RecordOf(v)
    case Columns => ItemsOf(v.columns)
    case Sorts => ItemsOf(v.sorts)
    case Lanes => ItemsOf(v.lanes)
  }

  function BaseOf(base: Option<map<string, BView>>, view: string, part: Part): Option<Rec> {
    if base.Some? && view in base.value then Some(PartOf(base.value[view], part)) else None
  }

  /** An entry after an edit: what changed since the base; with no base, what the edit says, and of a view
      written exactly nothing else. */
  function Brought(was: Option<Json>, next: Rec, base: Option<Rec>, exact: bool, k: string): Option<Json> {
    match base
    case Some(b) => if Get(b, k) == Get(next, k) then was else Get(next, k)
    case None => if k in next then Some(next[k]) else if exact then None else was
  }

  ghost predicate RootBrought(root: Root, part: Part, value: map<string, BView>, base: Option<map<string, BView>>,
      showing: set<string>, done: set<string>, after: Root)
  {
    forall view, k :: Get(after, (view, k)) ==
      if view in value && view in done
      then Brought(Get(root, (view, k)), PartOf(value[view], part), BaseOf(base, view, part), view !in showing, k)
      else Get(root, (view, k))
  }

  function TombAfter(doc: Doc, me: nat, value: map<string, BView>, base: Option<map<string, BView>>,
      k: (string, nat)): Option<BView>
  {
    if k.0 in value then (if base.Some? && k.0 in base.value then Get(doc.tombs, k) else None)
    else if base.Some? && k.0 in base.value && k.1 == me && Of(doc.fields, k.0) != map[] then Some(base.value[k.0])
    else Get(doc.tombs, k)
  }

  /** `after` is `doc` with an edit of its views brought in by client `me`, to whom `showing` were shown. */
  ghost predicate Applied(doc: Doc, me: nat, value: map<string, BView>, base: Option<map<string, BView>>,
      showing: set<string>, after: Doc)
  {
    && (forall part :: RootBrought(RootOf(doc, part), part, value, base, showing, value.Keys, RootOf(after, part)))
    && (forall k :: Get(after.tombs, k) == TombAfter(doc, me, value, base, k))
  }
}
