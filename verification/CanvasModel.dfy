/** A canvas as a document of flat entries, and what it reads as (`packages/plugin/src/canvas-model.ts`).

    A record is the map of its fields besides its id. Order and the board's other top-level keys are
    not part of this model. */
module CanvasModel {
  import opened Json

  datatype Kind = Node | Edge

  type Rec = map<string, Json>

  /** The grave of a record, from one vault: how the record stood then, and of an edge, the node that took it along. */
  datatype Tombstone = Tombstone(snapshot: Rec, along: Option<string>)

  /** Flat roots: `id \0 field` to value, a card's text by id, tombstones by kind, id and client. */
  datatype Doc = Doc(
    nodeFields: map<(string, string), Json>,
    edgeFields: map<(string, string), Json>,
    texts: map<string, string>,
    tombs: map<(Kind, string, nat), Tombstone>)

  datatype CanvasValue = CanvasValue(nodes: map<string, Rec>, edges: map<string, Rec>)

  /** Where a card keeps the text an edit took from it. */
  const TEXT_GONE := "\U{0001}textGone"

  // ---- Records ----

  function FieldsRoot(doc: Doc, kind: Kind): map<(string, string), Json> {
    if kind.Node? then doc.nodeFields else doc.edgeFields
  }

  /** Ids of every record held, deleted or not. */
  function Held(doc: Doc, kind: Kind): set<string> {
    set k | k in FieldsRoot(doc, kind) && k.0 != "" :: k.0
  }

  function FieldsOf(root: map<(string, string), Json>, id: string): (rec: Rec)
    ensures forall f :: f in rec <==> f != "id" && (id, f) in root
    ensures forall f | f in rec :: rec[f] == root[(id, f)]
  {
    var keys := set k | k in root && k.0 == id && k.1 != "id" :: k.1;
    assert forall f :: f in keys ==> (id, f) in root;
    map f | f in keys :: root[(id, f)]
  }

  /** A record as the document holds it. A card's text shows unless it is what an edit took away. */
  function Raw(doc: Doc, kind: Kind, id: string): Rec {
    var fields := FieldsOf(FieldsRoot(doc, kind), id);
    if kind.Edge? then fields
    else if id in doc.texts && Get(fields, TEXT_GONE) != Some(Str(doc.texts[id]))
    then (fields - {TEXT_GONE})["text" := Str(doc.texts[id])]
    else fields - {TEXT_GONE}
  }

  // ---- Deletion ----

  /** The tombstone is of the record as it is. */
  predicate Matches(doc: Doc, kind: Kind, id: string, k: (Kind, string, nat)) {
    k in doc.tombs && k.0 == kind && k.1 == id && doc.tombs[k].snapshot == Raw(doc, kind, id)
  }

  predicate IsBuried(doc: Doc, kind: Kind, id: string) {
    exists k | k in doc.tombs :: Matches(doc, kind, id, k)
  }

  /** Nodes that match a snapshot: dead unless a live edge keeps them. */
  function DeadFirst(doc: Doc): set<string> {
    set id | id in Held(doc, Node) && IsBuried(doc, Node, id)
  }

  /** Whether an edge is live while the nodes in `dead` are: not deleted, or deleted only with nodes one of
      which is back. */
  predicate EdgeLive(doc: Doc, dead: set<string>, id: string) {
    !IsBuried(doc, Edge, id) ||
    ((forall k | k in doc.tombs && Matches(doc, Edge, id, k) :: doc.tombs[k].along.Some?) &&
     exists k | k in doc.tombs :: Matches(doc, Edge, id, k) && doc.tombs[k].along.value !in dead)
  }

  /** The nodes an edge ends at. */
  function Ends(rec: Rec): set<string> {
    set f | f in {"fromNode", "toNode"} && f in rec && rec[f].Str? :: rec[f].s
  }

  /** No live edge touches a dead node. */
  predicate Stable(doc: Doc, dead: set<string>) {
    forall id | id in Held(doc, Edge) && EdgeLive(doc, dead, id) :: Ends(Raw(doc, Edge, id)) !! dead
  }

  /** The nodes that read as deleted: every node in some set of snapshot-matching nodes that no live edge touches. */
  ghost function Dead(doc: Doc): set<string> {
    set id | id in DeadFirst(doc) && exists dead :: dead <= DeadFirst(doc) && Stable(doc, dead) && id in dead
  }

  /** The more nodes are dead, the fewer edges are live. */
  lemma LiveMonotone(doc: Doc, small: set<string>, big: set<string>, id: string)
    requires small <= big && EdgeLive(doc, big, id)
    ensures EdgeLive(doc, small, id)
  {
  }

  /** What reads as deleted is the greatest set of matching nodes that no live edge touches. */
  lemma DeadIsGreatest(doc: Doc)
    ensures Dead(doc) <= DeadFirst(doc) && Stable(doc, Dead(doc))
    ensures forall dead | dead <= DeadFirst(doc) && Stable(doc, dead) :: dead <= Dead(doc)
  {
    forall id | id in Held(doc, Edge) && EdgeLive(doc, Dead(doc), id)
      ensures Ends(Raw(doc, Edge, id)) !! Dead(doc)
    {
      forall n | n in Dead(doc)
        ensures n !in Ends(Raw(doc, Edge, id))
      {
        var dead :| dead <= DeadFirst(doc) && Stable(doc, dead) && n in dead;
        assert dead <= Dead(doc);
        LiveMonotone(doc, dead, Dead(doc), id);
      }
    }
  }

  // ---- Reading ----

  ghost function LiveNodes(doc: Doc): map<string, Rec> {
    map id | id in Held(doc, Node) - Dead(doc) :: Raw(doc, Node, id)
  }

  ghost function LiveEdges(doc: Doc): map<string, Rec> {
    map id | id in Held(doc, Edge) && EdgeLive(doc, Dead(doc), id) :: Raw(doc, Edge, id)
  }

  /** What the document reads as. */
  ghost function Reads(doc: Doc): CanvasValue {
    CanvasValue(LiveNodes(doc), LiveEdges(doc))
  }

  /** Both ends of every live edge, where the document holds them as nodes, are live. */
  lemma LiveEdgesKeepTheirEnds(doc: Doc, id: string, n: string)
    requires id in LiveEdges(doc) && n in Ends(LiveEdges(doc)[id]) && n in Held(doc, Node)
    ensures n in LiveNodes(doc)
  {
    DeadIsGreatest(doc);
  }

  /** `dead` still holds every set of matching nodes that no live edge touches. */
  ghost predicate HoldsStable(doc: Doc, dead: set<string>) {
    forall d | d <= DeadFirst(doc) && Stable(doc, d) :: d <= dead
  }

  /** None of these edges, if live, touches a dead node. */
  ghost predicate Untouched(doc: Doc, dead: set<string>, edges: set<string>) {
    forall id | id in edges && EdgeLive(doc, dead, id) :: Ends(Raw(doc, Edge, id)) !! dead
  }

  /** The canvas the document holds now. The dead nodes shrink as live edges bring their ends back, edge by
      edge in any order, until none does. */
  method ReadCanvas(doc: Doc) returns (value: CanvasValue)
    ensures value == Reads(doc)
  {
    var edges := Held(doc, Edge);
    var dead := DeadFirst(doc);
    var changed := true;
    while changed
      invariant dead <= DeadFirst(doc) && HoldsStable(doc, dead)
      invariant !changed ==> Untouched(doc, dead, edges)
      decreases |dead|, changed
    {
      ghost var was := dead;
      dead, changed := Revive(doc, edges, dead);
      if changed { Smaller(dead, was); }
    }
    DeadIsGreatest(doc);
    assert Stable(doc, dead);
    assert dead == Dead(doc);
    value := CanvasValue(
      map id | id in Held(doc, Node) - dead :: Raw(doc, Node, id),
      map id | id in edges && EdgeLive(doc, dead, id) :: Raw(doc, Edge, id));
  }

  lemma Smaller(a: set<string>, b: set<string>)
    requires a < b
    ensures |a| < |b|
  {
    var rest := b - a;
    assert b == a + rest && rest != {};
  }

  /** One round over the edges: each live one brings its ends back. */
  method Revive(doc: Doc, edges: set<string>, was: set<string>) returns (dead: set<string>, changed: bool)
    requires edges <= Held(doc, Edge) && HoldsStable(doc, was)
    ensures dead <= was && (changed <==> dead != was)
    ensures HoldsStable(doc, dead)
    ensures !changed ==> Untouched(doc, dead, edges)
  {
    dead, changed := was, false;
    var rest := edges;
    while rest != {}
      invariant rest <= edges && dead <= was && (changed <==> dead != was)
      invariant HoldsStable(doc, dead)
      invariant !changed ==> Untouched(doc, dead, edges - rest)
      decreases |rest|
    {
      var id :| id in rest;
      if EdgeLive(doc, dead, id) {
        var ends := Ends(Raw(doc, Edge, id));
        EndsStay(doc, dead, id);
        changed := changed || ends * dead != {};
        dead := dead - ends;
      }
      MoreUntouched(doc, was, dead, edges - rest, id, changed);
      assert edges - (rest - {id}) == (edges - rest) + {id};
      rest := rest - {id};
    }
  }

  lemma MoreUntouched(doc: Doc, was: set<string>, dead: set<string>, done: set<string>, id: string, changed: bool)
    requires dead <= was && (changed <==> dead != was)
    requires !changed ==> Untouched(doc, was, done)
    requires EdgeLive(doc, dead, id) ==> Ends(Raw(doc, Edge, id)) !! dead
    ensures !changed ==> Untouched(doc, dead, done + {id})
  {
  }

  /** Bringing the ends of a live edge back takes no node from a set that no live edge touches. */
  lemma EndsStay(doc: Doc, dead: set<string>, id: string)
    requires id in Held(doc, Edge) && EdgeLive(doc, dead, id) && HoldsStable(doc, dead)
    ensures HoldsStable(doc, dead - Ends(Raw(doc, Edge, id)))
  {
    forall d | d <= DeadFirst(doc) && Stable(doc, d)
      ensures d <= dead - Ends(Raw(doc, Edge, id))
    {
      LiveMonotone(doc, d, dead, id);
    }
  }
}
