/** A base's document edited in place (`setFields`, `applyRecords` and `applyLists` of
    `packages/plugin/src/bases-model.ts`). */
module BasesEdit {
  import opened Json
  import opened Bases

  function Put(root: Root, k: (string, string), v: Option<Json>): Root {
    if v.Some? then root[k := v.value] else root - {k}
  }

  lemma PutGets(root: Root, k: (string, string), v: Option<Json>, j: (string, string))
    ensures Get(Put(root, k, v), j) == if j == k then v else Get(root, j)
  {
  }

  /** The entries of one view in `done` are brought in, and nothing else of `root` is touched. */
  ghost predicate EntriesBrought(root: Root, view: string, next: Rec, base: Option<Rec>, exact: bool,
      done: set<string>, now: Root)
  {
    forall e :: Get(now, e) ==
      if e.0 == view && e.1 in done then Brought(Get(root, e), next, base, exact, e.1) else Get(root, e)
  }

  /** All entries of one view are brought in, and nothing else of `root` is touched. */
  ghost predicate ViewBrought(root: Root, view: string, next: Rec, base: Option<Rec>, exact: bool, now: Root) {
    forall e :: Get(now, e) == if e.0 == view then Brought(Get(root, e), next, base, exact, e.1) else Get(root, e)
  }

  lemma OneMoreEntry(root: Root, view: string, next: Rec, base: Option<Rec>, exact: bool, done: set<string>,
      k: string, was: Root, now: Root)
    requires EntriesBrought(root, view, next, base, exact, done, was) && k !in done
    requires now == Put(was, (view, k), Brought(Get(was, (view, k)), next, base, exact, k))
    ensures EntriesBrought(root, view, next, base, exact, done + {k}, now)
  {
    forall e
      ensures Get(now, e) ==
        if e.0 == view && e.1 in done + {k} then Brought(Get(root, e), next, base, exact, e.1) else Get(root, e)
    {
      PutGets(was, (view, k), Brought(Get(was, (view, k)), next, base, exact, k), e);
    }
  }

  /** Every entry an edit of a view may touch. */
  function Touched(root: Root, view: string, next: Rec, base: Option<Rec>, exact: bool): set<string> {
    next.Keys + (if base.Some? then base.value.Keys else {}) + (if exact then Of(root, view).Keys else {})
  }

  /** Entries that neither the edit, nor its base, nor an exact write names are as they were. */
  lemma AllEntries(root: Root, view: string, next: Rec, base: Option<Rec>, exact: bool, now: Root)
    requires EntriesBrought(root, view, next, base, exact, Touched(root, view, next, base, exact), now)
    ensures ViewBrought(root, view, next, base, exact, now)
  {
    forall e
      ensures Get(now, e) == if e.0 == view then Brought(Get(root, e), next, base, exact, e.1) else Get(root, e)
    {
      if e.0 == view && e.1 !in Touched(root, view, next, base, exact) && exact {
        assert Get(Of(root, view), e.1) == Get(root, (view, e.1));
      }
    }
  }

  /** The entries of one view, written as they differ from its base. */
  method SetEntries(root: Root, view: string, next: Rec, base: Option<Rec>, exact: bool) returns (out: Root)
    ensures ViewBrought(root, view, next, base, exact, out)
  {
    out := SetThese(root, view, next, base, exact, Touched(root, view, next, base, exact));
    AllEntries(root, view, next, base, exact, out);
  }

  method SetThese(root: Root, view: string, next: Rec, base: Option<Rec>, exact: bool, all: set<string>)
      returns (out: Root)
    ensures EntriesBrought(root, view, next, base, exact, all, out)
  {
    out := root;
    var rest := all;
    while rest != {}
      invariant rest <= all
      invariant EntriesBrought(root, view, next, base, exact, all - rest, out)
      decreases |rest|
    {
      var k :| k in rest;
      ghost var was := out;
      out := Put(out, (view, k), Brought(Get(out, (view, k)), next, base, exact, k));
      OneMoreEntry(root, view, next, base, exact, all - rest, k, was, out);
      assert all - (rest - {k}) == (all - rest) + {k};
      rest := rest - {k};
    }
    assert all - {} == all;
  }

  lemma OneMoreView(root: Root, part: Part, value: map<string, BView>, base: Option<map<string, BView>>,
      showing: set<string>, done: set<string>, view: string, was: Root, now: Root)
    requires RootBrought(root, part, value, base, showing, done, was) && view in value && view !in done
    requires ViewBrought(was, view, PartOf(value[view], part), BaseOf(base, view, part), view !in showing, now)
    ensures RootBrought(root, part, value, base, showing, done + {view}, now)
  {
    forall v, k
      ensures Get(now, (v, k)) ==
        if v in value && v in done + {view}
        then Brought(Get(root, (v, k)), PartOf(value[v], part), BaseOf(base, v, part), v !in showing, k)
        else Get(root, (v, k))
    {
      assert (v, k).0 == v && (v, k).1 == k;
      assert Get(was, (v, k)) ==
        if v in value && v in done
        then Brought(Get(root, (v, k)), PartOf(value[v], part), BaseOf(base, v, part), v !in showing, k)
        else Get(root, (v, k));
    }
  }

  /** One part of every view of an edit. */
  method SetPart(root: Root, part: Part, value: map<string, BView>, base: Option<map<string, BView>>,
      showing: set<string>)
    returns (out: Root)
    ensures RootBrought(root, part, value, base, showing, value.Keys, out)
  {
    out := root;
    var all := value.Keys;
    var rest := all;
    while rest != {}
      invariant rest <= all
      invariant RootBrought(root, part, value, base, showing, all - rest, out)
      decreases |rest|
    {
      var view :| view in rest;
      ghost var was := out;
      out := SetEntries(out, view, PartOf(value[view], part), BaseOf(base, view, part), view !in showing);
      OneMoreView(root, part, value, base, showing, all - rest, view, was, out);
      assert all - (rest - {view}) == (all - rest) + {view};
      rest := rest - {view};
    }
    assert all - {} == all;
  }

  class BasesDoc {
    var fields: Root
    var columns: Root
    var sorts: Root
    var lanes: Root
    var tombs: map<(string, nat), BView>
    const me: nat

    function Value(): Doc
      reads this
    {
      Doc(fields, columns, sorts, lanes, tombs)
    }

    constructor (client: nat)
      ensures me == client && Value() == Doc(map[], map[], map[], map[], map[])
    {
      me := client;
      fields, columns, sorts, lanes, tombs := map[], map[], map[], map[], map[];
    }

    /** Views wanted anew have their tombstones answered; those gone from the base are buried, with what the editor
        saw, where the document holds anything of them. */
    method SettleTombs(value: map<string, BView>, base: Option<map<string, BView>>)
      modifies this`tombs
      ensures forall k :: Get(tombs, k) == TombAfter(old(Value()), me, value, base, k)
    {
      var gone := if base.Some? then base.value else map[];
      var buried := map view | view in gone && view !in value && Of(fields, view) != map[] :: (view, me) := gone[view];
      tombs := (map k | k in tombs && !(k.0 in value && k.0 !in gone) :: tombs[k]) + buried;
    }

    /** Bring an edit of the views in. `showing` is what the document shows before it. */
    method ApplyViews(value: map<string, BView>, base: Option<map<string, BView>>, showing: set<string>)
      modifies this
      ensures Applied(old(Value()), me, value, base, showing, Value())
    {
      SettleTombs(value, base);
      var newFields := SetPart(fields, Fields, value, base, showing);
      var newColumns := SetPart(columns, Columns, value, base, showing);
      var newSorts := SetPart(sorts, Sorts, value, base, showing);
      var newLanes := SetPart(lanes, Lanes, value, base, showing);
      fields, columns, sorts, lanes := newFields, newColumns, newSorts, newLanes;
      forall part
        ensures RootBrought(RootOf(old(Value()), part), part, value, base, showing, value.Keys, RootOf(Value(), part))
      {
        match part
        case Fields =>
        case Columns =>
        case Sorts =>
        case Lanes =>
      }
    }
  }
}
