/** What bringing edits into a base's document means for its views and their lists
    (`packages/plugin/src/bases-model.ts`). */
module BasesLaws {
  import opened Json
  import opened Bases

  // ---- A name used again ----

  /** A view's own fields are none of those kept apart. */
  predicate IsPlainView(v: BView) {
    v.fields.Keys !! {TYPE, ORDER, SORT, GROUP_ORDER}
  }

  function Written(list: Option<Rec>): ListView {
    if list.Some? then Items(list.value) else NoList
  }

  function Flag(list: Option<Rec>): Option<Json> {
    if list.Some? then Some(Bool(true)) else None
  }

  lemma PartIsExact(doc: Doc, me: nat, value: map<string, BView>, base: Option<map<string, BView>>,
      showing: set<string>, after: Doc, view: string, part: Part)
    requires Applied(doc, me, value, base, showing, after)
    requires view in value && view !in showing && BaseOf(base, view, part).None?
    ensures Of(RootOf(after, part), view) == PartOf(value[view], part)
  {
    var now, next := Of(RootOf(after, part), view), PartOf(value[view], part);
    assert RootBrought(RootOf(doc, part), part, value, base, showing, value.Keys, RootOf(after, part));
    forall k
      ensures Get(now, k) == Get(next, k)
    {
      assert Get(RootOf(after, part), (view, k)) ==
        Brought(Get(RootOf(doc, part), (view, k)), next, None, true, k);
    }
    SameRec(now, next);
  }

  lemma RecordFields(v: BView)
    requires IsPlainView(v)
    ensures var rec := RecordOf(v);
      && Get(rec, TYPE) == Some(Str(v.kind))
      && Get(rec, ORDER) == Flag(v.columns) && Get(rec, SORT) == Flag(v.sorts) && Get(rec, GROUP_ORDER) == Flag(v.lanes)
      && rec - {TYPE, ORDER, SORT, GROUP_ORDER} == v.fields
  {
    var rec := RecordOf(v);
    forall k
      ensures Get(rec - {TYPE, ORDER, SORT, GROUP_ORDER}, k) == Get(v.fields, k)
    {
      assert k in v.fields ==> k !in {TYPE, ORDER, SORT, GROUP_ORDER};
    }
    SameRec(rec - {TYPE, ORDER, SORT, GROUP_ORDER}, v.fields);
  }

  function AsWritten(v: BView): ReadView {
    ReadView(v.kind, v.fields, Written(v.columns), Written(v.sorts), Written(v.lanes))
  }

  lemma FieldsAsWritten(v: BView)
    requires IsPlainView(v)
    ensures KindOf(RecordOf(v)) == v.kind && OwnFields(RecordOf(v), Written(v.lanes)) == v.fields
  {
    RecordFields(v);
    assert Get(RecordOf(v), GROUP_ORDER).Some? <==> GROUP_ORDER in RecordOf(v);
  }

  lemma ReadsAsWritten(doc: Doc, view: string, v: BView, rec: Rec)
    requires KindOf(rec) == v.kind && OwnFields(rec, Written(v.lanes)) == v.fields
    requires Get(rec, ORDER) == Flag(v.columns) && Get(rec, SORT) == Flag(v.sorts)
        && Get(rec, GROUP_ORDER) == Flag(v.lanes)
    requires Of(doc.fields, view) == rec && Of(doc.columns, view) == ItemsOf(v.columns)
    requires Of(doc.sorts, view) == ItemsOf(v.sorts) && Of(doc.lanes, view) == ItemsOf(v.lanes)
    ensures Read(doc, view) == AsWritten(v)
  {
    ListAsWritten(v.columns);
    ListAsWritten(v.sorts);
    ListAsWritten(v.lanes);
  }

  lemma ListAsWritten(list: Option<Rec>)
    ensures ListOf(Flag(list), ItemsOf(list)) == Written(list)
  {
  }

  lemma NoGraveLeft(doc: Doc, me: nat, value: map<string, BView>, base: Option<map<string, BView>>,
      showing: set<string>, after: Doc, view: string, client: nat)
    requires Applied(doc, me, value, base, showing, after)
    requires view in value && (base.Some? ==> view !in base.value)
    ensures (view, client) !in after.tombs
  {
    assert Get(after.tombs, (view, client)) == TombAfter(doc, me, value, base, (view, client));
  }

  lemma NotHidden(doc: Doc, view: string, matches: (BView, ReadView) -> bool)
    requires (view, TYPE) in doc.fields && forall client: nat :: (view, client) !in doc.tombs
    ensures Shows(doc, view, matches)
  {
    assert (view, TYPE).0 == view;
    forall k | k in doc.tombs
      ensures k.0 != view
    {
      assert k == (k.0, k.1);
    }
  }

  /** A view made under a name the document does not show reads back exactly as written, whatever the document
      still held under the name. */
  lemma NewViewReadsBack(doc: Doc, me: nat, value: map<string, BView>, base: Option<map<string, BView>>,
      showing: set<string>, after: Doc, view: string)
    requires Applied(doc, me, value, base, showing, after)
    requires view in value && view !in showing && (base.Some? ==> view !in base.value)
    requires IsPlainView(value[view])
    ensures Read(after, view) == AsWritten(value[view])
  {
    FieldsExact(doc, me, value, base, showing, after, view);
    ListsExact(doc, me, value, base, showing, after, view);
    ReadsAsWritten(after, view, value[view], Of(after.fields, view));
  }

  lemma FieldsExact(doc: Doc, me: nat, value: map<string, BView>, base: Option<map<string, BView>>,
      showing: set<string>, after: Doc, view: string)
    requires Applied(doc, me, value, base, showing, after) && view in value && view !in showing
    requires (base.Some? ==> view !in base.value) && IsPlainView(value[view])
    ensures var v, rec := value[view], Of(after.fields, view);
      && KindOf(rec) == v.kind && OwnFields(rec, Written(v.lanes)) == v.fields
      && Get(rec, ORDER) == Flag(v.columns) && Get(rec, SORT) == Flag(v.sorts) && Get(rec, GROUP_ORDER) == Flag(v.lanes)
  {
    PartIsExact(doc, me, value, base, showing, after, view, Fields);
    RecordFields(value[view]);
    FieldsAsWritten(value[view]);
  }

  lemma ListsExact(doc: Doc, me: nat, value: map<string, BView>, base: Option<map<string, BView>>, showing: set<string>,
                   after: Doc, view: string)
    requires Applied(doc, me, value, base, showing, after) && view in value && view !in showing
    requires base.Some? ==> view !in base.value
    ensures var v := value[view];
      && Of(after.columns, view) == ItemsOf(v.columns)
      && Of(after.sorts, view) == ItemsOf(v.sorts)
      && Of(after.lanes, view) == ItemsOf(v.lanes)
  {
    PartIsExact(doc, me, value, base, showing, after, view, Columns);
    PartIsExact(doc, me, value, base, showing, after, view, Sorts);
    PartIsExact(doc, me, value, base, showing, after, view, Lanes);
  }

  /** And no grave of an earlier view of the name hides it. */
  lemma NewViewShows(doc: Doc, me: nat, value: map<string, BView>, base: Option<map<string, BView>>,
      showing: set<string>, after: Doc, view: string, matches: (BView, ReadView) -> bool)
    requires Applied(doc, me, value, base, showing, after)
    requires view in value && view !in showing && (base.Some? ==> view !in base.value)
    requires IsPlainView(value[view])
    ensures Shows(after, view, matches)
  {
    PartIsExact(doc, me, value, base, showing, after, view, Fields);
    RecordFields(value[view]);
    assert Get(Of(after.fields, view), TYPE) == Get(after.fields, (view, TYPE));
    forall client: nat
      ensures (view, client) !in after.tombs
    {
      NoGraveLeft(doc, me, value, base, showing, after, view, client);
    }
    NotHidden(after, view, matches);
  }

  // ---- A view deleted ----

  lemma PartUntouched(doc: Doc, me: nat, value: map<string, BView>, base: Option<map<string, BView>>,
                      showing: set<string>, after: Doc, view: string, part: Part)
    requires Applied(doc, me, value, base, showing, after) && view !in value
    ensures Of(RootOf(after, part), view) == Of(RootOf(doc, part), view)
  {
    assert RootBrought(RootOf(doc, part), part, value, base, showing, value.Keys, RootOf(after, part));
    forall k
      ensures Get(Of(RootOf(after, part), view), k) == Get(Of(RootOf(doc, part), view), k)
    {
      assert Get(RootOf(after, part), (view, k)) == Get(RootOf(doc, part), (view, k));
    }
    SameRec(Of(RootOf(after, part), view), Of(RootOf(doc, part), view));
  }

  /** A view an edit does not have reads as it did. */
  lemma UntouchedView(doc: Doc, me: nat, value: map<string, BView>, base: Option<map<string, BView>>,
                      showing: set<string>, after: Doc, view: string)
    requires Applied(doc, me, value, base, showing, after) && view !in value
    ensures Read(after, view) == Read(doc, view)
  {
    PartUntouched(doc, me, value, base, showing, after, view, Fields);
    PartUntouched(doc, me, value, base, showing, after, view, Columns);
    PartUntouched(doc, me, value, base, showing, after, view, Sorts);
    PartUntouched(doc, me, value, base, showing, after, view, Lanes);
    SameRead(doc, after, view, Of(doc.fields, view));
  }

  lemma SameRead(doc: Doc, after: Doc, view: string, rec: Rec)
    requires Of(doc.fields, view) == rec == Of(after.fields, view)
    requires Of(after.columns, view) == Of(doc.columns, view) && Of(after.sorts, view) == Of(doc.sorts, view)
    requires Of(after.lanes, view) == Of(doc.lanes, view)
    ensures Read(after, view) == Read(doc, view)
  {
  }

  /** A view gone from an edit, and read as the edit's base had it, shows no longer. */
  lemma DeletedViewIsHidden(doc: Doc, me: nat, value: map<string, BView>, base: map<string, BView>,
                            showing: set<string>, after: Doc, view: string, matches: (BView, ReadView) -> bool)
    requires Applied(doc, me, value, Some(base), showing, after) && view in base && view !in value
    requires Shows(doc, view, matches) && matches(base[view], Read(doc, view))
    ensures !Shows(after, view, matches)
  {
    UntouchedView(doc, me, value, Some(base), showing, after, view);
    HeldView(doc, view);
    assert Get(after.tombs, (view, me)) == TombAfter(doc, me, value, Some(base), (view, me));
    assert (view, me).0 == view && (view, me) in after.tombs;
  }

  lemma HeldView(doc: Doc, view: string)
    requires exists e | e in doc.fields :: e.0 == view
    ensures Of(doc.fields, view) != map[]
  {
    var e :| e in doc.fields && e.0 == view;
    assert Get(Of(doc.fields, view), e.1) == Get(doc.fields, (view, e.1));
  }

  /** The graves of a view after an edit deleted it and another left it in: as they were, and the new one. */
  lemma GravesAfter(doc: Doc, a: nat, b: nat, v: map<string, BView>, w: map<string, BView>, base: map<string, BView>,
                    last: Doc, view: string, k: (string, nat))
    requires IsDeletedApart(doc, a, b, v, w, base, last) && view in base && view !in v && view in w && k.0 == view
    ensures k in last.tombs ==> last.tombs[k] == base[view] || Get(doc.tombs, k) == Some(last.tombs[k])
  {
    if d1 :| IsAfter(doc, a, v, base, d1) && IsAfter(d1, b, w, base, last) {
      GraveOnce(doc, a, v, base, d1, k);
      GraveOnce(d1, b, w, base, last, k);
    } else {
      var d2 :| IsAfter(doc, b, w, base, d2) && IsAfter(d2, a, v, base, last);
      GraveOnce(doc, b, w, base, d2, k);
      GraveOnce(d2, a, v, base, last, k);
    }
  }

  lemma GraveOnce(doc: Doc, me: nat, value: map<string, BView>, base: map<string, BView>, after: Doc, k: (string, nat))
    requires IsAfter(doc, me, value, base, after) && k.0 in base
    ensures k in after.tombs ==>
      Get(doc.tombs, k) == Some(after.tombs[k]) || (k.0 !in value && after.tombs[k] == base[k.0])
  {
    var showing :| Applied(doc, me, value, Some(base), showing, after);
    assert Get(after.tombs, k) == TombAfter(doc, me, value, Some(base), k);
  }

  /** `v` and `w` come in, in one order or the other. */
  ghost predicate IsDeletedApart(doc: Doc, a: nat, b: nat, v: map<string, BView>, w: map<string, BView>,
                                 base: map<string, BView>, last: Doc)
  {
    || (exists d1 :: IsAfter(doc, a, v, base, d1) && IsAfter(d1, b, w, base, last))
    || (exists d2 :: IsAfter(doc, b, w, base, d2) && IsAfter(d2, a, v, base, last))
  }

  /** A view deleted by one edit shows, in either order, once another has changed what it reads as: so that neither
      what the deleter saw nor any older grave is of it. */
  lemma ChangedViewShows(doc: Doc, a: nat, b: nat, v: map<string, BView>, w: map<string, BView>,
                         base: map<string, BView>, last: Doc, view: string, matches: (BView, ReadView) -> bool)
    requires IsDeletedApart(doc, a, b, v, w, base, last) && view in base && view !in v && view in w
    requires Get(doc.fields, (view, TYPE)).Some? && IsPlainView(w[view])
    requires !matches(base[view], Read(last, view))
    requires forall k | k in doc.tombs && k.0 == view :: !matches(doc.tombs[k], Read(last, view))
    ensures Shows(last, view, matches)
  {
    TypeStays(doc, a, b, v, w, base, last, view);
    assert (view, TYPE) in last.fields && (view, TYPE).0 == view;
    forall k | k in last.tombs && k.0 == view
      ensures !matches(last.tombs[k], Read(last, view))
    {
      GravesAfter(doc, a, b, v, w, base, last, view, k);
    }
  }

  lemma TypeStays(doc: Doc, a: nat, b: nat, v: map<string, BView>, w: map<string, BView>, base: map<string, BView>,
                  last: Doc, view: string)
    requires IsDeletedApart(doc, a, b, v, w, base, last) && view in base && view !in v && view in w
    requires Get(doc.fields, (view, TYPE)).Some? && IsPlainView(w[view])
    ensures (view, TYPE) in last.fields
  {
    RecordFields(w[view]);
    if d1 :| IsAfter(doc, a, v, base, d1) && IsAfter(d1, b, w, base, last) {
      TypeOnce(doc, a, v, base, d1, view);
      TypeOnce(d1, b, w, base, last, view);
    } else {
      var d2 :| IsAfter(doc, b, w, base, d2) && IsAfter(d2, a, v, base, last);
      TypeOnce(doc, b, w, base, d2, view);
      TypeOnce(d2, a, v, base, last, view);
    }
  }

  lemma TypeOnce(doc: Doc, me: nat, value: map<string, BView>, base: map<string, BView>, after: Doc, view: string)
    requires IsAfter(doc, me, value, base, after) && view in base && Get(doc.fields, (view, TYPE)).Some?
    requires view in value ==> Get(RecordOf(value[view]), TYPE).Some?
    ensures Get(after.fields, (view, TYPE)).Some?
  {
    EntryAfter(doc, me, value, base, after, view, Fields, TYPE);
    assert Get(Of(doc.fields, view), TYPE) == Get(doc.fields, (view, TYPE));
    assert Get(Of(after.fields, view), TYPE) == Get(after.fields, (view, TYPE));
  }

  // ---- Two edits made apart from one base ----

  /** An edit made from a base, by someone to whom some views or other were shown. */
  ghost predicate IsAfter(doc: Doc, me: nat, value: map<string, BView>, base: map<string, BView>, after: Doc) {
    exists showing :: Applied(doc, me, value, Some(base), showing, after)
  }

  /** The edits in either order: `d12` has `v` first, `d21` has `w` first. */
  ghost predicate AreOrders(doc: Doc, a: nat, b: nat, v: map<string, BView>, w: map<string, BView>,
                            base: map<string, BView>, d12: Doc, d21: Doc)
  {
    && (exists d1 :: IsAfter(doc, a, v, base, d1) && IsAfter(d1, b, w, base, d12))
    && (exists d2 :: IsAfter(doc, b, w, base, d2) && IsAfter(d2, a, v, base, d21))
  }

  /** What an edit says of a view of its base; of one it takes away, nothing new. */
  function SaidOf(value: map<string, BView>, base: map<string, BView>, view: string, part: Part): Rec
    requires view in base
  {
    if view in value then PartOf(value[view], part) else PartOf(base[view], part)
  }

  /** One entry after an edit, where `old0` is the base's. */
  function One(was: Option<Json>, next: Option<Json>, old0: Option<Json>): Option<Json> {
    if next == old0 then was else next
  }

  lemma EntryAfter(doc: Doc, me: nat, value: map<string, BView>, base: map<string, BView>, after: Doc, view: string,
                   part: Part, k: string)
    requires IsAfter(doc, me, value, base, after) && view in base
    ensures Get(Of(RootOf(after, part), view), k) ==
      One(Get(Of(RootOf(doc, part), view), k),
          Get(SaidOf(value, base, view, part), k), Get(PartOf(base[view], part), k))
  {
    var showing :| Applied(doc, me, value, Some(base), showing, after);
    assert RootBrought(RootOf(doc, part), part, value, Some(base), showing, value.Keys, RootOf(after, part));
    assert Get(Of(RootOf(after, part), view), k) == Get(RootOf(after, part), (view, k));
    assert Get(Of(RootOf(doc, part), view), k) == Get(RootOf(doc, part), (view, k));
  }

  /** One entry of a view of the base after both edits, in either order. */
  lemma EntryTwice(doc: Doc, a: nat, b: nat, v: map<string, BView>, w: map<string, BView>, base: map<string, BView>,
                   d12: Doc, d21: Doc, view: string, part: Part, k: string)
    requires AreOrders(doc, a, b, v, w, base, d12, d21) && view in base
    ensures var was, old0 := Get(Of(RootOf(doc, part), view), k), Get(PartOf(base[view], part), k);
      var p, q := Get(SaidOf(v, base, view, part), k), Get(SaidOf(w, base, view, part), k);
      && Get(Of(RootOf(d12, part), view), k) == One(One(was, p, old0), q, old0)
      && Get(Of(RootOf(d21, part), view), k) == One(One(was, q, old0), p, old0)
  {
    var d1 :| IsAfter(doc, a, v, base, d1) && IsAfter(d1, b, w, base, d12);
    EntryAfter(doc, a, v, base, d1, view, part, k);
    EntryAfter(d1, b, w, base, d12, view, part, k);
    var d2 :| IsAfter(doc, b, w, base, d2) && IsAfter(d2, a, v, base, d21);
    EntryAfter(doc, b, w, base, d2, view, part, k);
    EntryAfter(d2, a, v, base, d21, view, part, k);
  }

  /** Of one entry, one of the edits leaves it be, or both leave it the same. */
  predicate IsEntryApart(v: Rec, w: Rec, base: Rec, k: string) {
    Get(v, k) == Get(base, k) || Get(w, k) == Get(base, k) || Get(v, k) == Get(w, k)
  }

  /** Two edits of a view made apart from one base make the same of any of its parts in either order, if and only if
      of each entry one of them leaves it be or both leave it the same: so a sort entry turned round by one and
      taken out by the other is the exception, as is a field both set, each to something else. */
  lemma EditsCommute(doc: Doc, a: nat, b: nat, v: map<string, BView>, w: map<string, BView>, base: map<string, BView>,
                     d12: Doc, d21: Doc, view: string, part: Part)
    requires AreOrders(doc, a, b, v, w, base, d12, d21) && view in base
    ensures Of(RootOf(d12, part), view) == Of(RootOf(d21, part), view) <==>
      forall k :: IsEntryApart(SaidOf(v, base, view, part), SaidOf(w, base, view, part), PartOf(base[view], part), k)
  {
    var x, y := Of(RootOf(d12, part), view), Of(RootOf(d21, part), view);
    var p, q, old0 := SaidOf(v, base, view, part), SaidOf(w, base, view, part), PartOf(base[view], part);
    forall k
      ensures Get(x, k) == Get(y, k) <==> IsEntryApart(p, q, old0, k)
    {
      EntryTwice(doc, a, b, v, w, base, d12, d21, view, part, k);
    }
    SameWhereApart(x, y, p, q, old0);
  }

  lemma SameWhereApart(x: Rec, y: Rec, p: Rec, q: Rec, old0: Rec)
    requires forall k :: Get(x, k) == Get(y, k) <==> IsEntryApart(p, q, old0, k)
    ensures x == y <==> forall k :: IsEntryApart(p, q, old0, k)
  {
    if forall k :: IsEntryApart(p, q, old0, k) { SameRec(x, y); }
  }

  /** A sort entry turned round by one edit and taken out by the other: the later edit has its way. */
  lemma TurnedAndTaken(doc: Doc, a: nat, b: nat, v: map<string, BView>, w: map<string, BView>, base: map<string, BView>,
                       d12: Doc, d21: Doc, view: string, k: string)
    requires AreOrders(doc, a, b, v, w, base, d12, d21) && view in base && view in v && view in w
    requires k in ItemsOf(base[view].sorts) && k !in ItemsOf(w[view].sorts)
    requires k in ItemsOf(v[view].sorts) && ItemsOf(v[view].sorts)[k] != ItemsOf(base[view].sorts)[k]
    ensures k !in Of(d12.sorts, view)
    ensures k in Of(d21.sorts, view) && Of(d21.sorts, view)[k] == ItemsOf(v[view].sorts)[k]
  {
    EntryTwice(doc, a, b, v, w, base, d12, d21, view, Sorts, k);
    assert Get(Of(d12.sorts, view), k) == None;
  }

  // ---- Two edits of columns or lanes ----

  function Added(next: Rec, base: Rec): Rec {
    next - base.Keys
  }

  function Taken(next: Rec, base: Rec): set<string> {
    base.Keys - next.Keys
  }

  /** What was there but what either edit takes, and what either adds. */
  function Merged(was: Rec, v: Rec, w: Rec, base: Rec): Rec {
    (was - (Taken(v, base) + Taken(w, base))) + Added(v, base) + Added(w, base)
  }

  lemma MergedAt(part: Part, was: Rec, v: Rec, w: Rec, base: Rec, k: string)
    requires part.Columns? || part.Lanes?
    requires IsKeyed(part, v) && IsKeyed(part, w) && IsKeyed(part, base)
    ensures var p, q, old0 := Get(v, k), Get(w, k), Get(base, k);
      One(One(Get(was, k), p, old0), q, old0) == Get(Merged(was, v, w, base), k) ==
        One(One(Get(was, k), q, old0), p, old0)
  {
    if k in v && k in w { ItemIsItsId(part, v, w, k); }
    if k in v && k in base { ItemIsItsId(part, v, base, k); }
    if k in w && k in base { ItemIsItsId(part, w, base, k); }
  }

  /** Of columns and of lanes, any two edits of a view commute, to what the view had of them but what either takes,
      and what either adds. */
  lemma ListsMerge(doc: Doc, a: nat, b: nat, v: map<string, BView>, w: map<string, BView>, base: map<string, BView>,
                   d12: Doc, d21: Doc, view: string, part: Part)
    requires AreOrders(doc, a, b, v, w, base, d12, d21) && view in base && (part.Columns? || part.Lanes?)
    requires IsKeyed(part, SaidOf(v, base, view, part)) && IsKeyed(part, SaidOf(w, base, view, part))
    requires IsKeyed(part, PartOf(base[view], part))
    ensures Of(RootOf(d12, part), view) == Of(RootOf(d21, part), view)
    ensures Of(RootOf(d12, part), view) ==
      Merged(Of(RootOf(doc, part), view), SaidOf(v, base, view, part), SaidOf(w, base, view, part),
             PartOf(base[view], part))
  {
    var was, p, q := Of(RootOf(doc, part), view), SaidOf(v, base, view, part), SaidOf(w, base, view, part);
    var merged := Merged(was, p, q, PartOf(base[view], part));
    forall k
      ensures Get(Of(RootOf(d12, part), view), k) == Get(merged, k) == Get(Of(RootOf(d21, part), view), k)
    {
      EntryTwice(doc, a, b, v, w, base, d12, d21, view, part, k);
      MergedAt(part, was, p, q, PartOf(base[view], part), k);
    }
    SameRec(Of(RootOf(d12, part), view), merged);
    SameRec(Of(RootOf(d21, part), view), merged);
  }

  function ListIn(v: BView, part: Part): Option<Rec> {
    match part
    case Columns => v.columns
    case Sorts => v.sorts
    case _ => v.lanes
  }

  function FlagKey(part: Part): string {
    match part
    case Columns => ORDER
    case Sorts => SORT
    case _ => GROUP_ORDER
  }

  /** A view's list as the document reads. */
  function ListRead(doc: Doc, view: string, part: Part): ListView {
    ListOf(Get(Of(doc.fields, view), FlagKey(part)), Of(RootOf(doc, part), view))
  }

  predicate HasList(value: map<string, BView>, base: map<string, BView>, view: string, part: Part)
    requires view in base
  {
    ListIn(if view in value then value[view] else base[view], part).Some?
  }

  /** A list's flag after two edits: of a list the base has, it stays unless either takes the list away; of one it
      does not have, it is there if either made the list. */
  predicate FlagStays(was: bool, v: bool, w: bool, base: bool) {
    if base then was && v && w else was || v || w
  }

  predicate ArePlain(value: map<string, BView>) {
    forall view | view in value :: IsPlainView(value[view])
  }

  lemma FlagSaid(value: map<string, BView>, base: map<string, BView>, view: string, part: Part)
    requires view in base && ArePlain(value) && ArePlain(base) && !part.Fields?
    ensures Get(SaidOf(value, base, view, Fields), FlagKey(part)) ==
      if HasList(value, base, view, part) then Some(Bool(true)) else None
  {
    RecordFields(if view in value then value[view] else base[view]);
  }

  lemma FlagAfter(doc: Doc, a: nat, b: nat, v: map<string, BView>, w: map<string, BView>, base: map<string, BView>,
                  d12: Doc, d21: Doc, view: string, part: Part)
    requires AreOrders(doc, a, b, v, w, base, d12, d21) && view in base && !part.Fields?
    requires ArePlain(v) && ArePlain(w) && ArePlain(base)
    ensures Get(Of(d12.fields, view), FlagKey(part)) == Get(Of(d21.fields, view), FlagKey(part))
    ensures Get(Of(d12.fields, view), FlagKey(part)) == Some(Bool(true)) <==>
      FlagStays(Get(Of(doc.fields, view), FlagKey(part)) == Some(Bool(true)),
                HasList(v, base, view, part), HasList(w, base, view, part), ListIn(base[view], part).Some?)
  {
    EntryTwice(doc, a, b, v, w, base, d12, d21, view, Fields, FlagKey(part));
    FlagSaid(v, base, view, part);
    FlagSaid(w, base, view, part);
    FlagSaid(base, base, view, part);
  }

  /** After both edits, in either order, a view's columns or lanes read alike, and show if and only if the list's
      flag stays or an item does. */
  lemma ListShows(doc: Doc, a: nat, b: nat, v: map<string, BView>, w: map<string, BView>, base: map<string, BView>,
                  d12: Doc, d21: Doc, view: string, part: Part)
    requires AreOrders(doc, a, b, v, w, base, d12, d21) && view in base && (part.Columns? || part.Lanes?)
    requires ArePlain(v) && ArePlain(w) && ArePlain(base)
    requires IsKeyed(part, SaidOf(v, base, view, part)) && IsKeyed(part, SaidOf(w, base, view, part))
    requires IsKeyed(part, PartOf(base[view], part))
    ensures ListRead(d12, view, part) == ListRead(d21, view, part)
    ensures ListRead(d12, view, part).Items? <==>
      || FlagStays(Get(Of(doc.fields, view), FlagKey(part)) == Some(Bool(true)),
                   HasList(v, base, view, part), HasList(w, base, view, part), ListIn(base[view], part).Some?)
      || Merged(Of(RootOf(doc, part), view), SaidOf(v, base, view, part), SaidOf(w, base, view, part),
                PartOf(base[view], part)) != map[]
  {
    ListsMerge(doc, a, b, v, w, base, d12, d21, view, part);
    FlagAfter(doc, a, b, v, w, base, d12, d21, view, part);
  }

  /** One vault takes a view's columns or lanes away while another adds to them: in either order the list shows, and
      holds exactly what was added. */
  lemma AddedToTakenList(doc: Doc, a: nat, b: nat, v: map<string, BView>, w: map<string, BView>,
                         base: map<string, BView>, d12: Doc, d21: Doc, view: string, part: Part)
    requires AreOrders(doc, a, b, v, w, base, d12, d21) && (part.Columns? || part.Lanes?)
    requires view in v && view in w && view in base && PartOf(v[view], part) == map[]
    requires IsKeyed(part, PartOf(w[view], part)) && IsKeyed(part, PartOf(base[view], part))
    requires Of(RootOf(doc, part), view) == PartOf(base[view], part)
    requires Added(PartOf(w[view], part), PartOf(base[view], part)) != map[]
    ensures var added := Added(PartOf(w[view], part), PartOf(base[view], part));
      ListRead(d12, view, part) == Items(added) == ListRead(d21, view, part)
  {
    ListsMerge(doc, a, b, v, w, base, d12, d21, view, part);
    TakenAndAdded(PartOf(w[view], part), PartOf(base[view], part));
  }

  lemma TakenAndAdded(next: Rec, old0: Rec)
    ensures Merged(old0, map[], next, old0) == Added(next, old0)
  {
    forall k
      ensures Get(Merged(old0, map[], next, old0), k) == Get(Added(next, old0), k)
    {
    }
    SameRec(Merged(old0, map[], next, old0), Added(next, old0));
  }
}
