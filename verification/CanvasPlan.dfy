/** What a bound canvas view draws of a document's changes, and how drawing changes the view, what is held of
    it, and its undo history (`planDraw` and what carries a plan out, `packages/plugin/src/canvas-live.ts`).

    The view shows records exactly, without Obsidian's rounding. */
module CanvasPlan {
  import opened Json
  import opened CanvasModel

  type Key = (Kind, string)
  type Board = map<Key, Rec>

  /** What an edit can change of a board: that a record is there, or a field of one. */
  datatype Spot = Whole(key: Key) | Field(key: Key, name: string)

  function At(b: Board, k: Key, f: string): Option<Json> {
    if k in b then Get(b[k], f) else None
  }

  predicate SameAt(a: Board, b: Board, s: Spot) {
    match s
    case Whole(k) => k in a <==> k in b
    case Field(k, f) => At(a, k, f) == At(b, k, f)
  }

  lemma SameEverywhere(a: Board, b: Board)
    ensures a == b <==> forall s :: SameAt(a, b, s)
  {
    if forall s :: SameAt(a, b, s) {
      forall k
        ensures k in a <==> k in b
        ensures k in a && k in b ==> a[k] == b[k]
      {
        assert SameAt(a, b, Whole(k));
        if k in a && k in b {
          forall f
            ensures f in a[k] <==> f in b[k]
            ensures f in a[k] && f in b[k] ==> a[k][f] == b[k][f]
          {
            assert SameAt(a, b, Field(k, f));
          }
        }
      }
    }
  }

  // ---- The plan ----

  /** Fields to set, or with nothing to set, to take away. */
  type Changes = map<string, Option<Json>>

  datatype Plan = Plan(fields: map<Key, Changes>, added: Board, removed: set<Key>)

  const NOTHING := Plan(map[], map[], {})

  const GEOMETRY: set<string> := {"x", "y", "width", "height"}

  /** A node whose position, size and removal are held back. */
  predicate IsMoved(hold: set<string>, k: Key) {
    k.0.Node? && k.1 in hold
  }

  function ChangesOf(was: Rec, rec: Rec, moved: bool): (changes: Changes)
    ensures forall f :: f in changes <==> !(moved && f in GEOMETRY) && Get(was, f) != Get(rec, f)
    ensures forall f | f in changes :: changes[f] == Get(rec, f)
  {
    map f | f in was.Keys + rec.Keys && !(moved && f in GEOMETRY) && Get(was, f) != Get(rec, f) :: Get(rec, f)
  }

  /** What is not drawn: position and size of a moved node, and its removal. */
  predicate IsHeldBack(held: Board, next: Board, hold: set<string>, s: Spot) {
    IsMoved(hold, s.key) && s.key in held && (s.key !in next || (s.Field? && s.name in GEOMETRY))
  }

  function PlanOf(held: Board, next: Board, hold: set<string>): Plan {
    Plan(
      map k | k in next && k in held && ChangesOf(held[k], next[k], IsMoved(hold, k)) != map[]
          :: ChangesOf(held[k], next[k], IsMoved(hold, k)),
      map k | k in next && k !in held :: next[k],
      set k | k in held && k !in next && !IsMoved(hold, k))
  }

  lemma OneMore<K, V>(m: map<K, V>, rest: set<K>, k: K)
    requires k in rest
    ensures m - (rest - {k}) == if k in m then (m - rest)[k := m[k]] else m - rest
  {
  }

  /** What changed between what is held and what the document reads as now, record by record. */
  method PlanDraw(held: Board, next: Board, hold: set<string>) returns (plan: Option<Plan>)
    ensures plan == if PlanOf(held, next, hold) == NOTHING then None else Some(PlanOf(held, next, hold))
  {
    var fields, added := PlanUpserts(held, next, hold);
    var removed := PlanRemovals(held, next, hold);
    plan := if fields == map[] && added == map[] && removed == {} then None else Some(Plan(fields, added, removed));
  }

  /** `fields` and `added` have of this record what is to be drawn of it. */
  predicate HasUpsert(held: Board, next: Board, hold: set<string>, fields: map<Key, Changes>, added: Board, k: Key) {
    k in next ==>
      if k !in held then k !in fields && Get(added, k) == Some(next[k])
      else var changed := ChangesOf(held[k], next[k], IsMoved(hold, k));
        k !in added && Get(fields, k) == if changed == map[] then None else Some(changed)
  }

  method PlanUpserts(held: Board, next: Board, hold: set<string>) returns (fields: map<Key, Changes>, added: Board)
    ensures fields == PlanOf(held, next, hold).fields && added == PlanOf(held, next, hold).added
  {
    var plan := PlanOf(held, next, hold);
    assert forall k :: HasUpsert(held, next, hold, plan.fields, plan.added, k);
    fields, added := UpsertAll(held, next, hold, plan.fields, plan.added);
  }

  method UpsertAll(held: Board, next: Board, hold: set<string>, ghost allFields: map<Key, Changes>,
      ghost allAdded: Board)
    returns (fields: map<Key, Changes>, added: Board)
    requires allFields.Keys <= next.Keys && allAdded.Keys <= next.Keys
    requires forall k :: HasUpsert(held, next, hold, allFields, allAdded, k)
    ensures fields == allFields && added == allAdded
  {
    fields, added := map[], map[];
    var rest := next.Keys;
    while rest != {}
      invariant rest <= next.Keys
      invariant fields == allFields - rest && added == allAdded - rest
      decreases |rest|
    {
      var k :| k in rest;
      OneMore(allFields, rest, k);
      OneMore(allAdded, rest, k);
      assert HasUpsert(held, next, hold, allFields, allAdded, k);
      if k !in held {
        added := added[k := next[k]];
      } else {
        var changed := ChangesOf(held[k], next[k], IsMoved(hold, k));
        if changed != map[] {
          fields := fields[k := changed];
        }
      }
      rest := rest - {k};
    }
  }

  method PlanRemovals(held: Board, next: Board, hold: set<string>) returns (removed: set<Key>)
    ensures removed == PlanOf(held, next, hold).removed
  {
    removed := {};
    var rest := held.Keys;
    while rest != {}
      invariant rest <= held.Keys
      invariant forall k :: k in removed <==> k in PlanOf(held, next, hold).removed && k !in rest
      decreases |rest|
    {
      var k :| k in rest;
      if k !in next && !IsMoved(hold, k) {
        removed := removed + {k};
      }
      rest := rest - {k};
    }
  }

  // ---- Carried out ----

  function Patch(rec: Rec, fields: Changes): (out: Rec)
    ensures forall f :: Get(out, f) == if f in fields then fields[f] else Get(rec, f)
  {
    map f | f in rec.Keys + fields.Keys && (f in fields ==> fields[f].Some?)
      :: if f in fields then fields[f].value else rec[f]
  }

  /** The view with a plan drawn: changed fields over what it shows now, and whole records where it shows none. */
  function Drawn(view: Board, plan: Plan, next: Board): Board
    requires plan.fields.Keys <= next.Keys
  {
    map k | k in view.Keys + plan.fields.Keys + plan.added.Keys && k !in plan.removed
      :: if k in plan.added then plan.added[k]
         else if k in plan.fields then (if k in view then Patch(view[k], plan.fields[k]) else next[k])
         else view[k]
  }

  /** Only the drawn fields of a held record, as the view now has them. */
  function HeldAfterDraw(held: Rec, fields: Changes, live: Option<Rec>): Rec {
    Patch(held, map f | f in fields :: if live.Some? then Get(live.value, f) else fields[f])
  }

  function PatchHeld(held: Board, plan: Plan, view: Board): Board {
    map k | k in held.Keys + plan.added.Keys && k !in plan.removed
      :: if k in plan.added then (if k in view then view[k] else plan.added[k])
         else if k in plan.fields then HeldAfterDraw(held[k], plan.fields[k], Get(view, k))
         else held[k]
  }

  /** A snapshot with a plan written in: fields of the records it has, records it lacked, and no removed one. */
  function Rebased(snap: Board, plan: Plan): Board {
    map k | k in snap.Keys + plan.added.Keys && k !in plan.removed
      :: if k in snap then (if k in plan.fields then Patch(snap[k], plan.fields[k]) else snap[k]) else plan.added[k]
  }

  /** The snapshot's own records in a rebased one. */
  function PatchedOnly(snap: Board, plan: Plan): Board {
    map k | k in snap && k !in plan.removed :: if k in plan.fields then Patch(snap[k], plan.fields[k]) else snap[k]
  }

  lemma RebasedParts(snap: Board, plan: Plan)
    requires plan.removed !! plan.added.Keys
    ensures Rebased(snap, plan) == plan.added + PatchedOnly(snap, plan)
  {
  }

  method PatchList(list: Board, plan: Plan) returns (out: Board)
    requires plan.removed !! plan.added.Keys
    ensures out == Rebased(list, plan)
  {
    out := map[];
    ghost var kept := PatchedOnly(list, plan);
    var rest := list.Keys;
    while rest != {}
      invariant rest <= list.Keys
      invariant out == kept - rest
      decreases |rest|
    {
      var k :| k in rest;
      OneMore(kept, rest, k);
      if k !in plan.removed {
        out := out[k := if k in plan.fields then Patch(list[k], plan.fields[k]) else list[k]];
      }
      rest := rest - {k};
    }
    assert out == kept;
    out := AddMissing(out, plan.added);
    RebasedParts(list, plan);
  }

  method AddMissing(kept: Board, added: Board) returns (out: Board)
    ensures out == added + kept
  {
    out := kept;
    var rest := added.Keys;
    while rest != {}
      invariant rest <= added.Keys
      invariant out == (added - rest) + kept
      decreases |rest|
    {
      var k :| k in rest;
      OneMore(added, rest, k);
      if k !in out {
        out := out[k := added[k]];
      }
      rest := rest - {k};
    }
  }

  // ---- What drawing means ----

  /** A record drawn over what the view shows of it, and held as the view then has it. */
  function HeldRecord(was: Rec, rec: Rec, moved: bool, live: Option<Rec>): Rec {
    var changed := ChangesOf(was, rec, moved);
    HeldAfterDraw(was, changed, Some(if live.Some? then Patch(live.value, changed) else rec))
  }

  lemma DrawnField(was: Rec, rec: Rec, moved: bool, live: Option<Rec>, f: string)
    ensures Get(HeldRecord(was, rec, moved, live), f) == if moved && f in GEOMETRY then Get(was, f) else Get(rec, f)
  {
  }

  lemma UndrawnRecord(was: Rec, rec: Rec, moved: bool, f: string)
    requires ChangesOf(was, rec, moved) == map[]
    ensures Get(was, f) == if moved && f in GEOMETRY then Get(was, f) else Get(rec, f)
  {
    assert f !in ChangesOf(was, rec, moved);
  }

  lemma DrawnRecord(held: Board, next: Board, hold: set<string>, view: Board, k: Key)
    requires k in held && k in next
    ensures var plan := PlanOf(held, next, hold);
      Get(PatchHeld(held, plan, Drawn(view, plan, next)), k) == Some(
        if ChangesOf(held[k], next[k], IsMoved(hold, k)) == map[] then held[k]
        else HeldRecord(held[k], next[k], IsMoved(hold, k), Get(view, k)))
  {
  }

  /** Every change of the document is drawn into what is held but what is held back, and nothing else is. */
  lemma DrawnIsHeld(held: Board, next: Board, hold: set<string>, view: Board, s: Spot)
    ensures var plan := PlanOf(held, next, hold);
      var after := PatchHeld(held, plan, Drawn(view, plan, next));
      SameAt(after, if IsHeldBack(held, next, hold, s) then held else next, s)
  {
    var k := s.key;
    if k in held && k in next {
      DrawnRecord(held, next, hold, view, k);
      if s.Field? {
        DrawnField(held[k], next[k], IsMoved(hold, k), Get(view, k), s.name);
        if ChangesOf(held[k], next[k], IsMoved(hold, k)) == map[] {
          UndrawnRecord(held[k], next[k], IsMoved(hold, k), s.name);
        }
      }
    }
  }

  /** With nothing held back, what is held is the document. */
  lemma AllDrawn(held: Board, next: Board, view: Board)
    ensures var plan := PlanOf(held, next, {}); PatchHeld(held, plan, Drawn(view, plan, next)) == next
  {
    var plan := PlanOf(held, next, {});
    var after := PatchHeld(held, plan, Drawn(view, plan, next));
    forall s
      ensures SameAt(after, next, s)
    {
      DrawnIsHeld(held, next, {}, view, s);
    }
    SameEverywhere(after, next);
  }

  /** The plan draws nothing here, over what the view shows. */
  predicate IsUndrawn(plan: Plan, view: Board, s: Spot) {
    && s.key !in plan.added && s.key !in plan.removed
    && (s.key in plan.fields ==> s.key in view && (s.Field? ==> s.name !in plan.fields[s.key]))
  }

  /** Drawing leaves the view apart from what is held only where it was before, and drew nothing. */
  lemma DrawnAgrees(held: Board, next: Board, hold: set<string>, view: Board, s: Spot)
    requires forall id | id in hold :: (Node, id) in view
    ensures var plan := PlanOf(held, next, hold); var shown := Drawn(view, plan, next);
      !SameAt(shown, PatchHeld(held, plan, shown), s) ==> !SameAt(view, held, s) && IsUndrawn(plan, view, s)
  {
    var k := s.key;
    var plan := PlanOf(held, next, hold);
    if k in plan.fields {
      DrawnRecord(held, next, hold, view, k);
      if k !in view {
        RecreatedIsHeld(held, next, hold, view, s);
      } else if s.Field? && s.name in plan.fields[k] {
        DrawnField(held[k], next[k], IsMoved(hold, k), Get(view, k), s.name);
      }
    }
  }

  /** A record this user took away, and a peer changed meanwhile, is back whole. */
  lemma RecreatedIsHeld(held: Board, next: Board, hold: set<string>, view: Board, s: Spot)
    requires s.key in PlanOf(held, next, hold).fields && s.key !in view && !IsMoved(hold, s.key)
    ensures var plan := PlanOf(held, next, hold); var shown := Drawn(view, plan, next);
      SameAt(shown, next, s) && SameAt(shown, PatchHeld(held, plan, shown), s)
  {
    DrawnIsHeld(held, next, hold, view, s);
  }

  lemma UndrawnStays(held: Board, next: Board, hold: set<string>, view: Board, s: Spot)
    requires IsUndrawn(PlanOf(held, next, hold), view, s)
    ensures var plan := PlanOf(held, next, hold); var shown := Drawn(view, plan, next);
      SameAt(shown, view, s) && (s.key in shown <==> s.key in view) &&
      (s.key in PatchHeld(held, plan, shown) <==> s.key in held)
  {
  }

  // ---- Whose changes a snapshot undoes ----

  /** A board differs from what is held only in this user's changes: a record it has or lacks, or a field. */
  ghost predicate IsOwn(snap: Board, held: Board, mine: iset<Spot>) {
    forall s :: DiffersAt(snap, held, s) ==> s in mine
  }

  /** The boards differ here: in having the record, or in a field of a record both have. */
  predicate DiffersAt(a: Board, b: Board, s: Spot) {
    !SameAt(a, b, s) && (s.Field? ==> s.key in a && s.key in b)
  }

  /** A record this user made or removed counts as changed whole, while it is not held. */
  ghost predicate OwnWhole(held: Board, mine: iset<Spot>) {
    forall k, f | k !in held && Whole(k) in mine :: Field(k, f) in mine
  }

  /** This user's changes, after a plan is drawn: what was drawn is no longer theirs. */
  ghost function MineAfter(mine: iset<Spot>, plan: Plan): iset<Spot> {
    iset s | s in mine && s.key !in plan.removed && !(s.Field? && IsDrawnField(mine, plan, s))
  }

  ghost predicate IsDrawnField(mine: iset<Spot>, plan: Plan, s: Spot)
    requires s.Field?
  {
    || (s.key in plan.fields && s.name in plan.fields[s.key])
    || (s.key in plan.added && Whole(s.key) !in mine)
  }

  /** A snapshot rebased over a plan still differs from what is then held only in this user's changes. */
  lemma RebasedIsOwn(held: Board, next: Board, hold: set<string>, view: Board, snap: Board, mine: iset<Spot>)
    requires forall id | id in hold :: (Node, id) in view
    requires IsOwn(snap, held, mine) && OwnWhole(held, mine)
    ensures var plan := PlanOf(held, next, hold);
      IsOwn(Rebased(snap, plan), PatchHeld(held, plan, Drawn(view, plan, next)), MineAfter(mine, plan))
  {
    var plan := PlanOf(held, next, hold);
    var after := PatchHeld(held, plan, Drawn(view, plan, next));
    forall s | DiffersAt(Rebased(snap, plan), after, s)
      ensures s in MineAfter(mine, plan)
    {
      RebasedDiffers(held, next, hold, view, snap, mine, s);
    }
  }

  lemma RebasedDiffers(held: Board, next: Board, hold: set<string>, view: Board, snap: Board, mine: iset<Spot>, s: Spot)
    requires forall id | id in hold :: (Node, id) in view
    requires IsOwn(snap, held, mine) && OwnWhole(held, mine)
    requires var plan := PlanOf(held, next, hold);
      DiffersAt(Rebased(snap, plan), PatchHeld(held, plan, Drawn(view, plan, next)), s)
    ensures s in MineAfter(mine, PlanOf(held, next, hold))
  {
    assert DiffersAt(snap, held, Whole(s.key)) ==> Whole(s.key) in mine;
    assert DiffersAt(snap, held, s) ==> s in mine;
    if s.key in PlanOf(held, next, hold).added {
      assert s.Field?;
    }
  }

  /** The view, drawn over, too. */
  lemma DrawnIsOwn(held: Board, next: Board, hold: set<string>, view: Board, mine: iset<Spot>)
    requires forall id | id in hold :: (Node, id) in view
    requires IsOwn(view, held, mine)
    ensures var plan := PlanOf(held, next, hold); var shown := Drawn(view, plan, next);
      IsOwn(shown, PatchHeld(held, plan, shown), MineAfter(mine, plan))
  {
    var plan := PlanOf(held, next, hold);
    var shown := Drawn(view, plan, next);
    forall s | DiffersAt(shown, PatchHeld(held, plan, shown), s)
      ensures s in MineAfter(mine, plan)
    {
      DrawnAgrees(held, next, hold, view, s);
      UndrawnStays(held, next, hold, view, s);
      assert DiffersAt(view, held, s);
    }
  }

  lemma WholeAfter(held: Board, next: Board, hold: set<string>, view: Board, mine: iset<Spot>)
    requires OwnWhole(held, mine)
    ensures var plan := PlanOf(held, next, hold);
      OwnWhole(PatchHeld(held, plan, Drawn(view, plan, next)), MineAfter(mine, plan))
  {
  }
}
