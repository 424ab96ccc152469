/** An open canvas's binding, changed in place (`CanvasLiveBinding`, `packages/plugin/src/canvas-live.ts`):
    each method takes the step of `CanvasSession` it is named after, and keeps what every step keeps.

    What the view does itself (the user's edits, its history, its drags) are methods too, so that any order of
    calls is a run. */
module CanvasBinding {
  import opened Json
  import opened CanvasModel
  import opened CanvasEdit
  import opened CanvasLaws
  import opened CanvasPlan
  import opened CanvasSession

  class Binding {
    var held: Board
    var view: Board
    var history: seq<Board>
    var current: nat
    var pushPending: bool
    var dragging: set<string>
    var gesture: bool
    var heldLate: bool
    var endDue: bool
    var applyPending: bool
    var saveOwed: bool
    var liveCards: set<string>
    ghost var touched: iset<Spot>
    ghost var mine: iset<Spot>
    ghost var owed: iset<Spot>

    ghost function Now(): State
      reads this
    {
      State(held, view, history, current, pushPending, dragging, gesture, heldLate, endDue, applyPending, saveOwed,
            liveCards, touched, mine, owed)
    }

    ghost predicate Valid()
      reads this
    {
      IsValid(Now())
    }

    constructor Attach(shown: Board, past: seq<Board>, at: nat, live: set<string>)
      requires at < |past|
      ensures Valid() && Now() == Attached(shown, past, at, live)
    {
      held, view, history, current, liveCards := shown, shown, past, at, live;
      pushPending, dragging, gesture, heldLate, endDue, applyPending, saveOwed :=
        false, {}, false, false, false, false, false;
      touched, owed := iset{}, iset{};
      mine := iset s: Spot | IsUndone(past, shown, s);
      new;
      AttachedIsValid(shown, past, at, live);
    }

    /** The user changes what the view shows. */
    method UserEdit(to: Board)
      requires Valid()
      modifies this
      ensures Valid() && Now() == Edited(old(Now()), to)
    {
      EditKeeps(Now(), to);
      touched, mine := touched + EditSpots(view, to), mine + EditSpots(view, to);
      view, pushPending, dragging := to, true, StillShown(dragging, to);
    }

    /** Obsidian's debounced history step. */
    method PushHistory()
      requires current < |history|
      modifies this`history, this`current, this`pushPending
      ensures Now() == HistoryPushed(old(Now()))
    {
      if pushPending {
        history := history[..current + 1] + [view];
        current, pushPending := current + 1, false;
      }
    }

    /** A remote change reached the document. */
    method Schedule()
      requires Valid()
      modifies this`applyPending
      ensures Valid() && Now() == old(Now()).(applyPending := true)
    {
      applyPending := true;
    }

    /** Write a plan into every snapshot of the undo history. */
    method RebaseHistory(plan: Plan)
      requires plan.removed !! plan.added.Keys
      modifies this`history
      ensures history == RebasedAll(old(history), plan)
    {
      ghost var was := history;
      for i := 0 to |history|
        invariant |history| == |was| && history[i..] == was[i..] && history[..i] == RebasedAll(was[..i], plan)
      {
        var snap := PatchList(history[i], plan);
        assert was[..i + 1][..i] == was[..i];
        ghost var before := history;
        history := history[i := snap];
        assert history[..i + 1] == before[..i] + [snap];
      }
      assert was[..|was|] == was && history[..|was|] == history;
    }

    /** Bring the view and what is held up to the document. */
    method ApplyRemoteNow(next: Board)
      requires Valid()
      modifies this
      ensures Valid() && Now() == RemoteApplied(old(Now()), next)
    {
      DrawIsSound(Now(), next);
      DrawIsPromised(Now(), next);
      DrawRemote(next);
    }

    method DrawRemote(next: Board)
      requires current < |history|
      modifies this
      ensures Now() == RemoteApplied(old(Now()), next)
    {
      applyPending := false;
      var moving := Moving(view, dragging, gesture);
      if moving.Some? && !gesture {
        heldLate := true;
      }
      DrawChanges(next, Hold(view, dragging, gesture), moving.Some?);
    }

    method DrawChanges(next: Board, hold: set<string>, moving: bool)
      requires current < |history|
      modifies this
      ensures Now() == DrawnBut(old(Now()), next, hold, moving)
    {
      var plan := PlanDraw(held, next, hold);
      DrawIf(next, plan, moving);
      NoteOwed(next);
    }

    method NoteOwed(next: Board)
      modifies this`owed
      ensures Now() == old(Now()).(owed := Missing(held, next))
    {
      owed := Missing(held, next);
    }

    method DrawIf(next: Board, plan: Option<Plan>, moving: bool)
      requires current < |history|
      requires plan.Some? ==> plan.value.fields.Keys <= next.Keys && plan.value.removed !! plan.value.added.Keys
      modifies this
      ensures Now() == if plan.Some? then DrawnOver(old(Now()), plan.value, next, moving) else old(Now())
    {
      if plan.Some? {
        DrawOver(next, plan.value, moving);
      }
    }

    method DrawOver(next: Board, plan: Plan, moving: bool)
      requires current < |history| && plan.fields.Keys <= next.Keys && plan.removed !! plan.added.Keys
      modifies this
      ensures Now() == DrawnOver(old(Now()), plan, next, moving)
    {
      PushHistory();
      DrawPlan(next, plan);
      saveOwed := saveOwed || moving;
    }

    method DrawPlan(next: Board, plan: Plan)
      requires plan.fields.Keys <= next.Keys && plan.removed !! plan.added.Keys
      modifies this`view, this`held, this`history, this`mine, this`touched
      ensures Now() == PlanDrawn(old(Now()), plan, next)
    {
      var shown := Drawn(view, plan, next);
      RebaseHistory(plan);
      touched, mine := TouchedAfter(touched, plan, view), MineAfter(mine, plan);
      view, held := shown, PatchHeld(held, plan, shown);
    }

    /** The view committed something: what it differs from what is held in is the user's, and is handed to the
        document. What waits to be drawn is drawn first. */
    method Capture(next: Board) returns (edit: Option<Edit>)
      requires Valid()
      modifies this
      ensures Valid() && Now() == Captured(old(Now()), next)
      ensures edit == EditOf(ToCapture(old(Now()), next))
      ensures edit.Some? ==> IsEditOfView(edit.value, ToCapture(old(Now()), next).view, liveCards)
    {
      CaptureKeeps(Now(), next);
      EditIsOfView(ToCapture(Now(), next));
      edit := CaptureView(next);
    }

    method CaptureView(next: Board) returns (edit: Option<Edit>)
      requires current < |history|
      modifies this
      ensures Now() == Captured(old(Now()), next)
      ensures edit == EditOf(ToCapture(old(Now()), next))
    {
      if heldLate && !gesture {
        endDue := true;
      }
      if applyPending {
        DrawRemote(next);
      }
      edit := CommitView();
    }

    method CommitView() returns (edit: Option<Edit>)
      modifies this
      ensures Now() == Commit(old(Now())) && edit == EditOf(old(Now()))
    {
      var value := Committed(view, held, liveCards);
      edit := if value == held then None else Some(Edit(value, held));
      var shown := Corrected(view, held, liveCards);
      mine, touched := MineCaptured(mine, held, value), Missing(shown, value);
      held, view := value, shown;
    }

    /** Obsidian's undo or redo: the view shows a snapshot again, and that is captured. */
    method ApplyHistory(to: nat, next: Board) returns (edit: Option<Edit>)
      requires Valid() && to < |history|
      modifies this
      ensures Valid() && Now() == Captured(Restored(old(Now()), to), next)
      ensures edit == EditOf(ToCapture(Restored(old(Now()), to), next))
      ensures edit.Some? ==> IsOwn(edit.value.value, edit.value.base, old(mine))
    {
      RestoreKeeps(Now(), to);
      UndoIsOwn(Now(), to, next);
      CaptureKeeps(Restored(Now(), to), next);
      RestoreView(to);
      edit := CaptureView(next);
    }

    method RestoreView(to: nat)
      requires to < |history|
      modifies this`touched, this`dragging, this`view, this`current
      ensures Now() == Restored(old(Now()), to)
    {
      touched := touched + Missing(history[to], held);
      dragging := StillShown(dragging, history[to]);
      view, current := history[to], to;
    }

    method GestureDown()
      requires Valid()
      modifies this`gesture
      ensures Valid() && Now() == old(Now()).(gesture := true)
    {
      gesture := true;
    }

    /** Obsidian marks the nodes it drags. */
    method Drag(nodes: set<string>)
      requires Valid() && AllShown(nodes, view)
      modifies this`dragging
      ensures Valid() && Now() == old(Now()).(dragging := nodes)
    {
      dragging := nodes;
    }

    method GestureUp()
      requires Valid()
      modifies this`gesture, this`endDue
      ensures Valid() && Now() == Released(old(Now()))
    {
      if !gesture && !heldLate {
        return;
      }
      gesture := false;
      endDue := true;
    }

    /** A gesture is over: what waited for its end is drawn, and a save that waited is made. */
    method GestureEnded(next: Board) returns (saved: bool)
      requires Valid()
      modifies this
      ensures Valid() && Now() == GestureDone(old(Now()), next)
      ensures !gesture && dragging == {} ==> held == next && owed == iset{} && !saveOwed
    {
      GestureDoneKeeps(Now(), next);
      saved := EndGesture(next);
    }

    method EndGesture(next: Board) returns (saved: bool)
      requires current < |history|
      modifies this
      ensures Now() == GestureDone(old(Now()), next)
    {
      endDue, heldLate := false, false;
      ghost var before := Now();
      assert before == old(Now()).(endDue := false, heldLate := false);
      DrawRemote(next);
      assert Now() == RemoteApplied(before, next);
      saved := SaveOwed();
    }

    method SaveOwed() returns (saved: bool)
      modifies this`saveOwed
      ensures Now() == SavedAtRest(old(Now())) && saved == (old(saveOwed) && !saveOwed)
    {
      if !saveOwed || gesture {
        return false;
      }
      if Moving(view, dragging, false).Some? {
        return false;
      }
      saveOwed := false;
      return true;
    }
  }

  // ---- With the document ----

  function ValueOf(b: Board): CanvasValue {
    CanvasValue(
      map k | k in b && k.0.Node? :: k.1 := b[k],
      map k | k in b && k.0.Edge? :: k.1 := b[k])
  }

  /** Once all is drawn, a capture leaves what is held and what the document reads as the same again, if and
      only if every card takes its text whole. */
  lemma CapturedReadsBack(st: State, doc: Doc, me: nat, after: Doc)
    requires EditOf(st).Some? && ValueOf(st.held) == Reads(doc)
    requires IsEditOf(doc, ValueOf(EditOf(st).value.value), ValueOf(st.held))
    requires Applied(doc, me, ValueOf(EditOf(st).value.value), ValueOf(st.held), after)
    ensures Reads(after) == ValueOf(Commit(st).held) <==>
      AllTakeWhole(doc, ValueOf(EditOf(st).value.value), ValueOf(st.held))
  {
    EditIsExact(doc, me, ValueOf(EditOf(st).value.value), ValueOf(st.held), after);
  }
}
