/** An open canvas bound to its document: what its view shows, what is held of that, its undo history, and
    the gesture that holds changes back (`CanvasLiveBinding`, `packages/plugin/src/canvas-live.ts`).

    Here are its states and the steps of its runs; a step that reads the document is given what the document
    reads as then. `CanvasBinding` carries the steps out in place. */
module CanvasSession {
  import opened Json
  import opened CanvasModel
  import opened CanvasPlan

  /** What an edit of the view changes; of a record it makes or removes, every field. */
  ghost function EditSpots(was: Board, to: Board): iset<Spot> {
    iset s: Spot | !SameAt(was, to, s) || !SameAt(was, to, Whole(s.key))
  }

  /** Some snapshot differs here from what is shown. */
  ghost predicate IsUndone(past: seq<Board>, shown: Board, s: Spot) {
    exists h | h in past :: s in EditSpots(shown, h)
  }

  /** The nodes whose position, size and removal are held back: those being dragged, else during a gesture
      every node. */
  function Moving(view: Board, dragging: set<string>, gesture: bool): Option<set<string>> {
    if dragging != {} then Some(dragging)
    else if gesture then Some(set k | k in view && k.0.Node? :: k.1)
    else None
  }

  function Hold(view: Board, dragging: set<string>, gesture: bool): set<string> {
    if Moving(view, dragging, gesture).Some? then Moving(view, dragging, gesture).value else {}
  }

  lemma HoldIsShown(view: Board, dragging: set<string>, gesture: bool)
    requires AllShown(dragging, view)
    ensures AllShown(Hold(view, dragging, gesture), view) && dragging <= Hold(view, dragging, gesture)
  {
  }

  predicate IsLive(live: set<string>, k: Key) {
    k.0.Node? && k.1 in live
  }

  /** What the view holds, with the text of cards bound live as held: their editors carry it themselves. */
  function Committed(view: Board, held: Board, live: set<string>): Board {
    map k | k in view ::
      if !IsLive(live, k) || k !in held then view[k]
      else if "text" in held[k] then view[k]["text" := held[k]["text"]]
      else view[k] - {"text"}
  }

  /** The view with the text of those cards put right. */
  function Corrected(view: Board, held: Board, live: set<string>): Board {
    map k | k in view ::
      if IsLive(live, k) && k in held && "text" in held[k] && held[k]["text"].Str?
      then view[k]["text" := held[k]["text"]] else view[k]
  }

  /** Committed and corrected, the view may still be apart only in a live card's text that is held as no text. */
  lemma CorrectedAgrees(view: Board, held: Board, live: set<string>, s: Spot)
    ensures !SameAt(Committed(view, held, live), held, s) ==> !SameAt(view, held, s)
    ensures !SameAt(Corrected(view, held, live), Committed(view, held, live), s) ==>
      IsLeftApart(Committed(view, held, live), live, s)
  {
  }

  function RebasedAll(history: seq<Board>, plan: Plan): seq<Board> {
    if history == [] then []
    else RebasedAll(history[..|history| - 1], plan) + [Rebased(history[|history| - 1], plan)]
  }

  function Pushed(history: seq<Board>, current: nat, view: Board): seq<Board>
    requires current < |history|
  {
    history[..current + 1] + [view]
  }

  ghost function TouchedAfter(touched: iset<Spot>, plan: Plan, view: Board): iset<Spot> {
    iset s: Spot | s in touched && IsUndrawn(plan, view, s)
  }

  /** The view is apart from what is held only where the user touched it, and only in the user's changes. */
  ghost predicate IsTrue(held: Board, view: Board, mine: iset<Spot>, touched: iset<Spot>) {
    (forall s :: !SameAt(view, held, s) ==> s in touched) && IsOwn(view, held, mine) && OwnWhole(held, mine)
  }

  lemma DrawStaysTrue(held: Board, next: Board, hold: set<string>, view: Board, mine: iset<Spot>, touched: iset<Spot>)
    requires IsTrue(held, view, mine, touched) && AllShown(hold, view)
    ensures var plan := PlanOf(held, next, hold); var shown := Drawn(view, plan, next);
      IsTrue(PatchHeld(held, plan, shown), shown, MineAfter(mine, plan), TouchedAfter(touched, plan, view))
  {
    var plan := PlanOf(held, next, hold);
    var shown := Drawn(view, plan, next);
    DrawnIsOwn(held, next, hold, view, mine);
    WholeAfter(held, next, hold, view, mine);
    forall s | !SameAt(shown, PatchHeld(held, plan, shown), s)
      ensures s in TouchedAfter(touched, plan, view)
    {
      DrawnAgrees(held, next, hold, view, s);
    }
  }

  /** What the user changes is theirs. */
  lemma EditIsOwn(held: Board, view: Board, to: Board, mine: iset<Spot>)
    requires IsOwn(view, held, mine) && OwnWhole(held, mine)
    ensures IsOwn(to, held, mine + EditSpots(view, to)) && OwnWhole(held, mine + EditSpots(view, to))
  {
    forall s | DiffersAt(to, held, s)
      ensures s in mine + EditSpots(view, to)
    {
      assert SameAt(view, to, s) && SameAt(view, to, Whole(s.key)) ==> DiffersAt(view, held, s);
    }
  }

  /** A plan with nothing in it changes nothing. */
  lemma NothingDrawn(held: Board, view: Board, mine: iset<Spot>, touched: iset<Spot>, next: Board)
    ensures Drawn(view, NOTHING, next) == view && PatchHeld(held, NOTHING, view) == held
    ensures MineAfter(mine, NOTHING) == mine && TouchedAfter(touched, NOTHING, view) == touched
  {
  }

  lemma {:induction false} NothingRebased(history: seq<Board>)
    ensures RebasedAll(history, NOTHING) == history
  {
    if history != [] {
      NothingRebased(history[..|history| - 1]);
      assert Rebased(history[|history| - 1], NOTHING) == history[|history| - 1];
    }
  }

  lemma {:induction false} HistoryStays(held: Board, next: Board, hold: set<string>, view: Board, history: seq<Board>,
      mine: iset<Spot>)
    requires AllShown(hold, view)
    requires OwnWhole(held, mine) && AllOwn(history, held, mine)
    ensures var plan := PlanOf(held, next, hold);
      |RebasedAll(history, plan)| == |history| &&
      AllOwn(RebasedAll(history, plan), PatchHeld(held, plan, Drawn(view, plan, next)), MineAfter(mine, plan))
  {
    if history != [] {
      HistoryStays(held, next, hold, view, history[..|history| - 1], mine);
      RebasedIsOwn(held, next, hold, view, history[|history| - 1], mine);
    }
  }

  /** A record the user made or removed is theirs whole once that is captured. */
  ghost function MineCaptured(mine: iset<Spot>, held: Board, value: Board): iset<Spot> {
    mine + (iset s: Spot | !SameAt(held, value, Whole(s.key)))
  }

  /** What differed from what was held in the user's changes still does, once they are what is held. */
  lemma CapturedIsOwn(held: Board, value: Board, mine: iset<Spot>, snap: Board)
    requires IsOwn(value, held, mine) && OwnWhole(held, mine) && IsOwn(snap, held, mine)
    ensures IsOwn(snap, value, MineCaptured(mine, held, value))
  {
    forall s | DiffersAt(snap, value, s)
      ensures s in MineCaptured(mine, held, value)
    {
      assert DiffersAt(snap, held, s) ==> s in mine;
      assert DiffersAt(value, held, s) ==> s in mine;
    }
  }

  lemma CapturedWhole(held: Board, value: Board, mine: iset<Spot>)
    requires IsOwn(value, held, mine) && OwnWhole(held, mine)
    ensures OwnWhole(value, MineCaptured(mine, held, value))
  {
  }

  lemma CommittedIsOwn(held: Board, view: Board, live: set<string>, mine: iset<Spot>)
    requires IsOwn(view, held, mine)
    ensures IsOwn(Committed(view, held, live), held, mine) && IsOwn(Corrected(view, held, live), held, mine)
  {
    forall s
      ensures DiffersAt(Committed(view, held, live), held, s) ==> s in mine
      ensures DiffersAt(Corrected(view, held, live), held, s) ==> s in mine
    {
      CorrectedAgrees(view, held, live, s);
      assert DiffersAt(view, held, s) ==> s in mine;
    }
  }

  /** Where a capture leaves the view apart from what is held: a live card's text that is held as no text. */
  ghost predicate IsLeftApart(held: Board, live: set<string>, s: Spot) {
    s.Field? && s.name == "text" && IsLive(live, s.key) &&
    !(At(held, s.key, "text").Some? && At(held, s.key, "text").value.Str?)
  }

  datatype Edit = Edit(value: Board, base: Board)

  /** The edit is of what the user touched, and of the user's changes. */
  ghost predicate IsOwnEdit(edit: Edit, touched: iset<Spot>, mine: iset<Spot>) {
    (forall s :: !SameAt(edit.value, edit.base, s) ==> s in touched) && IsOwn(edit.value, edit.base, mine)
  }

  ghost predicate IsCommitted(view: Board, held: Board, live: set<string>, touched: iset<Spot>) {
    forall s :: (s in touched <==> !SameAt(view, held, s)) && (s in touched ==> IsLeftApart(held, live, s))
  }

  ghost predicate AllOwn(history: seq<Board>, held: Board, mine: iset<Spot>) {
    forall h | h in history :: IsOwn(h, held, mine)
  }

  predicate AllShown(nodes: set<string>, view: Board) {
    forall id | id in nodes :: (Node, id) in view
  }

  function StillShown(nodes: set<string>, view: Board): (shown: set<string>)
    ensures AllShown(shown, view)
  {
    set id | id in nodes && (Node, id) in view
  }

  /** Captured, the view, what is held and the history differ in the user's changes as before, and what is
      handed to the document is what the view showed otherwise than held. */
  lemma CaptureLaws(held: Board, view: Board, history: seq<Board>, mine: iset<Spot>, touched: iset<Spot>,
      live: set<string>)
    requires IsTrue(held, view, mine, touched) && AllOwn(history, held, mine)
    ensures var value, shown := Committed(view, held, live), Corrected(view, held, live);
      var own, apart := MineCaptured(mine, held, value), iset s: Spot | !SameAt(shown, value, s);
      && IsOwnEdit(Edit(value, held), touched, mine)
      && IsTrue(value, shown, own, apart)
      && AllOwn(history, value, own)
      && IsCommitted(shown, value, live, apart)
  {
    var value := Committed(view, held, live);
    CommittedIsOwn(held, view, live, mine);
    CapturedIsOwn(held, value, mine, Corrected(view, held, live));
    CapturedWhole(held, value, mine);
    forall s
      ensures !SameAt(value, held, s) ==> !SameAt(view, held, s)
      ensures !SameAt(Corrected(view, held, live), value, s) ==> IsLeftApart(value, live, s)
    {
      CorrectedAgrees(view, held, live, s);
    }
    forall h | h in history
      ensures IsOwn(h, value, MineCaptured(mine, held, value))
    {
      CapturedIsOwn(held, value, mine, h);
    }
  }

  // ---- States and steps ----

  datatype State = State(
    held: Board,
    view: Board,
    history: seq<Board>,
    current: nat,
    pushPending: bool,
    dragging: set<string>,
    gesture: bool,
    heldLate: bool,
    endDue: bool,
    applyPending: bool,
    saveOwed: bool,
    liveCards: set<string>,
    /** What the user changed since the last capture, and no draw has changed since. */
    touched: iset<Spot>,
    /** What the user ever changed, and no draw has changed since. */
    mine: iset<Spot>,
    /** Where what is held differed from the document at the last draw. */
    owed: iset<Spot>)

  /** What is shown, held and undone is apart only in the user's changes. */
  ghost predicate IsSound(st: State) {
    && st.current < |st.history|
    && AllShown(st.dragging, st.view)
    && IsTrue(st.held, st.view, st.mine, st.touched)
    && AllOwn(st.history, st.held, st.mine)
  }

  /** While a change is held back or a save owed, the end of a gesture is still to come. */
  ghost predicate IsPromised(st: State) {
    st.owed != iset{} || st.saveOwed ==> st.gesture || st.heldLate || st.endDue
  }

  ghost predicate IsValid(st: State) {
    IsSound(st) && IsPromised(st)
  }

  /** A view that shows `shown`, bound. What its history already undoes counts as the user's. */
  ghost function Attached(shown: Board, past: seq<Board>, at: nat, live: set<string>): State {
    State(shown, shown, past, at, false, {}, false, false, false, false, false, live,
          iset{}, iset s: Spot | IsUndone(past, shown, s), iset{})
  }

  /** The user changes what the view shows. */
  ghost function Edited(st: State, to: Board): State {
    st.(view := to, pushPending := true, dragging := StillShown(st.dragging, to),
        touched := st.touched + EditSpots(st.view, to), mine := st.mine + EditSpots(st.view, to))
  }

  /** Obsidian's debounced history step. */
  function HistoryPushed(st: State): State
    requires st.current < |st.history|
  {
    if st.pushPending
    then st.(history := Pushed(st.history, st.current, st.view), current := st.current + 1, pushPending := false)
    else st
  }

  ghost function Missing(held: Board, next: Board): iset<Spot> {
    iset s: Spot | !SameAt(held, next, s)
  }

  ghost function PlanDrawn(st: State, plan: Plan, next: Board): State
    requires plan.fields.Keys <= next.Keys
  {
    var shown := Drawn(st.view, plan, next);
    var held := PatchHeld(st.held, plan, shown);
    st.(view := shown, held := held, history := RebasedAll(st.history, plan),
        touched := TouchedAfter(st.touched, plan, st.view), mine := MineAfter(st.mine, plan))
  }

  ghost function DrawnOver(st: State, plan: Plan, next: Board, moving: bool): State
    requires st.current < |st.history| && plan.fields.Keys <= next.Keys
  {
    PlanDrawn(HistoryPushed(st), plan, next).(saveOwed := st.saveOwed || moving)
  }

  ghost function DrawnBut(st: State, next: Board, hold: set<string>, moving: bool): State
    requires st.current < |st.history|
  {
    var plan := PlanOf(st.held, next, hold);
    var drawn := if plan == NOTHING then st else DrawnOver(st, plan, next, moving);
    drawn.(owed := Missing(drawn.held, next))
  }

  /** A drag that outlives its gesture is marked. */
  function MarkLate(st: State): State {
    st.(applyPending := false, heldLate := st.heldLate || (st.dragging != {} && !st.gesture))
  }

  /** The view brought up to the document, but where a gesture is in the way. */
  ghost function RemoteApplied(st: State, next: Board): State
    requires st.current < |st.history|
  {
    DrawnBut(MarkLate(st), next, Hold(st.view, st.dragging, st.gesture), Moving(st.view, st.dragging, st.gesture).Some?)
  }

  ghost function Commit(st: State): State {
    var value, shown := Committed(st.view, st.held, st.liveCards), Corrected(st.view, st.held, st.liveCards);
    st.(held := value, view := shown, mine := MineCaptured(st.mine, st.held, value), touched := Missing(shown, value))
  }

  /** What is captured: the view, with what waits to be drawn drawn first. */
  ghost function ToCapture(st: State, next: Board): State
    requires st.current < |st.history|
  {
    var due := st.(endDue := st.endDue || (st.heldLate && !st.gesture));
    if st.applyPending then RemoteApplied(due, next) else due
  }

  ghost function Captured(st: State, next: Board): State
    requires st.current < |st.history|
  {
    Commit(ToCapture(st, next))
  }

  /** The edit a capture hands the document, if any. */
  ghost function EditOf(st: State): Option<Edit> {
    var value := Committed(st.view, st.held, st.liveCards);
    if value == st.held then None else Some(Edit(value, st.held))
  }

  /** The edit is of what the view shows, record by record and field by field, but of the text of a card bound live,
      which is left as it was held. */
  ghost predicate IsEditOfView(edit: Edit, view: Board, live: set<string>) {
    && (forall k :: k in edit.value <==> k in view)
    && (forall k, f | !(IsLive(live, k) && k in edit.base && f == "text") :: At(edit.value, k, f) == At(view, k, f))
    && (forall k | IsLive(live, k) && k in edit.value && k in edit.base ::
          At(edit.value, k, "text") == At(edit.base, k, "text"))
  }

  lemma EditIsOfView(st: State)
    ensures IsEditOfView(Edit(Committed(st.view, st.held, st.liveCards), st.held), st.view, st.liveCards)
  {
    var value := Committed(st.view, st.held, st.liveCards);
    forall k, f | !(IsLive(st.liveCards, k) && k in st.held && f == "text")
      ensures At(value, k, f) == At(st.view, k, f)
    {
    }
  }

  /** And once it is captured, a card bound live shows its text as it is held. */
  lemma LiveTextShown(st: State, k: Key)
    requires IsLive(st.liveCards, k) && k in st.view && k in st.held
    requires "text" in st.held[k] && st.held[k]["text"].Str?
    ensures At(Commit(st).view, k, "text") == At(st.held, k, "text") == At(Commit(st).held, k, "text")
  {
  }

  /** Obsidian's undo or redo: the view shows a snapshot again. */
  ghost function Restored(st: State, to: nat): State
    requires to < |st.history|
  {
    st.(view := st.history[to], current := to, dragging := StillShown(st.dragging, st.history[to]),
        touched := st.touched + Missing(st.history[to], st.held))
  }

  function Released(st: State): State {
    if st.gesture || st.heldLate then st.(gesture := false, endDue := true) else st
  }

  function SavedAtRest(st: State): State {
    if st.saveOwed && !st.gesture && st.dragging == {} then st.(saveOwed := false) else st
  }

  /** What the gesture held back is drawn; and once nothing moves, what was drawn during it is saved. */
  ghost function GestureDone(st: State, next: Board): State
    requires st.current < |st.history|
  {
    SavedAtRest(RemoteApplied(st.(endDue := false, heldLate := false), next))
  }

  // ---- What every step keeps ----

  lemma AttachedIsValid(shown: Board, past: seq<Board>, at: nat, live: set<string>)
    requires at < |past|
    ensures IsValid(Attached(shown, past, at, live))
  {
    var st := Attached(shown, past, at, live);
    forall h | h in past
      ensures IsOwn(h, st.held, st.mine)
    {
      assert forall s :: DiffersAt(h, shown, s) ==> s in EditSpots(shown, h) && IsUndone(past, shown, s);
    }
    forall k, f | k !in st.held && Whole(k) in st.mine
      ensures Field(k, f) in st.mine
    {
      var h :| h in past && Whole(k) in EditSpots(shown, h);
      assert Field(k, f) in EditSpots(shown, h) && IsUndone(past, shown, Field(k, f));
    }
  }

  lemma EditKeeps(st: State, to: Board)
    requires IsValid(st)
    ensures IsValid(Edited(st, to))
  {
    EditIsOwn(st.held, st.view, to, st.mine);
  }

  lemma PushKeeps(st: State)
    requires IsSound(st)
    ensures IsSound(HistoryPushed(st))
  {
  }

  lemma PlanKeeps(st: State, next: Board, hold: set<string>)
    requires IsSound(st) && AllShown(hold, st.view) && st.dragging <= hold
    ensures IsSound(PlanDrawn(st, PlanOf(st.held, next, hold), next))
  {
    DrawStaysTrue(st.held, next, hold, st.view, st.mine, st.touched);
    HistoryStays(st.held, next, hold, st.view, st.history, st.mine);
  }

  lemma DrawnButKeeps(st: State, next: Board, hold: set<string>, moving: bool)
    requires IsSound(st) && AllShown(hold, st.view) && st.dragging <= hold
    ensures IsSound(DrawnBut(st, next, hold, moving))
  {
    if PlanOf(st.held, next, hold) != NOTHING {
      PushKeeps(st);
      PlanKeeps(HistoryPushed(st), next, hold);
    }
  }

  lemma DrawnButIs(st: State, next: Board, hold: set<string>, moving: bool)
    requires st.current < |st.history|
    ensures var plan, after := PlanOf(st.held, next, hold), DrawnBut(st, next, hold, moving);
      after.view == Drawn(st.view, plan, next) && after.held == PatchHeld(st.held, plan, after.view)
  {
    if PlanOf(st.held, next, hold) == NOTHING { NothingDrawn(st.held, st.view, st.mine, st.touched, next); }
  }

  /** A draw brings what is held to the document but where it is held back; so with nothing held back, all. */
  lemma DrawnAllBut(st: State, next: Board, s: Spot)
    requires st.current < |st.history|
    ensures var hold := Hold(st.view, st.dragging, st.gesture);
      SameAt(RemoteApplied(st, next).held, if IsHeldBack(st.held, next, hold, s) then st.held else next, s)
  {
    var hold := Hold(st.view, st.dragging, st.gesture);
    DrawnButIs(MarkLate(st), next, hold, Moving(st.view, st.dragging, st.gesture).Some?);
    DrawnIsHeld(st.held, next, hold, st.view, s);
  }

  lemma DrawnAll(st: State, next: Board, moving: bool)
    requires st.current < |st.history|
    ensures DrawnBut(st, next, {}, moving).held == next
  {
    DrawnButIs(st, next, {}, moving);
    AllDrawn(st.held, next, st.view);
  }

  /** With nothing moving, a draw leaves nothing out. */
  lemma DrawnAtRest(st: State, next: Board)
    requires st.current < |st.history| && !st.gesture && st.dragging == {}
    ensures var after := RemoteApplied(st, next); after.held == next && after.owed == iset{}
  {
    DrawnAll(MarkLate(st), next, false);
    assert Missing(next, next) == iset{};
  }

  lemma DrawIsSound(st: State, next: Board)
    requires IsSound(st)
    ensures IsSound(RemoteApplied(st, next))
  {
    HoldIsShown(st.view, st.dragging, st.gesture);
    DrawnButKeeps(
      MarkLate(st), next, Hold(st.view, st.dragging, st.gesture), Moving(st.view, st.dragging, st.gesture).Some?);
  }

  lemma DrawIsPromised(st: State, next: Board)
    requires st.current < |st.history|
    ensures IsPromised(st) ==> IsPromised(RemoteApplied(st, next))
    ensures var after := RemoteApplied(st, next); after.owed != iset{} ==> after.gesture || after.heldLate
  {
    if !st.gesture && st.dragging == {} { DrawnAtRest(st, next); }
  }

  lemma CommitKeeps(st: State)
    requires IsSound(st)
    ensures IsSound(Commit(st)) && (IsPromised(st) ==> IsPromised(Commit(st)))
  {
    CaptureLaws(st.held, st.view, st.history, st.mine, st.touched, st.liveCards);
  }

  lemma RestoreKeeps(st: State, to: nat)
    requires IsValid(st) && to < |st.history|
    ensures IsValid(Restored(st, to))
  {
  }

  lemma CaptureKeeps(st: State, next: Board)
    requires IsValid(st)
    ensures IsValid(ToCapture(st, next)) && IsValid(Captured(st, next))
  {
    var due := st.(endDue := st.endDue || (st.heldLate && !st.gesture));
    if st.applyPending {
      DrawIsSound(due, next);
      DrawIsPromised(due, next);
    }
    CommitKeeps(ToCapture(st, next));
  }

  /** And at the end of a gesture, with nothing dragged on, everything is drawn and nothing is owed. */
  lemma GestureDoneKeeps(st: State, next: Board)
    requires IsValid(st)
    ensures IsValid(GestureDone(st, next))
    ensures !st.gesture && st.dragging == {} ==>
      var after := GestureDone(st, next); after.held == next && after.owed == iset{} && !after.saveOwed
  {
    var due := st.(endDue := false, heldLate := false);
    DrawIsSound(due, next);
    DrawIsPromised(due, next);
    if !st.gesture && st.dragging == {} { DrawnAtRest(due, next); }
  }

  // ---- Runs ----

  datatype Step =
    | Change(to: Board)
    | Push
    | Scheduled
    | Draw(next: Board)
    | Capture(next: Board)
    | Restore(at: nat)
    | Down
    | Drag(nodes: set<string>)
    | Up
    | Done(next: Board)

  /** Obsidian restores a snapshot it has, and marks nodes it shows. */
  predicate IsPossible(st: State, step: Step) {
    st.current < |st.history| && (step.Restore? ==> step.at < |st.history|)
        && (step.Drag? ==> AllShown(step.nodes, st.view))
  }

  ghost function After(st: State, step: Step): State
    requires IsPossible(st, step)
  {
    match step
    case Change(to) => Edited(st, to)
    case Push => HistoryPushed(st)
    case Scheduled => st.(applyPending := true)
    case Draw(next) => RemoteApplied(st, next)
    case Capture(next) => Captured(st, next)
    case Restore(at) => Restored(st, at)
    case Down => st.(gesture := true)
    case Drag(nodes) => st.(dragging := nodes)
    case Up => Released(st)
    case Done(next) => GestureDone(st, next)
  }

  lemma StepKeeps(st: State, step: Step)
    requires IsValid(st) && IsPossible(st, step)
    ensures IsValid(After(st, step))
  {
    match step
    case Change(to) => EditKeeps(st, to);
    case Push => PushKeeps(st);
    case Draw(next) =>
      DrawIsSound(st, next);
      DrawIsPromised(st, next);
    case Capture(next) => CaptureKeeps(st, next);
    case Restore(at) => RestoreKeeps(st, at);
    case Done(next) => GestureDoneKeeps(st, next);
    case _ =>
  }

  ghost predicate IsRun(st: State, steps: seq<Step>, last: State)
    decreases |steps|
  {
    if steps == [] then last == st
    else IsPossible(st, steps[0]) && IsRun(After(st, steps[0]), steps[1..], last)
  }

  lemma {:induction false} RunKeeps(st: State, steps: seq<Step>, last: State)
    requires IsValid(st) && IsRun(st, steps, last)
    ensures IsValid(last)
    decreases |steps|
  {
    if steps != [] {
      StepKeeps(st, steps[0]);
      RunKeeps(After(st, steps[0]), steps[1..], last);
    }
  }

  /** Every state of every run of a bound view is valid. */
  lemma Reached(shown: Board, past: seq<Board>, at: nat, live: set<string>, steps: seq<Step>, st: State)
    requires at < |past| && IsRun(Attached(shown, past, at, live), steps, st)
    ensures IsValid(st)
  {
    AttachedIsValid(shown, past, at, live);
    RunKeeps(Attached(shown, past, at, live), steps, st);
  }

  // ---- The theorems, of every state reached ----

  lemma DrawShrinks(st: State, next: Board)
    requires st.current < |st.history|
    ensures RemoteApplied(st, next).touched <= st.touched && RemoteApplied(st, next).mine <= st.mine
  {
  }

  /** A capture hands the document only what the user touched since the last capture and no draw has changed
      since: never a peer's change. */
  lemma CaptureIsOwn(st: State, next: Board)
    requires IsValid(st)
    ensures var due := ToCapture(st, next);
      && due.touched <= st.touched && due.mine <= st.mine
      && (EditOf(due).Some? ==> IsOwnEdit(EditOf(due).value, due.touched, due.mine))
  {
    var due := ToCapture(st, next);
    CaptureKeeps(st, next);
    if st.applyPending {
      DrawShrinks(st.(endDue := st.endDue || (st.heldLate && !st.gesture)), next);
    }
    EditIsOwnEdit(due);
  }

  lemma EditIsOwnEdit(st: State)
    requires IsValid(st)
    ensures EditOf(st).Some? ==> IsOwnEdit(EditOf(st).value, st.touched, st.mine)
  {
    CaptureLaws(st.held, st.view, st.history, st.mine, st.touched, st.liveCards);
  }

  /** An undo or redo to any snapshot, captured, hands the document only this user's changes. */
  lemma UndoIsOwn(st: State, to: nat, next: Board)
    requires IsValid(st) && to < |st.history|
    ensures var due := ToCapture(Restored(st, to), next);
      EditOf(due).Some? ==> IsOwn(EditOf(due).value.value, EditOf(due).value.base, st.mine)
  {
    RestoreKeeps(st, to);
    CaptureIsOwn(Restored(st, to), next);
  }

  /** Only an edit makes a change the user's; and a capture, of a record the user made or removed. */
  lemma OnlyEditsAreMine(st: State, step: Step, s: Spot)
    requires IsValid(st) && IsPossible(st, step) && s in After(st, step).mine && s !in st.mine
    ensures (step.Change? && s in EditSpots(st.view, step.to)) || (step.Capture? && Whole(s.key) in st.mine)
  {
    match step
    case Capture(next) => CapturedAreMine(st, next, s);
    case Draw(next) => DrawShrinks(st, next);
    case Done(next) => DrawShrinks(st.(endDue := false, heldLate := false), next);
    case _ =>
  }

  lemma CapturedAreMine(st: State, next: Board, s: Spot)
    requires IsValid(st) && s in Captured(st, next).mine && s !in st.mine
    ensures Whole(s.key) in st.mine
  {
    var due := ToCapture(st, next);
    CaptureIsOwn(st, next);
    assert EditOf(due).Some? ==> IsOwn(EditOf(due).value.value, due.held, due.mine);
    assert DiffersAt(Committed(due.view, due.held, due.liveCards), due.held, Whole(s.key)) ==> Whole(s.key) in due.mine;
  }

  lemma {:induction false} RebasedFrom(history: seq<Board>, plan: Plan, h: Board) returns (snap: Board)
    requires h in RebasedAll(history, plan)
    ensures h == Rebased(snap, plan)
  {
    if h == Rebased(history[|history| - 1], plan) {
      snap := history[|history| - 1];
    } else {
      snap := RebasedFrom(history[..|history| - 1], plan, h);
    }
  }

  lemma RebasedIsNext(held: Board, next: Board, hold: set<string>, snap: Board, mine: iset<Spot>, k: Key, f: string)
    requires !IsMoved(hold, k)
    ensures var h := Rebased(snap, PlanOf(held, next, hold));
      && (k in held && k !in next ==> k !in h)
      && (k !in held && k in next ==> k in h)
      && (k in held && k in next && At(held, k, f) != At(next, k, f) ==>
            (k in h ==> At(h, k, f) == At(next, k, f)) && Field(k, f) !in MineAfter(mine, PlanOf(held, next, hold)))
  {
    if k in held && k in next && At(held, k, f) != At(next, k, f) {
      assert f in ChangesOf(held[k], next[k], false);
    }
  }

  /** A field a draw drew is no longer the user's, and every snapshot with the record has it as the document
      does; a record a peer removed is in no snapshot, and one a peer added is in every one. */
  lemma DrawnIsInHistory(st: State, next: Board, h: Board, k: Key, f: string)
    requires st.current < |st.history| && h in RemoteApplied(st, next).history
    requires !IsMoved(Hold(st.view, st.dragging, st.gesture), k)
    ensures k in st.held && k !in next ==> k !in h
    ensures k !in st.held && k in next ==> k in h
    ensures At(st.held, k, f) != At(next, k, f) && k in st.held && k in next ==>
      (k in h ==> At(h, k, f) == At(next, k, f)) && Field(k, f) !in RemoteApplied(st, next).mine
  {
    var hold := Hold(st.view, st.dragging, st.gesture);
    DrawnInHistory(MarkLate(st), next, hold, Moving(st.view, st.dragging, st.gesture).Some?, h, k, f);
  }

  lemma DrawnInHistory(st: State, next: Board, hold: set<string>, moving: bool, h: Board, k: Key, f: string)
    requires st.current < |st.history| && h in DrawnBut(st, next, hold, moving).history && !IsMoved(hold, k)
    ensures k in st.held && k !in next ==> k !in h
    ensures k !in st.held && k in next ==> k in h
    ensures At(st.held, k, f) != At(next, k, f) && k in st.held && k in next ==>
      (k in h ==> At(h, k, f) == At(next, k, f)) && Field(k, f) !in DrawnBut(st, next, hold, moving).mine
  {
    var plan := PlanOf(st.held, next, hold);
    if plan == NOTHING {
      NothingRebased(st.history);
      RebasedIsNext(st.held, next, hold, h, st.mine, k, f);
      NothingDrawn(st.held, st.view, st.mine, st.touched, next);
      assert Rebased(h, NOTHING) == h;
    } else {
      var snap := RebasedFrom(HistoryPushed(st).history, plan, h);
      RebasedIsNext(st.held, next, hold, snap, st.mine, k, f);
    }
  }
}
