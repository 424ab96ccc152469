# Merging and live binding in the Nectenda plugin

The plugin keeps notes, canvases, drawings and bases in step between vaults through one replicated document per file.
This project models the part of it that decides which of several concurrent edits stands, that nothing written is lost,
and that an open view and its document agree, and proves properties of that model.

- **JSON.** `Json` gives values, their canonical text, and the theorem that the text determines the value; every
  other module compares values directly.
- **Drawings.** `DrawingMerge` orders the versions of an element; `DrawingModel` is the revision map and an edit of it;
  `DrawingSettle`, `DrawingVerdicts`, `DrawingStable` and `DrawingDoc` are settling; `DrawingSync` is the protocol between vaults, over
  all runs. `DrawingLive`, `DrawingSession` (whole runs) and `DrawingView` (in place) bind an open drawing; `DrawingSave`
  is the base a save is read in against.
  `DrawingFormat`, `DrawingSections`, `DrawingRoundTrip` and `DrawingReadBack` print and parse the file.
- **Canvases.** `CanvasModel` reads a document, `CanvasEdit` edits it in place, `CanvasLaws` and `CanvasApart` say what
  edits mean. `CanvasPlan`, `CanvasSession` and `CanvasBinding` bind an open canvas: drawing, capture, gesture, undo.
- **Texts.** `TextMerge` merges a text edit, and `LineMerge` a save line by line; `CardBinding` binds the editor inside a card.
- **The rest.** `FractionalKeys` makes order keys; `Bases`, `BasesEdit` and `BasesLaws` are the views of a base;
  `NoteDisk` writes a note to its file and reads it in; `ListingConnect` and `PathChain` are the asynchronous
  connecting of folder listings and the sequencing of operations on one path.

Where the source changes a document, a binding or a table in place, the model has a class with those fields, and each
method is tied to a function or a relation of the state before; what the source promises is proved of that function.
`CanvasSession` holds the states and steps of an open canvas, and `CanvasBinding` carries the steps out.

## What turned out to hold only in part

- **A card's text and exactness.** Once an edit made from what a canvas shows is in, the canvas reads as the edit says
  if and only if every card takes its text whole (`CanvasLaws.EditIsExact`). A card does not when its text was hidden,
  was typed in since, and the edit is no smaller from what it shows than from what was hidden: emptied then, it is not
  empty (`CanvasLaws.EmptiedButTypedOver`).
- **Canvas edits apart.** Two edits that touch no common field make the same document in either order if and only if
  neither takes the text from a card the other still has, and every card both have takes what they say whole
  (`CanvasApart.EditsCommute`): an edit that names the text it knew shows a hidden text again.
- **Typing in two places.** A merge gives exactly what the editor has if and only if the text is as the editor knew it,
  or the edit from what it now says is smaller (`TextMerge.MergeIsNextExactly`). What was typed elsewhere is in the
  merged text if and only if the edit is replayed, says nothing, or has it itself (`TextMerge.RemoteTypingExactly`,
  `TextMerge.RemoteTypingCanGo`).
- **No writing lost**, but for a version taken for the winner written twice: of two versions that share version and
  nonce, and differ only in fields one of them lacks, the loser goes with what only it says
  (`DrawingSettle.OneSidedGoes`). Among versions that converge and are no deletes, what is lost is exactly the fields
  of such a loser that the winner lacks and its base does not have alike (`DrawingSettle.LostExactly`).
- **What a drawing's view has shown** is known by version and nonce alone. In a run in which those tell the versions of
  an element apart, and nothing the document has for the view counts as being edited where the view does not show it,
  carrying in removes only what the view had shown (`DrawingSession.RemovedWasShown`). Where either fails it can remove
  what was never shown: both happen (`DrawingSession.BoundToTwin`, `DrawingSession.BoundWhileEditing`). The revisions an
  edit can lose unseen are exactly those the document has, with the version and nonce the view last held, that it never
  showed (`DrawingSession.ExposedExactly`); `DrawingSession.DrawingExposes` and `DrawingSession.CarryingExposes` say
  exactly which a draw and a carry-in make so.
- **A save with one id twice.** What no view was seen to show is never superseded by a save, for exactly the saves in
  which the last element of each id is its newest (`DrawingSave.UnseenIsNeverSuperseded`,
  `DrawingSave.OlderLastSupersedes`).
- **Two edits of a view of a base** agree in either order if and only if no entry is set by both, each to something else
  (`BasesLaws.EditsCommute`): a sort entry turned round by one edit and taken out by another goes with the later
  (`BasesLaws.TurnedAndTaken`). Columns and lanes always merge (`BasesLaws.ListsMerge`).
- **The drawing file.** An ordinary file reads back if and only if no link ends in the heading of the files' section (nor
  an embedded value, with no links, in that of the links'), no id starts with a hash, no link starts with a blank, and no
  `%%` line ends the head above data that is not commented out (`DrawingReadBack.RoundTripExactly`).

## Model

| member | source | states |
|---|---|---|
| Json.SameIsEquality | packages/plugin/src/structured-records.ts:24-40 | two normalised values have the same canonical text if and only if they are equal |
| Json.LessTotal | packages/plugin/src/structured-records.ts:31-40 | of two different texts exactly one is the lower |
| Json.LessExactly | packages/plugin/src/structured-records.ts:31-40 | a text is lower where the other goes on from it, or has the higher character where they first differ |
| DrawingMerge.BeatsTotal | packages/plugin/src/excalidraw-merge.ts:110-114 | of two versions of one element exactly one beats the other, so every vault decides alike |
| DrawingMerge.BeatsTransitive | packages/plugin/src/excalidraw-merge.ts:110-114 | beating is transitive |
| DrawingMerge.WinnerOf | packages/plugin/src/excalidraw-merge.ts:117-121 | the version found beats every other of the list |
| DrawingMerge.TopIsLowest | packages/plugin/src/excalidraw-merge.ts:110-114 | the version that stands has the highest version, of those the lowest nonce, and of those the lowest text |
| DrawingMerge.KeptCopyIsCopy | packages/plugin/src/excalidraw-merge.ts:269-367 | a kept copy has every field of what it keeps but its id, place, version data and ties |
| DrawingMerge.CopySaysTheSame | packages/plugin/src/excalidraw-merge.ts:50-100 | a kept copy says what the loser said, as the merge compares content |
| DrawingModel.AppliedEffect | packages/plugin/src/excalidraw-model.ts:281-321 | what an edit adds and removes, revision by revision; it removes only what a version it brings in beats |
| DrawingModel.AppliedExactly | packages/plugin/src/excalidraw-model.ts:281-321 | after an edit the map has just what it had and what the edit wrote, but a version of its base that was seen and that it brought a higher one of |
| DrawingModel.NewSaysWhatOn | packages/plugin/src/excalidraw-model.ts:299-307 | a revision written says what it was made on: the version in the base, if it was seen, and what that said |
| DrawingModel.EditRemovesOnlyBeaten | packages/plugin/src/excalidraw-model.ts:299-315 | an edit removes a revision only where one of its element that beats it is there |
| DrawingSettle.TraceSettles | packages/plugin/src/excalidraw-model.ts:473-540 | settling every losing version by its verdict, in whatever order, is a pass |
| DrawingStable.AnyOrder | packages/plugin/src/excalidraw-model.ts:473-540 | with each written for alike, any two orders leave the same revisions |
| DrawingSettle.SettleRemovesOnlyBeaten | packages/plugin/src/excalidraw-model.ts:479-540 | settling removes a revision only where one that beats it is there |
| DrawingSettle.NothingLost | packages/plugin/src/excalidraw-model.ts:479-540 | what a pass removes was built on by what stands, or is this vault's own or a fill's and is a delete, said by its base or the winner, taken for the winner written twice, said again one version up, or kept as the copy derived from it |
| DrawingStable.CopyIsThere | packages/plugin/src/excalidraw-model.ts:525-539 | with derived ids new to the drawing, the copy kept of a loser is in it after the pass, with every field of the loser's but its id, place, version data and ties |
| DrawingSettle.LostExactly | packages/plugin/src/excalidraw-merge.ts:163-178 | what a converging loser that is no delete says is lost in exactly the fields the winner lacks, and its base does not have alike, where the two are taken for one version written twice |
| DrawingSettle.OneSidedGoes | packages/plugin/src/excalidraw-merge.ts:163-178 | so of two versions of one version and nonce that say one thing each, a pass leaves one, and what the other says is nowhere |
| DrawingSettle.LeftToItsAuthor | packages/plugin/src/excalidraw-model.ts:479-500 | a losing revision of another vault that is no fill and was not built on stays as it is |
| DrawingSettle.AgainIsNew | packages/plugin/src/excalidraw-model.ts:500-520 | a delete said again is a version the document did not have, and beats all of its element |
| DrawingVerdicts.WinnerFallsExactly | packages/plugin/src/excalidraw-model.ts:497-520 | an element's winner falls in a pass if and only if this vault's delete lost to it, it is no delete nor made on that delete, and the two agree, or have nothing, in every field but `isDeleted`, `index`, `updated` and `seed`; and then to a delete one version up |
| DrawingVerdicts.EditedWinnerStands | packages/plugin/src/excalidraw-merge.ts:148-160 | so a winner with another text, colour or place than every delete still stands after the pass |
| DrawingVerdicts.SaidAgainExactly | packages/plugin/src/excalidraw-model.ts:500-520 | just such deletes are said again |
| DrawingVerdicts.KeptExactly | packages/plugin/src/excalidraw-merge.ts:50-178 | a loser that is no delete is kept if and only if it is not the winner written twice, and says something, field by field, that what it was made on does not, and something the winner does not |
| DrawingVerdicts.KeptOrGone | packages/plugin/src/excalidraw-model.ts:522-539 | it goes either way: kept, its copy is in the drawing, and not kept, nothing is written for it |
| DrawingStable.SecondPassWritesNothing | packages/plugin/src/excalidraw-model.ts:479-540 | a second pass writes no revision |
| DrawingStable.ThirdPassChangesNothing | packages/plugin/src/excalidraw-model.ts:479-540 | a third pass changes nothing |
| DrawingStable.WinnersStay | packages/plugin/src/excalidraw-model.ts:479-540 | no element's winner changes but to a delete said again above it, and that in one pass at most |
| DrawingDoc.Drawing.Apply | packages/plugin/src/excalidraw-model.ts:281-321 | the map in place is the map the edit describes |
| DrawingDoc.Drawing.Read | packages/plugin/src/excalidraw-model.ts:211-233 | of each element the version that beats the rest is read |
| DrawingDoc.Drawing.Settle | packages/plugin/src/excalidraw-model.ts:473-540 | the map in place is settled, and the report says of each version what became of it |
| DrawingDoc.Drawing.Live | packages/plugin/src/excalidraw-model.ts:473-478 | the live elements are the standing versions not deleted |
| DrawingDoc.VersionsAndWinner | packages/plugin/src/excalidraw-model.ts:171-186 | every version of an element once, and the one that stands |
| DrawingSync.JoinGood | packages/plugin/src/excalidraw-model.ts:281-321 | merging two vaults' copies keeps every element's best version shown |
| DrawingSync.WroteGood | packages/plugin/src/excalidraw-model.ts:281-321 | so does a write that removes only what is beaten |
| DrawingSync.CanWrite | packages/plugin/src/excalidraw-model.ts:281-321 | whatever an edit or a settling makes of the map, a vault can write |
| DrawingSync.EditGoesOn | packages/plugin/src/excalidraw-model.ts:281-321 | so every run goes on with any edit, against any base, at any vault |
| DrawingSync.SettleGoesOn | packages/plugin/src/excalidraw-model.ts:473-540 | and with any settling of what a vault shows: no run is stuck |
| DrawingSync.EveryVaultReadsTop | packages/plugin/src/excalidraw-model.ts:281-321 | in every run a vault reads of each element the version that beats all it ever received |
| DrawingSync.VaultsConverge | packages/plugin/src/excalidraw-model.ts:473-540 | in every run two vaults that received the same versions read the same drawing |
| DrawingSync.NoWritingLost | packages/plugin/src/excalidraw-model.ts:479-540 | in every run a revision received and no longer shown was removed by an edit made on it, or by a settling that accounts for it as a pass does |
| DrawingSync.OnlyAuthorsSettle | packages/plugin/src/excalidraw-model.ts:479-500 | with each revision one vault's own, a loser that is no fill goes only by its author, or as what the winner or an edit was made on |
| DrawingLive.CarryPrunesOnlySeen | packages/plugin/src/excalidraw-live.ts:533-568 | carrying in removes a revision only where the view last held its version and nonce and now brings in a newer version |
| DrawingLive.CarriedIsIn | packages/plugin/src/excalidraw-live.ts:540-568 | everything the document lacked of the view is in it after |
| DrawingLive.RoundAgrees | packages/plugin/src/excalidraw-live.ts:649-731 | with nothing being edited, carrying in and drawing leaves the view on the document's version of every element, lacking only deleted ones |
| DrawingLive.SecondRoundIsQuiet | packages/plugin/src/excalidraw-live.ts:649-731 | a second round carries nothing in and draws nothing |
| DrawingLive.DrawnOverIsKept | packages/plugin/src/excalidraw-live.ts:676-731 | what is drawn over is in the document, beaten, or is older than what the document reads as |
| DrawingView.View.Attach | packages/plugin/src/excalidraw-live.ts:312-344 | a view bound last held what it shows, where the document has that, or the latest version before it that the document has |
| DrawingView.View.NewerThanDocument | packages/plugin/src/excalidraw-live.ts:540-568 | exactly the versions the document lacks, with a base for each newer one whose last held version the document still has |
| DrawingView.View.CarryIn | packages/plugin/src/excalidraw-live.ts:649-674 | the document is the edit applied; where what the view last held was shown, only versions it has shown, by version and nonce, are gone from it |
| DrawingView.View.Draw | packages/plugin/src/excalidraw-live.ts:677-731 | the view shows what the document has, but what is being edited, and what of that is in the scene is noted as held back |
| DrawingView.View.Capture | packages/plugin/src/excalidraw-live.ts:635-642 | with nothing being edited, a capture that carried anything or had anything held back leaves the view on the document |
| DrawingSession.SeedWasShown | packages/plugin/src/excalidraw-live.ts:325-343 | what a bound view is taken to have held was shown, and the document has it |
| DrawingSession.SeedExactly | packages/plugin/src/excalidraw-live.ts:325-343 | that is its own version, where the document has it, or the latest before it that the document has |
| DrawingSession.HeldFromNowOn | packages/plugin/src/excalidraw-live.ts:649-731 | what is carried in, and what is drawn, the view then holds |
| DrawingSession.NewerTakesItsPlace | packages/plugin/src/excalidraw-live.ts:540-568 | a newer version carried in takes the one the view last held out of the document, and names it as what it was made on |
| DrawingSession.NothingExposed | packages/plugin/src/excalidraw-live.ts:312-731 | in every run in which version and nonce tell versions apart, and nothing to be drawn counts as being edited where the view does not show it, no revision can be lost unseen |
| DrawingSession.RemovedWasShown | packages/plugin/src/excalidraw-live.ts:533-568 | so in such a run what carrying in removes the view had itself shown, and a newer version it shows is in |
| DrawingSession.ExposedExactly | packages/plugin/src/excalidraw-live.ts:533-568 | an edit carried in can remove an unshown revision if and only if the document has it, with the version and nonce the view last held, and the view never showed it |
| DrawingSession.DrawingExposes | packages/plugin/src/excalidraw-live.ts:701-731 | drawing exposes exactly what shares version and nonce with what is drawn, or is drawn while being edited and not in the scene, and was never shown |
| DrawingSession.CarryingExposes | packages/plugin/src/excalidraw-live.ts:649-674 | carrying in exposes exactly what shares version and nonce with what is carried in and was never shown |
| DrawingSession.BoundToTwin | packages/plugin/src/excalidraw-live.ts:325-338 | a view bound to a document whose revision shares version and nonce with what it shows: a run that loses the revision unseen |
| DrawingSession.BoundWhileEditing | packages/plugin/src/excalidraw-live.ts:701-720 | a view that draws an element it does not show while it counts as being edited: a run that loses the element unseen |
| DrawingSession.EditedUnseenGoes | packages/plugin/src/excalidraw-live.ts:701-720 | any run whose last draw counted such an element as drawn can go on to lose it unseen |
| DrawingView.DrawnUnshown | packages/plugin/src/excalidraw-live.ts:714-720 | what counts as drawn and is not shown is exactly what is being edited and is not in the scene |
| DrawingSave.UnseenIsNeverSuperseded | packages/plugin/src/excalidraw-live.ts:1688-1730 | a save read in against its verified base removes only what every open view was seen to show (any view, with none open), what a delete read back names, or anything where no view was seen and the base is the session's own |
| DrawingSave.SeenIsSuperseded | packages/plugin/src/excalidraw-live.ts:1705-1730 | and all that a save may supersede it does: a base version that a newer one is saved of goes, and the newer is in |
| DrawingSave.OlderLastSupersedes | packages/plugin/src/excalidraw-live.ts:1718-1726 | a save whose last element of an id is not its newest supersedes versions no view ever showed |
| DrawingSave.NoIdTwice | packages/plugin/src/excalidraw-live.ts:1718-1718 | a save with no id twice is not such a save |
| DrawingFormat.SerialiseExcalidraw | packages/plugin/src/excalidraw-format.ts:224-247 | the text built up part by part is the file's parts in order, in both layouts |
| DrawingFormat.ReadTexts | packages/plugin/src/excalidraw-format.ts:196-207 | the entries read reference by reference, the dummy apart |
| DrawingFormat.ReadEntries | packages/plugin/src/excalidraw-format.ts:112-121 | a section's entries line by line, or nothing once a line does not fit |
| DrawingSections.EntriesReadBack | packages/plugin/src/excalidraw-format.ts:112-121 | a printed section reads as its entries, less the blanks that lead a link |
| DrawingSections.TextsReadBack | packages/plugin/src/excalidraw-format.ts:196-207 | text elements printed read back, and nothing is left over |
| DrawingSections.TrimmedExactly | packages/plugin/src/excalidraw-format.ts:201-201 | a link reads as it is if and only if no blank leads it |
| DrawingRoundTrip.BodyReadBack | packages/plugin/src/excalidraw-format.ts:177-222 | with every heading in place, the data section is cut where its headings are and reads back, if and only if no id starts with a hash and no link with a blank |
| DrawingRoundTrip.LinkTakenForHeading | packages/plugin/src/excalidraw-format.ts:177-183 | a file with a link that ends in the heading of the files' section does not read back |
| DrawingRoundTrip.FileTakenForHeading | packages/plugin/src/excalidraw-format.ts:177-183 | nor, without links, one with an embedded value that ends in that of the links' |
| DrawingRoundTrip.BodyExactly | packages/plugin/src/excalidraw-format.ts:177-222 | the data section reads back if and only if its headings are in place and its entries read as they are |
| DrawingReadBack.HeadingFound | packages/plugin/src/excalidraw-format.ts:154-172 | the data heading found is the one printed, whatever the head holds |
| DrawingReadBack.MarkedHeadGoes | packages/plugin/src/excalidraw-format.ts:79-79 | a file whose head ends in a mark, above data that is not commented out, does not read back |
| DrawingReadBack.BeforeRead | packages/plugin/src/excalidraw-format.ts:154-182 | before the drawing the head reads back, and what is read as data is what was printed as data |
| DrawingReadBack.PayloadRead | packages/plugin/src/excalidraw-format.ts:78-78 | the payload found is the one printed, whatever is in it |
| DrawingReadBack.RoundTripExactly | packages/plugin/src/excalidraw-format.ts:123-247 | an ordinary printed file parses to itself, in both layouts, with and without the dummy entry, if and only if nothing in it reads as another part |
| CanvasModel.DeadIsGreatest | packages/plugin/src/canvas-model.ts:147-181 | what reads as deleted is the greatest set of snapshot-matching nodes that no live edge touches |
| CanvasModel.LiveEdgesKeepTheirEnds | packages/plugin/src/canvas-model.ts:164-178 | both ends of a live edge, where held as nodes, are live |
| CanvasModel.ReadCanvas | packages/plugin/src/canvas-model.ts:142-186 | the loop ends, and reads just that, in whatever order edges come |
| CanvasModel.Revive | packages/plugin/src/canvas-model.ts:164-178 | a round brings back ends of live edges only, and says whether it did |
| CanvasEdit.CanvasDoc.SetFields | packages/plugin/src/canvas-model.ts:190-222 | a record's fields and text after an edit, and nothing else touched |
| CanvasEdit.CanvasDoc.ApplyText | packages/plugin/src/canvas-model.ts:229-266 | a card's text hidden, shown again, made or merged |
| CanvasEdit.CanvasDoc.ApplyCanvas | packages/plugin/src/canvas-model.ts:289-334 | the document in place is the document the edit describes, entry by entry |
| CanvasLaws.TextExact | packages/plugin/src/canvas-model.ts:229-266 | a card shows the text an edit says if and only if it takes the edit whole |
| CanvasLaws.EmptiedButTypedOver | packages/plugin/src/canvas-model.ts:241-251 | a card hidden, typed over and emptied is not empty |
| CanvasLaws.RawExact | packages/plugin/src/canvas-model.ts:190-266 | a record an edit has reads as the edit says, a card exactly where it takes its text whole |
| CanvasLaws.EditIsExact | packages/plugin/src/canvas-model.ts:105-334 | a document that reads as the base reads after an edit as exactly what it says, if and only if every card takes its text whole |
| CanvasApart.EditBeatsDelete | packages/plugin/src/canvas-model.ts:289-334 | a record one side deletes and the other changes is live with the change in both orders, and an edge brings back both its ends |
| CanvasApart.EdgeGoesWithItsEnd | packages/plugin/src/canvas-model.ts:157-167 | an edge one side deletes and the other leaves as it was is live, in either order, if and only if the end it went along with, the node it comes from before the one it goes to, is |
| CanvasApart.EdgeComesBack | packages/plugin/src/canvas-model.ts:326-331 | so an edge deleted along with a node that the other side changed comes back with it |
| CanvasApart.EdgeAloneStaysGone | packages/plugin/src/canvas-model.ts:326-331 | and one deleted while both its ends were kept stays deleted |
| CanvasApart.EditsCommute | packages/plugin/src/canvas-model.ts:190-334 | edits that touch no common field make the same document in either order, if and only if neither takes the text from a card the other has, and every card both have takes what they say whole |
| CanvasApart.EditsReadTheSame | packages/plugin/src/canvas-model.ts:142-334 | and the canvas reads the same in either order if and only if so, where no old grave is of a card as both edits leave it |
| CanvasPlan.PlanDraw | packages/plugin/src/canvas-live.ts:750-808 | the plan has just what changed and is not held back, or is none |
| CanvasPlan.PatchList | packages/plugin/src/canvas-live.ts:828-855 | a snapshot with a plan written in: removed records gone, fields patched, lacking records added |
| CanvasPlan.DrawnIsHeld | packages/plugin/src/canvas-live.ts:887-954 | every change is drawn into what is held but what is held back, and nothing else is |
| CanvasPlan.AllDrawn | packages/plugin/src/canvas-live.ts:920-954 | with nothing held back, what is held is the document |
| CanvasPlan.DrawnAgrees | packages/plugin/src/canvas-live.ts:621-652 | drawing leaves the view apart from what is held only where it was, and drew nothing |
| CanvasPlan.RecreatedIsHeld | packages/plugin/src/canvas-live.ts:887-896 | a record the user took away and a peer changed meanwhile is back whole |
| CanvasPlan.RebasedIsOwn | packages/plugin/src/canvas-live.ts:857-881 | a rebased snapshot differs from what is held only in this user's changes |
| CanvasSession.StepKeeps | packages/plugin/src/canvas-live.ts:557-687 | every step keeps the view, what is held and the history apart only in the user's changes, and a gesture's end to come while anything is held back |
| CanvasSession.Reached | packages/plugin/src/canvas-live.ts:557-687 | so it is in every state of every run |
| CanvasSession.CaptureIsOwn | packages/plugin/src/canvas-live.ts:557-594 | a capture hands the document only what the user touched since the last one and no draw changed since |
| CanvasSession.EditIsOfView | packages/plugin/src/canvas-live.ts:557-594 | a captured edit is of what the view shows, field by field, but the text of a card bound live, in which it changes nothing |
| CanvasSession.LiveTextShown | packages/plugin/src/canvas-live.ts:565-588 | and once captured such a card shows its text as it is held |
| CanvasSession.UndoIsOwn | packages/plugin/src/canvas-live.ts:857-881 | undo or redo to any snapshot, captured, changes only what this user changed |
| CanvasSession.OnlyEditsAreMine | packages/plugin/src/canvas-live.ts:557-664 | only an edit of the user's makes a change theirs; a record made or removed counts whole |
| CanvasSession.DrawnIsInHistory | packages/plugin/src/canvas-live.ts:837-881 | after a draw every snapshot has a peer's field as the document does, no removed record, and every added one |
| CanvasSession.DrawnAllBut | packages/plugin/src/canvas-live.ts:607-664 | a draw brings what is held to the document but where it is held back |
| CanvasSession.DrawnAtRest | packages/plugin/src/canvas-live.ts:607-664 | with nothing moving a draw leaves nothing out |
| CanvasSession.GestureDoneKeeps | packages/plugin/src/canvas-live.ts:672-687 | at a gesture's end, nothing dragged on, everything is drawn and no save is owed |
| CanvasBinding.Binding.ApplyRemoteNow | packages/plugin/src/canvas-live.ts:607-664 | the binding in place takes the drawing step |
| CanvasBinding.Binding.RebaseHistory | packages/plugin/src/canvas-live.ts:864-881 | every snapshot of the history is rebased |
| CanvasBinding.Binding.Capture | packages/plugin/src/canvas-live.ts:557-594 | the binding in place takes the capturing step, and answers with its edit |
| CanvasBinding.Binding.ApplyHistory | packages/plugin/src/canvas-live.ts:387-396 | an undo in place, captured, answers with an edit of the user's own changes |
| CanvasBinding.Binding.GestureEnded | packages/plugin/src/canvas-live.ts:672-687 | at the end of a gesture with nothing dragged, what is held is the document and nothing is owed |
| CanvasBinding.CapturedReadsBack | packages/plugin/src/canvas-live.ts:589-593 | after a capture the document reads as what is held, if and only if every card takes its text whole |
| TextMerge.FindHunk | packages/plugin/src/text-merge.ts:12-22 | the one changed region, by two scans |
| TextMerge.HunkHolds | packages/plugin/src/text-merge.ts:12-22 | the region takes the one text to the other, and there is none exactly where they are equal |
| TextMerge.HunkIsSmallest | packages/plugin/src/text-merge.ts:12-22 | no other single replacement deletes and inserts less |
| TextMerge.LocalTypingSurvives | packages/plugin/src/text-merge.ts:58-111 | what an edit typed is in the merged text |
| TextMerge.MergeIsBoth | packages/plugin/src/text-merge.ts:75-111 | an edit replayed makes both edits, each where it was made: what either deletes is gone, and of overlapping ones the one that starts first comes first |
| TextMerge.RemoteTypingSurvivesReplay | packages/plugin/src/text-merge.ts:75-111 | so is what was typed elsewhere, wherever the edit is replayed |
| TextMerge.RemoteTypingExactly | packages/plugin/src/text-merge.ts:58-111 | what was typed elsewhere is in the merged text if and only if the edit is replayed, says nothing, or has it itself |
| TextMerge.RemoteTypingCanGo | packages/plugin/src/text-merge.ts:58-74 | so it can go: an input for which it does |
| TextMerge.MergeIsNextExactly | packages/plugin/src/text-merge.ts:58-111 | a merge gives exactly the editor's text if and only if the text is as the editor knew it, or the edit from what it says is smaller |
| LineMerge.MergeEdits | packages/plugin/src/text-merge.ts:222-275 | the merge, gap by gap from the last, is the base woven with both scripts |
| LineMerge.WovenKeeps | packages/plugin/src/text-merge.ts:192-220 | of every line the merged text has at least what each side added, never a copy too few for what both deleted, and exactly the copies of the base, changed by both, where the collaborator deleted none |
| LineMerge.MergedKeeps | packages/plugin/src/text-merge.ts:192-220 | nothing either side wrote is dropped: of every line the merged text has at least the copies of the save, and of the text, that were not in the base |
| LineMerge.SaveInOrder | packages/plugin/src/text-merge.ts:192-220 | the save's lines, but those the collaborator deleted, are in the merged text in order |
| LineMerge.TextInOrder | packages/plugin/src/text-merge.ts:192-220 | and so are the text's, but those the save deleted |
| LineMerge.SaveAfterTheirs | packages/plugin/src/text-merge.ts:192-220 | at one place the save's lines come after the collaborator's |
| CardBinding.ApplyLocal | packages/plugin/src/canvas-card-binding.ts:88-107 | changes made one by one with the running offset make the text of all of them at once |
| CardBinding.ChangesFromDelta | packages/plugin/src/canvas-card-binding.ts:58-72 | a delta's changes, collected in order |
| CardBinding.ChangesDenote | packages/plugin/src/canvas-card-binding.ts:58-72 | they make of the text what the delta says |
| CardBinding.MinimalChange | packages/plugin/src/canvas-card-binding.ts:43-55 | the smallest single replacement that takes one text to the other |
| CardBinding.CardPlugin.Attach | packages/plugin/src/canvas-card-binding.ts:145-176 | only what the editor holds beyond the card's committed text goes into the shared text |
| CardBinding.CardPlugin.Type | packages/plugin/src/canvas-card-binding.ts:205-223 | typing goes into the shared text at its own place, or merged while the editor is behind |
| CardBinding.CardPlugin.OnRemote | packages/plugin/src/canvas-card-binding.ts:279-293 | a remote change is in the editor, or the editor is marked behind |
| CardBinding.CardPlugin.Flush | packages/plugin/src/canvas-card-binding.ts:296-307 | an editor brought up to date holds the shared text, and one that could not be stays marked |
| CardBinding.PendingTypingSurvives | packages/plugin/src/canvas-card-binding.ts:265-277 | what a transaction types while the editor is behind is in the shared text once it is merged |
| FractionalKeys.MidpointHolds | packages/plugin/src/fractional-key.ts:37-48 | the midpoint is a valid key strictly between its bounds, at most a digit longer than the longer |
| FractionalKeys.MakeMidpoint | packages/plugin/src/fractional-key.ts:37-48 | the scan past shared digits makes that midpoint |
| FractionalKeys.SpreadBetween | packages/plugin/src/fractional-key.ts:73-78 | as many keys as asked for, ascending, between the bounds |
| FractionalKeys.SpreadShort | packages/plugin/src/fractional-key.ts:73-78 | each at most a digit longer per halving |
| FractionalKeys.KeysBetween | packages/plugin/src/fractional-key.ts:58-71 | for every random source, exactly `n` valid ascending keys, above `lo` if that is a key, below `hi` if that is a key above it, and each no longer than the longer of those, four digits and the bits of `n` |
| FractionalKeys.DrawsApart | packages/plugin/src/fractional-key.ts:15-27 | two that fill one gap at once, whose draws are not all alike, make no key alike |
| FractionalKeys.BitLengthExactly | packages/plugin/src/fractional-key.ts:73-78 | the bits of `n` are as many as it needs |
| BasesEdit.BasesDoc.ApplyViews | packages/plugin/src/bases-model.ts:281-312 | the views' document in place is the one the edit describes, entry by entry |
| BasesEdit.SetEntries | packages/plugin/src/bases-model.ts:243-268 | a view's entries after an edit: what changed since the base, or exactly what is written |
| BasesLaws.NewViewReadsBack | packages/plugin/src/bases-model.ts:281-355 | a view made under a name not shown reads back exactly as written, with nothing of a buried one |
| BasesLaws.NewViewShows | packages/plugin/src/bases-model.ts:168-177 | and no grave of its name hides it |
| BasesLaws.DeletedViewIsHidden | packages/plugin/src/bases-model.ts:303-310 | a view gone from an edit, and read as its base had it, shows no longer |
| BasesLaws.ChangedViewShows | packages/plugin/src/bases-model.ts:303-310 | a view one edit deletes and another changes, so that no grave of it is of what it reads as, shows in either order |
| BasesLaws.EditsCommute | packages/plugin/src/bases-model.ts:243-355 | two edits of a view from one base make the same of its fields, and of each list, in either order if and only if of each entry one leaves it be or both leave it the same |
| BasesLaws.ListsMerge | packages/plugin/src/bases-model.ts:330-355 | edits of columns and of lanes commute, to what the view had but what either takes, and what either adds |
| BasesLaws.ListShows | packages/plugin/src/bases-model.ts:150-166 | after both edits, in either order, the list reads alike, and shows if and only if its flag stays or an item does |
| BasesLaws.TurnedAndTaken | packages/plugin/src/bases-model.ts:330-341 | a sort entry of a view turned by one edit and taken by another goes with the later |
| BasesLaws.AddedToTakenList | packages/plugin/src/bases-model.ts:150-166 | columns or lanes taken away and added to apart show, with exactly what was added, in either order |
| NoteDisk.Note.ReadIn | packages/plugin/src/content-sync.ts:1248-1335 | a save is taken as it is, or merged so that no line either side wrote is dropped, or kept and merged as one change with its own text in; or kept aside; or, of an empty file, ignored |
| NoteDisk.Note.CheckFirst | packages/plugin/src/content-sync.ts:1444-1491 | the first write of a connect reads an unseen edit in, or backs up a file that may be one |
| NoteDisk.Note.WriteToDisk | packages/plugin/src/content-sync.ts:1357-1579 | a file's text written over was backed up, or merged in that call with every line it added to its base in what is written, or last agreed on, or last confirmed, but with no known base and no view open; and an empty document is written only once confirmed, over a backup; with no view editing or failing to save and no editor that has it, the file ends on the document's text but for that, and the document changes only by what the file held |
| NoteDisk.Note.SetEditorBound | packages/plugin/src/content-sync.ts:1042-1081 | the note is the editors' while any of them holds it, and its base is the document's text once the last lets go |
| ListingConnect.FileSync.OneListing | packages/plugin/src/file-sync.ts:168-251 | a folder has at most one subscribed listing |
| ListingConnect.FileSync.ConnectFolder | packages/plugin/src/file-sync.ts:171-199 | a folder connected or connecting begins no second connect |
| ListingConnect.FileSync.StartProvider | packages/plugin/src/file-sync.ts:212-253 | a connect subscribes only if still wanted: never one begun before its folder was last disconnected |
| ListingConnect.FileSync.RetryUnplaced | packages/plugin/src/file-sync.ts:326-332 | every folder waiting for a route, whose keys are held, is connected or connecting again, and a connect under way is left be |
| ListingConnect.FileSync.DisconnectFolder | packages/plugin/src/file-sync.ts:334-353 | nothing of the folder is subscribed, connecting or to be retried |
| PathChain.Sequencer.OneAtATime | packages/plugin/src/file-sync.ts:913-925 | of one path at most one task runs at a time |
| PathChain.Sequencer.InOrder | packages/plugin/src/file-sync.ts:913-925 | a path's tasks run in the order they were handed in |
| PathChain.Sequencer.Sequence | packages/plugin/src/file-sync.ts:913-925 | a task handed in waits for the one handed in last before it on its path |

## Left out

- Strings are sequences of Unicode characters, not UTF-16 units, and numbers are kept as the text JSON writes for them.
- The hash in a drawing revision's key is taken to be injective, and derived ids and nonces are given by the settling vault; a copy's derived id is taken to differ from its element's.
- A drawing's head, files, embedded names, settings and stacking order, and where a kept copy is placed.
- ReadCanvas, ApplyCanvas, PlanDraw, RebaseHistory: a canvas's records without their order, and none of its other top-level keys.
- ApplyViews: no orders, no column widths, and the views alone of a base's records.
- PendingTypingSurvives: of one transaction, as a later one of the same update may delete what it typed.
- An update reaches a vault after everything its sender had, as the server's log delivers them; a message is a sender's whole copy.
- `reconcileElements`, which Excalidraw may provide for drawing, recorded deletes, images and saves in the live drawing.
- The order of a canvas's records, its other top-level keys, and where Obsidian rounds a drawn value; a node drawn away takes no edge with it but those drawn away too.
- The order of views and of list items in a base, column widths, and the records that are not views; what makes a view's grave match it is a parameter.
- A field of the model's own (`\u0001textGone`) among a canvas file's fields.
- Line breaks of a card's editor are `\n`, and an error while typing is carried into the shared text is not modelled.
- The line diff is given as a function that may fail, and whose script takes the one text to the other; retries, timers and failed backups of a note are not modelled, nor is a write while the file changes under it.
- Without a surface for other plugins' views, a note's file may be written over unread, so the disk property is stated with one.
- How a scene is written and compressed, and the checks on its elements, are given as a pair of functions that undo each other.
- Unsubscribing names the document that was subscribed, and a listener called while a listing connects does not connect or disconnect folders itself.
- Encryption, sign-in, presence, attachments, the codecs of canvas and base files, and everything drawn on the screen.
