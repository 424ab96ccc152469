/** Writing a note's document to its file, and reading the file in (`writeToDisk` and `readIn`,
    `packages/plugin/src/content-sync.ts`), one call after another.

    What an open view that is not the editor does is given as a `Surface`, and the line diff as `LineMerge` takes it. */
module NoteDisk {
  import opened Json
  import opened LineMerge
  import opened TextMerge

  /** Asked to save before a write, a view fails, has nothing to save, or saves a text. */
  datatype Save = Failed | Nothing | Saved(text: string)

  /** The note's open views: whether there are any, what one that missed the last write holds, whether an edit is in
      progress in one, and what they save. */
  datatype Surface = Surface(hasViews: bool, baseFor: Option<string>, editing: bool, save: Save)

  datatype Reading = Same | Ignored | KeptAside | MergedFrom(base: Option<string>)

  datatype Writing = Held | CannotSave | EditorHasIt | Unconfirmed | Agreed | Wrote(over: string, read: Option<Reading>)

  function BaseFor(viewBase: Option<string>, diskBase: Option<string>): Option<string> {
    if viewBase.Some? then viewBase else diskBase
  }

  /** The note's own pane; cards that show the note are other owners. */
  const PANE_OWNER: nat := 0

  class Note {
    /** The file's text, and the document's. */
    var disk: string
    var text: string
    /** What disk and document last agreed on, known since the note was connected, and when it was. */
    var diskBase: Option<string>
    var agreedAtConnect: Option<string>
    /** The text last confirmed synced. */
    var lastSynced: Option<string>
    var keptAside: Option<string>
    var firstSyncChecked: bool
    var idbHadData: bool
    var hasSyncedOnce: bool
    var editorActive: bool
    var editorOwners: set<nat>
    var backups: set<string>
    const diff: Diff

    ghost predicate Valid()
      reads this
    {
      && (keptAside.Some? ==> keptAside.value in backups) && (editorActive <==> editorOwners != {})
      && IsDiff(diff)
    }

    constructor (diff: Diff, disk: string, text: string, agreed: Option<string>, idbHadData: bool)
      requires IsDiff(diff)
      ensures Valid() && this.disk == disk && this.text == text && diskBase.None? && !firstSyncChecked && !hasSyncedOnce
    {
      this.diff, this.disk, this.text, agreedAtConnect, this.idbHadData := diff, disk, text, agreed, idbHadData;
      diskBase, lastSynced, keptAside, firstSyncChecked, hasSyncedOnce, editorActive :=
        None, None, None, false, false, false;
      editorOwners, backups := {}, {};
    }

    /** An editor takes the note or lets it go. It is theirs until none has it; when the last
        lets go, the file is taken to be its save of the document. */
    method SetEditorBound(bound: bool, owner: nat)
      requires Valid()
      modifies this`editorActive, this`editorOwners, this`diskBase
      ensures Valid()
      ensures editorOwners == if bound then old(editorOwners) + {owner} else old(editorOwners) - {owner}
      ensures diskBase == if editorActive != old(editorActive)
          || (!bound && owner == PANE_OWNER && old(editorOwners) == {})
        then (if editorActive then None else Some(text)) else old(diskBase)
    {
      if bound {
        editorOwners := editorOwners + {owner};
        if editorActive {
          return;
        }
        editorActive, diskBase := true, None;
      } else {
        if owner in editorOwners {
          editorOwners := editorOwners - {owner};
        } else if owner != PANE_OWNER || editorOwners != {} {
          return;
        }
        if editorOwners != {} {
          return;
        }
        editorActive, diskBase := false, Some(text);
      }
    }

    /** A save merged into the document's text from what it was built on. */
    function ReadText(current: string, base: Option<string>, content: string): string {
      if base.None? || base.value == current then content
      else
        var merged := MergedText(diff, current, base.value, content);
        if merged.Some? then merged.value else Merge(current, base.value, content)
    }

    /** The file's text is taken in: merged, kept aside, or passed over. */
    method ReadIn(content: string, hasViews: bool, viewBase: Option<string>) returns (r: Reading)
      requires Valid()
      modifies this`text, this`diskBase, this`keptAside, this`backups
      ensures Valid() && old(backups) <= backups
      ensures r == if content == old(text) then Same
        else if content == "" && lastSynced.None? then Ignored
        else if BaseFor(viewBase, old(diskBase)).None? && hasViews then KeptAside
        else MergedFrom(BaseFor(viewBase, old(diskBase)))
      ensures text == if r.MergedFrom? then ReadText(old(text), r.base, content) else old(text)
      ensures r.MergedFrom? ==> IsTakenIn(old(text), r.base, content, text, backups)
      ensures diskBase == if r.MergedFrom? || r.Same? then Some(content) else old(diskBase)
      ensures r.KeptAside? ==> content in backups
      ensures (r.MergedFrom? && r.base.Some? && r.base.value != old(text)
               && MergedText(diff, old(text), r.base.value, content).None?) ==>
        content in backups
    {
      if content == text {
        diskBase := Some(content);
        return Same;
      }
      if content == "" && lastSynced.None? {
        return Ignored;
      }
      var base := BaseFor(viewBase, diskBase);
      if base.None? && hasViews {
        if keptAside != Some(content) {
          keptAside := Some(content);
          backups := backups + {content};
        }
        return KeptAside;
      }
      keptAside := None;
      if base.Some? && base.value != text {
        SaveIsKept(diff, text, base.value, content);
        var merged := MergeEdits(diff, text, base.value, content);
        if merged.Some? {
          text := merged.value;
        } else {
          backups := backups + {content};
          text := Merge(text, base.value, content);
        }
      } else {
        text := content;
      }
      diskBase := Some(content);
      return MergedFrom(base);
    }

    /** Before the first write since connecting, where file and document differ: what was edited unseen is read in,
        and what may have been is backed up. */
    method CheckFirst(surface: Option<Surface>) returns (read: Option<Reading>)
      requires Valid()
      modifies this`text, this`diskBase, this`keptAside, this`backups, this`firstSyncChecked
      ensures Valid() && old(backups) <= backups
      ensures IsUnsure(old(firstSyncChecked), disk, old(text)) ==>
        && (agreedAtConnect.Some? && disk != agreedAtConnect.value ==>
              firstSyncChecked && read == Some(MergedFrom(BaseFor(ViewBase(surface), agreedAtConnect))))
        && (agreedAtConnect.None? && idbHadData ==> firstSyncChecked && disk in backups)
      ensures (!IsUnsure(old(firstSyncChecked), disk, old(text)) || agreedAtConnect == Some(disk)
               || (agreedAtConnect.None? && !idbHadData)) ==>
        firstSyncChecked == old(firstSyncChecked)
      ensures read.Some? ==>
          read.value.MergedFrom? && IsTakenIn(old(text), read.value.base, disk, text, backups) && diskBase == Some(disk)
      ensures read.None? ==> text == old(text) && diskBase == old(diskBase)
    {
      read := None;
      if IsUnsure(firstSyncChecked, disk, text) {
        if agreedAtConnect.Some? && disk != agreedAtConnect.value {
          firstSyncChecked := true;
          if text != agreedAtConnect.value {
            backups := backups + {disk};
          }
          diskBase := agreedAtConnect;
          var r := ReadIn(disk, HasViews(surface), ViewBase(surface));
          read := Some(r);
        } else if agreedAtConnect.None? && idbHadData {
          firstSyncChecked := true;
          backups := backups + {disk};
        }
      }
    }

    /** The file may hold what was not read in: it differs from what disk and document agreed on, or with nothing
        known of that, a view is open that may have saved it. */
    predicate IsUnread(surface: Option<Surface>, base: Option<string>)
      reads this
    {
      if base.Some? then disk != base.value else HasViews(surface) && Some(disk) != lastSynced
    }

    /** What the file may have been saved with since disk and document last agreed, read in now. */
    method ReadUnread(surface: Option<Surface>) returns (read: Option<Reading>)
      requires Valid()
      modifies this`text, this`diskBase, this`keptAside, this`backups
      ensures Valid() && old(backups) <= backups
      ensures read.Some? <==> surface.Some? && firstSyncChecked && disk != old(text) && IsUnread(surface, old(diskBase))
      ensures read.None? ==> text == old(text) && diskBase == old(diskBase)
      ensures read.Some? ==> IsRead(old(text), disk, read.value, lastSynced)
    {
      read := None;
      if surface.Some? && firstSyncChecked && IsUnread(surface, diskBase) && disk != text {
        var r := ReadIn(disk, HasViews(surface), ViewBase(surface));
        read := Some(r);
      }
    }

    /** What became of a file's text read in: merged into the document, kept aside, or of an empty file, ignored. */
    ghost predicate IsRead(before: string, content: string, r: Reading, synced: Option<string>)
      reads this
    {
      match r
      case Same => false
      case Ignored => content == "" && synced.None? && text == before
      case KeptAside => content in backups && text == before
      case MergedFrom(base) => IsTakenIn(before, base, content, text, backups)
    }

    /** Write the document to its file. */
    method WriteToDisk(surface: Option<Surface>) returns (w: Writing)
      requires Valid()
      modifies this`disk, this`text, this`diskBase, this`lastSynced, this`keptAside, this`firstSyncChecked, this`backups
      ensures Valid() && old(backups) <= backups
      ensures (surface.Some? && (surface.value.editing || surface.value.save.Failed? || editorActive)) ==>
        !w.Wrote? && text == old(text)
      ensures (surface.None? || (!surface.value.editing && !surface.value.save.Failed? && !editorActive)) ==>
        (disk == text && diskBase == Some(text)) || (text == "" && disk != "" && !hasSyncedOnce)
      ensures text == old(text) || IsSomehowIn(old(text),
          if surface.Some? && surface.value.save.Saved? then surface.value.save.text else old(disk), text, backups)
      ensures w.Wrote? ==> disk == text && diskBase == Some(text) && lastSynced == Some(text) && w.over != text
      ensures w.Wrote? ==>
          w.over == if surface.Some? && surface.value.save.Saved? then surface.value.save.text else old(disk)
      ensures w.Wrote? && text == "" ==> hasSyncedOnce && w.over in backups
      ensures !w.Wrote? ==>
          disk == (if surface.Some? && !surface.value.editing && surface.value.save.Saved?
                   then surface.value.save.text else old(disk))
      ensures w.Wrote? && surface.Some? && w.over != "" ==>
        || w.over in backups
        || (w.read.Some? && w.read.value.MergedFrom? && w.read.value.base.Some?
            && KeepsLines(old(text), w.read.value.base.value, w.over, text))
        || old(diskBase) == Some(w.over)
        || (!old(firstSyncChecked) && agreedAtConnect == Some(w.over))
        || (surface.value.hasViews && old(lastSynced) == Some(w.over))
        || (old(diskBase).None? && !surface.value.hasViews)
    {
      if surface.Some? {
        if surface.value.editing {
          if diskBase.None? && disk == text {
            diskBase := Some(disk);
          }
          return Held;
        }
        match surface.value.save {
          case Failed => return CannotSave;
          case Nothing =>
          case Saved(saved) => disk := saved;
        }
        if editorActive {
          return EditorHasIt;
        }
      }
      var first := CheckFirst(surface);
      var later := ReadUnread(surface);
      var read := if first.Some? then first else later;
      ghost var content := disk;
      w := WriteOver(read);
      assert read.Some? && read.value.MergedFrom? ==>
          IsTakenIn(old(text), read.value.base, content, text, backups);
    }

    /** The document's text over the file's, unless it may not be or need not be written. */
    method WriteOver(read: Option<Reading>) returns (w: Writing)
      requires Valid()
      modifies this`disk, this`diskBase, this`lastSynced, this`firstSyncChecked, this`backups
      ensures Valid() && old(backups) <= backups
      ensures w == if text == "" && old(disk) != "" && !hasSyncedOnce then Unconfirmed
        else if text == old(disk) then Agreed else Wrote(old(disk), read)
      ensures !w.Unconfirmed? ==> disk == text && diskBase == Some(text) && lastSynced == Some(text)
      ensures w.Wrote? && (text == "" || (!old(firstSyncChecked) && !idbHadData && w.over != "")) ==> w.over in backups
      ensures !w.Wrote? ==> disk == old(disk)
    {
      if text == "" && disk != "" && !hasSyncedOnce {
        return Unconfirmed;
      }
      if text == disk {
        lastSynced, diskBase := Some(text), Some(text);
        return Agreed;
      }
      if !firstSyncChecked {
        firstSyncChecked := true;
        if !idbHadData && |disk| > 0 && |text| > 0 {
          backups := backups + {disk};
        }
      }
      if text == "" {
        backups := backups + {disk};
      }
      w := Wrote(disk, read);
      disk := text;
      lastSynced, diskBase := Some(text), Some(text);
    }
  }

  /** A text taken in: as it is, if the document was as it was built on; or else merged, with every line that either
      added kept; or as one change, kept first, whose own text is in the document. */
  ghost predicate IsTakenIn(before: string, base: Option<string>, content: string, after: string,
                            backups: set<string>)
  {
    if base.None? || base.value == before then after == content
    else
      || KeepsLines(before, base.value, content, after)
      || (content in backups &&
          var typed := HunkBetween(base.value, content); typed.Some? ==> Contains(after, typed.value.inserted))
  }

  /** Taken in, as built on some text or on none. */
  ghost predicate IsSomehowIn(before: string, content: string, after: string, backups: set<string>) {
    exists base :: IsTakenIn(before, base, content, after, backups)
  }

  /** Merged by lines or as one change, a save keeps what it says. */
  lemma SaveIsKept(diff: Diff, before: string, base: string, content: string)
    requires IsDiff(diff)
    ensures var merged := MergedText(diff, before, base, content);
      merged.Some? ==> KeepsLines(before, base, content, merged.value)
    ensures var typed := HunkBetween(base, content);
      typed.Some? ==> Contains(Merge(before, base, content), typed.value.inserted)
  {
    if MergedText(diff, before, base, content).Some? { MergedKeeps(diff, before, base, content); }
    HunkHolds(base, content);
    if base != content { LocalTypingSurvives(before, base, content); }
  }

  /** The file differs from the document at the first write of a connect. */
  predicate IsUnsure(checked: bool, disk: string, text: string) {
    !checked && disk != "" && disk != text
  }

  function HasViews(surface: Option<Surface>): bool {
    surface.Some? && surface.value.hasViews
  }

  function ViewBase(surface: Option<Surface>): Option<string> {
    if surface.Some? then surface.value.baseFor else None
  }
}
