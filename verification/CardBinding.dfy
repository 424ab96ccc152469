/** The editor of a canvas card bound live to the card's shared text
    (`packages/plugin/src/canvas-card-binding.ts`). Texts are sequences of characters, line breaks as `\n`. */
module CardBinding {
  import opened Json
  import opened TextMerge

  // ---- Change sets ----

  /** `text[from..to]` becomes `insert`. */
  datatype Change = Change(from: nat, to: nat, insert: string)

  /** Changes of one text of length `n`, in order and apart, none before `pos`. */
  predicate IsChangeSet(changes: seq<Change>, pos: nat, n: nat) {
    if changes == [] then pos <= n
    else pos <= changes[0].from <= changes[0].to && IsChangeSet(changes[1..], changes[0].to, n)
  }

  lemma {:induction false} EndsWithin(changes: seq<Change>, pos: nat, n: nat)
    requires IsChangeSet(changes, pos, n)
    ensures pos <= n && (changes != [] ==> changes[0].to <= n)
  {
    if changes != [] { EndsWithin(changes[1..], changes[0].to, n); }
  }

  /** What the text from `pos` on becomes with every change made at once, positions read against the text before. */
  function AtOnce(text: string, changes: seq<Change>, pos: nat): string
    requires IsChangeSet(changes, pos, |text|)
  {
    EndsWithin(changes, pos, |text|);
    if changes == [] then text[pos..]
    else text[pos..changes[0].from] + changes[0].insert + AtOnce(text, changes[1..], changes[0].to)
  }

  function Changed(text: string, changes: seq<Change>): string
    requires IsChangeSet(changes, 0, |text|)
  {
    AtOnce(text, changes, 0)
  }

  /** One change of a text, its positions moved by `adj`. */
  method ApplyOne(text: string, c: Change, adj: int) returns (out: string)
    requires 0 <= c.from + adj && c.from <= c.to && c.to + adj <= |text|
    ensures out == Splice(text, c.from + adj, c.to - c.from, c.insert)
  {
    out := text;
    if c.to > c.from {
      out := out[..c.from + adj] + out[c.to + adj..];
    }
    if |c.insert| > 0 {
      out := out[..c.from + adj] + c.insert + out[c.from + adj..];
    }
  }

  /** Carry a transaction's changes into a shared text that holds what the editor held, one by one, each position
      moved by what the changes before it added or took. The text is then as if all were made at once. */
  method ApplyLocal(ytext: string, changes: seq<Change>) returns (out: string)
    requires IsChangeSet(changes, 0, |ytext|)
    ensures out == Changed(ytext, changes)
  {
    out := ytext;
    var adj, i := 0, 0;
    ghost var pos: nat, done := 0, "";
    while i < |changes|
      invariant i <= |changes| && IsChangeSet(changes[i..], pos, |ytext|) && pos <= |ytext|
      invariant |done| == pos + adj && out == done + ytext[pos..]
      invariant Changed(ytext, changes) == done + AtOnce(ytext, changes[i..], pos)
    {
      var c := changes[i];
      RestOf(changes, i);
      EndsWithin(changes[i..], pos, |ytext|);
      OneMoreDone(ytext, done, changes[i..], pos, adj);
      out := ApplyOne(out, c, adj);
      adj := adj + |c.insert| - (c.to - c.from);
      done, pos := done + ytext[pos..c.from] + c.insert, c.to;
      i := i + 1;
    }
  }

  lemma RestOf<T>(s: seq<T>, i: nat)
    requires i < |s|
    ensures s[i..][0] == s[i] && s[i..][1..] == s[i + 1..]
  {
  }

  lemma OneMoreDone(ytext: string, done: string, changes: seq<Change>, pos: nat, adj: int)
    requires changes != [] && IsChangeSet(changes, pos, |ytext|) && pos <= |ytext| && changes[0].to <= |ytext|
    requires |done| == pos + adj
    ensures var c := changes[0]; var more := done + ytext[pos..c.from] + c.insert;
      && Splice(done + ytext[pos..], c.from + adj, c.to - c.from, c.insert) == more + ytext[c.to..]
      && done + AtOnce(ytext, changes, pos) == more + AtOnce(ytext, changes[1..], c.to)
  {
    var c := changes[0];
    SpliceLater(ytext, done, c, pos, adj);
    var rest := AtOnce(ytext, changes[1..], c.to);
    assert AtOnce(ytext, changes, pos) == ytext[pos..c.from] + c.insert + rest;
    assert done + (ytext[pos..c.from] + c.insert + rest) == done + ytext[pos..c.from] + c.insert + rest;
  }

  lemma SpliceLater(ytext: string, done: string, c: Change, pos: nat, adj: int)
    requires pos <= c.from <= c.to <= |ytext| && |done| == pos + adj
    ensures Splice(done + ytext[pos..], c.from + adj, c.to - c.from, c.insert) ==
      done + ytext[pos..c.from] + c.insert + ytext[c.to..]
  {
    assert (done + ytext[pos..])[..c.from + adj] == done + ytext[pos..c.from];
    assert (done + ytext[pos..])[c.to + adj..] == ytext[c.to..];
  }

  // ---- A shared text's own changes ----

  datatype Delta = Insert(text: string) | Delete(n: nat) | Retain(n: nat)

  /** How much of the text a delta goes over. */
  function Span(delta: seq<Delta>): nat {
    if delta == [] then 0
    else (match delta[0] case Insert(_) => 0 case Delete(n) => n case Retain(n) => n) + Span(delta[1..])
  }

  /** What a delta makes of a text. */
  function Denotes(text: string, delta: seq<Delta>): string
    requires Span(delta) <= |text|
  {
    if delta == [] then text
    else match delta[0]
      case Insert(s) => s + Denotes(text, delta[1..])
      case Delete(n) => Denotes(text[n..], delta[1..])
      case Retain(n) => text[..n] + Denotes(text[n..], delta[1..])
  }

  /** The changes of a delta, from a position on. */
  function ChangesFrom(delta: seq<Delta>, pos: nat): seq<Change> {
    if delta == [] then []
    else match delta[0]
      case Insert(s) => [Change(pos, pos, s)] + ChangesFrom(delta[1..], pos)
      case Delete(n) => [Change(pos, pos + n, "")] + ChangesFrom(delta[1..], pos + n)
      case Retain(n) => ChangesFrom(delta[1..], pos + n)
  }

  /** The changes of a delta, collected from its start. */
  method ChangesFromDelta(delta: seq<Delta>) returns (changes: seq<Change>)
    ensures changes == ChangesFrom(delta, 0)
  {
    changes := [];
    var pos := 0;
    for i := 0 to |delta|
      invariant ChangesFrom(delta, 0) == changes + ChangesFrom(delta[i..], pos)
    {
      assert delta[i..][0] == delta[i] && delta[i..][1..] == delta[i + 1..];
      match delta[i]
      case Insert(s) => changes := changes + [Change(pos, pos, s)];
      case Delete(n) =>
        changes := changes + [Change(pos, pos + n, "")];
        pos := pos + n;
      case Retain(n) => pos := pos + n;
    }
  }

  /** The changes of this much of a delta, made at once from `pos` on, make of the text what it says. */
  ghost predicate AreDenoted(text: string, delta: seq<Delta>, pos: nat) {
    && pos + Span(delta) <= |text|
    && IsChangeSet(ChangesFrom(delta, pos), pos, |text|)
    && AtOnce(text, ChangesFrom(delta, pos), pos) == Denotes(text[pos..], delta)
  }

  /** Made at once in the editor, a delta's changes make of a text what the delta says. */
  lemma {:induction false} ChangesDenote(text: string, delta: seq<Delta>, pos: nat)
    requires pos + Span(delta) <= |text|
    ensures AreDenoted(text, delta, pos)
    decreases |delta|
  {
    if delta != [] {
      match delta[0]
      case Insert(s) =>
        ChangesDenote(text, delta[1..], pos);
        InsertDenotes(text, delta, pos, s);
      case Delete(n) =>
        ChangesDenote(text, delta[1..], pos + n);
        DeleteDenotes(text, delta, pos, n);
      case Retain(n) =>
        ChangesDenote(text, delta[1..], pos + n);
        RetainDenotes(text, delta, pos, n);
    }
  }

  lemma InsertDenotes(text: string, delta: seq<Delta>, pos: nat, s: string)
    requires delta != [] && delta[0] == Insert(s) && AreDenoted(text, delta[1..], pos)
    ensures AreDenoted(text, delta, pos)
  {
    assert ChangesFrom(delta, pos)[1..] == ChangesFrom(delta[1..], pos);
    assert text[pos..pos] == "";
  }

  lemma DeleteDenotes(text: string, delta: seq<Delta>, pos: nat, n: nat)
    requires delta != [] && delta[0] == Delete(n) && AreDenoted(text, delta[1..], pos + n)
    ensures AreDenoted(text, delta, pos)
  {
    assert ChangesFrom(delta, pos)[1..] == ChangesFrom(delta[1..], pos + n);
    assert text[pos..][n..] == text[pos + n..] && text[pos..pos] == "";
  }

  lemma RetainDenotes(text: string, delta: seq<Delta>, pos: nat, n: nat)
    requires delta != [] && delta[0] == Retain(n) && AreDenoted(text, delta[1..], pos + n)
    ensures AreDenoted(text, delta, pos)
  {
    StartsLater(text, ChangesFrom(delta[1..], pos + n), pos, pos + n);
    assert text[pos..][n..] == text[pos + n..] && text[pos..][..n] == text[pos..pos + n];
  }

  lemma {:induction false} StartsLater(text: string, changes: seq<Change>, pos: nat, later: nat)
    requires pos <= later && IsChangeSet(changes, later, |text|)
    ensures IsChangeSet(changes, pos, |text|) && later <= |text|
    ensures AtOnce(text, changes, pos) == text[pos..later] + AtOnce(text, changes, later)
  {
    EndsWithin(changes, later, |text|);
    if changes == [] {
      assert text[pos..] == text[pos..later] + text[later..];
    } else {
      var c, rest := changes[0], AtOnce(text, changes[1..], changes[0].to);
      assert text[pos..c.from] == text[pos..later] + text[later..c.from];
      assert AtOnce(text, changes, pos) == text[pos..c.from] + c.insert + rest;
    }
  }

  // ---- The smallest replacement ----

  /** The smallest single replacement that takes `from` to `to`; none where they are equal. */
  method MinimalChange(from: string, to: string) returns (change: Option<Change>)
    ensures change.None? <==> from == to
    ensures change.Some? ==> IsChangeSet([change.value], 0, |from|) && Changed(from, [change.value]) == to
    ensures change.Some? ==> forall c: Change | IsChangeSet([c], 0, |from|) && Changed(from, [c]) == to ::
      change.value.to - change.value.from + |change.value.insert| <= c.to - c.from + |c.insert|
  {
    HunkHolds(from, to);
    var h := FindHunk(from, to);
    if h.None? {
      return None;
    }
    change := Some(Change(h.value.start, h.value.start + h.value.deleted, h.value.inserted));
    OneChangeSplices(from, change.value);
    forall c: Change | IsChangeSet([c], 0, |from|) && Changed(from, [c]) == to
      ensures Size(h) <= c.to - c.from + |c.insert|
    {
      OneChangeSplices(from, c);
      HunkIsSmallest(from, to, Hunk(c.from, c.to - c.from, c.insert));
    }
  }

  lemma OneChangeSplices(text: string, c: Change)
    requires c.from <= c.to
    ensures IsChangeSet([c], 0, |text|) <==> c.to <= |text|
    ensures c.to <= |text| ==> Changed(text, [c]) == Splice(text, c.from, c.to - c.from, c.insert)
  {
    assert [c][1..] == [];
    assert IsChangeSet([c], 0, |text|) <==> IsChangeSet([], c.to, |text|);
    if c.to <= |text| {
      assert Changed(text, [c]) == text[0..c.from] + c.insert + AtOnce(text, [], c.to);
    }
  }

  // ---- The plugin ----

  /** Transactions of an editor, each a change set of the text the ones before it left. */
  predicate IsTyping(text: string, transactions: seq<seq<Change>>)
    decreases |transactions|
  {
    transactions != [] ==>
      IsChangeSet(transactions[0], 0, |text|) && IsTyping(Changed(text, transactions[0]), transactions[1..])
  }

  function Typed(text: string, transactions: seq<seq<Change>>): string
    requires IsTyping(text, transactions)
    decreases |transactions|
  {
    if transactions == [] then text else Typed(Changed(text, transactions[0]), transactions[1..])
  }

  /** Each transaction's before and after, merged into a shared text the editor is behind. */
  function Merged(shared: string, editor: string, transactions: seq<seq<Change>>): string
    requires IsTyping(editor, transactions)
    decreases |transactions|
  {
    if transactions == [] then shared
    else
      var next := Changed(editor, transactions[0]);
      Merged(Merge(shared, editor, next), next, transactions[1..])
  }

  /** What typing makes of the shared text: in step with the editor, the same edit; behind it, a merge. */
  function Carried(shared: string, editor: string, pending: bool, transactions: seq<seq<Change>>): string
    requires IsTyping(editor, transactions)
  {
    if pending then Merged(shared, editor, transactions)
    else if shared == editor then Typed(editor, transactions)
    else shared
  }

  /** The editor's plugin. Dispatching a shared change into the editor does not come back as typing: it is marked. */
  class CardPlugin {
    var editor: string
    var shared: string
    var attached: bool
    var pending: bool
    var composing: bool
    var destroyed: bool
    var flushDue: bool

    /** An attached editor that is not waiting holds exactly the shared text, so positions in it mean the same. */
    ghost predicate Valid()
      reads this
    {
      && (attached && !pending ==> editor == shared)
      && (pending ==> attached)
      && (destroyed ==> !attached)
    }

    constructor (editor: string, shared: string)
      ensures Valid() && !attached && this.editor == editor && this.shared == shared
    {
      this.editor, this.shared := editor, shared;
      attached, pending, composing, destroyed, flushDue := false, false, false, false, false;
    }

    /** Bind to the shared text: what the editor has that the card had not taken up yet is all that goes into it. */
    method Attach(committed: Option<string>)
      requires Valid()
      modifies this
      ensures Valid() && editor == old(editor) && composing == old(composing) && destroyed == old(destroyed)
      ensures old(attached) || destroyed ==>
          shared == old(shared) && attached == old(attached) && pending == old(pending)
      ensures !old(attached) && !destroyed ==> attached && pending && flushDue
      ensures !old(attached) && !destroyed ==>
        shared == if committed.Some? then Merge(old(shared), committed.value, editor) else old(shared)
    {
      if attached || destroyed {
        return;
      }
      attached := true;
      if committed.Some? {
        EqualMergesToItself(shared, committed.value, editor);
        if committed.value != editor {
          shared := Merge(shared, committed.value, editor);
        }
      }
      pending, flushDue := true, true;
    }

    method Release()
      modifies this`attached, this`pending
      ensures !attached && !pending
    {
      attached, pending := false, false;
    }

    /** The user types. */
    method Type(transactions: seq<seq<Change>>, committed: Option<string>)
      requires Valid() && IsTyping(editor, transactions)
      modifies this
      ensures Valid() && editor == Typed(old(editor), transactions)
      ensures old(attached) ==> shared == Carried(old(shared), old(editor), old(pending), transactions)
      ensures old(attached) ==> attached && pending == old(pending) && (pending && !composing ==> flushDue)
      ensures !old(attached) && !destroyed ==>
        shared == if committed.Some? then Merge(old(shared), committed.value, editor) else old(shared)
    {
      if !attached {
        editor := Typed(editor, transactions);
        Attach(committed);
        return;
      }
      if pending {
        MergeLocal(transactions);
      } else {
        CarryLocal(transactions);
      }
      if pending && !composing {
        flushDue := true;
      }
    }

    method MergeLocal(transactions: seq<seq<Change>>)
      requires IsTyping(editor, transactions)
      modifies this`editor, this`shared
      ensures editor == Typed(old(editor), transactions) && shared == Merged(old(shared), old(editor), transactions)
    {
      for i := 0 to |transactions|
        invariant IsTyping(editor, transactions[i..])
        invariant Typed(editor, transactions[i..]) == Typed(old(editor), transactions)
        invariant Merged(shared, editor, transactions[i..]) == Merged(old(shared), old(editor), transactions)
      {
        assert transactions[i..][0] == transactions[i] && transactions[i..][1..] == transactions[i + 1..];
        var next := Changed(editor, transactions[i]);
        shared := Merge(shared, editor, next);
        editor := next;
      }
    }

    method CarryLocal(transactions: seq<seq<Change>>)
      requires IsTyping(editor, transactions) && editor == shared
      modifies this`editor, this`shared
      ensures editor == shared == Typed(old(editor), transactions)
    {
      for i := 0 to |transactions|
        invariant editor == shared && IsTyping(editor, transactions[i..])
        invariant Typed(editor, transactions[i..]) == Typed(old(editor), transactions)
      {
        assert transactions[i..][0] == transactions[i] && transactions[i..][1..] == transactions[i + 1..];
        editor := Changed(editor, transactions[i]);
        shared := ApplyLocal(shared, transactions[i]);
      }
    }

    /** The shared text changed elsewhere; `fits` is whether the editor takes the change now. */
    method OnRemote(delta: seq<Delta>, fits: bool)
      requires Valid() && Span(delta) <= |shared|
      modifies this
      ensures Valid() && shared == Denotes(old(shared), delta) && attached == old(attached)
          && composing == old(composing)
      ensures attached && !old(pending) && !composing && fits ==> !pending && editor == shared
      ensures !attached || old(pending) || composing || !fits ==> editor == old(editor)
      ensures attached && (old(pending) || composing || !fits) ==> pending
    {
      var was := shared;
      shared := Denotes(shared, delta);
      if !attached {
        return;
      }
      if pending || composing {
        pending := true;
        return;
      }
      if fits {
        ChangesDenote(was, delta, 0);
        var changes := ChangesFromDelta(delta);
        assert was[0..] == was;
        editor := Changed(editor, changes);
      } else {
        pending, flushDue := true, true;
      }
    }

    method Compose(on: bool)
      requires Valid()
      modifies this`composing, this`flushDue
      ensures Valid() && composing == on && (pending && !composing ==> flushDue)
    {
      composing := on;
      if pending && !composing {
        flushDue := true;
      }
    }

    /** Bring the editor to what the shared text says, unless the user is composing; `fits` is whether the editor
        takes the change now. */
    method Flush(fits: bool)
      requires Valid()
      modifies this`editor, this`pending, this`flushDue
      ensures Valid() && !flushDue
      ensures attached && !composing && fits ==> !pending && editor == shared
      ensures !attached || composing || !fits ==> editor == old(editor)
      ensures !fits && editor != shared && old(pending) ==> pending
    {
      flushDue := false;
      if !attached || !pending || composing {
        return;
      }
      pending := false;
      var change := MinimalChange(editor, shared);
      if change.None? {
        return;
      }
      if fits {
        editor := Changed(editor, [change.value]);
      } else {
        pending := true;
      }
    }

    method Destroy()
      requires Valid()
      modifies this`destroyed, this`attached, this`pending
      ensures Valid() && destroyed
    {
      destroyed := true;
      Release();
    }
  }

  /** What is typed while the editor is behind the shared text is in the shared text. */
  lemma PendingTypingSurvives(shared: string, editor: string, changes: seq<Change>)
    requires IsChangeSet(changes, 0, |editor|) && Changed(editor, changes) != editor
    ensures HunkBetween(editor, Changed(editor, changes)).Some?
    ensures Contains(Merged(shared, editor, [changes]), HunkBetween(editor, Changed(editor, changes)).value.inserted)
  {
    LocalTypingSurvives(shared, editor, Changed(editor, changes));
    assert Merged(shared, editor, [changes]) == Merge(shared, editor, Changed(editor, changes));
  }
}
