/** The sections of a printed drawing file, read back (`packages/plugin/src/excalidraw-format.ts`). */
module DrawingSections {
  import opened Json
  import opened DrawingFormat

  // ---- Parts that end in a newline ----

  predicate EndsLine(s: string) {
    s == "" || s[|s| - 1] == '\n'
  }

  predicate Lacks(s: string, c: char) {
    forall i | 0 <= i < |s| :: s[i] != c
  }

  /** `w` ends a line from `i` on; where `whole`, it is that line. */
  predicate Hits(s: string, i: nat, w: string, whole: bool) {
    StartsAt(s, i, w + "\n") && (whole ==> IsLineStart(s, i))
  }

  predicate NoHit(s: string, w: string, whole: bool) {
    forall i | 0 <= i <= |s| :: !Hits(s, i, w, whole)
  }

  lemma CharsAt(s: string, i: nat, p: string)
    requires StartsAt(s, i, p)
    ensures forall j | i <= j < i + |p| :: s[j] == p[j - i]
  {
    forall j | i <= j < i + |p|
      ensures s[j] == p[j - i]
    {
      assert s[i..i + |p|][j - i] == s[j];
    }
  }

  /** In two parts of which the first ends its line, what starts in the first is in the first. */
  lemma HitWithin(a: string, b: string, i: nat, w: string, whole: bool)
    requires EndsLine(a) && Lacks(w, '\n') && Hits(a + b, i, w, whole) && i < |a|
    ensures Hits(a, i, w, whole)
  {
    CharsAt(a + b, i, w + "\n");
    assert (a + b)[|a| - 1] == '\n';
    assert (a + b)[i..i + |w| + 1] == a[i..i + |w| + 1];
  }

  lemma StartsLater(a: string, b: string, i: nat, p: string)
    requires |a| <= i
    ensures StartsAt(a + b, i, p) <==> StartsAt(b, i - |a|, p)
  {
    if i + |p| <= |a + b| {
      assert (a + b)[i..i + |p|] == b[i - |a|..i - |a| + |p|];
    }
  }

  lemma LineStartLater(a: string, b: string, i: nat)
    requires EndsLine(a) && |a| <= i
    ensures IsLineStart(a + b, i) <==> IsLineStart(b, i - |a|)
  {
    assert a != "" ==> (a + b)[|a| - 1] == '\n';
  }

  lemma NoHitJoined(a: string, b: string, w: string, whole: bool)
    requires EndsLine(a) && Lacks(w, '\n') && NoHit(a, w, whole) && NoHit(b, w, whole)
    ensures NoHit(a + b, w, whole)
  {
    forall i | 0 <= i <= |a + b|
      ensures !Hits(a + b, i, w, whole)
    {
      if i < |a| {
        assert !Hits(a, i, w, whole);
        if Hits(a + b, i, w, whole) { HitWithin(a, b, i, w, whole); }
      } else {
        assert !Hits(b, i - |a|, w, whole);
        StartsLater(a, b, i, w + "\n");
        LineStartLater(a, b, i);
      }
    }
  }

  /** The first place of `p`, past a part that has none of it. */
  lemma {:induction false} FirstPlace(s: string, p: string, i: nat, at: nat)
    requires i <= at <= |s| && StartsAt(s, at, p) && forall k | i <= k < at :: !StartsAt(s, k, p)
    ensures IndexOf(s, p, i) == Some(at)
    decreases at - i
  {
    if i < at { FirstPlace(s, p, i + 1, at); }
  }

  lemma {:induction false} NoPlace(s: string, p: string, i: nat)
    requires i <= |s| && forall k | i <= k <= |s| :: !StartsAt(s, k, p)
    ensures IndexOf(s, p, i) == None
    decreases |s| - i
  {
    if i < |s| { NoPlace(s, p, i + 1); }
  }

  // ---- Lines of a section ----

  /** An entry whose line is one, and fits its section. */
  predicate IsLine(links: bool, e: (string, string)) {
    && AllDots(e.1)
    && if links then |e.0| == 8 && AllDots(e.0)
       else e.0 != "" && Lacks(e.0, ':') && Lacks(e.0, '\n') && !IsSpace(e.0[0])
  }

  predicate AreLines(links: bool, entries: seq<(string, string)>) {
    forall i | 0 <= i < |entries| :: IsLine(links, entries[i])
  }

  /** An entry that reads back: it does not start with a hash, nor a link with a blank. */
  predicate IsEntry(links: bool, e: (string, string)) {
    IsLine(links, e) && e.0[0] != '#' && (links && e.1 != "" ==> !IsSpace(e.1[0]))
  }

  predicate AreEntries(links: bool, entries: seq<(string, string)>) {
    forall i | 0 <= i < |entries| :: IsEntry(links, entries[i])
  }

  /** An entry as it reads: blanks that lead a link are not part of it. */
  function ReadAs(links: bool, e: (string, string)): (string, string) {
    if links then (e.0, Trimmed(e.1)) else e
  }

  function AllReadAs(links: bool, entries: seq<(string, string)>): seq<(string, string)> {
    if entries == [] then [] else [ReadAs(links, entries[0])] + AllReadAs(links, entries[1..])
  }

  function LineOf(e: (string, string)): string {
    e.0 + ": " + e.1
  }

  lemma EntryLine(links: bool, e: (string, string))
    requires IsLine(links, e)
    ensures EntryOf(links, LineOf(e)) == Some(ReadAs(links, e)) && !IsBlank(LineOf(e)) && Lacks(LineOf(e), '\n')
  {
    var line := LineOf(e);
    assert line[|e.0|] == ':' && line[|e.0| + 1] == ' ';
    assert line[..|e.0|] == e.0 && line[|e.0| + 2..] == e.1;
    if links {
      assert line[9..] == " " + e.1;
      TrimmedBlank(e.1);
      TrimmedDots(e.1);
    } else {
      FirstColon(line, 0, |e.0|);
      assert line[0] == e.0[0];
    }
  }

  lemma TrimmedBlank(s: string)
    ensures Trimmed(" " + s) == Trimmed(s)
  {
    assert (" " + s)[1..] == s;
  }

  lemma {:induction false} TrimmedDots(s: string)
    requires AllDots(s)
    ensures AllDots(Trimmed(s))
  {
    if s != "" && IsSpace(s[0]) { TrimmedDots(s[1..]); }
  }

  /** A link loses what leads it, and nothing else is lost. */
  lemma {:induction false} TrimmedExactly(s: string)
    ensures |Trimmed(s)| <= |s| && (Trimmed(s) == s <==> s == "" || !IsSpace(s[0]))
  {
    if s != "" && IsSpace(s[0]) { TrimmedExactly(s[1..]); }
  }

  /** Entries read as they are if and only if no blank leads a link. */
  lemma {:induction false} ReadAsTheyAre(links: bool, entries: seq<(string, string)>)
    ensures |AllReadAs(links, entries)| == |entries|
    ensures AllReadAs(links, entries) == entries <==>
      forall i | 0 <= i < |entries| :: ReadAs(links, entries[i]) == entries[i]
    ensures forall i | 0 <= i < |entries| :: AllReadAs(links, entries)[i] == ReadAs(links, entries[i])
  {
    if entries != [] {
      ReadAsTheyAre(links, entries[1..]);
      assert entries == [entries[0]] + entries[1..];
      forall i | 0 <= i < |entries|
        ensures AllReadAs(links, entries)[i] == ReadAs(links, entries[i])
      {
        if i > 0 { assert entries[1..][i - 1] == entries[i]; }
      }
    }
  }

  lemma {:induction false} FirstColon(s: string, i: nat, at: nat)
    requires i <= at < |s| && s[at] == ':' && forall k | i <= k < at :: s[k] != ':'
    ensures Colon(s, i) == at
    decreases at - i
  {
    if i < at { FirstColon(s, i + 1, at); }
  }

  lemma {:induction false} FirstLineEnd(s: string, i: nat, at: nat)
    requires i <= at <= |s| && (at < |s| ==> s[at] == '\n') && forall k | i <= k < at :: s[k] != '\n'
    ensures LineEnd(s, i) == at
    decreases at - i
  {
    if i < at { FirstLineEnd(s, i + 1, at); }
  }

  lemma {:induction false} LineEndLater(a: string, s: string, i: nat)
    requires i <= |s|
    ensures LineEnd(a + s, |a| + i) == |a| + LineEnd(s, i)
    decreases |s| - i
  {
    if i < |s| && s[i] != '\n' { LineEndLater(a, s, i + 1); }
  }

  lemma LinesStep(links: bool, s: string, i: nat, j: nat, line: string, rest: Option<seq<(string, string)>>)
    requires i <= |s| && j == LineEnd(s, i) && line == s[i..j]
    requires rest == if j == |s| then Some([]) else KeyedLines(links, s, j + 1)
    ensures KeyedLines(links, s, i) == WithLine(links, line, rest)
  {
  }

  /** Lines read the same after anything. */
  lemma {:induction false} LinesLater(links: bool, a: string, s: string, i: nat, x: string)
    requires i <= |s| && x == a + s
    ensures KeyedLines(links, x, |a| + i) == KeyedLines(links, s, i)
    decreases |s| - i
  {
    LineEndLater(a, s, i);
    var j := LineEnd(s, i);
    SliceIn(a, s, x, i, j);
    if j < |s| { LinesLater(links, a, s, j + 1, x); }
    var rest := if j == |s| then Some([]) else KeyedLines(links, s, j + 1);
    LinesStep(links, s, i, j, s[i..j], rest);
    LinesStep(links, x, |a| + i, |a| + j, s[i..j], rest);
  }

  /** One line, and then the lines after it. */
  function Lined(line: string, rest: string): string {
    line + "\n" + rest
  }

  lemma LineThenRest(links: bool, line: string, rest: string)
    requires Lacks(line, '\n')
    ensures KeyedLines(links, Lined(line, rest), 0) == WithLine(links, line, KeyedLines(links, rest, 0))
  {
    var s := Lined(line, rest);
    FirstLineEnd(s, 0, |line|);
    assert s[0..|line|] == line;
    LinesLater(links, line + "\n", rest, 0, s);
  }

  /** A section's entries, less the last newline where `cut`. */
  function EntriesCut(entries: seq<(string, string)>, cut: bool): string {
    if entries == [] then ""
    else if cut && |entries| == 1 then Lined(LineOf(entries[0]), "")
    else Lined(LineOf(entries[0]), Lined("", EntriesCut(entries[1..], cut)))
  }

  lemma {:induction false} EntriesAre(entries: seq<(string, string)>, cut: bool)
    requires cut ==> entries != []
    ensures KeyedEntries(entries) == EntriesCut(entries, cut) + (if cut then "\n" else "")
  {
    if entries != [] {
      if |entries| > 1 || !cut { EntriesAre(entries[1..], cut); }
      assert KeyedEntry(entries[0]) == LineOf(entries[0]) + "\n\n";
      if cut && |entries| == 1 {
        assert KeyedEntries(entries[1..]) == "";
      }
    }
  }

  /** A section's entries, read. */
  lemma {:induction false} EntriesReadBack(links: bool, entries: seq<(string, string)>, cut: bool)
    requires AreLines(links, entries)
    ensures KeyedLines(links, EntriesCut(entries, cut), 0) == Some(AllReadAs(links, entries))
  {
    if entries != [] {
      var e, rest := entries[0], entries[1..];
      EntryLine(links, e);
      EntriesReadBack(links, rest, cut);
      assert KeyedLines(links, "", 0) == Some([]);
      LineThenRest(links, LineOf(e), "");
      LineThenRest(links, "", EntriesCut(rest, cut));
      LineThenRest(links, LineOf(e), Lined("", EntriesCut(rest, cut)));
    }
  }

  /** A heading: one line, with neither the colon of an entry nor the caret of a reference. */
  predicate IsHeadingText(w: string) {
    Lacks(w, '\n') && Lacks(w, ':') && Lacks(w, '^') && |w| >= 9 && w[0] == '#'
  }

  predicate EndsIn(s: string, w: string) {
    |w| <= |s| && s[|s| - |w|..] == w
  }

  /** Nothing of a heading in a section's entries; in the midst of a line, where no value ends in it. */
  lemma {:induction false} NoHitInEntries(links: bool, entries: seq<(string, string)>, w: string, whole: bool)
    requires AreLines(links, entries) && IsHeadingText(w)
    requires whole || forall i | 0 <= i < |entries| :: !EndsIn(entries[i].1, w)
    ensures NoHit(KeyedEntries(entries), w, whole) && EndsLine(KeyedEntries(entries))
  {
    if entries != [] {
      NoHitInEntry(links, entries[0], w, whole);
      NoHitInEntries(links, entries[1..], w, whole);
      NoHitJoined(KeyedEntry(entries[0]), KeyedEntries(entries[1..]), w, whole);
    }
  }

  lemma NoHitInEntry(links: bool, e: (string, string), w: string, whole: bool)
    requires IsLine(links, e) && IsHeadingText(w) && (whole || !EndsIn(e.1, w))
    ensures NoHit(KeyedEntry(e), w, whole)
  {
    EntryLine(links, e);
    assert KeyedEntry(e) == LineOf(e) + "\n\n";
    forall i | 0 <= i <= |KeyedEntry(e)|
      ensures !Hits(KeyedEntry(e), i, w, whole)
    {
      if Hits(KeyedEntry(e), i, w, whole) {
        CharsAt(KeyedEntry(e), i, w + "\n");
        EndsItsLine(e, w, i);
      }
    }
  }

  /** What ends a line of an entry ends its value: it does not reach back to the colon. */
  lemma EndsItsLine(e: (string, string), w: string, i: nat)
    requires IsHeadingText(w) && Lacks(LineOf(e), '\n')
    requires i + |w| < |KeyedEntry(e)| && KeyedEntry(e)[i + |w|] == '\n'
    requires forall j | i <= j < i + |w| :: KeyedEntry(e)[j] == w[j - i]
    ensures EndsIn(e.1, w) && !IsLineStart(KeyedEntry(e), i)
  {
    var s, line := KeyedEntry(e), LineOf(e);
    assert s == line + "\n\n";
    assert s[|line|] == '\n' && s[|e.0|] == ':' && s[|e.0| + 1] == ' ';
    assert i + |w| == |line|;
    assert forall k | 0 <= k < |w| :: w[k] == s[i + k] == e.1[|e.1| - |w| + k];
    assert e.1[|e.1| - |w|..] == w;
  }

  // ---- Text elements ----

  /** A text element that reads back: no newline leads it, and nothing in it reads as a reference. */
  predicate IsText(t: (string, string)) {
    && |t.0| == 8 && AllDots(t.0) && !IsDummy(t.0, t.1)
    && (t.1 != "" ==> t.1[0] != '\n')
    && forall m | 0 <= m < |t.1| :: !RefAt(t.1, m)
  }

  predicate AreTexts(texts: seq<(string, string)>) {
    forall i | 0 <= i < |texts| :: IsText(texts[i])
  }

  lemma RefLater(a: string, s: string, m: nat)
    ensures RefAt(a + s, |a| + m) <==> RefAt(s, m)
  {
    if m + 10 < |s| {
      assert (a + s)[|a| + m + 2..|a| + m + 10] == s[m + 2..m + 10];
    }
  }

  lemma {:induction false} FindRefLater(a: string, s: string, m: nat)
    ensures FindRef(a + s, |a| + m) == if FindRef(s, m).Some? then Some(|a| + FindRef(s, m).value) else None
    decreases |s| - m
  {
    RefLater(a, s, m);
    if !RefAt(s, m) && m < |s| { FindRefLater(a, s, m + 1); }
  }

  lemma {:induction false} NewlinesLater(a: string, s: string, i: nat)
    requires i <= |s|
    ensures SkipNewlines(a + s, |a| + i) == |a| + SkipNewlines(s, i)
    decreases |s| - i
  {
    if i < |s| && s[i] == '\n' { NewlinesLater(a, s, i + 1); }
  }

  lemma {:induction false} FirstRef(s: string, m: nat, at: nat)
    requires m <= at && RefAt(s, at) && forall k | m <= k < at :: !RefAt(s, k)
    ensures FindRef(s, m) == Some(at)
    decreases at - m
  {
    if m < at { FirstRef(s, m + 1, at); }
  }

  function OneText(t: (string, string)): string {
    t.1 + " ^" + t.0 + "\n"
  }

  lemma NoRefBefore(t: (string, string), rest: string, k: nat)
    requires IsText(t) && k < |t.1|
    ensures !RefAt(OneText(t) + rest, k)
  {
    var s, n := OneText(t) + rest, |t.1|;
    assert !RefAt(t.1, k);
    if k + 10 < n {
      assert s[k + 2..k + 10] == t.1[k + 2..k + 10];
    } else {
      assert s[n] == ' ' && s[n + 1] == '^' && forall j | 0 <= j < 8 :: s[n + 2 + j] == t.0[j];
    }
  }

  /** The reference of an entry is the first in it. */
  lemma EntryRef(t: (string, string), rest: string)
    requires IsText(t)
    ensures FindRef(OneText(t) + rest, 0) == Some(|t.1|)
    ensures (OneText(t) + rest)[|t.1| + 2..|t.1| + 10] == t.0
  {
    var s := OneText(t) + rest;
    var n := |t.1|;
    assert s[n] == ' ' && s[n + 1] == '^' && s[n + 10] == '\n';
    assert s[n + 2..n + 10] == t.0;
    forall k | 0 <= k < n
      ensures !RefAt(s, k)
    {
      NoRefBefore(t, rest, k);
    }
    FirstRef(s, 0, n);
  }

  /** Text entries, less the last newline where `cut`. */
  function TextsCut(texts: seq<(string, string)>, cut: bool): string {
    if texts == [] then ""
    else if cut && |texts| == 1 then OneText(texts[0])
    else OneText(texts[0]) + ("\n" + TextsCut(texts[1..], cut))
  }

  lemma {:induction false} TextsAre(texts: seq<(string, string)>, cut: bool)
    requires cut ==> texts != []
    ensures TextEntries(texts) == TextsCut(texts, cut) + (if cut then "\n" else "")
  {
    if texts != [] {
      if |texts| > 1 || !cut { TextsAre(texts[1..], cut); }
      assert TextEntry(texts[0]) == OneText(texts[0]) + "\n";
      if cut && |texts| == 1 {
        assert TextEntries(texts[1..]) == "";
      }
    }
  }

  /** What a text element's reference gives, anywhere in a section. */
  lemma OneTextRead(pre: string, t: (string, string), rest: string, x: string, s: string)
    requires IsText(t) && x == OneText(t) + rest && s == pre + x
    ensures IsTextAt(s, |pre|, t)
  {
    EntryRef(t, rest);
    FindRefLater(pre, x, 0);
    SliceIn(pre, x, s, |t.1| + 2, |t.1| + 10);
    SliceIn(pre, x, s, 0, |t.1|);
    assert x[..|t.1|] == t.1;
  }

  lemma SliceIn(pre: string, x: string, s: string, i: nat, j: nat)
    requires s == pre + x && i <= j <= |x|
    ensures s[|pre| + i..|pre| + j] == x[i..j]
  {
  }

  lemma WithText(t: (string, string), rest: Texts)
    requires IsText(t)
    ensures WithEntry(t.0, t.1, rest) == rest.(entries := [t] + rest.entries)
  {
    assert WithoutLead(t.1) == t.1;
  }

  ghost predicate AreRead(s: string, at: nat, texts: seq<(string, string)>) {
    AreThese(TextsFrom(s, at, at), texts, |s|)
  }

  predicate AreThese(t: Texts, texts: seq<(string, string)>, end: nat) {
    t.entries == texts && !t.dummy && t.position >= end
  }

  /** At `at` stands the text `t`, with its reference after it. */
  predicate IsTextAt(s: string, at: nat, t: (string, string)) {
    var r := at + |t.1|;
    FindRef(s, at) == Some(r) && s[r + 2..r + 10] == t.0 && Slice(s, at, r) == t.1
  }

  /** One element read, and then the elements from `next` on. */
  lemma TextThenRest(s: string, at: nat, t: (string, string), next: nat)
    requires IsText(t) && IsTextAt(s, at, t) && SkipNewlines(s, at + |t.1| + 10) == next
    ensures var rest := TextsFrom(s, next, at + |t.1| + 12);
      TextsFrom(s, at, at) == rest.(entries := [t] + rest.entries)
  {
    assert TextsFrom(s, at, at) == TextsAt(s, at + |t.1|, at);
    WithText(t, TextsFrom(s, next, at + |t.1| + 12));
  }

  lemma TextThenRead(s: string, at: nat, t: (string, string), texts: seq<(string, string)>, next: nat)
    requires IsText(t) && IsTextAt(s, at, t) && next == at + |t.1| + 12 && SkipNewlines(s, next - 2) == next
    requires AreRead(s, next, texts)
    ensures AreRead(s, at, [t] + texts)
  {
    TextThenRest(s, at, t, next);
  }

  /** A section's text elements read back, and nothing is left. */
  lemma {:induction false} TextsReadBack(pre: string, texts: seq<(string, string)>, cut: bool, s: string)
    requires AreTexts(texts) && s == pre + TextsCut(texts, cut)
    ensures AreRead(s, |pre|, texts)
    decreases |texts|
  {
    if texts == [] {
      assert FindRef(s, |s|) == None;
    } else if cut && |texts| == 1 {
      LastTextReadBack(pre, texts[0], s);
      assert texts == [texts[0]];
    } else {
      var next := pre + OneText(texts[0]) + "\n";
      assert s == next + TextsCut(texts[1..], cut);
      TextsReadBack(next, texts[1..], cut, s);
      NextTextReadBack(pre, texts[0], texts[1..], TextsCut(texts[1..], cut), TextsCut(texts, cut), s, |next|);
      assert texts == [texts[0]] + texts[1..];
    }
  }

  lemma NextTextReadBack(pre: string, t: (string, string), texts: seq<(string, string)>, more: string, x: string,
      s: string, next: nat)
    requires IsText(t) && x == OneText(t) + ("\n" + more) && s == pre + x && next == |pre| + |t.1| + 12
    requires AreRead(s, next, texts) && (more != "" ==> more[0] != '\n')
    ensures AreRead(s, |pre|, [t] + texts)
  {
    OneTextRead(pre, t, "\n" + more, x, s);
    AfterText(pre, t, more, x, s, next);
    TextThenRead(s, |pre|, t, texts, next);
  }

  lemma AfterText(pre: string, t: (string, string), more: string, x: string, s: string, next: nat)
    requires |t.0| == 8 && x == OneText(t) + ("\n" + more) && s == pre + x && next == |pre| + |t.1| + 12
    requires more != "" ==> more[0] != '\n'
    ensures SkipNewlines(s, next - 2) == next
  {
    var n := |t.1|;
    assert x[n + 10] == '\n' && x[n + 11] == '\n' && (more != "" ==> x[n + 12] == more[0]);
    assert s[next - 2] == x[n + 10] && s[next - 1] == x[n + 11] && (more != "" ==> s[next] == x[n + 12]);
    TwoNewlines(s, next - 2);
  }

  lemma LastTextReadBack(pre: string, t: (string, string), s: string)
    requires IsText(t) && s == pre + OneText(t)
    ensures AreRead(s, |pre|, [t])
  {
    var x := OneText(t);
    assert x == x + "";
    OneTextRead(pre, t, "", x, s);
    LastNewline(s, |s| - 1);
    TextThenRest(s, |pre|, t, |s|);
  }

  lemma LastNewline(s: string, i: nat)
    requires i + 1 == |s| && s[i] == '\n'
    ensures SkipNewlines(s, i) == |s| && FindRef(s, |s|) == None
  {
  }

  lemma TwoNewlines(s: string, i: nat)
    requires i + 2 <= |s| && s[i] == '\n' && s[i + 1] == '\n' && (i + 2 < |s| ==> s[i + 2] != '\n')
    ensures SkipNewlines(s, i) == i + 2
  {
    assert SkipNewlines(s, i + 2) == i + 2;
    assert SkipNewlines(s, i + 1) == i + 2;
  }

  /** Nothing of a heading in the text elements, where their own texts have none. */
  lemma {:induction false} NoHitInTexts(texts: seq<(string, string)>, w: string, whole: bool)
    requires AreTexts(texts) && IsHeadingText(w) && forall i | 0 <= i < |texts| :: NoHit(texts[i].1, w, whole)
    ensures NoHit(TextEntries(texts), w, whole) && EndsLine(TextEntries(texts))
  {
    if texts != [] {
      NoHitInText(texts[0], w, whole);
      NoHitInTexts(texts[1..], w, whole);
      NoHitJoined(TextEntry(texts[0]), TextEntries(texts[1..]), w, whole);
    }
  }

  lemma NoHitInText(t: (string, string), w: string, whole: bool)
    requires IsText(t) && IsHeadingText(w) && NoHit(t.1, w, whole)
    ensures NoHit(TextEntry(t), w, whole)
  {
    forall i | 0 <= i <= |TextEntry(t)|
      ensures !Hits(TextEntry(t), i, w, whole)
    {
      if Hits(TextEntry(t), i, w, whole) {
        CharsAt(TextEntry(t), i, w + "\n");
        EndsInText(t, w, i);
        HitInText(t, w, i, whole);
      }
    }
  }

  lemma HitInText(t: (string, string), w: string, i: nat, whole: bool)
    requires Hits(TextEntry(t), i, w, whole) && i + |w| < |t.1|
    ensures Hits(t.1, i, w, whole)
  {
    assert TextEntry(t)[i..i + |w| + 1] == t.1[i..i + |w| + 1];
  }

  /** What ends a line of a text element ends a line of its text: it does not reach over the caret. */
  lemma EndsInText(t: (string, string), w: string, i: nat)
    requires IsText(t) && IsHeadingText(w)
    requires i + |w| < |TextEntry(t)| && TextEntry(t)[i + |w|] == '\n'
    requires forall j | i <= j < i + |w| :: TextEntry(t)[j] == w[j - i]
    ensures i + |w| < |t.1|
  {
    var s, n := TextEntry(t), |t.1|;
    assert s[n] == ' ' && s[n + 1] == '^' && s[n + 10] == '\n' && |s| == n + 12;
    assert forall k | 0 <= k < 8 :: s[n + 2 + k] == t.0[k];
  }
}
