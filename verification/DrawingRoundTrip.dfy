/** A printed drawing file, parsed (`packages/plugin/src/excalidraw-format.ts`): it is the file that was printed. */
module DrawingRoundTrip {
  import opened Json
  import opened DrawingFormat
  import opened DrawingSections

  const LINKS_TEXT := "## Element Links"
  const FILES_TEXT := "## Embedded Files"
  const TITLE_TEXT := "# Excalidraw Data"
  const DRAWING_1 := "# Drawing"
  const DRAWING_2 := "## Drawing"

  lemma HeadingTexts()
    ensures IsHeadingText(LINKS_TEXT) && IsHeadingText(FILES_TEXT) && IsHeadingText(TITLE_TEXT)
    ensures IsHeadingText(DRAWING_1) && IsHeadingText(DRAWING_2)
    ensures LINKS == LINKS_TEXT + "\n" && FILES == FILES_TEXT + "\n" && TITLE == TITLE_TEXT + "\n"
  {
  }

  // ---- What can be printed and read back ----

  /** The last lines are a mark and nothing: above a data section that is not commented out, it would comment it out. */
  predicate EndsInMark(head: string) {
    exists i | 0 <= i < |head| :: IsLineStart(head, i) && StartsAt(head, i, MARK) && AllNewlines(head[i + 3..])
  }

  predicate IsPlainHead(head: string) {
    EndsLine(head) && NoHit(head, TITLE_TEXT, true) && NoHit(head, DRAWING_1, true) && NoHit(head, DRAWING_2, true)
  }

  predicate ArePlainTexts(texts: seq<(string, string)>) {
    && AreTexts(texts)
    && (forall i | 0 <= i < |texts| :: NoHit(texts[i].1, DRAWING_1, true) && NoHit(texts[i].1, DRAWING_2, true))
    && (forall i | 0 <= i < |texts| :: NoHit(texts[i].1, LINKS_TEXT, false) && NoHit(texts[i].1, FILES_TEXT, false))
  }

  /** A file whose parts do not read as another: no heading in the head or a text, and ids and lines that fit. */
  predicate IsOrdinary<S>(f: File<S>) {
    && IsPlainHead(f.head) && ArePlainTexts(f.texts)
    && AreLines(true, f.links) && AreLines(false, f.embedded)
  }

  /** Some value ends in the heading. */
  predicate OneEndsIn(entries: seq<(string, string)>, w: string) {
    exists i | 0 <= i < |entries| :: EndsIn(entries[i].1, w)
  }

  /** No line ends in the heading of a section still to come. */
  predicate IsInPlace<S>(f: File<S>) {
    !OneEndsIn(f.links, FILES_TEXT) && (f.links == [] ==> !OneEndsIn(f.embedded, LINKS_TEXT))
  }

  /** An ordinary file with no line that ends in a heading still to come, no id that starts with a hash, no link that
      starts with a blank, and no mark at the end of the head above data that is not commented out. */
  predicate IsPrintable<S>(f: File<S>) {
    && IsOrdinary(f) && IsInPlace(f)
    && AreEntries(true, f.links) && AreEntries(false, f.embedded)
    && (f.commentedOut || !EndsInMark(f.head))
  }

  // ---- The data section ----

  lemma DummyLines(dummy: bool, w: string, whole: bool)
    requires IsHeadingText(w)
    ensures EndsLine(DummyEntry(dummy)) && NoHit(DummyEntry(dummy), w, whole)
  {
    var s := DummyEntry(dummy);
    if dummy {
      assert |s| == 12 && s[11] == '\n' && s[0] == '\n' && s[1] == '^' && s[2] == '_';
      forall i | 0 <= i <= |s|
        ensures !Hits(s, i, w, whole)
      {
        if StartsAt(s, i, w + "\n") { CharsAt(s, i, w + "\n"); }
      }
    }
  }

  lemma TextPartLines<S>(f: File<S>, w: string, whole: bool)
    requires IsHeadingText(w) && AreTexts(f.texts) && forall i | 0 <= i < |f.texts| :: NoHit(f.texts[i].1, w, whole)
    ensures EndsLine(TextPart(f)) && NoHit(TextPart(f), w, whole)
  {
    DummyLines(f.dummy, w, whole);
    NoHitInTexts(f.texts, w, whole);
    NoHitJoined(DummyEntry(f.dummy), TextEntries(f.texts), w, whole);
  }

  /** The text part, less its last newline where `cut`. */
  function TextBody<S>(f: File<S>, cut: bool): string {
    if cut && f.texts == [] then "\n^" + DUMMY_ID + "\n"
    else DummyEntry(f.dummy) + TextsCut(f.texts, cut)
  }

  lemma TextBodyIs<S>(f: File<S>, cut: bool)
    requires cut ==> TextPart(f) != ""
    ensures TextPart(f) == TextBody(f, cut) + (if cut then "\n" else "")
  {
    if cut && f.texts == [] {
      assert TextEntries(f.texts) == "";
      assert DummyEntry(true) == ("\n^" + DUMMY_ID + "\n") + "\n";
    } else {
      TextsAre(f.texts, cut);
    }
  }

  /** The text part read back. */
  ghost predicate IsReadTexts<S>(s: string, f: File<S>) {
    var t := TextsFrom(s, 0, 0);
    t.entries == f.texts && t.dummy == f.dummy && t.position >= |s|
  }

  lemma TextBodyReadBack<S>(f: File<S>, cut: bool)
    requires AreTexts(f.texts) && (cut ==> TextPart(f) != "")
    ensures IsReadTexts(TextBody(f, cut), f)
  {
    if cut && f.texts == [] {
      assert TextEntries(f.texts) == "" && f.dummy;
      DummyAlone(TextBody(f, cut));
    } else if f.dummy {
      DummyTextsReadBack(f, cut, TextsCut(f.texts, cut), TextBody(f, cut));
    } else {
      assert TextBody(f, cut) == "" + TextsCut(f.texts, cut);
      TextsReadBack("", f.texts, cut, TextBody(f, cut));
    }
  }

  lemma DummyTextsReadBack<S>(f: File<S>, cut: bool, rest: string, s: string)
    requires AreTexts(f.texts) && f.dummy && rest == TextsCut(f.texts, cut) && s == DummyEntry(true) + rest
    ensures IsReadTexts(s, f)
  {
    TextsReadBack(DummyEntry(true), f.texts, cut, s);
    TextsCutStart(f.texts, cut);
    assert |DummyEntry(true)| == 12;
    DummyThenRest(s, rest);
  }

  lemma TextsCutStart(texts: seq<(string, string)>, cut: bool)
    requires AreTexts(texts)
    ensures TextsCut(texts, cut) != "" ==> TextsCut(texts, cut)[0] != '\n'
  {
    if texts != [] {
      assert IsText(texts[0]);
      assert OneText(texts[0])[0] == if texts[0].1 == "" then ' ' else texts[0].1[0];
    }
  }

  lemma DummyRef(s: string)
    requires |s| > 10 && s[..11] == "\n^" + DUMMY_ID + "\n"
    ensures FindRef(s, 0) == Some(0) && s[2..10] == DUMMY_ID && Slice(s, 0, 0) == "" && s[10] == '\n'
  {
    var d := "\n^" + DUMMY_ID + "\n";
    assert s[0] == d[0] && s[1] == d[1] && s[10] == d[10];
    assert s[2..10] == d[2..10] == DUMMY_ID;
  }

  lemma DummyAlone(s: string)
    requires s == "\n^" + DUMMY_ID + "\n"
    ensures TextsFrom(s, 0, 0) == Texts([], true, 12) && |s| == 11
  {
    DummyRef(s);
    assert TextsFrom(s, 0, 0) == TextsAt(s, 0, 0);
    LastNewline(s, 10);
  }

  lemma DummyThenRest(s: string, rest: string)
    requires s == DummyEntry(true) + rest && (rest != "" ==> rest[0] != '\n')
    ensures TextsFrom(s, 0, 0) == TextsFrom(s, 12, 12).(dummy := true)
  {
    assert s[..11] == "\n^" + DUMMY_ID + "\n";
    DummyRef(s);
    assert s[11] == '\n' && (rest != "" ==> s[12] == rest[0]);
    TwoNewlines(s, 10);
    assert TextsFrom(s, 0, 0) == TextsAt(s, 0, 0);
  }

  // ---- Where the sections are ----

  lemma PlaceOf(p: string, w: string, rest: string, s: string)
    requires EndsLine(p) && IsHeadingText(w) && NoHit(p, w, false) && s == p + ((w + "\n") + rest)
    ensures IndexOf(s, w + "\n", 0) == Some(|p|)
  {
    StartsLater(p, (w + "\n") + rest, |p|, w + "\n");
    assert ((w + "\n") + rest)[0..|w| + 1] == w + "\n";
    forall k | 0 <= k < |p|
      ensures !StartsAt(s, k, w + "\n")
    {
      assert !Hits(p, k, w, false);
      if StartsAt(s, k, w + "\n") { HitWithin(p, (w + "\n") + rest, k, w, false); }
    }
    FirstPlace(s, w + "\n", 0, |p|);
  }

  lemma NoPlaceIn(s: string, tail: string, w: string)
    requires NoHit(s + tail, w, false)
    ensures IndexOf(s, w + "\n", 0) == None
  {
    forall k | 0 <= k <= |s|
      ensures !StartsAt(s, k, w + "\n")
    {
      assert !Hits(s + tail, k, w, false);
    }
    NoPlace(s, w + "\n", 0);
  }

  /** A heading is nowhere in a line too short for it. */
  lemma TooShort(s: string, w: string, whole: bool)
    requires |s| < |w| + 1
    ensures NoHit(s, w, whole)
  {
  }

  lemma SectionLines(links: bool, heading: string, entries: seq<(string, string)>, w: string, whole: bool)
    requires AreLines(links, entries) && IsHeadingText(w) && EndsLine(heading) && NoHit(heading, w, whole)
    requires whole || forall i | 0 <= i < |entries| :: !EndsIn(entries[i].1, w)
    ensures EndsLine(Section(heading, entries)) && NoHit(Section(heading, entries), w, whole)
  {
    NoHitInEntries(links, entries, w, whole);
    NoHitJoined(heading, KeyedEntries(entries), w, whole);
  }

  /** Up to the files' section there is none of its heading. */
  lemma NoFilesBefore<S>(f: File<S>)
    requires IsOrdinary(f) && IsInPlace(f)
    ensures EndsLine(TextPart(f) + Section(LINKS, f.links))
        && NoHit(TextPart(f) + Section(LINKS, f.links), FILES_TEXT, false)
  {
    HeadingTexts();
    TextPartLines(f, FILES_TEXT, false);
    TooShort(LINKS, FILES_TEXT, false);
    SectionLines(true, LINKS, f.links, FILES_TEXT, false);
    NoHitJoined(TextPart(f), Section(LINKS, f.links), FILES_TEXT, false);
  }

  lemma NoLinksHeading()
    ensures NoHit(FILES, LINKS_TEXT, false)
  {
    var s, w := FILES, LINKS_TEXT + "\n";
    assert s[16] == 's' && w[16] == '\n' && s[2] == ' ' && w[1] == '#' && |s| == 18 && |w| == 17;
    forall i | 0 <= i <= |s|
      ensures !Hits(s, i, LINKS_TEXT, false)
    {
      if StartsAt(s, i, w) { CharsAt(s, i, w); }
    }
  }

  /** Without a section of links, none of its heading is anywhere. */
  lemma NoLinksAnywhere<S>(f: File<S>)
    requires IsOrdinary(f) && IsInPlace(f) && f.links == []
    ensures NoHit(TextPart(f) + Section(FILES, f.embedded), LINKS_TEXT, false)
  {
    HeadingTexts();
    TextPartLines(f, LINKS_TEXT, false);
    NoLinksHeading();
    SectionLines(false, FILES, f.embedded, LINKS_TEXT, false);
    NoHitJoined(TextPart(f), Section(FILES, f.embedded), LINKS_TEXT, false);
  }

  // ---- Lines of a section that start with a hash ----

  predicate HasHashId(entries: seq<(string, string)>) {
    exists i | 0 <= i < |entries| :: entries[i].0 != "" && entries[i].0[0] == '#'
  }

  lemma {:induction false} HashExactly(links: bool, entries: seq<(string, string)>)
    requires AreLines(links, entries)
    ensures EndsLine(KeyedEntries(entries)) && (HasHashLine(KeyedEntries(entries)) <==> HasHashId(entries))
  {
    if entries != [] {
      HashInEntry(links, entries[0]);
      HashExactly(links, entries[1..]);
      HashJoined(KeyedEntry(entries[0]), KeyedEntries(entries[1..]));
      HashIdJoined(entries);
    }
  }

  lemma HashIdJoined(entries: seq<(string, string)>)
    requires entries != [] && entries[0].0 != ""
    ensures HasHashId(entries) <==> entries[0].0[0] == '#' || HasHashId(entries[1..])
  {
    if HasHashId(entries) {
      var i :| 0 <= i < |entries| && entries[i].0 != "" && entries[i].0[0] == '#';
      if i > 0 { assert entries[1..][i - 1] == entries[i]; }
    }
    if i :| 0 <= i < |entries[1..]| && entries[1..][i].0 != "" && entries[1..][i].0[0] == '#' {
      assert entries[i + 1] == entries[1..][i];
    }
  }

  lemma HashInEntry(links: bool, e: (string, string))
    requires IsLine(links, e)
    ensures EndsLine(KeyedEntry(e)) && e.0 != "" && (HasHashLine(KeyedEntry(e)) <==> e.0[0] == '#')
  {
    EntryLine(links, e);
    var s, line := KeyedEntry(e), LineOf(e);
    assert s == line + "\n\n" && s[0] == e.0[0] && s[|line|] == '\n' && s[|line| + 1] == '\n' && |s| == |line| + 2;
    assert forall k | 0 <= k < |line| :: s[k] == line[k] != '\n';
    assert forall i | 0 < i < |s| && IsLineStart(s, i) :: i == |line| + 1;
    assert IsLineStart(s, 0);
  }

  lemma HashJoined(a: string, b: string)
    requires EndsLine(a)
    ensures HasHashLine(a + b) <==> HasHashLine(a) || HasHashLine(b)
  {
    if i :| 0 <= i < |a + b| && IsLineStart(a + b, i) && (a + b)[i] == '#' {
      if i < |a| {
        assert IsLineStart(a, i) && a[i] == '#';
      } else {
        LineStartLater(a, b, i);
        assert IsLineStart(b, i - |a|) && b[i - |a|] == '#';
      }
    }
    if i :| 0 <= i < |a| && IsLineStart(a, i) && a[i] == '#' {
      assert IsLineStart(a + b, i) && (a + b)[i] == '#';
    }
    if i :| 0 <= i < |b| && IsLineStart(b, i) && b[i] == '#' {
      LineStartLater(a, b, |a| + i);
      assert IsLineStart(a + b, |a| + i) && (a + b)[|a| + i] == '#';
    }
  }

  lemma HashInCut(links: bool, entries: seq<(string, string)>, cut: bool)
    requires AreLines(links, entries) && (cut ==> entries != [])
    ensures HasHashLine(EntriesCut(entries, cut)) <==> HasHashId(entries)
  {
    HashExactly(links, entries);
    EntriesAre(entries, cut);
    var s, all := EntriesCut(entries, cut), KeyedEntries(entries);
    if i :| 0 <= i < |s| && IsLineStart(s, i) && s[i] == '#' {
      assert IsLineStart(all, i) && all[i] == '#';
    }
    if i :| 0 <= i < |all| && IsLineStart(all, i) && all[i] == '#' {
      assert i < |s| && IsLineStart(s, i) && s[i] == '#';
    }
  }

  // ---- The data section read back ----

  /** The data section, less its last newline where `cut`. */
  function Body<S>(f: File<S>, cut: bool): string {
    if f.embedded != [] then (TextPart(f) + Section(LINKS, f.links)) + (FILES + EntriesCut(f.embedded, cut))
    else if f.links != [] then TextPart(f) + (LINKS + EntriesCut(f.links, cut))
    else TextBody(f, cut)
  }

  lemma BodyIs<S>(f: File<S>, cut: bool)
    requires cut ==> Data(f) != ""
    ensures Data(f) == Body(f, cut) + (if cut then "\n" else "")
  {
    if f.embedded != [] {
      EntriesAre(f.embedded, cut);
    } else if f.links != [] {
      EntriesAre(f.links, cut);
    } else {
      assert Data(f) == TextPart(f);
      TextBodyIs(f, cut);
    }
  }

  /** What the parts of the data section give: the file, where its entries are read as they are. */
  lemma SectionsRead<S>(f: File<S>, s: Sections)
    requires IsReadTexts(s.texts, f) && AreLines(true, f.links) && AreLines(false, f.embedded)
    requires HasHashLine(s.links) <==> HasHashId(f.links)
    requires HasHashLine(s.files) <==> HasHashId(f.embedded)
    requires KeyedLines(true, s.links, 0) == Some(AllReadAs(true, f.links))
    requires KeyedLines(false, s.files, 0) == Some(AllReadAs(false, f.embedded))
    ensures ReadSections(f.head, f.commentedOut, s, f.compressed, f.scene) == Ok(f) <==>
      AreEntries(true, f.links) && AreEntries(false, f.embedded)
  {
    assert Rest(s.texts, TextsFrom(s.texts, 0, 0).position) == "";
    EntriesExactly(true, f.links);
    EntriesExactly(false, f.embedded);
    ReadAsTheyAre(false, f.embedded);
  }

  lemma EntriesExactly(links: bool, entries: seq<(string, string)>)
    requires AreLines(links, entries)
    ensures AreEntries(links, entries) <==> !HasHashId(entries) && AllReadAs(links, entries) == entries
  {
    ReadAsTheyAre(links, entries);
    forall i | 0 <= i < |entries|
      ensures IsEntry(links, entries[i]) <==>
        entries[i].0[0] != '#' && ReadAs(links, entries[i]) == entries[i]
    {
      assert IsLine(links, entries[i]);
      TrimmedExactly(entries[i].1);
    }
  }

  /** A section's entries in the file, read. */
  lemma SectionRead(links: bool, entries: seq<(string, string)>, cut: bool)
    requires AreLines(links, entries) && (cut ==> entries != [])
    ensures var s := EntriesCut(entries, cut);
      && (HasHashLine(s) <==> HasHashId(entries))
      && KeyedLines(links, s, 0) == Some(AllReadAs(links, entries))
  {
    EntriesReadBack(links, entries, cut);
    HashInCut(links, entries, cut);
  }

  lemma OnlyTextsCut<S>(f: File<S>, cut: bool, body: string)
    requires IsOrdinary(f) && IsInPlace(f) && f.links == [] && f.embedded == []
    requires body == TextBody(f, cut) && (cut ==> Data(f) != "")
    ensures CutBody(body) == Some(Sections(body, "", ""))
  {
    assert Data(f) == TextPart(f);
    HeadingTexts();
    TextBodyIs(f, cut);
    TextPartLines(f, LINKS_TEXT, false);
    TextPartLines(f, FILES_TEXT, false);
    NoPlaceIn(body, if cut then "\n" else "", LINKS_TEXT);
    NoPlaceIn(body, if cut then "\n" else "", FILES_TEXT);
    assert body[0..|body|] == body;
  }

  lemma LinksPlaces<S>(f: File<S>, cut: bool, t: string, l: string, body: string)
    requires IsOrdinary(f) && IsInPlace(f) && f.links != [] && f.embedded == []
    requires t == TextPart(f) && l == EntriesCut(f.links, cut) && body == t + (LINKS + l)
    ensures IndexOf(body, LINKS, 0) == Some(|t|) && IndexOf(body, FILES, 0) == None
  {
    HeadingTexts();
    TextPartLines(f, LINKS_TEXT, false);
    PlaceOf(t, LINKS_TEXT, l, body);
    NoFilesBefore(f);
    EntriesAre(f.links, cut);
    assert t + Section(LINKS, f.links) == body + (if cut then "\n" else "");
    NoPlaceIn(body, if cut then "\n" else "", FILES_TEXT);
  }

  lemma LinksCut(t: string, l: string, body: string)
    requires body == t + (LINKS + l) && IndexOf(body, LINKS, 0) == Some(|t|) && IndexOf(body, FILES, 0) == None
    ensures CutBody(body) == Some(Sections(t, l, ""))
  {
    assert body[0..|t|] == t && body[|t| + |LINKS|..|body|] == l;
  }

  lemma FilesPlaces<S>(f: File<S>, cut: bool, t: string, e: string, body: string)
    requires IsOrdinary(f) && IsInPlace(f) && f.links == [] && f.embedded != []
    requires t == TextPart(f) && e == EntriesCut(f.embedded, cut) && body == t + (FILES + e)
    ensures IndexOf(body, LINKS, 0) == None && IndexOf(body, FILES, 0) == Some(|t|)
  {
    HeadingTexts();
    NoFilesBefore(f);
    assert t + Section(LINKS, f.links) == t;
    PlaceOf(t, FILES_TEXT, e, body);
    NoLinksAnywhere(f);
    EntriesAre(f.embedded, cut);
    assert t + Section(FILES, f.embedded) == body + (if cut then "\n" else "");
    NoPlaceIn(body, if cut then "\n" else "", LINKS_TEXT);
  }

  lemma FilesCut(t: string, e: string, body: string)
    requires body == t + (FILES + e) && IndexOf(body, LINKS, 0) == None && IndexOf(body, FILES, 0) == Some(|t|)
    ensures CutBody(body) == Some(Sections(t, "", e))
  {
    assert body[0..|t|] == t && body[|t| + |FILES|..] == e;
  }

  lemma BothPlaces<S>(f: File<S>, t: string, l: string, e: string, p: string, body: string)
    requires IsOrdinary(f) && IsInPlace(f) && f.links != [] && t == TextPart(f) && l == KeyedEntries(f.links)
    requires p == t + (LINKS + l) && body == p + (FILES + e)
    ensures IndexOf(body, LINKS, 0) == Some(|t|) && IndexOf(body, FILES, 0) == Some(|p|)
  {
    HeadingTexts();
    NoFilesBefore(f);
    PlaceOf(p, FILES_TEXT, e, body);
    TextPartLines(f, LINKS_TEXT, false);
    assert body == t + (LINKS + (l + (FILES + e)));
    PlaceOf(t, LINKS_TEXT, l + (FILES + e), body);
  }

  lemma BothCut(t: string, l: string, e: string, p: string, body: string)
    requires p == t + (LINKS + l) && body == p + (FILES + e)
    requires IndexOf(body, LINKS, 0) == Some(|t|) && IndexOf(body, FILES, 0) == Some(|p|)
    ensures CutBody(body) == Some(Sections(t, l, e))
  {
    CutInBoth(t, l, e, p, body);
  }

  lemma CutInBoth(t: string, l: string, e: string, p: string, body: string)
    requires p == t + (LINKS + l) && body == p + (FILES + e)
    ensures CutAt(body, Some(|t|), Some(|p|)) == Some(Sections(t, l, e))
  {
    BothSlices(t, l, e, p, body);
  }

  lemma BothSlices(t: string, l: string, e: string, p: string, body: string)
    requires p == t + (LINKS + l) && body == p + (FILES + e)
    ensures |t| + |LINKS| <= |p| && body[0..|t|] == t && body[|t| + |LINKS|..|p|] == l && body[|p| + |FILES|..] == e
  {
    assert p[0..|t|] == t && p[|t| + |LINKS|..|p|] == l;
    assert body[..|p|] == p;
  }

  /** The parts the data section is cut into. */
  lemma BodyCut<S>(f: File<S>, cut: bool)
    requires IsOrdinary(f) && IsInPlace(f) && (cut ==> Data(f) != "")
    ensures CutBody(Body(f, cut)) == Some(Sections(
      TextBody(f, cut && f.links == [] && f.embedded == []),
      EntriesCut(f.links, cut && f.links != [] && f.embedded == []),
      EntriesCut(f.embedded, cut && f.embedded != [])))
  {
    var t, body := TextPart(f), Body(f, cut);
    TextBodyIs(f, false);
    assert TextBody(f, false) == t;
    if f.embedded == [] && f.links == [] {
      OnlyTextsCut(f, cut, body);
    } else if f.embedded == [] {
      LinksPlaces(f, cut, t, EntriesCut(f.links, cut), body);
      LinksCut(t, EntriesCut(f.links, cut), body);
    } else if f.links == [] {
      assert t + Section(LINKS, f.links) == t;
      FilesPlaces(f, cut, t, EntriesCut(f.embedded, cut), body);
      FilesCut(t, EntriesCut(f.embedded, cut), body);
    } else {
      EntriesAre(f.links, false);
      var l, e := EntriesCut(f.links, false), EntriesCut(f.embedded, cut);
      assert KeyedEntries(f.links) == l;
      BothPlaces(f, t, l, e, t + (LINKS + l), body);
      BothCut(t, l, e, t + (LINKS + l), body);
    }
  }

  /** The data section of a file with every heading in place reads back, if and only if its entries do. */
  lemma BodyReadBack<S>(f: File<S>, cut: bool)
    requires IsOrdinary(f) && IsInPlace(f) && (cut ==> Data(f) != "")
    ensures ParseBody(f.head, f.commentedOut, Body(f, cut), f.compressed, f.scene) == Ok(f) <==>
      AreEntries(true, f.links) && AreEntries(false, f.embedded)
  {
    BodyCut(f, cut);
    var cutText := cut && f.links == [] && f.embedded == [];
    assert cutText ==> Data(f) == TextPart(f);
    TextBodyReadBack(f, cutText);
    SectionRead(true, f.links, cut && f.links != [] && f.embedded == []);
    SectionRead(false, f.embedded, cut && f.embedded != []);
    SectionsRead(f, CutBody(Body(f, cut)).value);
  }

  // ---- A line that ends in a heading still to come ----

  /** A section's entries around one of them. */
  lemma {:induction false} AroundEntry(entries: seq<(string, string)>, cut: bool, k: nat) returns (more: string)
    requires k < |entries|
    ensures EntriesCut(entries, cut) == EntriesCut(entries[..k], false) + (LineOf(entries[k]) + "\n" + more)
  {
    if k == 0 {
      more := if cut && |entries| == 1 then "" else Lined("", EntriesCut(entries[1..], cut));
      assert entries[..0] == [];
    } else {
      more := AroundEntry(entries[1..], cut, k - 1);
      var line := LineOf(entries[0]);
      assert entries[..k][0] == entries[0] && entries[..k][1..] == entries[1..][..k - 1];
      Reassociated(line + "\n" + ("" + "\n"), EntriesCut(entries[1..][..k - 1], false),
                   LineOf(entries[k]) + "\n" + more);
    }
  }

  lemma Reassociated(a: string, b: string, c: string)
    ensures a + (b + c) == (a + b) + c
  {
  }

  lemma {:induction false} LeastEnding(entries: seq<(string, string)>, w: string) returns (k: nat)
    requires OneEndsIn(entries, w)
    ensures k < |entries| && EndsIn(entries[k].1, w) && !OneEndsIn(entries[..k], w)
  {
    k := 0;
    while !EndsIn(entries[k].1, w)
      invariant k < |entries| && forall i | 0 <= i < k :: !EndsIn(entries[i].1, w)
      decreases |entries| - k
    {
      assert exists i | k < i < |entries| :: EndsIn(entries[i].1, w);
      k := k + 1;
    }
  }

  /** The first place of a heading is no later than any, and one of its places. */
  lemma {:induction false} PlaceAtMost(s: string, p: string, i: nat, at: nat)
    requires i <= at <= |s| && StartsAt(s, at, p)
    ensures var q := IndexOf(s, p, i); q.Some? && i <= q.value <= at && StartsAt(s, q.value, p)
    decreases at - i
  {
    if i < at && !StartsAt(s, i, p) { PlaceAtMost(s, p, i + 1, at); }
  }

  /** Past lines that have none of a heading, the first place of it is where a line ends in it. */
  lemma EndingPlace(q: string, line: string, w: string, more: string, body: string)
    requires EndsLine(q) && NoHit(q, w, false) && Lacks(w, '\n') && Lacks(line, '\n') && EndsIn(line, w)
    requires body == q + (line + "\n" + more)
    ensures IndexOf(body, w + "\n", 0) == Some(|q| + |line| - |w|)
  {
    var at := |q| + |line| - |w|;
    assert body[at..at + |w| + 1] == w + "\n";
    forall i | 0 <= i < at
      ensures !StartsAt(body, i, w + "\n")
    {
      if i < |q| {
        assert !Hits(q, i, w, false);
        if StartsAt(body, i, w + "\n") { HitWithin(q, line + "\n" + more, i, w, false); }
      } else {
        NotInMidLine(q, line, w, more, body, i);
      }
    }
    FirstPlace(body, w + "\n", 0, at);
  }

  lemma NotInMidLine(q: string, line: string, w: string, more: string, body: string, i: nat)
    requires body == q + (line + "\n" + more) && Lacks(line, '\n') && |q| <= i && i + |w| < |q| + |line|
    ensures !StartsAt(body, i, w + "\n")
  {
    assert body[i + |w|] == line[i + |w| - |q|] != '\n';
    if StartsAt(body, i, w + "\n") { CharsAt(body, i, w + "\n"); }
  }

  /** Lines, and after them one more that no newline ends. */
  lemma {:induction false} LinesAndOne(entries: seq<(string, string)>, e: (string, string))
    requires AreLines(true, entries) && IsLine(true, e)
    ensures KeyedLines(true, EntriesCut(entries, false) + LineOf(e), 0) ==
      Some(AllReadAs(true, entries) + [ReadAs(true, e)])
  {
    EntryLine(true, e);
    if entries == [] {
      LastLine(LineOf(e), e);
    } else {
      var line, rest := LineOf(entries[0]), EntriesCut(entries[1..], false) + LineOf(e);
      EntryLine(true, entries[0]);
      LinesAndOne(entries[1..], e);
      LineThenRest(true, "", rest);
      LineThenRest(true, line, Lined("", rest));
      LinedJoined(line, EntriesCut(entries[1..], false), LineOf(e));
      Appended(ReadAs(true, entries[0]), AllReadAs(true, entries[1..]), ReadAs(true, e));
    }
  }

  lemma LinedJoined(line: string, rest: string, last: string)
    ensures Lined(line, Lined("", rest)) + last == Lined(line, Lined("", rest + last))
  {
  }

  lemma Appended<T>(x: T, xs: seq<T>, y: T)
    ensures ([x] + xs) + [y] == [x] + (xs + [y])
  {
  }

  lemma LastLine(line: string, e: (string, string))
    requires IsLine(true, e) && line == LineOf(e) && EntryOf(true, line) == Some(ReadAs(true, e))
    requires !IsBlank(line) && Lacks(line, '\n')
    ensures KeyedLines(true, "" + line, 0) == Some([] + [ReadAs(true, e)])
  {
    FirstLineEnd(line, 0, |line|);
    assert "" + line == line && line[0..|line|] == line;
    assert [ReadAs(true, e)] + [] == [] + [ReadAs(true, e)];
    LinesStep(true, line, 0, |line|, line, Some([]));
  }

  /** The link that ends in the files' heading is cut short there. */
  lemma LinkCutShort<S>(f: File<S>, s: Sections, k: nat, cutShort: string)
    requires AreLines(true, f.links) && k < |f.links| && f.links[k].1 == cutShort + FILES_TEXT
    requires s.links == EntriesCut(f.links[..k], false) + LineOf((f.links[k].0, cutShort))
    ensures ReadSections(f.head, f.commentedOut, s, f.compressed, f.scene) != Ok(f)
  {
    var e := (f.links[k].0, cutShort);
    assert IsLine(true, f.links[k]);
    assert forall i | 0 <= i < |cutShort| :: cutShort[i] == f.links[k].1[i];
    LinesAndOne(f.links[..k], e);
    ReadAsTheyAre(true, f.links[..k]);
    TrimmedExactly(cutShort);
    var read := AllReadAs(true, f.links[..k]) + [ReadAs(true, e)];
    assert |read| == k + 1 && read[k] == ReadAs(true, e) && read[k].1 != f.links[k].1;
  }

  /** Where the sections are cut, in a file with such a link. */
  lemma CutInLink(t: string, q: string, line: string, more: string, body: string, part: string, cutLine: string)
    requires q == t + (LINKS + part) && body == q + (line + "\n" + more) && line == cutLine + FILES_TEXT
    requires IndexOf(body, LINKS, 0) == Some(|t|) && IndexOf(body, FILES, 0) == Some(|q| + |cutLine|)
    ensures CutBody(body).Some? && CutBody(body).value.texts == t && CutBody(body).value.links == part + cutLine
  {
    assert body == (t + LINKS + (part + cutLine)) + (FILES_TEXT + "\n" + more);
    assert body[0..|t|] == t;
    assert body[|t| + |LINKS|..|q| + |cutLine|] == part + cutLine;
  }

  lemma LinesBefore<S>(f: File<S>, k: nat, t: string, part: string)
    requires IsOrdinary(f) && k < |f.links| && !OneEndsIn(f.links[..k], FILES_TEXT)
    requires t == TextPart(f) && part == EntriesCut(f.links[..k], false)
    ensures EndsLine(t + (LINKS + part)) && NoHit(t + (LINKS + part), FILES_TEXT, false)
  {
    HeadingTexts();
    TextPartLines(f, FILES_TEXT, false);
    TooShort(LINKS, FILES_TEXT, false);
    EntriesAre(f.links[..k], false);
    assert KeyedEntries(f.links[..k]) == part;
    NoHitInEntries(true, f.links[..k], FILES_TEXT, false);
    NoHitJoined(LINKS, part, FILES_TEXT, false);
    NoHitJoined(t, LINKS + part, FILES_TEXT, false);
  }

  lemma LinkPlaces<S>(f: File<S>, k: nat, t: string, part: string, q: string, line: string, more: string, body: string)
    requires IsOrdinary(f) && k < |f.links| && !OneEndsIn(f.links[..k], FILES_TEXT)
    requires t == TextPart(f) && part == EntriesCut(f.links[..k], false) && q == t + (LINKS + part)
    requires line == LineOf(f.links[k]) && EndsIn(line, FILES_TEXT) && body == q + (line + "\n" + more)
    ensures IndexOf(body, LINKS, 0) == Some(|t|) && IndexOf(body, FILES, 0) == Some(|q| + |line| - |FILES_TEXT|)
  {
    HeadingTexts();
    LinesBefore(f, k, t, part);
    EntryLine(true, f.links[k]);
    EndingPlace(q, line, FILES_TEXT, more, body);
    TextPartLines(f, LINKS_TEXT, false);
    assert body == t + ((LINKS_TEXT + "\n") + (part + (line + "\n" + more)));
    PlaceOf(t, LINKS_TEXT, part + (line + "\n" + more), body);
  }

  lemma CutValue(e: (string, string), w: string) returns (cutShort: string)
    requires EndsIn(e.1, w)
    ensures e.1 == cutShort + w && LineOf(e) == LineOf((e.0, cutShort)) + w
  {
    cutShort := e.1[..|e.1| - |w|];
  }

  lemma LinkEndsSection<S>(f: File<S>, k: nat, more: string, body: string, t: string, part: string, q: string)
    requires IsOrdinary(f) && k < |f.links| && EndsIn(f.links[k].1, FILES_TEXT) && !OneEndsIn(f.links[..k], FILES_TEXT)
    requires t == TextPart(f) && part == EntriesCut(f.links[..k], false) && q == t + (LINKS + part)
    requires body == q + (LineOf(f.links[k]) + "\n" + more)
    ensures ParseBody(f.head, f.commentedOut, body, f.compressed, f.scene) != Ok(f)
  {
    var line := LineOf(f.links[k]);
    var cutShort := CutValue(f.links[k], FILES_TEXT);
    var cutLine := LineOf((f.links[k].0, cutShort));
    EndsInJoined(cutLine, FILES_TEXT, line);
    LinkPlaces(f, k, t, part, q, line, more, body);
    CutInLink(t, q, line, more, body, part, cutLine);
    LinkCutShort(f, CutBody(body).value, k, cutShort);
  }

  lemma EndsInJoined(a: string, w: string, s: string)
    requires s == a + w
    ensures EndsIn(s, w) && |s| - |w| == |a|
  {
  }

  /** So a file with such a link does not read back. */
  lemma LinkTakenForHeading<S>(f: File<S>, cut: bool)
    requires IsOrdinary(f) && OneEndsIn(f.links, FILES_TEXT) && (cut ==> Data(f) != "")
    ensures ParseBody(f.head, f.commentedOut, Body(f, cut), f.compressed, f.scene) != Ok(f)
  {
    var k := LeastEnding(f.links, FILES_TEXT);
    var t, part := TextPart(f), EntriesCut(f.links[..k], false);
    var more := BodyAround(f, cut, k, t, part);
    LinkEndsSection(f, k, more, Body(f, cut), t, part, t + (LINKS + part));
  }

  lemma BodyAround<S>(f: File<S>, cut: bool, k: nat, t: string, part: string) returns (more: string)
    requires k < |f.links| && t == TextPart(f) && part == EntriesCut(f.links[..k], false)
    ensures Body(f, cut) == (t + (LINKS + part)) + (LineOf(f.links[k]) + "\n" + more)
  {
    var line := LineOf(f.links[k]);
    if f.embedded == [] {
      more := AroundEntry(f.links, cut, k);
      Regroup(t, LINKS, part, line + "\n" + more, "");
    } else {
      var rest := AroundEntry(f.links, false, k);
      EntriesAre(f.links, false);
      var files := FILES + EntriesCut(f.embedded, cut);
      assert KeyedEntries(f.links) == part + (line + "\n" + rest);
      Regroup(t, LINKS, part, line + "\n" + rest, files);
      more := rest + files;
      assert (line + "\n" + rest) + files == line + "\n" + more;
    }
  }

  lemma Regroup(t: string, heading: string, part: string, x: string, files: string)
    ensures (t + (heading + (part + x))) + files == (t + (heading + part)) + (x + files)
    ensures t + (heading + (part + x)) == (t + (heading + part)) + x
  {
  }

  /** A file with no links, and an embedded value that ends in their heading, does not read back. */
  lemma FileTakenForHeading<S>(f: File<S>, cut: bool)
    requires IsOrdinary(f) && f.links == [] && OneEndsIn(f.embedded, LINKS_TEXT) && (cut ==> Data(f) != "")
    ensures ParseBody(f.head, f.commentedOut, Body(f, cut), f.compressed, f.scene) != Ok(f)
  {
    var k := LeastEnding(f.embedded, LINKS_TEXT);
    var more := AroundEntry(f.embedded, cut, k);
    var t, part, line := TextPart(f), EntriesCut(f.embedded[..k], false), LineOf(f.embedded[k]);
    assert t + Section(LINKS, f.links) == t;
    LinksAfterFiles(f, t, part, line, more, Body(f, cut), k);
  }

  /** The links' heading found in an entry of the files is out of order. */
  lemma OutOfOrder(t: string, rest: string, body: string, at: nat)
    requires EndsLine(t) && NoHit(t, LINKS_TEXT, false) && NoHit(t, FILES_TEXT, false)
    requires body == t + (FILES + rest) && at <= |body| && StartsAt(body, at, LINKS)
    ensures CutBody(body) == None
  {
    HeadingTexts();
    PlaceOf(t, FILES_TEXT, rest, body);
    PlaceAtMost(body, LINKS, 0, at);
    PlaceAfter(t, FILES + rest, LINKS_TEXT, body, IndexOf(body, LINKS, 0).value);
    LinksNotFiles(t, rest, body);
  }

  lemma HeadingAtEnd(t: string, part: string, cutLine: string, line: string, more: string, body: string)
    requires line == cutLine + LINKS_TEXT && body == t + (FILES + (part + (line + "\n" + more)))
    ensures exists at | 0 <= at <= |body| :: StartsAt(body, at, LINKS)
  {
    HeadingTexts();
    var before := (t + (FILES + part)) + cutLine;
    assert body == before + (LINKS + more);
    assert body[|before|..|before| + |LINKS|] == LINKS;
    assert StartsAt(body, |before|, LINKS);
  }

  lemma LinksAfterFiles<S>(f: File<S>, t: string, part: string, line: string, more: string, body: string, k: nat)
    requires IsOrdinary(f) && t == TextPart(f) && k < |f.embedded| && line == LineOf(f.embedded[k])
    requires EndsIn(f.embedded[k].1, LINKS_TEXT) && body == t + (FILES + (part + (line + "\n" + more)))
    ensures CutBody(body) == None
  {
    HeadingTexts();
    TextPartLines(f, LINKS_TEXT, false);
    TextPartLines(f, FILES_TEXT, false);
    var cutShort := CutValue(f.embedded[k], LINKS_TEXT);
    HeadingAtEnd(t, part, LineOf((f.embedded[k].0, cutShort)), line, more, body);
    var at :| 0 <= at <= |body| && StartsAt(body, at, LINKS);
    OutOfOrder(t, part + (line + "\n" + more), body, at);
  }

  lemma PlaceAfter(t: string, rest: string, w: string, body: string, at: nat)
    requires EndsLine(t) && Lacks(w, '\n') && NoHit(t, w, false) && body == t + rest && StartsAt(body, at, w + "\n")
    ensures at >= |t|
  {
    assert at < |t| ==> !Hits(t, at, w, false);
    if at < |t| { HitWithin(t, rest, at, w, false); }
  }

  lemma LinksNotFiles(t: string, rest: string, body: string)
    requires body == t + (FILES + rest)
    ensures !StartsAt(body, |t|, LINKS)
  {
    assert body[|t| + 4] == FILES[4] == 'm' && LINKS[4] == 'l';
    if StartsAt(body, |t|, LINKS) { CharsAt(body, |t|, LINKS); }
  }

  /** The data section of an ordinary file reads back if and only if every heading is in place and its entries read
      as they are. */
  lemma BodyExactly<S>(f: File<S>, cut: bool)
    requires IsOrdinary(f) && (cut ==> Data(f) != "")
    ensures ParseBody(f.head, f.commentedOut, Body(f, cut), f.compressed, f.scene) == Ok(f) <==>
      IsInPlace(f) && AreEntries(true, f.links) && AreEntries(false, f.embedded)
  {
    if IsInPlace(f) {
      BodyReadBack(f, cut);
    } else if OneEndsIn(f.links, FILES_TEXT) {
      LinkTakenForHeading(f, cut);
    } else {
      FileTakenForHeading(f, cut);
    }
  }
}
