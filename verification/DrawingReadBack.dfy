/** The whole of a printed drawing file, found again by its headings and parsed
    (`packages/plugin/src/excalidraw-format.ts`). */
module DrawingReadBack {
  import opened Json
  import opened DrawingFormat
  import opened DrawingSections
  import opened DrawingRoundTrip

  // ---- The data heading ----

  /** The two headings, with the last newline or at the text's end. */
  function TitleThen(rest: string): string {
    TITLE + "\n" + TEXTS + rest
  }

  const TITLE_LENGTH := 35

  lemma TitleParts(rest: string, x: string)
    requires x == TitleThen(rest)
    ensures |x| == TITLE_LENGTH + |rest| && x[0] == '#' && x[TITLE_LENGTH..] == rest
    ensures x[0..18] == TITLE && x[18..19] == "\n" && x[19..35] == TEXTS && (rest != "" ==> x[35] == rest[0])
  {
    assert |TITLE| == 18 && |TEXTS| == 16 && TITLE[0] == '#';
    assert x == TITLE + ("\n" + (TEXTS + rest));
  }

  lemma TitleRead(pre: string, rest: string, x: string, s: string)
    requires s == pre + x && x == TitleThen(rest) && (rest == "" || rest[0] == '\n')
    ensures TitleEnd(s, |pre|) == Some(|pre| + TITLE_LENGTH + (if rest == "" then 0 else 1))
    ensures s[|pre|] == '#'
  {
    TitleParts(rest, x);
    assert |TITLE| == 18 && |TEXTS| == 16;
    SliceIn(pre, x, s, 0, 18);
    SliceIn(pre, x, s, 18, 19);
    SliceIn(pre, x, s, 19, 35);
    assert s[|pre|] == x[0];
    if rest != "" { assert s[|pre| + 35] == rest[0]; }
  }

  /** Where the heading is in what comes before the drawing, under a mark. */
  lemma MarkedRead(head: string, rest: string, x: string, s: string)
    requires s == (head + MARK) + x && x == TitleThen(rest) && (rest == "" || rest[0] == '\n')
    ensures HeadingFrom(s, |head|) == Some(Heading(|head|, true,
        |head| + 3 + TITLE_LENGTH + (if rest == "" then 0 else 1)))
  {
    TitleRead(head + MARK, rest, x, s);
    assert |MARK| == 3;
    assert s[|head|..|head| + 3] == MARK;
  }

  /** And under none. */
  lemma PlainRead(head: string, rest: string, x: string, s: string)
    requires s == head + x && x == TitleThen(rest) && (rest == "" || rest[0] == '\n')
    ensures HeadingFrom(s, |head|) == Some(Heading(|head|, false,
        |head| + TITLE_LENGTH + (if rest == "" then 0 else 1)))
  {
    TitleRead(head, rest, x, s);
    assert MARK[0] == '%';
    if StartsAt(s, |head|, MARK) { CharsAt(s, |head|, MARK); }
  }

  lemma {:induction false} SkipIsNewlines(s: string, i: nat)
    requires i <= |s|
    ensures forall k | i <= k < SkipNewlines(s, i) :: s[k] == '\n'
    decreases |s| - i
  {
    if i < |s| && s[i] == '\n' { SkipIsNewlines(s, i + 1); }
  }

  /** No heading in the head: neither its own, nor the file's reached over a mark the head ends in. */
  lemma NoHeadingIn(head: string, tail: string, s: string, i: nat)
    requires s == head + tail && EndsLine(head) && i < |head| && IsLineStart(s, i)
    requires NoHit(head, TITLE_TEXT, true) && tail != "" && (tail[0] == '%' || (tail[0] == '#' && !EndsInMark(head)))
    ensures HeadingFrom(s, i) == None
  {
    HeadingTexts();
    if StartsAt(s, i, MARK) {
      NoHeadingAfterMark(head, tail, s, i, SkipNewlines(s, i + 3));
    } else if StartsAt(s, i, TITLE) {
      assert !Hits(head, i, TITLE_TEXT, true);
      assert Hits(s, i, TITLE_TEXT, true);
      HitWithin(head, tail, i, TITLE_TEXT, true);
    }
  }

  lemma NoHeadingAfterMark(head: string, tail: string, s: string, i: nat, e: nat)
    requires s == head + tail && EndsLine(head) && i < |head| && IsLineStart(s, i) && StartsAt(s, i, MARK)
    requires NoHit(head, TITLE_TEXT, true) && tail != "" && (tail[0] == '%' || (tail[0] == '#' && !EndsInMark(head)))
    requires e == SkipNewlines(s, i + 3)
    ensures TitleEnd(s, e) == None
  {
    HeadingTexts();
    CharsAt(s, i, MARK);
    assert MARK[0] == '%' && MARK[1] == '%' && MARK[2] == '\n';
    assert s[i] == '%' && s[i + 1] == '%' && s[i + 2] == '\n';
    assert s[|head| - 1] == '\n' && s[|head|] == tail[0];
    SkipIsNewlines(s, i + 3);
    assert e <= |head|;
    if StartsAt(s, e, TITLE) {
      CharsAt(s, e, TITLE);
      assert s[e - 1] == '\n' && s[e] == '#';
      if e < |head| {
        assert Hits(s, e, TITLE_TEXT, true);
        HitWithin(head, tail, e, TITLE_TEXT, true);
      } else {
        assert s[i..i + 3] == head[i..i + 3];
        assert forall k | i + 3 <= k < |head| :: head[k] == s[k] == '\n';
        assert IsLineStart(head, i) && StartsAt(head, i, MARK) && AllNewlines(head[i + 3..]);
      }
    }
  }

  lemma {:induction false} FirstHeading(s: string, m: nat, at: nat)
    requires m <= at && HeadingAt(s, at).Some? && forall k | m <= k < at :: HeadingAt(s, k).None?
    ensures FindHeading(s, m) == HeadingAt(s, at)
    decreases at - m
  {
    if m < at { FirstHeading(s, m + 1, at); }
  }

  /** The heading found is the one that was printed. */
  lemma HeadingFound(head: string, tail: string, s: string)
    requires s == head + tail && EndsLine(head) && HeadingFrom(s, |head|).Some?
    requires NoHit(head, TITLE_TEXT, true) && tail != "" && (tail[0] == '%' || (tail[0] == '#' && !EndsInMark(head)))
    ensures FindHeading(s, 0) == HeadingFrom(s, |head|)
  {
    var at := if head == "" then 0 else |head| - 1;
    forall i | 0 <= i < |head| && IsLineStart(s, i)
      ensures HeadingFrom(s, i) == None
    {
      NoHeadingIn(head, tail, s, i);
    }
    if head != "" { assert s[at] == '\n'; }
    forall k | 0 <= k < at
      ensures HeadingAt(s, k) == None
    {
      assert s[k] == '\n' ==> IsLineStart(s, k + 1);
    }
    FirstHeading(s, 0, at);
  }

  // ---- The mark before the drawing ----

  /** Ends in a line of three characters or more, and an empty line. */
  predicate EndsFull(s: string) {
    |s| >= 5 && s[|s| - 1] == '\n' && s[|s| - 2] == '\n' && s[|s| - 3] != '\n' && s[|s| - 5] != '\n'
  }

  lemma FullJoined(a: string, b: string)
    requires EndsFull(b)
    ensures EndsFull(a + b)
  {
  }

  lemma {:induction false} EntriesEndFull(links: bool, entries: seq<(string, string)>)
    requires AreLines(links, entries) && entries != []
    ensures EndsFull(KeyedEntries(entries))
  {
    var e := entries[0];
    EntryLine(links, e);
    assert KeyedEntry(e) == LineOf(e) + "\n\n" && |LineOf(e)| >= 3;
    if |entries| == 1 {
      assert KeyedEntries(entries) == KeyedEntry(e);
    } else {
      EntriesEndFull(links, entries[1..]);
      FullJoined(KeyedEntry(e), KeyedEntries(entries[1..]));
    }
  }

  lemma {:induction false} TextsEndFull(texts: seq<(string, string)>)
    requires AreTexts(texts) && texts != []
    ensures EndsFull(TextEntries(texts))
  {
    var t, s := texts[0], TextEntry(texts[0]);
    assert |s| == |t.1| + 12 && s[|t.1| + 7] == t.0[5] && s[|t.1| + 9] == t.0[7];
    if |texts| == 1 {
      assert TextEntries(texts) == s;
    } else {
      TextsEndFull(texts[1..]);
      FullJoined(s, TextEntries(texts[1..]));
    }
  }

  lemma TextPartEndsFull<S>(f: File<S>)
    requires AreTexts(f.texts) && TextPart(f) != ""
    ensures EndsFull(TextPart(f))
  {
    if f.texts != [] {
      TextsEndFull(f.texts);
      FullJoined(DummyEntry(f.dummy), TextEntries(f.texts));
    } else {
      var s := TextPart(f);
      assert s == DummyEntry(true);
      assert |s| == 12 && s[7] == 'y' && s[9] == '_';
    }
  }

  lemma SectionEndsFull(links: bool, before: string, heading: string, entries: seq<(string, string)>)
    requires AreLines(links, entries) && entries != []
    ensures EndsFull(before + Section(heading, entries))
  {
    EntriesEndFull(links, entries);
    FullJoined(heading, KeyedEntries(entries));
    FullJoined(before, heading + KeyedEntries(entries));
  }

  /** What data there is ends in a whole line and an empty one. */
  lemma DataEndsFull<S>(f: File<S>)
    requires IsOrdinary(f) && Data(f) != ""
    ensures EndsFull(Data(f))
  {
    if f.embedded != [] {
      SectionEndsFull(false, TextPart(f) + Section(LINKS, f.links), FILES, f.embedded);
    } else if f.links != [] {
      SectionEndsFull(true, TextPart(f), LINKS, f.links);
      assert Data(f) == TextPart(f) + Section(LINKS, f.links);
    } else {
      assert Data(f) == TextPart(f);
      TextPartEndsFull(f);
    }
  }

  lemma {:induction false} NoMarkFound(s: string, i: nat)
    requires i <= |s| && forall k | i <= k <= |s| :: !MarkEndsAt(s, k)
    ensures FindMark(s, i) == None
    decreases |s| - i
  {
    if i < |s| { NoMarkFound(s, i + 1); }
  }

  lemma {:induction false} FirstMark(s: string, i: nat, at: nat)
    requires i <= at && MarkEndsAt(s, at) && forall k | i <= k < at :: !MarkEndsAt(s, k)
    ensures FindMark(s, i) == Some(at)
    decreases at - i
  {
    if i < at { FirstMark(s, i + 1, at); }
  }

  /** Data cut short by a newline does not end in a mark. */
  lemma NoMarkInData(s: string, body: string)
    requires EndsFull(s) && body == s[..|s| - 1]
    ensures FindMark(body, 0) == None
  {
    forall k | 0 <= k <= |body|
      ensures !MarkEndsAt(body, k)
    {
      if k + 2 <= |body| {
        assert k < |body| - 3 ==> body[k + 2..][|body| - 4 - k] == body[|body| - 2];
        assert StartsAt(body, k, "%%") ==> body[k + 1] == '%';
      }
    }
    NoMarkFound(body, 0);
  }

  lemma MarkAfterData(s: string, body: string)
    requires EndsLine(s) && body == s + "%%"
    ensures FindMark(body, 0) == Some(|s|) && Slice(body, 0, |s|) == s
  {
    assert body[|s|..|s| + 2] == "%%" && body[|s| + 2..] == "";
    assert body[|s| + 1] == '%';
    forall k | 0 <= k < |s|
      ensures !MarkEndsAt(body, k)
    {
      if k + 2 <= |body| { assert body[k + 2..][|s| - 1 - k] == body[|s| + 1]; }
    }
    FirstMark(body, 0, |s|);
  }

  // ---- What comes before the drawing ----

  /** Everything before the newline that the drawing's heading starts with. */
  function Before<S>(f: File<S>): string {
    if f.commentedOut
    then (f.head + MARK) + TitleThen(if Data(f) == "" then "" else "\n" + Body(f, true))
    else f.head + TitleThen("\n" + (Data(f) + "%%"))
  }

  lemma BeforeIs<S>(f: File<S>)
    ensures Preamble(f) == Before(f) + "\n"
  {
    if !f.commentedOut {
      PlainBefore(f.head, Data(f));
    } else if Data(f) == "" {
      assert Preamble(f) == (f.head + MARK) + Title();
      assert Title() == TitleThen("") + "\n";
    } else {
      BodyIs(f, true);
      MarkedBefore(f.head, Body(f, true));
    }
  }

  lemma TitleJoined(body: string)
    ensures TitleThen("\n" + body) == Title() + body
  {
  }

  lemma PlainBefore(head: string, data: string)
    ensures head + "" + Title() + data + MARK == (head + TitleThen("\n" + (data + "%%"))) + "\n"
  {
    TitleJoined(data + "%%");
    var t := Title();
    assert MARK == "%%" + "\n";
    assert head + t + data + ("%%" + "\n") == (head + (t + (data + "%%"))) + "\n";
  }

  lemma MarkedBefore(head: string, body: string)
    ensures head + MARK + Title() + (body + "\n") + "" == ((head + MARK) + TitleThen("\n" + body)) + "\n"
  {
    TitleJoined(body);
    var t, m := Title(), head + MARK;
    assert m + t + (body + "\n") == (m + (t + body)) + "\n";
  }

  /** The heading found, and what comes before and after it. */
  ghost predicate IsFound(s: string, head: string, mark: bool, body: string) {
    var h := FindHeading(s, 0);
    h.Some? && h.value.commented == mark && Slice(s, 0, h.value.start) == head && Rest(s, h.value.end) == body
  }

  lemma CommentedFound(head: string, rest: string, body: string, x: string, s: string)
    requires EndsLine(head) && NoHit(head, TITLE_TEXT, true)
    requires s == (head + MARK) + x && x == TitleThen(rest) && (if rest == "" then body == "" else rest == "\n" + body)
    ensures IsFound(s, head, true, body)
  {
    MarkedRead(head, rest, x, s);
    MarkFirst(head, x, s);
    HeadingFound(head, MARK + x, s);
    BodyAfterTitle(rest, body, x);
    SliceIn(head + MARK, x, s, if rest == "" then TITLE_LENGTH else TITLE_LENGTH + 1, |x|);
    assert s[0..|head|] == head;
  }

  lemma BodyAfterTitle(rest: string, body: string, x: string)
    requires x == TitleThen(rest) && (if rest == "" then body == "" else rest == "\n" + body)
    ensures var end := if rest == "" then TITLE_LENGTH else TITLE_LENGTH + 1;
      end <= |x| && x[end..|x|] == body
  {
    TitleParts(rest, x);
    if rest == "" {
      assert x[TITLE_LENGTH..|x|] == "";
    } else {
      assert rest[1..] == body;
      assert x[TITLE_LENGTH + 1..|x|] == x[TITLE_LENGTH..][1..];
    }
  }

  lemma MarkFirst(head: string, x: string, s: string)
    requires s == (head + MARK) + x
    ensures s == head + (MARK + x) && MARK + x != "" && (MARK + x)[0] == '%' && |MARK| == 3
  {
  }

  lemma PlainFound(head: string, body: string, x: string, s: string)
    requires EndsLine(head) && NoHit(head, TITLE_TEXT, true) && !EndsInMark(head)
    requires s == head + x && x == TitleThen("\n" + body)
    ensures IsFound(s, head, false, body)
  {
    PlainRead(head, "\n" + body, x, s);
    TitleParts("\n" + body, x);
    HeadingFound(head, x, s);
    assert s[0..|head|] == head;
    assert s[|head| + TITLE_LENGTH + 1..] == body;
  }

  /** The data section, as it stands between its heading and the mark or the drawing. */
  function BodyIn<S>(f: File<S>): string {
    Body(f, f.commentedOut && Data(f) != "")
  }

  function ReadOf<S>(f: File<S>): Parsed<S> {
    ParseBody(f.head, f.commentedOut, BodyIn(f), f.compressed, f.scene)
  }

  lemma CommentedRead<S>(f: File<S>, body: string, s: string)
    requires IsOrdinary(f) && f.commentedOut && IsFound(s, f.head, true, body)
    requires body == if Data(f) == "" then "" else Body(f, true)
    ensures ParseBefore(s, f.compressed, f.scene) == ReadOf(f)
  {
    if Data(f) == "" {
      BodyIs(f, false);
      assert Body(f, false) == "";
      NoMarkFound("", 0);
    } else {
      BodyIs(f, true);
      DataEndsFull(f);
      NoMarkInData(Data(f), body);
    }
  }

  lemma PlainBeforeRead<S>(f: File<S>, body: string, s: string)
    requires IsOrdinary(f) && !f.commentedOut && body == Data(f) + "%%" && IsFound(s, f.head, false, body)
    ensures ParseBefore(s, f.compressed, f.scene) == ReadOf(f)
  {
    if Data(f) != "" { DataEndsFull(f); }
    MarkAfterData(Data(f), body);
    BodyIs(f, false);
    assert Body(f, false) == Data(f);
  }

  /** Of an ordinary file whose head does not comment its data out, the head reads back, and then the data section
      is read. */
  lemma BeforeRead<S>(f: File<S>)
    requires IsOrdinary(f) && (f.commentedOut || !EndsInMark(f.head))
    ensures ParseBefore(Before(f), f.compressed, f.scene) == ReadOf(f)
  {
    if f.commentedOut {
      var body := if Data(f) == "" then "" else Body(f, true);
      var rest := if Data(f) == "" then "" else "\n" + body;
      CommentedFound(f.head, rest, body, TitleThen(rest), Before(f));
      CommentedRead(f, body, Before(f));
    } else {
      var body := Data(f) + "%%";
      PlainFound(f.head, body, TitleThen("\n" + body), Before(f));
      PlainBeforeRead(f, body, Before(f));
    }
  }

  // ---- A head that ends in a mark ----

  lemma {:induction false} HeadingAtMost(s: string, m: nat, at: nat)
    requires m <= at && HeadingAt(s, at).Some?
    ensures var h := FindHeading(s, m); h.Some? && h.value.start <= at + 1
    decreases at - m
  {
    if HeadingAt(s, m).None? { HeadingAtMost(s, m + 1, at); }
  }

  lemma {:induction false} SkipsAll(s: string, i: nat, end: nat)
    requires i <= end <= |s| && (forall k | i <= k < end :: s[k] == '\n') && (end < |s| ==> s[end] != '\n')
    ensures SkipNewlines(s, i) == end
    decreases end - i
  {
    if i < end { SkipsAll(s, i + 1, end); }
  }

  /** Under a mark the head ends in, the heading reads as commented out, from the mark on. */
  lemma HeadingUnderMark(head: string, x: string, s: string, rest: string, i: nat)
    requires s == head + x && x == TitleThen(rest) && (rest == "" || rest[0] == '\n')
    requires i < |head| && StartsAt(head, i, MARK) && AllNewlines(head[i + 3..])
    ensures var h := HeadingFrom(s, i); h.Some? && h.value.start == i
  {
    TitleRead(head, rest, x, s);
    assert |MARK| == 3 && s[i..i + 3] == head[i..i + 3];
    assert forall k | i + 3 <= k < |head| :: s[k] == head[i + 3..][k - i - 3];
    SkipsAll(s, i + 3, |head|);
  }

  /** So the head read is shorter than the one printed. */
  lemma HeadCutShort(head: string, x: string, s: string, rest: string)
    requires s == head + x && x == TitleThen(rest) && (rest == "" || rest[0] == '\n') && EndsInMark(head)
    ensures var h := FindHeading(s, 0); h.Some? && h.value.start < |head|
  {
    var i :| 0 <= i < |head| && IsLineStart(head, i) && StartsAt(head, i, MARK) && AllNewlines(head[i + 3..]);
    HeadingUnderMark(head, x, s, rest, i);
    if i == 0 {
      HeadingAtMost(s, 0, 0);
      assert FindHeading(s, 0) == HeadingAt(s, 0);
    } else {
      assert s[i - 1] == '\n';
      assert HeadingAt(s, i - 1).Some?;
      HeadingAtMost(s, 0, i - 1);
    }
  }

  lemma BodyKeepsHead<S>(head: string, commentedOut: bool, body: string, compressed: bool, scene: S)
    ensures var p := ParseBody(head, commentedOut, body, compressed, scene); p.Ok? ==> p.file.head == head
  {
  }

  /** What is read has the head that ends where the heading found starts. */
  lemma HeadLength<S>(s: string, compressed: bool, scene: S, h: Heading)
    requires FindHeading(s, 0) == Some(h) && h.start <= |s|
    ensures var p := ParseBefore(s, compressed, scene); p.Ok? ==> |p.file.head| == h.start
  {
    var body := Rest(s, h.end);
    var mark := FindMark(body, 0);
    var cut := if h.commented || mark.None? then body else Slice(body, 0, mark.value);
    BodyKeepsHead(s[0..h.start], h.commented, cut, compressed, scene);
  }

  /** A file whose head ends in a mark, above data that is not commented out, does not read back. */
  lemma MarkedHeadGoes<S>(f: File<S>)
    requires !f.commentedOut && EndsInMark(f.head)
    ensures ParseBefore(Before(f), f.compressed, f.scene) != Ok(f)
  {
    var rest := "\n" + (Data(f) + "%%");
    HeadCutShort(f.head, TitleThen(rest), Before(f), rest);
    HeadLength(Before(f), f.compressed, f.scene, FindHeading(Before(f), 0).value);
  }

  lemma BeforeExactly<S>(f: File<S>)
    requires IsOrdinary(f)
    ensures ParseBefore(Before(f), f.compressed, f.scene) == Ok(f) <==> IsPrintable(f)
  {
    if !f.commentedOut && EndsInMark(f.head) {
      MarkedHeadGoes(f);
    } else {
      BeforeRead(f);
      BodyExactly(f, f.commentedOut && Data(f) != "");
    }
  }

  // ---- The drawing ----

  lemma {:induction false} NoCarriage(s: string)
    requires NoCarriageNewline(s)
    ensures UnixLines(s) == s
  {
    if s != "" {
      forall i | 0 <= i < |s[1..]| - 1
        ensures !(s[1..][i] == '\r' && s[1..][i + 1] == '\n')
      {
        assert s[1..][i] == s[i + 1] && s[1..][i + 1] == s[i + 2];
      }
      NoCarriage(s[1..]);
    }
  }

  /** The closing fence is the only one with nothing after it. */
  lemma OnlyFence(s: string, k: nat)
    requires |s| >= 6 && s[|s| - 6..] == FENCE && ClosesAt(s, k)
    ensures k == |s| - 6
  {
    var n := |s| - 6;
    assert |FENCE| == 6 && FENCE[0] == '`' && FENCE[1] == '`' && FENCE[2] == '`' && FENCE[3] == '\n'
        && FENCE[4] == '%' && FENCE[5] == '%';
    CharsAt(s, k, FENCE);
    CharsAt(s, n, FENCE);
    assert s[n] == '`' && s[n + 1] == '`' && s[n + 2] == '`' && s[k + 3] == '\n' && s[k + 4] == '%' && s[k + 5] == '%';
  }

  lemma {:induction false} FirstEnd(s: string, q: nat, at: nat)
    requires q <= at <= |s| && EndsPayload(s, at) && forall k | q <= k < at :: !EndsPayload(s, k)
    ensures PayloadEnd(s, q) == Some(at)
    decreases at - q
  {
    if q < at { FirstEnd(s, q + 1, at); }
  }

  /** The payload found is the one that was printed. */
  lemma PayloadRead(pre: string, payload: string, s: string)
    requires s == pre + payload + "\n" + FENCE
    ensures PayloadEnd(s, |pre|) == Some(|pre| + |payload|) && s[|pre|..|pre| + |payload|] == payload
  {
    var at := |pre| + |payload|;
    assert |FENCE| == 6 && s[at] == '\n' && s[at + 1..] == FENCE;
    assert s[at + 1..at + 7] == FENCE && |s| == at + 7;
    forall k | |pre| <= k < at
      ensures !EndsPayload(s, k)
    {
      if ClosesAt(s, k) { OnlyFence(s, k); }
      if ClosesAt(s, k + 1) { OnlyFence(s, k + 1); }
    }
    FirstEnd(s, |pre|, at);
  }

  lemma SameLine(l: string, w: string, i: nat)
    requires Lacks(l, '\n') && Lacks(w, '\n') && Hits(l + "\n", i, w, true)
    ensures l == w
  {
    var s := l + "\n";
    CharsAt(s, i, w + "\n");
    assert s[i + |w|] == '\n' && i + |w| == |l| && i == 0;
    assert s[..|l|] == l && s[0..|w| + 1] == w + "\n";
    assert s[..|l|] == (w + "\n")[..|w|] == w;
  }

  /** A line that is not the heading does not read as it. */
  lemma OneLine(l: string, w: string)
    requires Lacks(l, '\n') && Lacks(w, '\n') && l != w
    ensures NoHit(l + "\n", w, true) && EndsLine(l + "\n")
  {
    var s := l + "\n";
    forall i | 0 <= i <= |s|
      ensures !Hits(s, i, w, true)
    {
      if Hits(s, i, w, true) { SameLine(l, w, i); }
    }
  }

  lemma TitleLines(w: string)
    requires IsHeadingText(w) && w != TITLE_TEXT && w != TEXTS
    ensures NoHit(Title(), w, true) && EndsLine(Title())
  {
    HeadingTexts();
    OneLine(TITLE_TEXT, w);
    OneLine("", w);
    assert Lacks(TEXTS, '\n');
    OneLine(TEXTS, w);
    NoHitJoined(TITLE, "" + "\n", w, true);
    NoHitJoined(TITLE + ("" + "\n"), TEXTS + "\n", w, true);
    assert Title() == TITLE + ("" + "\n") + (TEXTS + "\n");
  }

  lemma MarkLines(b: bool, w: string)
    requires IsHeadingText(w)
    ensures NoHit(MarkIf(b), w, true) && EndsLine(MarkIf(b))
  {
    assert MARK[2] == '\n' && |MARK| == 3;
    TooShort(MarkIf(b), w, true);
  }

  lemma DataLines<S>(f: File<S>, w: string)
    requires IsOrdinary(f) && IsHeadingText(w) && w != LINKS_TEXT && w != FILES_TEXT
    requires forall i | 0 <= i < |f.texts| :: NoHit(f.texts[i].1, w, true)
    ensures NoHit(Data(f), w, true) && EndsLine(Data(f))
  {
    HeadingTexts();
    TextPartLines(f, w, true);
    OneLine(LINKS_TEXT, w);
    SectionLines(true, LINKS, f.links, w, true);
    NoHitJoined(TextPart(f), Section(LINKS, f.links), w, true);
    OneLine(FILES_TEXT, w);
    SectionLines(false, FILES, f.embedded, w, true);
    NoHitJoined(TextPart(f) + Section(LINKS, f.links), Section(FILES, f.embedded), w, true);
  }

  /** Nothing before the drawing reads as its heading. */
  lemma PreambleLines<S>(f: File<S>, w: string)
    requires IsOrdinary(f) && (w == DRAWING_1 || w == DRAWING_2)
    ensures NoHit(Preamble(f), w, true) && EndsLine(Preamble(f))
  {
    HeadingTexts();
    Distinct(w);
    MarkLines(f.commentedOut, w);
    NoHitJoined(f.head, MarkIf(f.commentedOut), w, true);
    TitleLines(w);
    NoHitJoined(f.head + MarkIf(f.commentedOut), Title(), w, true);
    DataLines(f, w);
    NoHitJoined(f.head + MarkIf(f.commentedOut) + Title(), Data(f), w, true);
    MarkLines(!f.commentedOut, w);
    NoHitJoined(f.head + MarkIf(f.commentedOut) + Title() + Data(f), MarkIf(!f.commentedOut), w, true);
  }

  lemma Distinct(w: string)
    requires w == DRAWING_1 || w == DRAWING_2
    ensures w != TITLE_TEXT && w != TEXTS && w != LINKS_TEXT && w != FILES_TEXT
  {
    assert |DRAWING_1| == 9 && |DRAWING_2| == 10 && |TITLE_TEXT| == 17 && |TEXTS| == 16 && |LINKS_TEXT| == 16
        && |FILES_TEXT| == 17;
  }

  lemma HeadsAre()
    ensures H2_DRAWING == "\n" + (DRAWING_2 + "\n" + "```") && H1_DRAWING == "\n" + (DRAWING_1 + "\n" + "```")
    ensures |H2_DRAWING| == 15 && H2_DRAWING[0] == '\n' && "\n" + H2_DRAWING[1..] == H2_DRAWING
  {
  }

  /** The drawing's heading, in the preamble, would be a line of it. */
  lemma NoHeadBefore(pre: string, rest: string, s: string, m: nat, w: string, h: string)
    requires s == pre + rest && EndsLine(pre) && m + 1 < |pre| && Lacks(w, '\n') && NoHit(pre, w, true)
    requires h == "\n" + (w + "\n" + "```")
    ensures !StartsAt(s, m, h)
  {
    if StartsAt(s, m, h) {
      CharsAt(s, m, h);
      assert s[m] == h[0] == '\n';
      assert s[m + 1..m + 1 + |w| + 1] == h[1..|w| + 2] == w + "\n";
      assert Hits(s, m + 1, w, true);
      HitWithin(pre, rest, m + 1, w, true);
    }
  }

  lemma {:induction false} FirstBlock(s: string, i: nat, at: nat)
    requires i <= at && BlockAt(s, at).Some? && forall k | i <= k < at :: BlockAt(s, k).None?
    ensures FindBlock(s, i) == BlockAt(s, at)
    decreases at - i
  {
    if i < at { FirstBlock(s, i + 1, at); }
  }

  lemma TagRead(pre: string, compressed: bool, rest: string, s: string)
    requires s == pre + (Tag(compressed) + rest)
    ensures TagAt(s, |pre|) == Some((compressed, |pre| + |Tag(compressed)|))
  {
    var t := Tag(compressed);
    assert s[|pre|..|pre| + |t|] == t;
    assert s[|pre|] == t[0];
    assert TAG_PACKED[0] == 'c' && TAG_JSON[0] == 'j';
    if StartsAt(s, |pre|, TAG_PACKED) { CharsAt(s, |pre|, TAG_PACKED); }
  }

  lemma BlockOf(s: string, i: nat, compressed: bool, from: nat, end: nat, payload: string)
    requires StartsAt(s, i, H2_DRAWING) && TagAt(s, i + |H2_DRAWING|) == Some((compressed, from))
    requires PayloadEnd(s, from) == Some(end) && s[from..end] == payload
    ensures BlockAt(s, i) == Some(Block(i, compressed, payload))
  {
  }

  lemma BlockRead(b: string, compressed: bool, payload: string, p: string, q: string, s: string)
    requires p == b + H2_DRAWING && q == p + Tag(compressed) && s == q + payload + "\n" + FENCE
    ensures BlockAt(s, |b|) == Some(Block(|b|, compressed, payload))
  {
    var rest := Tag(compressed) + (payload + "\n" + FENCE);
    Regrouped(p, Tag(compressed), payload, q, s);
    TagRead(p, compressed, payload + "\n" + FENCE, s);
    PayloadRead(q, payload, s);
    HeadRead(b, rest, s);
    BlockOf(s, |b|, compressed, |q|, |q| + |payload|, payload);
  }

  lemma Regrouped(p: string, tag: string, payload: string, q: string, s: string)
    requires q == p + tag && s == q + payload + "\n" + FENCE
    ensures s == p + (tag + (payload + "\n" + FENCE))
  {
  }

  lemma HeadRead(b: string, rest: string, s: string)
    requires s == (b + H2_DRAWING) + rest
    ensures StartsAt(s, |b|, H2_DRAWING)
  {
    assert s[|b|..|b| + |H2_DRAWING|] == H2_DRAWING;
  }

  /** The block found in a printed file is the one that was printed. */
  lemma BlockFound<S>(f: File<S>, b: string, rest: string, payload: string, s: string)
    requires IsOrdinary(f) && Preamble(f) == b + "\n"
        && s == ((b + H2_DRAWING) + Tag(f.compressed)) + payload + "\n" + FENCE
    requires s == Preamble(f) + rest
    ensures FindBlock(s, 0) == Some(Block(|b|, f.compressed, payload))
  {
    BlockRead(b, f.compressed, payload, b + H2_DRAWING, (b + H2_DRAWING) + Tag(f.compressed), s);
    HeadsAre();
    HeadingTexts();
    PreambleLines(f, DRAWING_1);
    PreambleLines(f, DRAWING_2);
    forall m | 0 <= m < |b|
      ensures BlockAt(s, m) == None
    {
      NoHeadBefore(Preamble(f), rest, s, m, DRAWING_2, H2_DRAWING);
      NoHeadBefore(Preamble(f), rest, s, m, DRAWING_1, H1_DRAWING);
    }
    FirstBlock(s, 0, |b|);
  }

  // ---- The round trip ----

  /** An ordinary file, printed, parses to the file that was printed, in both layouts, with and without the dummy
      entry, if and only if no line of it ends in a heading still to come, no id starts with a hash, no link with a
      blank, and no mark ends the head above data that is not commented out. */
  lemma RoundTripExactly<S>(f: File<S>, write: (bool, S) -> string, read: (bool, string) -> Option<S>)
    requires IsOrdinary(f) && read(f.compressed, write(f.compressed, f.scene)) == Some(f.scene)
    requires NoCarriageNewline(Printed(f, write))
    ensures Parse(Printed(f, write), read) == Ok(f) <==> IsPrintable(f)
  {
    BeforeIs(f);
    BeforeExactly(f);
    FoundInPrinted(f, Before(f), write(f.compressed, f.scene), Printed(f, write));
    ParsedWhole(f, Printed(f, write), Before(f), write(f.compressed, f.scene), read);
  }

  /** So a printable file parses to the file that was printed. */
  lemma RoundTrip<S>(f: File<S>, write: (bool, S) -> string, read: (bool, string) -> Option<S>)
    requires IsPrintable(f) && read(f.compressed, write(f.compressed, f.scene)) == Some(f.scene)
    requires NoCarriageNewline(Printed(f, write))
    ensures Parse(Printed(f, write), read) == Ok(f)
  {
    RoundTripExactly(f, write, read);
  }

  predicate NoCarriageNewline(s: string) {
    forall i | 0 <= i < |s| - 1 :: !(s[i] == '\r' && s[i + 1] == '\n')
  }

  lemma FoundInPrinted<S>(f: File<S>, b: string, payload: string, s: string)
    requires IsOrdinary(f) && Preamble(f) == b + "\n" && s == Preamble(f) + DrawingPart(f.compressed, payload)
    ensures FindBlock(s, 0) == Some(Block(|b|, f.compressed, payload)) && Slice(s, 0, |b|) == b
  {
    PartsJoined(b, f.compressed, payload);
    BlockFound(f, b, DrawingPart(f.compressed, payload), payload, s);
    assert s[0..|b|] == b;
  }

  lemma PartsJoined(b: string, compressed: bool, payload: string)
    ensures (b + "\n") + DrawingPart(compressed, payload) ==
        ((b + H2_DRAWING) + Tag(compressed)) + payload + "\n" + FENCE
  {
    HeadsAre();
    assert (b + "\n") + H2_DRAWING[1..] == b + H2_DRAWING;
  }

  lemma ParsedWhole<S>(f: File<S>, s: string, b: string, payload: string, read: (bool, string) -> Option<S>)
    requires NoCarriageNewline(s) && FindBlock(s, 0) == Some(Block(|b|, f.compressed, payload)) && Slice(s, 0, |b|) == b
    requires read(f.compressed, payload) == Some(f.scene)
    ensures Parse(s, read) == ParseBefore(b, f.compressed, f.scene)
  {
    NoCarriage(s);
  }
}
