/** The text of an Excalidraw drawing file, printed and parsed (`packages/plugin/src/excalidraw-format.ts`).

    Each regular expression is a scanner: what matches at a position, and the first position from one on at
    which it does. How a scene is written and compressed is left to `write` and `read`. */
module DrawingFormat {
  import opened Json

  /** A drawing file, taken apart. */
  datatype File<S> = File(
    head: string,
    commentedOut: bool,
    dummy: bool,
    texts: seq<(string, string)>,
    links: seq<(string, string)>,
    embedded: seq<(string, string)>,
    compressed: bool,
    scene: S)

  datatype Problem = NoDrawing | NotDecoded | NoHeading | NoMark | SecondMark | OutOfOrder | UnknownSection
      | StrayText | BadLink | BadFile

  datatype Parsed<S> = Ok(file: File<S>) | Bad(why: Problem)

  const H2_DRAWING := "\n## Drawing\n```"
  const H1_DRAWING := "\n# Drawing\n```"
  const TAG_PACKED := "compressed-json\n"
  const TAG_JSON := "json\n"
  const FENCE := "```\n%%"
  const MARK := "%%\n"
  const TITLE := "# Excalidraw Data\n"
  const TEXTS := "## Text Elements"
  const LINKS := "## Element Links\n"
  const FILES := "## Embedded Files\n"
  const DUMMY_ID := "_dummy!_"

  // ---- Characters ----

  /** What `\s` matches. */
  predicate IsSpace(c: char) {
    || '\t' <= c <= '\r' || c == ' ' || c == '\U{00A0}' || c == '\U{1680}' || '\U{2000}' <= c <= '\U{200A}'
    || c == '\U{2028}' || c == '\U{2029}' || c == '\U{202F}' || c == '\U{205F}' || c == '\U{3000}' || c == '\U{FEFF}'
  }

  /** What `.` matches: no line terminator. */
  predicate IsDot(c: char) {
    c != '\n' && c != '\r' && c != '\U{2028}' && c != '\U{2029}'
  }

  predicate IsTrailing(c: char) {
    c == ' ' || c == '\t' || c == '\r' || c == '\n'
  }

  predicate AllDots(s: string) {
    forall i | 0 <= i < |s| :: IsDot(s[i])
  }

  predicate IsBlank(s: string) {
    forall i | 0 <= i < |s| :: IsSpace(s[i])
  }

  predicate AllNewlines(s: string) {
    forall i | 0 <= i < |s| :: s[i] == '\n'
  }

  predicate StartsAt(s: string, i: nat, p: string) {
    i + |p| <= |s| && s[i..i + |p|] == p
  }

  /** The first position of `p`, from `i` on. */
  function IndexOf(s: string, p: string, i: nat): Option<nat>
    decreases |s| - i
  {
    if StartsAt(s, i, p) then Some(i) else if i >= |s| then None else IndexOf(s, p, i + 1)
  }

  function SkipNewlines(s: string, i: nat): (j: nat)
    requires i <= |s|
    ensures i <= j <= |s|
    decreases |s| - i
  {
    if i < |s| && s[i] == '\n' then SkipNewlines(s, i + 1) else i
  }

  function UnixLines(s: string): string {
    if s == "" then ""
    else if |s| > 1 && s[0] == '\r' && s[1] == '\n' then "\n" + UnixLines(s[2..])
    else [s[0]] + UnixLines(s[1..])
  }

  // ---- The drawing block ----

  datatype Block = Block(index: nat, compressed: bool, payload: string)

  /** The fence and the closing mark, with nothing but blanks after. */
  predicate ClosesAt(s: string, k: nat) {
    StartsAt(s, k, FENCE) && forall j | k + |FENCE| <= j < |s| :: IsTrailing(s[j])
  }

  predicate EndsPayload(s: string, q: nat) {
    (q < |s| && s[q] == '\n' && ClosesAt(s, q + 1)) || ClosesAt(s, q)
  }

  /** The end of the shortest payload from `q` on. */
  function PayloadEnd(s: string, q: nat): (end: Option<nat>)
    ensures end.Some? ==> q <= end.value <= |s|
    decreases |s| - q
  {
    if q > |s| then None
    else if EndsPayload(s, q) then Some(q)
    else if q == |s| then None
    else PayloadEnd(s, q + 1)
  }

  /** After a heading and an open fence: whether the payload is compressed, and where it starts. */
  function TagAt(s: string, i: nat): Option<(bool, nat)> {
    if StartsAt(s, i, TAG_PACKED) then Some((true, i + |TAG_PACKED|))
    else if StartsAt(s, i, TAG_JSON) then Some((false, i + |TAG_JSON|))
    else None
  }

  function BlockAt(s: string, i: nat): Option<Block> {
    var tag := if StartsAt(s, i, H2_DRAWING) then TagAt(s, i + |H2_DRAWING|)
               else if StartsAt(s, i, H1_DRAWING) then TagAt(s, i + |H1_DRAWING|) else None;
    if tag.None? then None
    else
      var end := PayloadEnd(s, tag.value.1);
      if end.None? then None else Some(Block(i, tag.value.0, s[tag.value.1..end.value]))
  }

  function FindBlock(s: string, i: nat): Option<Block>
    decreases |s| - i
  {
    if BlockAt(s, i).Some? then BlockAt(s, i) else if i >= |s| then None else FindBlock(s, i + 1)
  }

  // ---- The data heading ----

  datatype Heading = Heading(start: nat, commented: bool, end: nat)

  /** The two headings from `i` on, and where the data after them starts. */
  function TitleEnd(s: string, i: nat): (end: Option<nat>)
    ensures end.Some? ==> i < end.value <= |s|
  {
    if !StartsAt(s, i, TITLE) then None
    else
      var j := if StartsAt(s, i + |TITLE|, "\n") then i + |TITLE| + 1 else i + |TITLE|;
      if !StartsAt(s, j, TEXTS) then None
      else if j + |TEXTS| == |s| then Some(|s|)
      else if s[j + |TEXTS|] == '\n' then Some(j + |TEXTS| + 1)
      else None
  }

  /** The heading at the start of a line, with or without a mark above it. */
  function HeadingFrom(s: string, i: nat): Option<Heading> {
    if StartsAt(s, i, MARK) then
      var end := TitleEnd(s, SkipNewlines(s, i + |MARK|));
      if end.Some? then Some(Heading(i, true, end.value)) else None
    else
      var end := TitleEnd(s, i);
      if end.Some? then Some(Heading(i, false, end.value)) else None
  }

  function HeadingAt(s: string, m: nat): Option<Heading> {
    if m == 0 && HeadingFrom(s, 0).Some? then HeadingFrom(s, 0)
    else if m < |s| && s[m] == '\n' then HeadingFrom(s, m + 1)
    else None
  }

  function FindHeading(s: string, m: nat): Option<Heading>
    decreases |s| - m
  {
    if HeadingAt(s, m).Some? then HeadingAt(s, m) else if m >= |s| then None else FindHeading(s, m + 1)
  }

  /** A line starts at `i`. */
  predicate IsLineStart(s: string, i: nat) {
    i <= |s| && (i == 0 || s[i - 1] == '\n')
  }

  /** A mark on a line of its own at `i`, and after it only newlines. */
  predicate MarkEndsAt(s: string, i: nat) {
    IsLineStart(s, i) && StartsAt(s, i, "%%") && AllNewlines(s[i + 2..])
  }

  function FindMark(s: string, i: nat): Option<nat>
    decreases |s| - i
  {
    if MarkEndsAt(s, i) then Some(i) else if i >= |s| then None else FindMark(s, i + 1)
  }

  /** Signs of data in a file without the heading: a mark on a line, or one of the headings. */
  predicate HasDataSigns(s: string) {
    exists i | 0 <= i < |s| :: IsLineStart(s, i) && (IsMarkLine(s, i) || IsDataHeading(s, i))
  }

  predicate IsMarkLine(s: string, i: nat) {
    StartsAt(s, i, "%%") &&
    exists j | i + 2 <= j <= |s| :: (j == |s| || s[j] == '\n')
        && forall k | i + 2 <= k < j :: s[k] == ' ' || s[k] == '\t'
  }

  predicate IsWordChar(c: char) {
    'a' <= c <= 'z' || 'A' <= c <= 'Z' || '0' <= c <= '9' || c == '_'
  }

  predicate IsDataHeading(s: string, i: nat) {
    exists hash, name | hash in {"# ", "## "} &&
        name in {"Excalidraw Data", "Text Elements", "Element Links", "Embedded Files"} ::
      StartsAt(s, i, hash + name) && (i + |hash + name| == |s| || !IsWordChar(s[i + |hash + name|]))
  }

  // ---- Lines of a section ----

  predicate HasHashLine(s: string) {
    exists i | 0 <= i < |s| :: IsLineStart(s, i) && s[i] == '#'
  }

  function LineEnd(s: string, i: nat): (j: nat)
    requires i <= |s|
    ensures i <= j <= |s| && (j < |s| ==> s[j] == '\n')
    decreases |s| - i
  {
    if i == |s| || s[i] == '\n' then i else LineEnd(s, i + 1)
  }

  /** `id: link`, the id of eight characters. */
  function LinkLine(line: string): Option<(string, string)> {
    if |line| > 8 && AllDots(line[..8]) && line[8] == ':' && AllDots(Trimmed(line[9..]))
    then Some((line[..8], Trimmed(line[9..]))) else None
  }

  function Trimmed(s: string): string {
    if s != "" && IsSpace(s[0]) then Trimmed(s[1..]) else s
  }

  /** `key: value`, up to the first colon. */
  function FileLine(line: string): Option<(string, string)> {
    var c := Colon(line, 0);
    if c > 0 && !IsSpace(line[0]) && StartsAt(line, c, ": ") && AllDots(line[c + 2..])
    then Some((line[..c], line[c + 2..])) else None
  }

  function Colon(s: string, i: nat): (j: nat)
    requires i <= |s|
    ensures i <= j <= |s|
    decreases |s| - i
  {
    if i == |s| || s[i] == ':' then i else Colon(s, i + 1)
  }

  function EntryOf(links: bool, line: string): Option<(string, string)> {
    if links then LinkLine(line) else FileLine(line)
  }

  /** One line before the entries of the rest: blank, it is passed over; and nothing fits after one that does not. */
  function WithLine(links: bool, line: string, rest: Option<seq<(string, string)>>): Option<seq<(string, string)>> {
    if IsBlank(line) then rest
    else if EntryOf(links, line).None? || rest.None? then None
    else Some([EntryOf(links, line).value] + rest.value)
  }

  /** The entries of a section's lines from `i` on; nothing if a line does not fit. */
  function KeyedLines(links: bool, s: string, i: nat): Option<seq<(string, string)>>
    requires i <= |s|
    decreases |s| - i
  {
    var j := LineEnd(s, i);
    WithLine(links, s[i..j], if j == |s| then Some([]) else KeyedLines(links, s, j + 1))
  }

  // ---- Text elements ----

  /** A block reference: a blank, a caret, eight characters, and a newline. */
  predicate RefAt(s: string, m: nat) {
    m + 10 < |s| && IsSpace(s[m]) && s[m + 1] == '^' && AllDots(s[m + 2..m + 10]) && s[m + 10] == '\n'
  }

  function FindRef(s: string, m: nat): (r: Option<nat>)
    ensures r.Some? ==> m <= r.value && r.value + 10 < |s|
    decreases |s| - m
  {
    if RefAt(s, m) then Some(m) else if m >= |s| then None else FindRef(s, m + 1)
  }

  function Slice(s: string, i: nat, j: nat): string {
    if i <= j <= |s| then s[i..j] else ""
  }

  function Rest(s: string, i: nat): string {
    if i <= |s| then s[i..] else ""
  }

  datatype Texts = Texts(entries: seq<(string, string)>, dummy: bool, position: nat)

  predicate IsDummy(id: string, raw: string) {
    id == DUMMY_ID && IsBlank(raw)
  }

  function WithoutLead(raw: string): string {
    raw[SkipNewlines(raw, 0)..]
  }

  /** One entry before the rest. */
  function WithEntry(id: string, raw: string, rest: Texts): Texts {
    if IsDummy(id, raw) then rest.(dummy := true) else rest.(entries := [(id, WithoutLead(raw))] + rest.entries)
  }

  /** The entries from `m` on, the text of the next one starting at `position`. */
  function TextsFrom(s: string, m: nat, position: nat): Texts
    decreases |s| - m, 1
  {
    var at := FindRef(s, m);
    if at.None? then Texts([], false, position) else TextsAt(s, at.value, position)
  }

  /** The entry that a reference ends, and those after it. */
  function TextsAt(s: string, r: nat, position: nat): Texts
    requires r + 10 < |s|
    decreases |s| - r, 0
  {
    WithEntry(s[r + 2..r + 10], Slice(s, position, r), TextsFrom(s, SkipNewlines(s, r + 10), r + 12))
  }

  // ---- Parsing ----

  /** The data section's parts. */
  datatype Sections = Sections(texts: string, links: string, files: string)

  /** The data section cut where its headings are; nothing where they are out of order. */
  function CutAt(body: string, linksAt: Option<nat>, filesAt: Option<nat>): Option<Sections> {
    var filesFrom := if filesAt.Some? then filesAt.value else |body|;
    if linksAt.Some? && filesFrom < linksAt.value then None
    else Some(Sections(
      Slice(body, 0, if linksAt.Some? then linksAt.value else filesFrom),
      if linksAt.Some? then Slice(body, linksAt.value + |LINKS|, filesFrom) else "",
      if filesAt.Some? then Rest(body, filesAt.value + |FILES|) else ""))
  }

  function CutBody(body: string): Option<Sections> {
    CutAt(body, IndexOf(body, LINKS, 0), IndexOf(body, FILES, 0))
  }

  function ReadSections<S>(head: string, commentedOut: bool, s: Sections, compressed: bool, scene: S): Parsed<S> {
    if HasHashLine(s.links) || HasHashLine(s.files) then Bad(UnknownSection)
    else
      var texts := TextsFrom(s.texts, 0, 0);
      var links, files := KeyedLines(true, s.links, 0), KeyedLines(false, s.files, 0);
      if !IsBlank(Rest(s.texts, texts.position)) then Bad(StrayText)
      else if links.None? then Bad(BadLink)
      else if files.None? then Bad(BadFile)
      else Ok(File(head, commentedOut, texts.dummy, texts.entries, links.value, files.value, compressed, scene))
  }

  /** The data section, from after its heading to the drawing. */
  function ParseBody<S>(head: string, commentedOut: bool, body: string, compressed: bool, scene: S): Parsed<S> {
    var s := CutBody(body);
    if s.None? then Bad(OutOfOrder) else ReadSections(head, commentedOut, s.value, compressed, scene)
  }

  function ParseBefore<S>(before: string, compressed: bool, scene: S): Parsed<S> {
    var heading := FindHeading(before, 0);
    if heading.None? then
      if HasDataSigns(before) then Bad(NoHeading)
      else Ok(File(before, false, false, [], [], [], compressed, scene))
    else
      var head, body := Slice(before, 0, heading.value.start), Rest(before, heading.value.end);
      var mark := FindMark(body, 0);
      if heading.value.commented then
        if mark.Some? then Bad(SecondMark) else ParseBody(head, true, body, compressed, scene)
      else if mark.None? then Bad(NoMark)
      else ParseBody(head, false, Slice(body, 0, mark.value), compressed, scene)
  }

  function Parse<S>(text: string, read: (bool, string) -> Option<S>): Parsed<S> {
    var src := UnixLines(text);
    var block := FindBlock(src, 0);
    if block.None? then Bad(NoDrawing)
    else
      var scene := read(block.value.compressed, block.value.payload);
      if scene.None? then Bad(NotDecoded)
      else ParseBefore(Slice(src, 0, block.value.index), block.value.compressed, scene.value)
  }

  // ---- Printing ----

  function TextEntry(t: (string, string)): string {
    t.1 + " ^" + t.0 + "\n\n"
  }

  function KeyedEntry(e: (string, string)): string {
    e.0 + ": " + e.1 + "\n\n"
  }

  function TextEntries(texts: seq<(string, string)>): string {
    if texts == [] then "" else TextEntry(texts[0]) + TextEntries(texts[1..])
  }

  function KeyedEntries(entries: seq<(string, string)>): string {
    if entries == [] then "" else KeyedEntry(entries[0]) + KeyedEntries(entries[1..])
  }

  function Section(heading: string, entries: seq<(string, string)>): string {
    if entries == [] then "" else heading + KeyedEntries(entries)
  }

  function DummyEntry(dummy: bool): string {
    if dummy then "\n^" + DUMMY_ID + "\n\n" else ""
  }

  function TextPart<S>(f: File<S>): string {
    DummyEntry(f.dummy) + TextEntries(f.texts)
  }

  /** Everything between the data heading and the drawing's mark. */
  function Data<S>(f: File<S>): string {
    TextPart(f) + Section(LINKS, f.links) + Section(FILES, f.embedded)
  }

  function MarkIf(b: bool): string {
    if b then MARK else ""
  }

  function Title(): string {
    TITLE + "\n" + TEXTS + "\n"
  }

  /** Everything before the drawing's heading. */
  function Preamble<S>(f: File<S>): string {
    f.head + MarkIf(f.commentedOut) + Title() + Data(f) + MarkIf(!f.commentedOut)
  }

  function Tag(compressed: bool): string {
    if compressed then TAG_PACKED else TAG_JSON
  }

  function DrawingPart(compressed: bool, payload: string): string {
    H2_DRAWING[1..] + Tag(compressed) + payload + "\n" + FENCE
  }

  function Printed<S>(f: File<S>, write: (bool, S) -> string): string {
    Preamble(f) + DrawingPart(f.compressed, write(f.compressed, f.scene))
  }

  /** The file's text, built up part by part. */
  method SerialiseExcalidraw<S>(f: File<S>, write: (bool, S) -> string) returns (out: string)
    ensures out == Printed(f, write)
  {
    out := f.head + MarkIf(f.commentedOut) + Title();
    var texts := PrintTexts(DummyEntry(f.dummy), f.texts);
    var links := PrintSection(LINKS, f.links);
    var files := PrintSection(FILES, f.embedded);
    out := out + (texts + links + files) + MarkIf(!f.commentedOut);
    out := out + DrawingPart(f.compressed, write(f.compressed, f.scene));
  }

  method PrintTexts(before: string, texts: seq<(string, string)>) returns (out: string)
    ensures out == before + TextEntries(texts)
  {
    out := before;
    for i := 0 to |texts|
      invariant out + TextEntries(texts[i..]) == before + TextEntries(texts)
    {
      NextEntry(out, TextEntry(texts[i]), TextEntries(texts[i + 1..]));
      assert texts[i..][0] == texts[i] && texts[i..][1..] == texts[i + 1..];
      out := out + TextEntry(texts[i]);
    }
    assert TextEntries(texts[|texts|..]) == "";
  }

  method PrintSection(heading: string, entries: seq<(string, string)>) returns (out: string)
    ensures out == Section(heading, entries)
  {
    out := "";
    if |entries| > 0 {
      out := heading;
      for i := 0 to |entries|
        invariant out + KeyedEntries(entries[i..]) == heading + KeyedEntries(entries)
      {
        NextEntry(out, KeyedEntry(entries[i]), KeyedEntries(entries[i + 1..]));
        assert entries[i..][0] == entries[i] && entries[i..][1..] == entries[i + 1..];
        out := out + KeyedEntry(entries[i]);
      }
      assert KeyedEntries(entries[|entries|..]) == "";
    }
  }

  lemma NextEntry(out: string, entry: string, rest: string)
    ensures (out + entry) + rest == out + (entry + rest)
  {
  }

  /** The entries so far, and then those still to come. */
  function After(entries: seq<(string, string)>, dummy: bool, rest: Texts): Texts {
    Texts(entries + rest.entries, dummy || rest.dummy, rest.position)
  }

  lemma AfterEntry(entries: seq<(string, string)>, dummy: bool, id: string, raw: string, rest: Texts)
    ensures After(entries, dummy, WithEntry(id, raw, rest)) ==
      if IsDummy(id, raw) then After(entries, true, rest) else After(entries + [(id, WithoutLead(raw))], dummy, rest)
  {
    assert entries + ([(id, WithoutLead(raw))] + rest.entries) == (entries + [(id, WithoutLead(raw))]) + rest.entries;
  }

  /** The text elements, reference by reference. */
  method ReadTexts(s: string) returns (t: Texts)
    ensures t == TextsFrom(s, 0, 0)
  {
    var entries, dummy, position, m := [], false, 0, 0;
    assert After([], false, TextsFrom(s, 0, 0)) == TextsFrom(s, 0, 0);
    var at := FindRef(s, m);
    while at.Some?
      invariant m <= |s| && at == FindRef(s, m)
      invariant After(entries, dummy, TextsFrom(s, m, position)) == TextsFrom(s, 0, 0)
      decreases |s| - m
    {
      var id, raw := s[at.value + 2..at.value + 10], Slice(s, position, at.value);
      AfterEntry(entries, dummy, id, raw, TextsFrom(s, SkipNewlines(s, at.value + 10), at.value + 12));
      position, m := at.value + 12, SkipNewlines(s, at.value + 10);
      if IsDummy(id, raw) {
        dummy := true;
      } else {
        entries := entries + [(id, WithoutLead(raw))];
      }
      at := FindRef(s, m);
    }
    t := Texts(entries, dummy, position);
  }

  /** The entries of a section, line by line; nothing once a line does not fit. */
  method ReadEntries(links: bool, s: string) returns (entries: Option<seq<(string, string)>>)
    ensures entries == KeyedLines(links, s, 0)
  {
    var out, i := [], 0;
    OntoEnds(KeyedLines(links, s, 0), out);
    while true
      invariant i <= |s| && KeyedLines(links, s, 0) == Onto(out, KeyedLines(links, s, i))
      decreases |s| - i
    {
      var j := LineEnd(s, i);
      var line := s[i..j];
      if !IsBlank(line) {
        var e := EntryOf(links, line);
        if e.None? {
          return None;
        }
        OntoOne(out, e.value, if j == |s| then Some([]) else KeyedLines(links, s, j + 1));
        out := out + [e.value];
      }
      if j == |s| {
        OntoEnds(Some([]), out);
        return Some(out);
      }
      i := j + 1;
    }
  }

  /** Entries, and then more; nothing where there is nothing. */
  function Onto(out: seq<(string, string)>, more: Option<seq<(string, string)>>): Option<seq<(string, string)>> {
    if more.None? then None else Some(out + more.value)
  }

  lemma OntoEnds(more: Option<seq<(string, string)>>, out: seq<(string, string)>)
    ensures Onto([], more) == more && Onto(out, Some([])) == Some(out)
  {
    if more.Some? { assert [] + more.value == more.value; }
    assert out + [] == out;
  }

  lemma OntoOne(out: seq<(string, string)>, e: (string, string), more: Option<seq<(string, string)>>)
    ensures Onto(out, Onto([e], more)) == Onto(out + [e], more)
  {
    if more.Some? { assert out + ([e] + more.value) == (out + [e]) + more.value; }
  }
}
