/** A save merged into a text line by line (`mergeEdits`, `packages/plugin/src/text-merge.ts`).

    The line diff is given as a function that may fail: what it answers is a script that takes the one to the other. */
module LineMerge {
  import opened Json

  // ---- Lines ----

  /** A text split at its newlines. */
  function Lines(text: string): (lines: seq<string>)
    ensures lines != []
  {
    if text == "" then [""]
    else
      var rest := Lines(text[1..]);
      if text[0] == '\n' then [""] + rest else [[text[0]] + rest[0]] + rest[1..]
  }

  /** Lines joined by newlines. */
  function Joined(lines: seq<string>): string {
    if lines == [] then "" else if |lines| == 1 then lines[0] else lines[0] + "\n" + Joined(lines[1..])
  }

  predicate IsLine(line: string) {
    forall i | 0 <= i < |line| :: line[i] != '\n'
  }

  predicate AreLines(lines: seq<string>) {
    lines != [] && forall i | 0 <= i < |lines| :: IsLine(lines[i])
  }

  lemma {:induction false} LinesJoined(text: string)
    ensures Joined(Lines(text)) == text && AreLines(Lines(text))
  {
    if text != "" {
      LinesJoined(text[1..]);
      var rest := Lines(text[1..]);
      assert text == [text[0]] + text[1..];
      if text[0] != '\n' && |rest| > 1 {
        assert Joined([[text[0]] + rest[0]] + rest[1..]) == [text[0]] + Joined(rest);
      }
    }
  }

  lemma {:induction false} LineThenRest(line: string, rest: string)
    requires IsLine(line)
    ensures Lines(line) == [line] && Lines(line + "\n" + rest) == [line] + Lines(rest)
    decreases |line|
  {
    var text := line + "\n" + rest;
    if line == "" {
      assert text[1..] == rest;
    } else {
      LineThenRest(line[1..], rest);
      assert text[1..] == line[1..] + "\n" + rest && text[0] == line[0];
      assert line == [line[0]] + line[1..];
    }
  }

  lemma {:induction false} JoinedLines(lines: seq<string>)
    requires AreLines(lines)
    ensures Lines(Joined(lines)) == lines
  {
    if |lines| == 1 {
      LineThenRest(lines[0], "");
    } else {
      JoinedLines(lines[1..]);
      LineThenRest(lines[0], Joined(lines[1..]));
    }
  }

  // ---- Edit scripts ----

  /** Lines inserted at each gap, keyed by the line the gap is before, and lines deleted. */
  datatype Script = Script(inserted: map<nat, seq<string>>, deleted: set<nat>)

  type Diff = (seq<string>, seq<string>) -> Option<Script>

  function Ins(s: Script, i: nat): seq<string> {
    if i in s.inserted then s.inserted[i] else []
  }

  function Line(b: seq<string>, i: nat): seq<string> {
    if i < |b| then [b[i]] else []
  }

  /** What the script leaves of the line at `i`. */
  function Kept(b: seq<string>, s: Script, i: nat): seq<string> {
    if i in s.deleted then [] else Line(b, i)
  }

  /** `b` from gap `i` on, as the script has it. */
  function Patched(b: seq<string>, s: Script, i: nat): seq<string>
    decreases |b| + 1 - i
  {
    if i > |b| then []
    else Ins(s, i) + Kept(b, s, i) + Patched(b, s, i + 1)
  }

  ghost predicate Takes(a: seq<string>, b: seq<string>, s: Script) {
    Patched(a, s, 0) == b && (forall i | i in s.inserted :: s.inserted[i] != []) && forall i | i in s.deleted :: i < |a|
  }

  /** Every script the diff answers takes the one to the other. */
  ghost predicate IsDiff(diff: Diff) {
    forall a, b :: diff(a, b).Some? ==> Takes(a, b, diff(a, b).value)
  }

  // ---- The merge ----

  /** How many copies of a line the script deletes, from gap `i` on. */
  function Deleted(b: seq<string>, s: Script, line: string, i: nat): nat
    decreases |b| - i
  {
    if i >= |b| then 0 else (if i in s.deleted && b[i] == line then 1 else 0) + Deleted(b, s, line, i + 1)
  }

  /** Copies of a line that the collaborator deleted, less those already taken for deletions of the save's from gap
      `i` on: a copy both deleted, and while any are left a copy only the save did. */
  function Left(b: seq<string>, align: Script, local: Script, line: string, i: nat): int
    decreases |b| - i
  {
    if i >= |b| then Deleted(b, align, line, 0)
    else
      var left := Left(b, align, local, line, i + 1);
      if i in local.deleted && b[i] == line && (i in align.deleted || left > 0) then left - 1 else left
  }

  /** The save takes this line of the base from the text. */
  predicate TakesOut(b: seq<string>, align: Script, local: Script, i: nat) {
    i < |b| && i in local.deleted && i !in align.deleted && Left(b, align, local, b[i], i + 1) <= 0
  }

  /** What of the base stays at `i`. */
  function Stays(b: seq<string>, align: Script, local: Script, i: nat): seq<string> {
    if TakesOut(b, align, local, i) then [] else Kept(b, align, i)
  }

  /** From gap `i` on: at each gap what the collaborator inserted, then what the save did, then the line itself if
      neither took it. */
  function Woven(b: seq<string>, align: Script, local: Script, i: nat): seq<string>
    decreases |b| + 1 - i
  {
    if i > |b| then []
    else Ins(align, i) + Ins(local, i) + Stays(b, align, local, i) + Woven(b, align, local, i + 1)
  }

  /** The save has every line of the text, which the collaborator added to: it was made on it. */
  predicate HasTheirs(diff: Diff, align: Script, current: seq<string>, next: seq<string>) {
    align.inserted != map[] && diff(current, next).Some? && diff(current, next).value.deleted == {}
  }

  function MergedLines(diff: Diff, current: seq<string>, base: seq<string>, next: seq<string>): Option<seq<string>> {
    var align, local := diff(base, current), diff(base, next);
    if align.None? || local.None? then None
    else if HasTheirs(diff, align.value, current, next) then Some(next)
    else Some(Woven(base, align.value, local.value, 0))
  }

  const MOST_LINES := 6400

  function DistinctLines(base: string, current: string, next: string): set<string> {
    set line | line in Lines(base) + Lines(current) + Lines(next)
  }

  /** A save, made from `base`, merged into the text; nothing where the texts are too large. */
  function MergedText(diff: Diff, current: string, base: string, next: string): Option<string> {
    if current == base then Some(next)
    else if |DistinctLines(base, current, next)| > MOST_LINES then None
    else
      var merged := MergedLines(diff, Lines(current), Lines(base), Lines(next));
      if merged.None? then None else Some(Joined(merged.value))
  }

  // ---- The merge, line by line ----

  /** What the text is made of before gap `i`. */
  function Head(b: seq<string>, align: Script, i: nat): seq<string> {
    if i == 0 then [] else Head(b, align, i - 1) + Ins(align, i - 1) + Kept(b, align, i - 1)
  }

  lemma Regrouped<T>(a: seq<T>, b: seq<T>, c: seq<T>, d: seq<T>)
    ensures a + (b + c + d) == (a + b + c) + d
  {
  }

  lemma {:induction false} HeadAndRest(b: seq<string>, align: Script, i: nat)
    requires i <= |b| + 1
    ensures Patched(b, align, 0) == Head(b, align, i) + Patched(b, align, i)
  {
    if i > 0 {
      HeadAndRest(b, align, i - 1);
      Regrouped(Head(b, align, i - 1), Ins(align, i - 1), Kept(b, align, i - 1), Patched(b, align, i));
    }
  }

  /** Where in the text each gap of the base is, past what the collaborator inserted there. */
  function Place(b: seq<string>, align: Script, i: nat): nat {
    |Head(b, align, i)| + |Ins(align, i)|
  }

  method Places(b: seq<string>, align: Script) returns (at: seq<nat>)
    ensures |at| == |b| + 1 && forall i | 0 <= i <= |b| :: at[i] == Place(b, align, i)
  {
    at := [];
    var p := 0;
    for i := 0 to |b| + 1
      invariant |at| == i && p == |Head(b, align, i)| && forall j | 0 <= j < i :: at[j] == Place(b, align, j)
    {
      p := p + |Ins(align, i)|;
      at := at + [p];
      if i < |b| && i !in align.deleted {
        p := p + 1;
      }
    }
  }

  function CountOf(counts: map<string, int>, line: string): int {
    if line in counts then counts[line] else 0
  }

  /** How many copies of each line the collaborator deleted. */
  method TheyRemoved(b: seq<string>, align: Script) returns (counts: map<string, int>)
    ensures forall line :: CountOf(counts, line) == Deleted(b, align, line, 0)
  {
    counts := map[];
    var i: nat := |b|;
    while i > 0
      invariant i <= |b| && forall line :: CountOf(counts, line) == Deleted(b, align, line, i)
    {
      i := i - 1;
      if i in align.deleted {
        counts := counts[b[i] := CountOf(counts, b[i]) + 1];
      }
    }
  }

  /** One gap of the text: a line taken out, and lines put in. */
  lemma OneGap(head: seq<string>, ins: seq<string>, kept: seq<string>, rest: seq<string>, put: seq<string>, takes: bool,
               was: seq<string>, cut: seq<string>, now: seq<string>, at: nat)
    requires was == head + ins + kept + rest && at == |head| + |ins| && (takes ==> |kept| == 1)
    requires cut == if takes then was[..at] + was[at + 1..] else was
    requires now == cut[..at] + put + cut[at..]
    ensures now == head + (ins + put + (if takes then [] else kept) + rest)
  {
    assert was[..at] == head + ins;
    if takes {
      assert was[at + 1..] == rest;
      assert cut[..at] == head + ins && cut[at..] == rest;
    } else {
      assert was[at..] == kept + rest;
    }
  }

  ghost predicate AreLeft(counts: map<string, int>, b: seq<string>, align: Script, local: Script, i: nat) {
    forall line :: CountOf(counts, line) == Left(b, align, local, line, i)
  }

  /** The save's changes at one gap. */
  method AtGap(b: seq<string>, align: Script, local: Script, i: nat, at: nat, was: seq<string>, left: map<string, int>)
    returns (out: seq<string>, now: map<string, int>)
    requires i <= |b| && at == Place(b, align, i) && AreLeft(left, b, align, local, i + 1)
    requires was == Head(b, align, i + 1) + Woven(b, align, local, i + 1)
    ensures out == Head(b, align, i) + Woven(b, align, local, i) && AreLeft(now, b, align, local, i)
  {
    out, now := was, left;
    if i in local.deleted && i < |b| {
      if i in align.deleted || CountOf(left, b[i]) > 0 {
        now := left[b[i] := CountOf(left, b[i]) - 1];
      } else {
        out := was[..at] + was[at + 1..];
      }
    }
    ghost var cut := out;
    out := out[..at] + Ins(local, i) + out[at..];
    OneGap(Head(b, align, i), Ins(align, i), Kept(b, align, i), Woven(b, align, local, i + 1), Ins(local, i),
           TakesOut(b, align, local, i), was, cut, out, at);
  }

  /** The text with the save's lines taken out and put in, from the last gap to the first. */
  method Weave(b: seq<string>, c: seq<string>, align: Script, local: Script) returns (out: seq<string>)
    requires c == Patched(b, align, 0)
    ensures out == Woven(b, align, local, 0)
  {
    var at := Places(b, align);
    var theyRemoved := TheyRemoved(b, align);
    out := c;
    HeadAndRest(b, align, |b| + 1);
    var i: nat := |b| + 1;
    while i > 0
      invariant i <= |b| + 1 && out == Head(b, align, i) + Woven(b, align, local, i)
      invariant AreLeft(theyRemoved, b, align, local, i)
    {
      i := i - 1;
      out, theyRemoved := AtGap(b, align, local, i, at[i], out, theyRemoved);
    }
  }

  /** A save merged in line by line, unless a diff cannot be made or there are too many lines. */
  method MergeEdits(diff: Diff, current: string, base: string, next: string) returns (r: Option<string>)
    requires IsDiff(diff)
    ensures r == MergedText(diff, current, base, next)
  {
    if current == base {
      return Some(next);
    }
    if |DistinctLines(base, current, next)| > MOST_LINES {
      return None;
    }
    var b, c, n := Lines(base), Lines(current), Lines(next);
    var align, local := diff(b, c), diff(b, n);
    if align.None? || local.None? {
      return None;
    }
    if HasTheirs(diff, align.value, c, n) {
      LinesJoined(next);
      return Some(next);
    }
    var out := Weave(b, c, align.value, local.value);
    return Some(Joined(out));
  }

  // ---- Every line anyone wrote is in it ----

  /** How many copies of a line there are. */
  function Copies(s: seq<string>, line: string): nat {
    if s == [] then 0 else (if s[0] == line then 1 else 0) + Copies(s[1..], line)
  }

  lemma {:induction false} CopiesCounted(s: seq<string>, line: string)
    ensures Copies(s, line) == multiset(s)[line]
  {
    if s != [] {
      CopiesCounted(s[1..], line);
      assert s == [s[0]] + s[1..];
    }
  }

  function CopiesFrom(b: seq<string>, line: string, i: nat): nat
    decreases |b| - i
  {
    if i >= |b| then 0 else (if b[i] == line then 1 else 0) + CopiesFrom(b, line, i + 1)
  }

  lemma {:induction false} CopiesAre(b: seq<string>, line: string, i: nat)
    requires i <= |b|
    ensures CopiesFrom(b, line, i) == Copies(b[i..], line)
    decreases |b| - i
  {
    if i < |b| {
      CopiesAre(b, line, i + 1);
      assert b[i..] == [b[i]] + b[i + 1..];
    }
  }

  /** How many copies of a line the script inserts, from gap `i` up to gap `end`. */
  function Inserted(s: Script, line: string, i: nat, end: nat): nat
    decreases end + 1 - i
  {
    if i > end then 0 else Copies(Ins(s, i), line) + Inserted(s, line, i + 1, end)
  }

  lemma {:induction false} CopiesJoined(x: seq<string>, y: seq<string>, s: seq<string>, line: string)
    requires s == x + y
    ensures Copies(s, line) == Copies(x, line) + Copies(y, line)
  {
    if x == [] {
      assert s == y;
    } else {
      assert s[1..] == x[1..] + y;
      CopiesJoined(x[1..], y, s[1..], line);
    }
  }

  predicate IsKept(b: seq<string>, s: Script, line: string, i: nat) {
    i < |b| && i !in s.deleted && b[i] == line
  }

  lemma KeptCopies(b: seq<string>, s: Script, line: string, i: nat)
    ensures Copies(Kept(b, s, i), line) == if IsKept(b, s, line, i) then 1 else 0
  {
  }

  lemma PatchedGap(b: seq<string>, s: Script, line: string, i: nat)
    requires i <= |b|
    ensures Copies(Patched(b, s, i), line) ==
      Copies(Ins(s, i), line) + (if IsKept(b, s, line, i) then 1 else 0) + Copies(Patched(b, s, i + 1), line)
  {
    KeptCopies(b, s, line, i);
    var x, y, z := Ins(s, i), Kept(b, s, i), Patched(b, s, i + 1);
    CopiesJoined(x, y, x + y, line);
    CopiesJoined(x + y, z, Patched(b, s, i), line);
  }

  function PatchedCopies(b: seq<string>, s: Script, line: string, i: nat): nat
    decreases |b| + 1 - i
  {
    if i > |b| then 0
    else Copies(Ins(s, i), line) + (if IsKept(b, s, line, i) then 1 else 0) + PatchedCopies(b, s, line, i + 1)
  }

  lemma {:induction false} PatchedIs(b: seq<string>, s: Script, line: string, i: nat)
    requires i <= |b| + 1
    ensures Copies(Patched(b, s, i), line) == PatchedCopies(b, s, line, i)
    decreases |b| + 1 - i
  {
    if i <= |b| {
      PatchedIs(b, s, line, i + 1);
      PatchedGap(b, s, line, i);
    }
  }

  lemma {:induction false} PatchedSums(b: seq<string>, s: Script, line: string, i: nat)
    requires i <= |b| + 1
    ensures PatchedCopies(b, s, line, i) == Inserted(s, line, i, |b|) + CopiesFrom(b, line, i) - Deleted(b, s, line, i)
    decreases |b| + 1 - i
  {
    if i <= |b| { PatchedSums(b, s, line, i + 1); }
  }

  lemma PatchedCount(b: seq<string>, s: Script, line: string, i: nat)
    requires i <= |b| + 1
    ensures Copies(Patched(b, s, i), line) ==
      Inserted(s, line, i, |b|) + CopiesFrom(b, line, i) - Deleted(b, s, line, i)
  {
    PatchedIs(b, s, line, i);
    PatchedSums(b, s, line, i);
  }

  /** How many copies of a line the save takes out of the text, from gap `i` on. */
  function Removed(b: seq<string>, align: Script, local: Script, line: string, i: nat): nat
    decreases |b| - i
  {
    if i >= |b| then 0
    else (if TakesOut(b, align, local, i) && b[i] == line then 1 else 0) + Removed(b, align, local, line, i + 1)
  }

  lemma WovenGap(b: seq<string>, align: Script, local: Script, line: string, i: nat)
    requires i <= |b|
    ensures Copies(Woven(b, align, local, i), line) ==
      Copies(Ins(align, i), line) + Copies(Ins(local, i), line)
        + (if IsKept(b, align, line, i) && !TakesOut(b, align, local, i) then 1 else 0)
        + Copies(Woven(b, align, local, i + 1), line)
  {
    KeptCopies(b, align, line, i);
    var x, y, z, rest := Ins(align, i), Ins(local, i), Stays(b, align, local, i), Woven(b, align, local, i + 1);
    CopiesJoined(x, y, x + y, line);
    CopiesJoined(x + y, z, x + y + z, line);
    CopiesJoined(x + y + z, rest, Woven(b, align, local, i), line);
  }

  /** How many copies of a line stay and are inserted, gap by gap. */
  function WovenCopies(b: seq<string>, align: Script, local: Script, line: string, i: nat): nat
    decreases |b| + 1 - i
  {
    if i > |b| then 0
    else
      Copies(Ins(align, i), line) + Copies(Ins(local, i), line)
        + (if IsKept(b, align, line, i) && !TakesOut(b, align, local, i) then 1 else 0)
        + WovenCopies(b, align, local, line, i + 1)
  }

  lemma CopiesOn(b: seq<string>, align: Script, local: Script, line: string, i: nat, n: nat)
    requires i <= |b| && n == WovenCopies(b, align, local, line, i + 1)
    ensures WovenCopies(b, align, local, line, i) ==
      Copies(Ins(align, i), line) + Copies(Ins(local, i), line)
        + (if IsKept(b, align, line, i) && !TakesOut(b, align, local, i) then 1 else 0) + n
  {
  }

  lemma {:induction false} WovenIs(b: seq<string>, align: Script, local: Script, line: string, i: nat) returns (n: nat)
    requires i <= |b| + 1
    ensures n == WovenCopies(b, align, local, line, i) && n == Copies(Woven(b, align, local, i), line)
    decreases |b| + 1 - i
  {
    if i > |b| {
      n := 0;
    } else {
      n := WovenIs(b, align, local, line, i + 1);
      WovenGap(b, align, local, line, i);
      CopiesOn(b, align, local, line, i, n);
      n := WovenCopies(b, align, local, line, i);
    }
  }

  lemma {:induction false} WovenSums(b: seq<string>, align: Script, local: Script, line: string, i: nat)
    requires i <= |b| + 1
    ensures WovenCopies(b, align, local, line, i) ==
      Inserted(align, line, i, |b|) + Inserted(local, line, i, |b|) + CopiesFrom(b, line, i)
        - Deleted(b, align, line, i) - Removed(b, align, local, line, i)
    decreases |b| + 1 - i
  {
    if i <= |b| { WovenSums(b, align, local, line, i + 1); }
  }

  lemma WovenCount(b: seq<string>, align: Script, local: Script, line: string, i: nat)
    requires i <= |b| + 1
    ensures Copies(Woven(b, align, local, i), line) ==
      Inserted(align, line, i, |b|) + Inserted(local, line, i, |b|) + CopiesFrom(b, line, i)
        - Deleted(b, align, line, i) - Removed(b, align, local, line, i)
  {
    var n := WovenIs(b, align, local, line, i);
    WovenSums(b, align, local, line, i);
  }

  /** Of the copies the save deleted, each was taken out, or taken for one the collaborator deleted; and none is taken
      out while any of those is left. */
  lemma {:induction false} RemovedCount(b: seq<string>, align: Script, local: Script, line: string, i: nat)
    ensures Removed(b, align, local, line, i) ==
      Deleted(b, local, line, i) - Deleted(b, align, line, 0) + Left(b, align, local, line, i)
    ensures Left(b, align, local, line, i) <= Deleted(b, align, line, 0)
    ensures Removed(b, align, local, line, i) > 0 ==> Left(b, align, local, line, i) <= 0
    decreases |b| - i
  {
    if i < |b| { RemovedCount(b, align, local, line, i + 1); }
  }

  lemma {:induction false} NoneLeft(b: seq<string>, align: Script, local: Script, line: string, i: nat)
    requires Deleted(b, align, line, 0) == 0
    ensures Left(b, align, local, line, i) == 0
    decreases |b| - i
  {
    if i < |b| {
      NoneLeft(b, align, local, line, i + 1);
      if i in align.deleted && b[i] == line { DeletedHas(b, align, line, 0, i); }
    }
  }

  lemma {:induction false} DeletedHas(b: seq<string>, s: Script, line: string, j: nat, i: nat)
    requires j <= i < |b| && i in s.deleted && b[i] == line
    ensures Deleted(b, s, line, j) > 0
    decreases i - j
  {
    if j < i { DeletedHas(b, s, line, j + 1, i); }
  }

  /** Only lines that stay in the text are taken out of it. */
  lemma {:induction false} RemovedStay(b: seq<string>, align: Script, local: Script, line: string, i: nat)
    ensures Removed(b, align, local, line, i) + Deleted(b, align, line, i) <= CopiesFrom(b, line, i)
    decreases |b| - i
  {
    if i < |b| { RemovedStay(b, align, local, line, i + 1); }
  }

  /** Woven from the save: of every line, at least what each side added to the base; never one copy too few for what
      both deleted; and where nothing was deleted of it elsewhere, exactly what the base had, with what each side
      added, less what the save deleted. */
  lemma WovenKeeps(b: seq<string>, c: seq<string>, n: seq<string>, align: Script, local: Script, line: string)
    requires Patched(b, align, 0) == c && Patched(b, local, 0) == n
    ensures var t := Copies(Woven(b, align, local, 0), line);
      && t >= Inserted(align, line, 0, |b|) + Inserted(local, line, 0, |b|)
      && t >= Copies(n, line) + Copies(c, line) - Copies(b, line)
      && (Deleted(b, align, line, 0) == 0 ==> t == Copies(n, line) + Copies(c, line) - Copies(b, line))
  {
    PatchedCount(b, align, line, 0);
    PatchedCount(b, local, line, 0);
    WovenCount(b, align, local, line, 0);
    RemovedCount(b, align, local, line, 0);
    RemovedStay(b, align, local, line, 0);
    CopiesAre(b, line, 0);
    assert b[0..] == b;
    if Deleted(b, align, line, 0) == 0 { NoneLeft(b, align, local, line, 0); }
  }

  /** The save, made on the text, has every line of it. */
  lemma TheirsKept(diff: Diff, c: seq<string>, n: seq<string>, line: string)
    requires IsDiff(diff) && diff(c, n).Some? && diff(c, n).value.deleted == {}
    ensures Copies(n, line) >= Copies(c, line)
  {
    var s := diff(c, n).value;
    assert Takes(c, n, s);
    PatchedCount(c, s, line, 0);
    NoneDeleted(c, s, line, 0);
    CopiesAre(c, line, 0);
    assert c[0..] == c;
  }

  lemma {:induction false} NoneDeleted(b: seq<string>, s: Script, line: string, i: nat)
    requires s.deleted == {}
    ensures Deleted(b, s, line, i) == 0
    decreases |b| - i
  {
    if i < |b| { NoneDeleted(b, s, line, i + 1); }
  }

  predicate AllLines(lines: seq<string>) {
    forall i | 0 <= i < |lines| :: IsLine(lines[i])
  }

  /** What a script inserts is in what it makes. */
  lemma {:induction false} InsertedLines(b: seq<string>, s: Script, i: nat, j: nat)
    requires i <= j <= |b| && AllLines(Patched(b, s, i))
    ensures AllLines(Ins(s, j))
    decreases j - i
  {
    var ins, kept, rest := Ins(s, i), Kept(b, s, i), Patched(b, s, i + 1);
    assert Patched(b, s, i) == ins + kept + rest;
    assert forall k | 0 <= k < |ins| :: (ins + kept + rest)[k] == ins[k];
    if i < j {
      assert forall k | 0 <= k < |rest| :: (ins + kept + rest)[|ins| + |kept| + k] == rest[k];
      InsertedLines(b, s, i + 1, j);
    }
  }

  lemma AllJoined(x: seq<string>, y: seq<string>, z: seq<string>, rest: seq<string>)
    requires AllLines(x) && AllLines(y) && AllLines(z) && AllLines(rest)
    ensures AllLines(x + y + z + rest)
  {
  }

  lemma {:induction false} WovenLines(b: seq<string>, align: Script, local: Script, i: nat)
    requires AllLines(b) && AllLines(Patched(b, align, 0)) && AllLines(Patched(b, local, 0))
    ensures AllLines(Woven(b, align, local, i))
    decreases |b| + 1 - i
  {
    if i <= |b| {
      InsertedLines(b, align, 0, i);
      InsertedLines(b, local, 0, i);
      WovenLines(b, align, local, i + 1);
      AllJoined(Ins(align, i), Ins(local, i), Stays(b, align, local, i), Woven(b, align, local, i + 1));
    }
  }

  /** What lines join to has them, and for none at all an empty one. */
  lemma JoinedHas(lines: seq<string>, line: string)
    requires AllLines(lines)
    ensures Copies(Lines(Joined(lines)), line) >= Copies(lines, line)
  {
    if lines != [] { JoinedLines(lines); }
  }

  /** Of every line of the save, and of the text, the merged text has at least the copies that were not in the base. */
  ghost predicate KeepsLines(current: string, base: string, next: string, merged: string) {
    forall line ::
      var t, b := Copies(Lines(merged), line), Copies(Lines(base), line);
      t >= Copies(Lines(next), line) - b && t >= Copies(Lines(current), line) - b
  }

  /** Nothing either side wrote is dropped. */
  lemma MergedKeeps(diff: Diff, current: string, base: string, next: string)
    requires IsDiff(diff) && MergedText(diff, current, base, next).Some?
    ensures KeepsLines(current, base, next, MergedText(diff, current, base, next).value)
  {
    if current != base {
      var b, c, n := Lines(base), Lines(current), Lines(next);
      var align, local := diff(b, c).value, diff(b, n).value;
      assert Takes(b, c, align) && Takes(b, n, local);
      LinesJoined(base);
      LinesJoined(current);
      LinesJoined(next);
      WovenLines(b, align, local, 0);
      forall line
        ensures var t := Copies(Lines(MergedText(diff, current, base, next).value), line);
          t >= Copies(n, line) - Copies(b, line) && t >= Copies(c, line) - Copies(b, line)
      {
        WovenKeeps(b, c, n, align, local, line);
        if HasTheirs(diff, align, c, n) {
          TheirsKept(diff, c, n, line);
        } else {
          JoinedHas(Woven(b, align, local, 0), line);
        }
      }
    }
  }

  // ---- And in its order ----

  /** The lines of `a` are among those of `b`, in that order. */
  predicate Threads(a: seq<string>, b: seq<string>) {
    a == [] || (b != [] && ((a[0] == b[0] && Threads(a[1..], b[1..])) || Threads(a, b[1..])))
  }

  lemma {:induction false} ThreadsOn(a: seq<string>, b: seq<string>, y: seq<string>)
    requires Threads(a, b)
    ensures Threads(a, y + b)
    decreases |y|
  {
    if y == [] {
      assert y + b == b;
    } else {
      ThreadsOn(a, b, y[1..]);
      assert (y + b)[1..] == y[1..] + b;
    }
  }

  lemma {:induction false} ThreadsJoined(a: seq<string>, b: seq<string>, c: seq<string>, d: seq<string>)
    requires Threads(a, b) && Threads(c, d)
    ensures Threads(a + c, b + d)
    decreases |b|
  {
    if a == [] {
      assert a + c == c;
      ThreadsOn(c, d, b);
    } else {
      assert (b + d)[1..] == b[1..] + d && (a + c)[1..] == a[1..] + c;
      if a[0] == b[0] && Threads(a[1..], b[1..]) {
        ThreadsJoined(a[1..], b[1..], c, d);
      } else {
        ThreadsJoined(a, b[1..], c, d);
      }
    }
  }

  lemma {:induction false} ThreadsSelf(a: seq<string>)
    ensures Threads(a, a)
  {
    if a != [] { ThreadsSelf(a[1..]); }
  }

  /** What the script makes of `b`, less the lines of `b` in `gone`. */
  function Without(b: seq<string>, s: Script, gone: set<nat>, i: nat): seq<string>
    decreases |b| + 1 - i
  {
    if i > |b| then []
    else Ins(s, i) + ((if i in gone then [] else Kept(b, s, i)) + Without(b, s, gone, i + 1))
  }

  lemma GapInOrder(mine: seq<string>, theirs: seq<string>, a: seq<string>, stays: seq<string>, rest: seq<string>,
                   all: seq<string>)
    requires Threads(a, stays + rest) && all == theirs + mine + stays + rest
    ensures Threads(mine + a, all)
  {
    ThreadsSelf(mine);
    ThreadsJoined(mine, mine, a, stays + rest);
    ThreadsOn(mine + a, mine + (stays + rest), theirs);
    assert theirs + (mine + (stays + rest)) == all;
  }

  lemma TheirGapInOrder(mine: seq<string>, theirs: seq<string>, a: seq<string>, stays: seq<string>, rest: seq<string>,
                        all: seq<string>)
    requires Threads(a, stays + rest) && all == theirs + mine + stays + rest
    ensures Threads(theirs + a, all)
  {
    ThreadsOn(a, stays + rest, mine);
    ThreadsSelf(theirs);
    ThreadsJoined(theirs, theirs, a, mine + (stays + rest));
    assert theirs + (mine + (stays + rest)) == all;
  }

  lemma LineInOrder(line: seq<string>, stays: seq<string>, a: seq<string>, rest: seq<string>)
    requires Threads(a, rest) && (line == [] || line == stays)
    ensures Threads(line + a, stays + rest)
  {
    ThreadsSelf(stays);
    ThreadsJoined(line, stays, a, rest);
  }

  /** The save's lines, but those of the base that the collaborator deleted, are in the merged text in their order. */
  lemma {:induction false} SaveInOrder(b: seq<string>, align: Script, local: Script, i: nat)
    ensures Threads(Without(b, local, align.deleted, i), Woven(b, align, local, i))
    decreases |b| + 1 - i
  {
    if i <= |b| {
      SaveInOrder(b, align, local, i + 1);
      var line := if i in align.deleted then [] else Kept(b, local, i);
      var a, rest := Without(b, local, align.deleted, i + 1), Woven(b, align, local, i + 1);
      LineInOrder(line, Stays(b, align, local, i), a, rest);
      GapInOrder(Ins(local, i), Ins(align, i), line + a, Stays(b, align, local, i), rest, Woven(b, align, local, i));
    }
  }

  /** And the text's, but those of the base that the save deleted. */
  lemma {:induction false} TextInOrder(b: seq<string>, align: Script, local: Script, i: nat)
    ensures Threads(Without(b, align, local.deleted, i), Woven(b, align, local, i))
    decreases |b| + 1 - i
  {
    if i <= |b| {
      TextInOrder(b, align, local, i + 1);
      var line := if i in local.deleted then [] else Kept(b, align, i);
      var a, rest := Without(b, align, local.deleted, i + 1), Woven(b, align, local, i + 1);
      LineInOrder(line, Stays(b, align, local, i), a, rest);
      var stays := Stays(b, align, local, i);
      TheirGapInOrder(Ins(local, i), Ins(align, i), line + a, stays, rest, Woven(b, align, local, i));
    }
  }

  lemma FirstOfAll<T>(a: seq<T>, b: seq<T>, c: seq<T>)
    ensures a + b + c == [] + a + (b + c)
  {
  }

  /** At one gap the save's lines come after the collaborator's. */
  lemma {:induction false} SaveAfterTheirs(b: seq<string>, align: Script, local: Script, i: nat, gap: nat)
    returns (x: seq<string>, y: seq<string>)
    requires i <= gap <= |b|
    ensures Woven(b, align, local, i) == x + (Ins(align, gap) + Ins(local, gap)) + y
    decreases gap - i
  {
    var put := Ins(align, i) + Ins(local, i);
    var stays, rest := Stays(b, align, local, i), Woven(b, align, local, i + 1);
    if i == gap {
      x, y := [], stays + rest;
      FirstOfAll(put, stays, rest);
    } else {
      x, y := SaveAfterTheirs(b, align, local, i + 1, gap);
      Regrouped(put + stays, x, Ins(align, gap) + Ins(local, gap), y);
      x := put + stays + x;
    }
  }
}
