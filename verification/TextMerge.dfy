/** Bringing an edit into a text that may have moved on (`packages/plugin/src/text-merge.ts`). A shared
    text is its string here; deletes and inserts at positions are what they make of the string. */
module TextMerge {
  import opened Json

  function Min(a: int, b: int): int {
    if a < b then a else b
  }

  // ---- One changed region ----

  /** A replacement: from `start` on, `deleted` characters give way to `inserted`. */
  datatype Hunk = Hunk(start: nat, deleted: nat, inserted: string)

  predicate Fits(h: Hunk, text: string) {
    h.start + h.deleted <= |text|
  }

  /** What deleting and then inserting at a position makes of a text. */
  function Splice(text: string, start: nat, deleted: nat, inserted: string): string
    requires start + deleted <= |text|
  {
    text[..start] + inserted + text[start + deleted..]
  }

  function Spliced(text: string, h: Hunk): string
    requires Fits(h, text)
  {
    Splice(text, h.start, h.deleted, h.inserted)
  }

  /** Length of the common prefix, counted on from `n`. */
  function PrefixFrom(a: string, b: string, n: nat): (p: nat)
    requires n <= |a| && n <= |b|
    ensures n <= p <= |a| && p <= |b|
    ensures p < |a| && p < |b| ==> a[p] != b[p]
    decreases |a| - n
  {
    if n < |a| && n < |b| && a[n] == b[n] then PrefixFrom(a, b, n + 1) else n
  }

  /** Length of the common suffix, counted on from `n` and no further than `max`. */
  function SuffixFrom(a: string, b: string, n: nat, max: nat): (s: nat)
    requires n <= max <= |a| && max <= |b|
    ensures n <= s <= max
    ensures s < max ==> a[|a| - 1 - s] != b[|b| - 1 - s]
    decreases max - n
  {
    if n < max && a[|a| - 1 - n] == b[|b| - 1 - n] then SuffixFrom(a, b, n + 1, max) else n
  }

  /** What two texts do not share at either end; none where they are one text. */
  function HunkBetween(a: string, b: string): Option<Hunk> {
    var p := PrefixFrom(a, b, 0);
    HunkWithin(a, b, p, SuffixFrom(a, b, 0, Min(|a|, |b|) - p))
  }

  /** What lies between the first `p` and the last `s` characters. */
  function HunkWithin(a: string, b: string, p: nat, s: nat): Option<Hunk>
    requires p + s <= |a| && p + s <= |b|
  {
    var deleted, inserted := |a| - p - s, b[p..|b| - s];
    if deleted == 0 && inserted == "" then None else Some(Hunk(p, deleted, inserted))
  }

  /** The last `s` characters are the same. */
  ghost predicate SameEnd(a: string, b: string, s: nat) {
    s <= |a| && s <= |b| && forall j {:trigger a[j]} | |a| - s <= j < |a| :: a[j] == b[j + |b| - |a|]
  }

  ghost predicate SameStart(a: string, b: string, p: nat) {
    p <= |a| && p <= |b| && forall i {:trigger a[i]} | 0 <= i < p :: a[i] == b[i]
  }

  lemma {:induction false} PrefixIsSame(a: string, b: string, n: nat)
    requires n <= |a| && n <= |b|
    ensures forall i | n <= i < PrefixFrom(a, b, n) :: a[i] == b[i]
    decreases |a| - n
  {
    if n < |a| && n < |b| && a[n] == b[n] { PrefixIsSame(a, b, n + 1); }
  }

  lemma {:induction false} SuffixIsSame(a: string, b: string, n: nat, max: nat)
    requires n <= max <= |a| && max <= |b|
    ensures forall j | |a| - SuffixFrom(a, b, n, max) <= j < |a| - n :: a[j] == b[j + |b| - |a|]
    decreases max - n
  {
    if n < max && a[|a| - 1 - n] == b[|b| - 1 - n] { SuffixIsSame(a, b, n + 1, max); }
  }

  /** The first `p` and the last `s` characters are the same, and apart. */
  ghost predicate Scans(a: string, b: string, p: nat, s: nat) {
    p + s <= |a| && p + s <= |b| && SameStart(a, b, p) && SameEnd(a, b, s)
  }

  /** The scans of `HunkBetween`, and what they found. */
  lemma Scanned(a: string, b: string) returns (p: nat, s: nat)
    ensures p == PrefixFrom(a, b, 0) && s == SuffixFrom(a, b, 0, Min(|a|, |b|) - p) && Scans(a, b, p, s)
  {
    p := PrefixFrom(a, b, 0);
    s := SuffixFrom(a, b, 0, Min(|a|, |b|) - p);
    PrefixIsSame(a, b, 0);
    SuffixIsSame(a, b, 0, Min(|a|, |b|) - p);
  }

  lemma SpliceMiddle(a: string, b: string, p: nat, s: nat)
    requires p + s <= |a| && p + s <= |b| && SameStart(a, b, p) && SameEnd(a, b, s)
    ensures Splice(a, p, |a| - p - s, b[p..|b| - s]) == b
  {
    assert a[..p] == b[..p];
    assert a[|a| - s..] == b[|b| - s..];
  }

  /** The hunk between two strings takes the one to the other. */
  lemma HunkHolds(a: string, b: string)
    ensures HunkBetween(a, b).None? <==> a == b
    ensures HunkBetween(a, b).Some? ==> Fits(HunkBetween(a, b).value, a) && Spliced(a, HunkBetween(a, b).value) == b
  {
    HunkTakes(a, b);
    if a == b { EqualHasNoHunk(a); }
  }

  /** `h` takes `a` to `b`; none does where they are equal. */
  ghost predicate Takes(h: Option<Hunk>, a: string, b: string) {
    (h.None? ==> a == b) && (h.Some? ==> Fits(h.value, a) && Spliced(a, h.value) == b)
  }

  lemma HunkTakes(a: string, b: string)
    ensures Takes(HunkBetween(a, b), a, b)
  {
    var p, s := Scanned(a, b);
    WithinTakes(a, b, p, s);
    assert HunkBetween(a, b) == HunkWithin(a, b, p, s);
  }

  lemma WithinTakes(a: string, b: string, p: nat, s: nat)
    requires Scans(a, b, p, s)
    ensures Takes(HunkWithin(a, b, p, s), a, b)
  {
    SpliceMiddle(a, b, p, s);
    SpliceNothing(a, p);
  }

  lemma SpliceNothing(a: string, p: nat)
    requires p <= |a|
    ensures Splice(a, p, 0, "") == a
  {
  }

  lemma EqualHasNoHunk(a: string)
    ensures HunkBetween(a, a).None?
  {
    assert PrefixFrom(a, a, 0) == |a|;
  }

  /** No other single replacement taking `a` to `b` deletes and inserts less. */
  lemma HunkIsSmallest(a: string, b: string, h: Hunk)
    requires Fits(h, a) && Spliced(a, h) == b
    ensures Size(HunkBetween(a, b)) <= h.deleted + |h.inserted|
  {
    StartBound(a, b, h);
    EndBound(a, b, h);
  }

  lemma StartBound(a: string, b: string, h: Hunk)
    requires Fits(h, a) && Spliced(a, h) == b
    ensures h.start <= PrefixFrom(a, b, 0)
  {
    SplicedKeeps(a, h);
    NoLongerStart(a, b, PrefixFrom(a, b, 0), h.start);
  }

  lemma EndBound(a: string, b: string, h: Hunk)
    requires Fits(h, a) && Spliced(a, h) == b
    ensures var p := PrefixFrom(a, b, 0); var s := SuffixFrom(a, b, 0, Min(|a|, |b|) - p);
      p + s == |a| || p + s == |b| || |a| - h.start - h.deleted <= s
  {
    var p := PrefixFrom(a, b, 0);
    var s := SuffixFrom(a, b, 0, Min(|a|, |b|) - p);
    if p + s < |a| && p + s < |b| { EndChar(a, b, h, s); }
  }

  lemma EndChar(a: string, b: string, h: Hunk, s: nat)
    requires Fits(h, a) && Spliced(a, h) == b && s < |a| && s < |b|
    ensures s < |a| - h.start - h.deleted ==> a[|a| - 1 - s] == b[|b| - 1 - s]
  {
  }

  lemma SplicedKeeps(a: string, h: Hunk)
    requires Fits(h, a)
    ensures SameStart(a, Spliced(a, h), h.start)
  {
  }

  lemma NoLongerStart(a: string, b: string, p: nat, q: nat)
    requires SameStart(a, b, q) && p <= |a| && p <= |b| && (p < |a| && p < |b| ==> a[p] != b[p])
    ensures q <= p
  {
  }

  function Size(h: Option<Hunk>): nat {
    if h.Some? then h.value.deleted + |h.value.inserted| else 0
  }

  /** The changed region, found by two scans. */
  method FindHunk(a: string, b: string) returns (h: Option<Hunk>)
    ensures h == HunkBetween(a, b)
  {
    var prefix := ScanPrefix(a, b);
    var suffix := ScanSuffix(a, b, Min(|a|, |b|) - prefix);
    var deleted, inserted := |a| - prefix - suffix, b[prefix..|b| - suffix];
    h := if deleted == 0 && inserted == "" then None else Some(Hunk(prefix, deleted, inserted));
  }

  method ScanPrefix(a: string, b: string) returns (prefix: nat)
    ensures prefix == PrefixFrom(a, b, 0)
  {
    prefix := 0;
    while prefix < |a| && prefix < |b| && a[prefix] == b[prefix]
      invariant prefix <= |a| && prefix <= |b| && PrefixFrom(a, b, 0) == PrefixFrom(a, b, prefix)
    {
      prefix := prefix + 1;
    }
  }

  method ScanSuffix(a: string, b: string, max: nat) returns (suffix: nat)
    requires max <= |a| && max <= |b|
    ensures suffix == SuffixFrom(a, b, 0, max)
  {
    suffix := 0;
    while suffix < max && a[|a| - 1 - suffix] == b[|b| - 1 - suffix]
      invariant suffix <= max && SuffixFrom(a, b, 0, max) == SuffixFrom(a, b, suffix, max)
    {
      suffix := suffix + 1;
    }
  }

  // ---- Merging ----

  /** The current text without what the local edit deleted after the remote region. */
  function CutAfter(current: string, local: Hunk, remote: Hunk): (cut: string)
    requires |current| + remote.deleted >= remote.start + remote.deleted + |remote.inserted|
    requires local.start + local.deleted <= |current| + remote.deleted - |remote.inserted|
    requires local.start < remote.start + remote.deleted
    ensures |cut| >= remote.start + |remote.inserted|
  {
    var localEnd, remoteEnd := local.start + local.deleted, remote.start + remote.deleted;
    if localEnd > remoteEnd then Splice(current, remote.start + |remote.inserted|, localEnd - remoteEnd, "")
    else current
  }

  /** The local hunk brought into the current text: shifted past the remote one, or into it. */
  function Replay(current: string, local: Hunk, remote: Hunk): string
    requires |current| >= remote.start + |remote.inserted|
    requires local.start + local.deleted <= |current| + remote.deleted - |remote.inserted|
  {
    var localEnd, remoteEnd := local.start + local.deleted, remote.start + remote.deleted;
    if localEnd <= remote.start then
      Splice(current, local.start, local.deleted, local.inserted)
    else if local.start >= remoteEnd then
      Splice(current, local.start - remote.deleted + |remote.inserted|, local.deleted, local.inserted)
    else if local.start < remote.start then
      Splice(CutAfter(current, local, remote), local.start, Min(localEnd, remote.start) - local.start, local.inserted)
    else
      Splice(CutAfter(current, local, remote), remote.start + |remote.inserted|, 0, local.inserted)
  }

  /** An edit from `base` to `next`, brought into a text that says `current`. */
  function Merge(current: string, base: string, next: string): string {
    HunkHolds(base, next);
    HunkHolds(base, current);
    var local, remote := HunkBetween(base, next), HunkBetween(base, current);
    if current == base then next
    else if local.None? then current
    else if Size(HunkBetween(current, next)) < Size(local) then next
    else Replay(current, local.value, remote.value)
  }

  /** Into a text as the edit knew it, or as it leaves it, the merge is the edit. */
  lemma EqualMergesToItself(current: string, base: string, next: string)
    ensures current == base || current == next ==> Merge(current, base, next) == next
    ensures base == next ==> Merge(current, base, next) == current
  {
    HunkHolds(base, next);
    HunkHolds(current, next);
  }

  function Around(pre: string, part: string, post: string): string {
    pre + part + post
  }

  ghost predicate Contains(text: string, part: string) {
    exists pre, post :: text == Around(pre, part, post)
  }

  lemma SpliceContains(text: string, start: nat, deleted: nat, inserted: string)
    requires start + deleted <= |text|
    ensures Contains(Splice(text, start, deleted, inserted), inserted)
  {
    assert Splice(text, start, deleted, inserted) == Around(text[..start], inserted, text[start + deleted..]);
  }

  /** What is typed here survives the merge, whatever was typed elsewhere. */
  lemma LocalTypingSurvives(current: string, base: string, next: string)
    requires base != next
    ensures HunkBetween(base, next).Some?
    ensures Contains(Merge(current, base, next), HunkBetween(base, next).value.inserted)
  {
    HunkHolds(base, next);
    HunkHolds(base, current);
    var local := HunkBetween(base, next).value;
    SpliceContains(base, local.start, local.deleted, local.inserted);
    if current != base && Size(HunkBetween(current, next)) >= Size(Some(local)) {
      ReplayKeepsLocal(current, local, HunkBetween(base, current).value);
    }
  }

  lemma ReplayKeepsLocal(current: string, local: Hunk, remote: Hunk)
    requires |current| >= remote.start + |remote.inserted|
    requires local.start + local.deleted <= |current| + remote.deleted - |remote.inserted|
    ensures Contains(Replay(current, local, remote), local.inserted)
  {
    var localEnd, remoteEnd := local.start + local.deleted, remote.start + remote.deleted;
    if localEnd <= remote.start {
      SpliceContains(current, local.start, local.deleted, local.inserted);
    } else if local.start >= remoteEnd {
      SpliceContains(current, local.start - remote.deleted + |remote.inserted|, local.deleted, local.inserted);
    } else if local.start < remote.start {
      var cut := CutAfter(current, local, remote);
      SpliceContains(cut, local.start, Min(localEnd, remote.start) - local.start, local.inserted);
    } else {
      SpliceContains(CutAfter(current, local, remote), remote.start + |remote.inserted|, 0, local.inserted);
    }
  }

  /** What was typed elsewhere survives too, where the edit is replayed. */
  lemma RemoteTypingSurvivesReplay(current: string, base: string, next: string)
    requires current != base && base != next
    requires Size(HunkBetween(current, next)) >= Size(HunkBetween(base, next))
    ensures HunkBetween(base, current).Some?
    ensures Contains(Merge(current, base, next), HunkBetween(base, current).value.inserted)
  {
    HunkHolds(base, next);
    HunkHolds(base, current);
    var local, remote := HunkBetween(base, next).value, HunkBetween(base, current).value;
    var pre, ins, post := base[..remote.start], remote.inserted, base[remote.start + remote.deleted..];
    assert current == Around(pre, ins, post);
    ReplayKeepsMiddle(pre, ins, post, local, remote);
  }

  lemma ReplayKeepsMiddle(pre: string, ins: string, post: string, local: Hunk, remote: Hunk)
    requires remote.start == |pre| && remote.inserted == ins
    requires local.start + local.deleted <= |pre| + remote.deleted + |post|
    ensures Contains(Replay(Around(pre, ins, post), local, remote), ins)
  {
    var localEnd, remoteEnd := local.start + local.deleted, remote.start + remote.deleted;
    if localEnd <= |pre| {
      SpliceBefore(pre, ins, post, local.start, local.deleted, local.inserted);
    } else if local.start >= remoteEnd {
      SpliceAfter(pre, ins, post, local.start - remoteEnd, local.deleted, local.inserted);
      assert local.start - remote.deleted + |ins| == |pre| + |ins| + (local.start - remoteEnd);
    } else {
      OverlapKeepsMiddle(pre, ins, post, local, remote);
    }
  }

  lemma OverlapKeepsMiddle(pre: string, ins: string, post: string, local: Hunk, remote: Hunk)
    requires remote.start == |pre| && remote.inserted == ins
    requires local.start + local.deleted <= |pre| + remote.deleted + |post|
    requires |pre| < local.start + local.deleted && local.start < |pre| + remote.deleted
    ensures Contains(Replay(Around(pre, ins, post), local, remote), ins)
  {
    var localEnd, remoteEnd := local.start + local.deleted, remote.start + remote.deleted;
    var kept := if localEnd > remoteEnd then Splice(post, 0, localEnd - remoteEnd, "") else post;
    if localEnd > remoteEnd {
      CutIsSplice(pre, ins, post, localEnd - remoteEnd);
    }
    assert CutAfter(Around(pre, ins, post), local, remote) == Around(pre, ins, kept);
    KeptMiddleStays(pre, ins, post, kept, local, remote);
  }

  lemma KeptMiddleStays(pre: string, ins: string, post: string, kept: string, local: Hunk, remote: Hunk)
    requires remote.start == |pre| && remote.inserted == ins
    requires local.start + local.deleted <= |pre| + remote.deleted + |post|
    requires |pre| < local.start + local.deleted && local.start < |pre| + remote.deleted
    requires CutAfter(Around(pre, ins, post), local, remote) == Around(pre, ins, kept)
    ensures Contains(Replay(Around(pre, ins, post), local, remote), ins)
  {
    if local.start < |pre| {
      SpliceBefore(pre, ins, kept, local.start, Min(local.start + local.deleted, |pre|) - local.start, local.inserted);
    } else {
      SpliceAfter(pre, ins, kept, 0, 0, local.inserted);
    }
  }

  lemma SpliceBefore(pre: string, ins: string, post: string, start: nat, deleted: nat, inserted: string)
    requires start + deleted <= |pre|
    ensures Contains(Splice(Around(pre, ins, post), start, deleted, inserted), ins)
  {
    assert Splice(Around(pre, ins, post), start, deleted, inserted)
        == Around(Splice(pre, start, deleted, inserted), ins, post);
  }

  lemma SpliceAfter(pre: string, ins: string, post: string, start: nat, deleted: nat, inserted: string)
    requires start + deleted <= |post|
    ensures Contains(Splice(Around(pre, ins, post), |pre| + |ins| + start, deleted, inserted), ins)
  {
    assert Splice(Around(pre, ins, post), |pre| + |ins| + start, deleted, inserted)
        == Around(pre, ins, Splice(post, start, deleted, inserted));
  }

  lemma CutIsSplice(pre: string, ins: string, post: string, deleted: nat)
    requires deleted <= |post|
    ensures Splice(Around(pre, ins, post), |pre| + |ins|, deleted, "") == Around(pre, ins, Splice(post, 0, deleted, ""))
  {
  }

  // ---- Where both edits go ----

  /** Both edits of one text: what either deletes is gone, and each one's own text is where it was put; where they
      overlap, the one that starts first comes first, and of two that start together the one made elsewhere. */
  function BothEdits(base: string, local: Hunk, remote: Hunk): string
    requires Fits(local, base) && Fits(remote, base)
  {
    var localEnd, remoteEnd := local.start + local.deleted, remote.start + remote.deleted;
    if localEnd <= remote.start then
      base[..local.start] + local.inserted + base[localEnd..remote.start] + remote.inserted + base[remoteEnd..]
    else if remoteEnd <= local.start then
      base[..remote.start] + remote.inserted + base[remoteEnd..local.start] + local.inserted + base[localEnd..]
    else if local.start < remote.start then
      base[..local.start] + local.inserted + remote.inserted + base[Max(localEnd, remoteEnd)..]
    else
      base[..remote.start] + remote.inserted + local.inserted + base[Max(localEnd, remoteEnd)..]
  }

  function Max(a: nat, b: nat): nat {
    if a > b then a else b
  }

  lemma BeforeIsBoth(base: string, local: Hunk, remote: Hunk, current: string)
    requires Fits(local, base) && Fits(remote, base) && current == Spliced(base, remote)
    requires local.start + local.deleted <= remote.start
    ensures Replay(current, local, remote) == BothEdits(base, local, remote)
  {
    var localEnd, remoteEnd := local.start + local.deleted, remote.start + remote.deleted;
    assert current[..local.start] == base[..local.start];
    assert current[localEnd..] == base[localEnd..remote.start] + remote.inserted + base[remoteEnd..];
  }

  lemma AfterIsBoth(base: string, local: Hunk, remote: Hunk, current: string)
    requires Fits(local, base) && Fits(remote, base) && current == Spliced(base, remote)
    requires local.start >= remote.start + remote.deleted && remote.start < local.start + local.deleted
    ensures Replay(current, local, remote) == BothEdits(base, local, remote)
  {
    var localEnd, remoteEnd := local.start + local.deleted, remote.start + remote.deleted;
    var pre := base[..remote.start] + remote.inserted + base[remoteEnd..local.start];
    var gone, post := base[local.start..localEnd], base[localEnd..];
    assert base[remoteEnd..] == base[remoteEnd..local.start] + gone + post;
    assert current == pre + gone + post;
    SpliceAt(pre, gone, post, local.inserted, current);
  }

  lemma SpliceAt(pre: string, gone: string, post: string, ins: string, s: string)
    requires s == pre + gone + post
    ensures Splice(s, |pre|, |gone|, ins) == pre + ins + post
  {
    assert s[..|pre|] == pre && s[|pre| + |gone|..] == post;
  }

  lemma CutIsRest(base: string, local: Hunk, remote: Hunk, current: string)
    requires Fits(local, base) && Fits(remote, base) && current == Spliced(base, remote)
    requires local.start < remote.start + remote.deleted
    ensures CutAfter(current, local, remote) ==
      base[..remote.start] + remote.inserted + base[Max(local.start + local.deleted, remote.start + remote.deleted)..]
  {
    var localEnd, remoteEnd := local.start + local.deleted, remote.start + remote.deleted;
    var at := remote.start + |remote.inserted|;
    assert current[..at] == base[..remote.start] + remote.inserted;
    if localEnd > remoteEnd {
      assert current[at + (localEnd - remoteEnd)..] == base[localEnd..];
    }
  }

  lemma OverlapIsBoth(base: string, local: Hunk, remote: Hunk, current: string)
    requires Fits(local, base) && Fits(remote, base) && current == Spliced(base, remote)
    requires local.start < remote.start + remote.deleted && remote.start < local.start + local.deleted
    ensures Replay(current, local, remote) == BothEdits(base, local, remote)
  {
    var localEnd, remoteEnd := local.start + local.deleted, remote.start + remote.deleted;
    var cut := CutAfter(current, local, remote);
    CutIsRest(base, local, remote, current);
    if local.start < remote.start {
      assert cut[..local.start] == base[..local.start];
      assert cut[remote.start..] == remote.inserted + base[Max(localEnd, remoteEnd)..];
    } else {
      var at := remote.start + |remote.inserted|;
      assert cut[..at] == base[..remote.start] + remote.inserted;
      assert cut[at..] == base[Max(localEnd, remoteEnd)..];
    }
  }

  /** An edit replayed into a text that moved on makes both edits, each where it was made. */
  lemma MergeIsBoth(current: string, base: string, next: string)
    requires current != base && base != next
    requires Size(HunkBetween(current, next)) >= Size(HunkBetween(base, next))
    ensures HunkBetween(base, next).Some? && HunkBetween(base, current).Some?
    ensures var local, remote := HunkBetween(base, next).value, HunkBetween(base, current).value;
      Fits(local, base) && Fits(remote, base) && Merge(current, base, next) == BothEdits(base, local, remote)
  {
    HunkHolds(base, next);
    HunkHolds(base, current);
    var local, remote := HunkBetween(base, next).value, HunkBetween(base, current).value;
    if local.start + local.deleted <= remote.start {
      BeforeIsBoth(base, local, remote, current);
    } else if local.start >= remote.start + remote.deleted {
      AfterIsBoth(base, local, remote, current);
    } else {
      OverlapIsBoth(base, local, remote, current);
    }
  }

  /** What was typed elsewhere is in the merged text if and only if the edit is replayed, or says nothing, or its own
      text has it. */
  lemma RemoteTypingExactly(current: string, base: string, next: string)
    requires current != base
    ensures HunkBetween(base, current).Some?
    ensures var typed := HunkBetween(base, current).value.inserted;
      Contains(Merge(current, base, next), typed) <==>
        || base == next
        || Size(HunkBetween(current, next)) >= Size(HunkBetween(base, next))
        || Contains(next, typed)
  {
    HunkHolds(base, next);
    HunkHolds(base, current);
    var remote := HunkBetween(base, current).value;
    if base == next {
      assert current == Around(base[..remote.start], remote.inserted, base[remote.start + remote.deleted..]);
    } else if Size(HunkBetween(current, next)) >= Size(HunkBetween(base, next)) {
      RemoteTypingSurvivesReplay(current, base, next);
    }
  }

  /** So it can go: all of "YYYY" replaced by "X" elsewhere and all of it deleted here leaves nothing of the "X". */
  lemma RemoteTypingCanGo()
    ensures Merge("X", "YYYY", "") == ""
    ensures HunkBetween("YYYY", "X") == Some(Hunk(0, 4, "X"))
  {
    assert PrefixFrom("X", "", 0) == 0 && SuffixFrom("X", "", 0, 0) == 0;
    assert PrefixFrom("YYYY", "", 0) == 0 && SuffixFrom("YYYY", "", 0, 0) == 0;
    assert PrefixFrom("YYYY", "X", 0) == 0 && SuffixFrom("YYYY", "X", 0, 1) == 0;
    assert "X"[0..1] == "X";
  }

  // ---- When a merge is exactly the edit ----

  /** The hunk of two strings starts and ends where they differ. */
  ghost predicate IsTight(a: string, h: Hunk) {
    && Fits(h, a) && (h.deleted > 0 || h.inserted != "")
    && (h.deleted > 0 && h.inserted != "" ==>
          h.inserted[0] != a[h.start] && h.inserted[|h.inserted| - 1] != a[h.start + h.deleted - 1])
  }

  lemma HunkIsTight(a: string, b: string)
    requires HunkBetween(a, b).Some?
    ensures IsTight(a, HunkBetween(a, b).value)
  {
    var p := PrefixFrom(a, b, 0);
    var s := SuffixFrom(a, b, 0, Min(|a|, |b|) - p);
    var inserted := b[p..|b| - s];
    assert inserted != "" ==> inserted[0] == b[p] && inserted[|inserted| - 1] == b[|b| - 1 - s];
  }

  /** Before the remote region: the replay has what was typed there, the edit has what was there. */
  lemma BeforeDiffers(base: string, local: Hunk, remote: Hunk)
    requires Fits(local, base) && IsTight(base, remote) && local.start + local.deleted <= remote.start
    ensures Splice(Spliced(base, remote), local.start, local.deleted, local.inserted) != Spliced(base, local)
  {
    var x, y := Splice(Spliced(base, remote), local.start, local.deleted, local.inserted), Spliced(base, local);
    var at := remote.start - local.deleted + |local.inserted|;
    if |remote.inserted| == remote.deleted {
      assert x[at] == remote.inserted[0] && y[at] == base[remote.start];
    } else {
      assert |x| != |y|;
    }
  }

  lemma AfterDiffers(base: string, local: Hunk, remote: Hunk)
    requires Fits(local, base) && IsTight(base, remote) && local.start >= remote.start + remote.deleted
    ensures Splice(Spliced(base, remote), local.start - remote.deleted + |remote.inserted|, local.deleted,
        local.inserted)
         != Spliced(base, local)
  {
    var x := Splice(Spliced(base, remote), local.start - remote.deleted + |remote.inserted|, local.deleted,
        local.inserted);
    var y := Spliced(base, local);
    if |remote.inserted| == remote.deleted {
      assert x[remote.start] == remote.inserted[0] && y[remote.start] == base[remote.start];
    } else {
      assert |x| != |y|;
    }
  }

  /** The current text where the local edit reaches past the remote region, or does not. */
  lemma CutIs(base: string, local: Hunk, remote: Hunk)
    requires Fits(local, base) && Fits(remote, base) && local.start < remote.start + remote.deleted
    ensures CutAfter(Spliced(base, remote), local, remote) ==
      base[..remote.start] + remote.inserted +
      base[if local.start + local.deleted > remote.start + remote.deleted then local.start + local.deleted
           else remote.start + remote.deleted..]
  {
  }

  /** The local edit starts first and ends inside the remote region. */
  lemma EndsInsideDiffers(base: string, local: Hunk, remote: Hunk)
    requires Fits(local, base) && IsTight(base, remote)
    requires local.start < remote.start < local.start + local.deleted < remote.start + remote.deleted
    ensures Replay(Spliced(base, remote), local, remote) != Spliced(base, local)
  {
    CutIs(base, local, remote);
    var l1, r1 := local.start + local.deleted, remote.start + remote.deleted;
    var x, y := base[..local.start] + local.inserted + remote.inserted + base[r1..], Spliced(base, local);
    assert Replay(Spliced(base, remote), local, remote) == x;
    if |remote.inserted| == r1 - l1 {
      var at := |x| - (|base| - r1) - 1;
      assert x[at] == remote.inserted[|remote.inserted| - 1] && y[at] == base[r1 - 1];
    } else {
      assert |x| != |y|;
    }
  }

  /** The local edit starts first and covers the remote region. */
  lemma CoversIt(base: string, local: Hunk, remote: Hunk)
    requires Fits(local, base) && IsTight(base, remote)
    requires local.start < remote.start <= remote.start + remote.deleted <= local.start + local.deleted
    requires remote.start < local.start + local.deleted
    requires Replay(Spliced(base, remote), local, remote) == Spliced(base, local)
    ensures Size(HunkBetween(Spliced(base, remote), Spliced(base, local))) < local.deleted + |local.inserted|
  {
    var l1, r1 := local.start + local.deleted, remote.start + remote.deleted;
    if local.start < r1 { CutIs(base, local, remote); }
    var x := base[..local.start] + local.inserted + remote.inserted + base[l1..];
    assert Replay(Spliced(base, remote), local, remote) == x;
    assert |x| == |Spliced(base, local)| + |remote.inserted|;
    DeletedTwice(base, local, remote);
  }

  /** Where all the remote edit did was delete some of what the local one deletes, the edit from the
      current text is the smaller. */
  lemma DeletedTwice(base: string, local: Hunk, remote: Hunk)
    requires Fits(local, base) && remote.inserted == "" && remote.deleted > 0
    requires local.start <= remote.start && remote.start + remote.deleted <= local.start + local.deleted
    ensures Size(HunkBetween(Spliced(base, remote), Spliced(base, local))) < local.deleted + |local.inserted|
  {
    var h := Hunk(local.start, local.deleted - remote.deleted, local.inserted);
    assert Spliced(Spliced(base, remote), h) == Spliced(base, local);
    HunkIsSmallest(Spliced(base, remote), Spliced(base, local), h);
  }

  /** The remote edit starts first and reaches into the local one. */
  lemma StartsInsideDiffers(base: string, local: Hunk, remote: Hunk)
    requires Fits(local, base) && IsTight(base, remote)
    requires remote.start < local.start < remote.start + remote.deleted
    ensures Replay(Spliced(base, remote), local, remote) != Spliced(base, local)
  {
    CutIs(base, local, remote);
    var l1, r1 := local.start + local.deleted, remote.start + remote.deleted;
    var e := if l1 > r1 then l1 else r1;
    var x, y := base[..remote.start] + remote.inserted + local.inserted + base[e..], Spliced(base, local);
    assert Replay(Spliced(base, remote), local, remote) == x;
    if remote.inserted != "" {
      assert x[remote.start] == remote.inserted[0] && y[remote.start] == base[remote.start];
    } else {
      assert |x| != |y|;
    }
  }

  /** Both start together. */
  lemma StartTogether(base: string, local: Hunk, remote: Hunk)
    requires Fits(local, base) && IsTight(base, remote)
    requires remote.start == local.start && local.deleted > 0 && remote.deleted > 0
    requires Replay(Spliced(base, remote), local, remote) == Spliced(base, local)
    ensures Size(HunkBetween(Spliced(base, remote), Spliced(base, local))) < local.deleted + |local.inserted|
  {
    CutIs(base, local, remote);
    var l1, r1 := local.start + local.deleted, remote.start + remote.deleted;
    var e := if l1 > r1 then l1 else r1;
    var x := base[..remote.start] + remote.inserted + local.inserted + base[e..];
    assert Replay(Spliced(base, remote), local, remote) == x;
    assert |x| == remote.start + |remote.inserted| + |local.inserted| + |base| - e;
    assert |Spliced(base, local)| == local.start + |local.inserted| + |base| - l1;
    if remote.inserted == "" {
      DeletedTwice(base, local, remote);
    } else {
      InsertedOnly(base, local, remote, e);
    }
  }

  /** Where the replay puts the local insertion after the remote one and that is what the edit says, the
      edit from the current text only inserts. */
  lemma InsertedOnly(base: string, local: Hunk, remote: Hunk, e: nat)
    requires Fits(local, base) && Fits(remote, base) && local.start == remote.start && local.deleted > 0
    requires e == remote.start + remote.deleted
    requires Spliced(base, local) == base[..remote.start] + remote.inserted + local.inserted + base[e..]
    ensures Size(HunkBetween(Spliced(base, remote), Spliced(base, local))) < local.deleted + |local.inserted|
  {
    var h := Hunk(remote.start + |remote.inserted|, 0, local.inserted);
    assert Spliced(Spliced(base, remote), h) == Spliced(base, local);
    HunkIsSmallest(Spliced(base, remote), Spliced(base, local), h);
  }

  /** A replay that gives exactly what the edit says is larger than the edit from the current text. */
  lemma ExactReplayIsLarger(base: string, local: Hunk, remote: Hunk)
    requires Fits(local, base) && IsTight(base, remote)
    requires Replay(Spliced(base, remote), local, remote) == Spliced(base, local)
    ensures Size(HunkBetween(Spliced(base, remote), Spliced(base, local))) < local.deleted + |local.inserted|
  {
    ApartDiffers(base, local, remote);
    OverlapIsLarger(base, local, remote);
  }

  lemma ApartDiffers(base: string, local: Hunk, remote: Hunk)
    requires Fits(local, base) && IsTight(base, remote)
    requires Replay(Spliced(base, remote), local, remote) == Spliced(base, local)
    ensures local.start + local.deleted > remote.start && local.start < remote.start + remote.deleted
  {
    if local.start + local.deleted <= remote.start {
      BeforeDiffers(base, local, remote);
    } else if local.start >= remote.start + remote.deleted {
      AfterDiffers(base, local, remote);
    }
  }

  lemma OverlapIsLarger(base: string, local: Hunk, remote: Hunk)
    requires Fits(local, base) && IsTight(base, remote)
    requires local.start + local.deleted > remote.start && local.start < remote.start + remote.deleted
    requires Replay(Spliced(base, remote), local, remote) == Spliced(base, local)
    ensures Size(HunkBetween(Spliced(base, remote), Spliced(base, local))) < local.deleted + |local.inserted|
  {
    if remote.start < local.start {
      StartsInsideDiffers(base, local, remote);
    } else if remote.start == local.start {
      StartTogether(base, local, remote);
    } else if local.start + local.deleted < remote.start + remote.deleted {
      EndsInsideDiffers(base, local, remote);
    } else {
      CoversIt(base, local, remote);
    }
  }

  /** A merge gives exactly what the editor has if and only if the text is as the editor knew it, or the
      edit from what it now says is smaller than the one from what the editor knew. */
  lemma MergeIsNextExactly(current: string, base: string, next: string)
    ensures Merge(current, base, next) == next <==>
      current == base || Size(HunkBetween(current, next)) < Size(HunkBetween(base, next))
  {
    HunkHolds(base, next);
    HunkHolds(base, current);
    if current != base && base != next && Size(HunkBetween(current, next)) >= Size(HunkBetween(base, next)) {
      ReplayIsNotNext(current, base, next);
    }
  }

  lemma ReplayIsNotNext(current: string, base: string, next: string)
    requires current != base && base != next && Size(HunkBetween(current, next)) >= Size(HunkBetween(base, next))
    ensures Merge(current, base, next) != next
  {
    HunkHolds(base, next);
    HunkHolds(base, current);
    var local, remote := HunkBetween(base, next).value, HunkBetween(base, current).value;
    HunkIsTight(base, current);
    assert Merge(current, base, next) == Replay(current, local, remote);
    if Replay(current, local, remote) == Spliced(base, local) {
      ExactReplayIsLarger(base, local, remote);
    }
  }
}
