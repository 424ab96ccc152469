/** Which of several versions of one drawing element stands, and what becomes of the others
    (`packages/plugin/src/excalidraw-merge.ts`). */
module DrawingMerge {
  import opened Json

  // ---- Elements ----

  /** Fields of an element besides its id, version and nonce. The merge's own bookkeeping is kept
      beside an element, never among its fields. */
  type Fields = m: map<string, Json> | forall k | k in m :: PlainField(k)

  predicate PlainField(k: string) {
    k != "id" && k != "version" && k != "versionNonce" && (k == "" || k[0] as int != 1)
  }

  datatype Element = Element(id: string, version: int, nonce: int, fields: Fields)

  /** The whole element as one JSON object. */
  function Whole(e: Element): Json {
    Obj(e.fields["id" := Str(e.id)]["version" := Num(IntText(e.version))]["versionNonce" := Num(IntText(e.nonce))])
  }

  lemma WholeInjective(a: Element, b: Element)
    requires a.id == b.id && a.version == b.version && a.nonce == b.nonce
    requires Whole(a) == Whole(b)
    ensures a == b
  {
    forall k | PlainField(k)
      ensures k in a.fields <==> k in b.fields
      ensures k in a.fields ==> a.fields[k] == b.fields[k]
    {
      assert k in a.fields <==> k in Whole(a).fields;
      assert k in b.fields <==> k in Whole(b).fields;
      if k in a.fields {
        assert a.fields[k] == Whole(a).fields[k] && b.fields[k] == Whole(b).fields[k];
      }
    }
    assert forall k :: k in a.fields ==> PlainField(k);
    assert forall k :: k in b.fields ==> PlainField(k);
    assert a.fields == b.fields;
  }

  predicate Holds(e: Element, k: string, v: Json) {
    k in e.fields && e.fields[k] == v
  }

  /** A delete, where the source asks `isDeleted === true`. */
  predicate IsDelete(e: Element) {
    Holds(e, "isDeleted", Bool(true))
  }

  /** A delete, where the source asks only whether `isDeleted` is truthy. */
  predicate ReadsDeleted(e: Element) {
    "isDeleted" in e.fields && !Falsy(e.fields["isDeleted"])
  }

  // ---- The order on versions ----

  /** Whether `a` beats `b`: a higher version, then a lower nonce, then the lower text. */
  predicate Beats(a: Element, b: Element) {
    if a.version != b.version then a.version > b.version
    else if a.nonce != b.nonce then a.nonce < b.nonce
    else Less(Canonical(Whole(a)), Canonical(Whole(b)))
  }

  /** Of two versions of one element exactly one beats the other: every vault decides alike. */
  lemma BeatsTotal(a: Element, b: Element)
    requires a.id == b.id
    ensures a == b <==> !Beats(a, b) && !Beats(b, a)
    ensures !(Beats(a, b) && Beats(b, a))
  {
    LessTotal(Canonical(Whole(a)), Canonical(Whole(b)));
    if !Beats(a, b) && !Beats(b, a) {
      SameIsEquality(Whole(a), Whole(b));
      WholeInjective(a, b);
    }
  }

  lemma BeatsTransitive(a: Element, b: Element, c: Element)
    requires Beats(a, b) && Beats(b, c)
    ensures Beats(a, c)
  {
    if a.version == b.version == c.version && a.nonce == b.nonce == c.nonce {
      LessTransitive(Canonical(Whole(a)), Canonical(Whole(b)), Canonical(Whole(c)));
    }
  }

  ghost predicate OneElement(s: set<Element>) {
    forall a, b | a in s && b in s :: a.id == b.id
  }

  /** `e` is the version that stands, of those in `s`. */
  ghost predicate IsTop(e: Element, s: set<Element>) {
    e in s && forall o | o in s && o != e :: Beats(e, o)
  }

  lemma {:induction false} HasTop(s: set<Element>)
    requires s != {} && OneElement(s)
    ensures exists e :: IsTop(e, s)
    decreases |s|
  {
    var x :| x in s;
    var rest := s - {x};
    if rest == {} {
      assert s == {x};
      assert IsTop(x, s);
    } else {
      HasTop(rest);
      var e :| IsTop(e, rest);
      BeatsTotal(x, e);
      if Beats(e, x) {
        assert IsTop(e, s);
      } else {
        forall o | o in s && o != x
          ensures Beats(x, o)
        {
          if o != e { BeatsTransitive(x, e, o); }
        }
        assert IsTop(x, s);
      }
    }
  }

  /** Nothing beats the version that stands: it has the highest version, of those the lowest nonce, and of those the
      lowest text. */
  lemma TopIsLowest(e: Element, s: set<Element>, o: Element)
    requires IsTop(e, s) && o in s
    ensures e.version >= o.version && (e.version == o.version ==> e.nonce <= o.nonce)
    ensures e.version == o.version && e.nonce == o.nonce && e != o ==> Less(Canonical(Whole(e)), Canonical(Whole(o)))
  {
  }

  lemma TopUnique(a: Element, b: Element, s: set<Element>)
    requires IsTop(a, s) && IsTop(b, s) && OneElement(s)
    ensures a == b
  {
    BeatsTotal(a, b);
  }

  /** One scan for the version that beats the others. */
  method WinnerOf(versions: seq<Element>) returns (best: Element)
    requires versions != []
    requires OneElement(set v | v in versions)
    ensures IsTop(best, set v | v in versions)
  {
    best := versions[0];
    var i := 1;
    while i < |versions|
      invariant 1 <= i <= |versions|
      invariant best in versions[..i]
      invariant forall j | 0 <= j < i && versions[j] != best :: Beats(best, versions[j])
    {
      ghost var was := best;
      if Beats(versions[i], best) { best := versions[i]; }
      OneStepUp(versions, i, was, best);
      i := i + 1;
    }
  }

  /** The better of two beats what either beat. */
  lemma BetterBeats(was: Element, x: Element, best: Element, v: Element)
    requires was.id == x.id == v.id && best == (if Beats(x, was) then x else was) && v != best
    requires v == was || v == x || Beats(was, v)
    ensures Beats(best, v)
  {
    BeatsTotal(was, x);
    if Beats(x, was) && v != was && v != x { BeatsTransitive(x, was, v); }
  }

  lemma OneStepUp(versions: seq<Element>, i: nat, was: Element, best: Element)
    requires 0 < i < |versions| && was in versions[..i]
    requires OneElement(set v | v in versions)
    requires forall j | 0 <= j < i && versions[j] != was :: Beats(was, versions[j])
    requires best == if Beats(versions[i], was) then versions[i] else was
    ensures best in versions[..i + 1]
    ensures forall j | 0 <= j <= i && versions[j] != best :: Beats(best, versions[j])
  {
    assert versions[..i + 1] == versions[..i] + [versions[i]];
    assert was in versions;
    assert was.id == versions[i].id;
    forall j | 0 <= j <= i && versions[j] != best
      ensures Beats(best, versions[j])
    {
      assert versions[j] in versions;
      BetterBeats(was, versions[i], best, versions[j]);
    }
  }

  // ---- What an element says ----

  const NOT_CONTENT := {
    "x", "y", "width", "height", "angle", "updated", "seed", "index", "boundElements", "groupIds", "frameId"
  }

  const ARROW_PATH := {
    "points", "startBinding", "endBinding", "lastCommittedPoint", "fixedSegments", "startIsSpecial", "endIsSpecial"
  }

  const BOOKKEEPING := {"isDeleted", "index", "updated", "seed"}

  type Content = map<string, Json>

  predicate IsContentField(e: Element, k: string) {
    && k !in NOT_CONTENT
    && !(Holds(e, "type", Str("arrow")) && k in ARROW_PATH)
    && !(k == "text" && Holds(e, "type", Str("text")) && "originalText" in e.fields && e.fields["originalText"].Str?)
  }

  /** The fields of an element that count as said: not its place, nor what is kept to account for it. Kept as
      fields, which its canonical text determines (`Json.SameIsEquality`). */
  function ContentOf(e: Element): Content {
    (map k | k in e.fields && IsContentField(e, k) :: e.fields[k])["id" := Str(e.id)]
  }

  /** A value that stands for none: what is filled in where a file leaves a field out. */
  predicate EmptyLike(v: Json) {
    Falsy(v) || v == Arr([]) || v == Obj(map[])
  }

  /** No field both have differs, and what only one has is as good as none (or, for a fill, whatever it is). */
  predicate SameContent(a: Content, b: Content, oneSidedIsFill: bool) {
    forall k | k in a.Keys + b.Keys ::
      if k in a && k in b then a[k] == b[k]
      else oneSidedIsFill || EmptyLike(if k in a then a[k] else b[k])
  }

  /** What a person changes: all but bookkeeping, and nothing empty (a zero is a value here). */
  function PersonsPart(e: Element): map<string, Json> {
    map k | k in e.fields && k !in BOOKKEEPING && (!EmptyLike(e.fields[k]) || e.fields[k] == Num("0")) :: e.fields[k]
  }

  predicate OnlyBookkeeping(a: Element, b: Element) {
    a.id == b.id && PersonsPart(a) == PersonsPart(b)
  }

  datatype Fate = LostDelete | WrittenTwice | OnlyMoved | SaysTheSame | KeepFromDelete | KeepFromEdit

  /** What becomes of a version that was beaten. */
  function FateOf(loser: Element, winner: Element, baseContent: Option<Content>): Fate {
    var content := ContentOf(loser);
    if ReadsDeleted(loser) then LostDelete
    else if loser.version == winner.version && loser.nonce == winner.nonce
        && SameContent(content, ContentOf(winner), true)
    then WrittenTwice
    else if baseContent.Some? && SameContent(content, baseContent.value, false) then OnlyMoved
    else if SameContent(content, ContentOf(winner), false) then SaysTheSame
    else if ReadsDeleted(winner) then KeepFromDelete
    else KeepFromEdit
  }

  // ---- A kept copy ----

  /** Ids and nonces derived from the losing version's key, by a hash taken to be injective where
      a theorem says so. */
  datatype CopyIds = CopyIds(
    copy: string, outline: string, caption: string, group: string,
    copyNonce: int, outlineNonce: int, captionNonce: int)

  /** Where a kept copy is drawn, and what its outline and label look like. */
  datatype Spot = Spot(x: Json, y: Json, index: Json, updated: Json, outline: Fields, caption: Fields)

  const NOWHERE := Spot(Null, Null, Null, Null, map[], map[])

  /** Fields a kept copy does not take from the version it keeps. */
  const PLACED := {"x", "y", "isDeleted", "groupIds", "frameId", "boundElements", "index", "updated"}

  /** What ties an element to others, cut in a copy that has it. */
  const TIES := {"containerId", "startBinding", "endBinding"}

  function PlacedFields(ids: CopyIds, spot: Spot): Fields {
    map[
      "x" := spot.x, "y" := spot.y, "isDeleted" := Bool(false), "groupIds" := Arr([Str(ids.group)]),
      "frameId" := Null, "boundElements" := Null, "index" := spot.index, "updated" := spot.updated
    ]
  }

  function KeptFields(loser: Element, ids: CopyIds, spot: Spot): Fields {
    loser.fields + PlacedFields(ids, spot) + (map k | k in loser.fields && k in TIES :: Null)
  }

  /** The copy of a losing version that goes back into the drawing. */
  function KeptCopy(loser: Element, ids: CopyIds, spot: Spot): Element {
    Element(ids.copy, 1, ids.copyNonce, KeptFields(loser, ids, spot))
  }

  /** The copy with its outline and label. */
  function KeptParts(loser: Element, ids: CopyIds, spot: Spot): seq<Element> {
    [
      Element(ids.outline, 1, ids.outlineNonce, spot.outline),
      KeptCopy(loser, ids, spot),
      Element(ids.caption, 1, ids.captionNonce, spot.caption)
    ]
  }

  /** How a copy carries one field of what it copies: placed anew, cut, or as it was. */
  predicate CopiedField(copy: Element, e: Element, k: string) {
    k in PLACED ||
    ((k in copy.fields <==> k in e.fields) &&
     (k in copy.fields && k in e.fields ==> copy.fields[k] == if k in TIES then Null else e.fields[k]))
  }

  /** Whether `copy` is `e` again, under an id of its own: every field but where it is, its version
      data and its ties, and live. */
  ghost predicate IsCopyOf(copy: Element, e: Element) {
    !ReadsDeleted(copy) && forall k :: CopiedField(copy, e, k)
  }

  lemma KeptField(loser: Element, ids: CopyIds, spot: Spot, k: string)
    ensures CopiedField(KeptCopy(loser, ids, spot), loser, k)
  {
    assert PlacedFields(ids, spot).Keys == PLACED;
  }

  lemma KeptCopyIsCopy(loser: Element, ids: CopyIds, spot: Spot)
    ensures IsCopyOf(KeptCopy(loser, ids, spot), loser)
  {
    var copy := KeptCopy(loser, ids, spot);
    forall k
      ensures CopiedField(copy, loser, k)
    {
      KeptField(loser, ids, spot, k);
    }
    KeptIsLive(loser, ids, spot);
  }

  lemma KeptIsLive(loser: Element, ids: CopyIds, spot: Spot)
    ensures Holds(KeptCopy(loser, ids, spot), "isDeleted", Bool(false))
  {
    var p := PlacedFields(ids, spot);
    assert "isDeleted" in p && p["isDeleted"] == Bool(false);
  }

  lemma SameContentFields(copy: Element, e: Element, k: string)
    requires IsCopyOf(copy, e)
    ensures IsContentField(copy, k) == IsContentField(e, k)
  {
    assert CopiedField(copy, e, "type") && CopiedField(copy, e, "originalText");
  }

  /** A kept copy says what the lost version said, ties apart. */
  lemma CopySaysTheSame(copy: Element, e: Element, k: string)
    requires IsCopyOf(copy, e) && k != "id" && k !in TIES && k != "isDeleted"
    ensures k in ContentOf(copy) <==> k in ContentOf(e)
    ensures k in ContentOf(copy) ==> ContentOf(copy)[k] == ContentOf(e)[k]
  {
    SameContentFields(copy, e, k);
    assert CopiedField(copy, e, k);
    assert k in PLACED ==> k in NOT_CONTENT;
  }
}
