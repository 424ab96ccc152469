/** Vaults that edit, settle and exchange one drawing: what every run keeps.

    A vault's copy of the revision map is what Yjs holds of a `Y.Map`: every write it has received,
    as items in one order per key, and which of them were deleted. A key shows its last item unless
    that one is deleted. An update reaches a vault after everything its sender had when making it,
    as the server's log delivers them, so a message here is a sender's whole state. */
module DrawingSync {
  import opened DrawingMerge
  import opened DrawingModel
  import opened DrawingSettle

  // ---- One vault's copy ----

  /** One write of a revision. Stamps are unique, and a write is stamped above what its writer held under the key. */
  datatype Item = Item(stamp: int, el: Element, meta: Meta)

  datatype Replica = Replica(items: set<Item>, dead: set<int>)

  const EMPTY := Replica({}, {})

  /** The last write of its key. */
  ghost predicate IsLast(r: Replica, i: Item) {
    i in r.items && forall j | j in r.items && j.el == i.el :: j.stamp <= i.stamp
  }

  ghost predicate IsShown(r: Replica, i: Item) {
    IsLast(r, i) && i.stamp !in r.dead
  }

  /** The replica shows revision `e`. */
  ghost predicate Shows(r: Replica, e: Element) {
    exists i :: IsShown(r, i) && i.el == e
  }

  /** `revs` is the map the replica shows. */
  ghost predicate Is(r: Replica, revs: Revs) {
    && (forall i | IsShown(r, i) :: i.el in revs && revs[i.el] == i.meta)
    && (forall e | e in revs :: Shows(r, e))
  }

  /** Every revision of an element the replica ever received, whatever became of it. */
  function Received(r: Replica, id: string): set<Element> {
    set i | i in r.items && i.el.id == id :: i.el
  }

  // ---- What every replica keeps ----

  ghost predicate DeadWereThere(r: Replica) {
    forall s | s in r.dead :: exists i | i in r.items :: i.stamp == s
  }

  ghost predicate StampsUnique(a: Replica, b: Replica) {
    forall i, j | i in a.items && j in b.items && i.stamp == j.stamp :: i == j
  }

  /** Of all the versions of an element ever received, the one that beats the rest is shown. */
  ghost predicate TopShown(r: Replica) {
    forall e: Element | IsTop(e, Received(r, e.id)) :: Shows(r, e)
  }

  ghost predicate Good(r: Replica) {
    DeadWereThere(r) && StampsUnique(r, r) && TopShown(r)
  }

  function Join(a: Replica, b: Replica): Replica {
    Replica(a.items + b.items, a.dead + b.dead)
  }

  lemma TopInPart(e: Element, part: set<Element>, all: set<Element>)
    requires IsTop(e, all) && e in part && part <= all
    ensures IsTop(e, part)
  {
  }

  lemma JoinDead(a: Replica, b: Replica)
    requires DeadWereThere(a) && DeadWereThere(b)
    ensures DeadWereThere(Join(a, b))
  {
    var r := Join(a, b);
    forall s | s in r.dead
      ensures exists i | i in r.items :: i.stamp == s
    {
      if s in a.dead {
        var i :| i in a.items && i.stamp == s;
        assert i in r.items;
      } else {
        var i :| i in b.items && i.stamp == s;
        assert i in r.items;
      }
    }
  }

  /** What one side shows last of a key stays shown, when the other side holds nothing later of it. */
  lemma StaysShown(a: Replica, b: Replica, i: Item)
    requires DeadWereThere(b) && StampsUnique(a, b) && IsShown(a, i)
    requires forall j | j in b.items && j.el == i.el :: j.stamp <= i.stamp
    requires i in b.items ==> i.stamp !in b.dead
    ensures IsShown(Join(a, b), i) && IsShown(Join(b, a), i)
  {
    assert forall j | j in b.items && j.stamp == i.stamp :: j == i;
  }

  /** A version both sides show, or one side shows and the other never received, is shown when they are joined. */
  lemma JoinShows(a: Replica, b: Replica, e: Element)
    requires DeadWereThere(a) && DeadWereThere(b) && StampsUnique(a, b)
    requires Shows(a, e)
    requires Shows(b, e) || forall j | j in b.items :: j.el != e
    ensures Shows(Join(a, b), e)
  {
    var i :| IsShown(a, i) && i.el == e;
    if Shows(b, e) {
      var j :| IsShown(b, j) && j.el == e;
      if j.stamp <= i.stamp {
        assert i in b.items ==> i == j;
        StaysShown(a, b, i);
      } else {
        assert StampsUnique(b, a);
        assert j in a.items ==> j.stamp <= i.stamp;
        StaysShown(b, a, j);
      }
    } else {
      StaysShown(a, b, i);
    }
  }

  lemma JoinTopShown(a: Replica, b: Replica, e: Element)
    requires Good(a) && Good(b) && StampsUnique(a, b)
    requires IsTop(e, Received(Join(a, b), e.id))
    ensures Shows(Join(a, b), e)
  {
    var all := Received(Join(a, b), e.id);
    var i :| i in a.items + b.items && i.el == e;
    if e in Received(a, e.id) {
      TopInPart(e, Received(a, e.id), all);
      if e in Received(b, e.id) {
        TopInPart(e, Received(b, e.id), all);
      }
      JoinShows(a, b, e);
    } else {
      assert e in Received(b, e.id);
      TopInPart(e, Received(b, e.id), all);
      assert StampsUnique(b, a);
      JoinShows(b, a, e);
      assert Join(b, a) == Join(a, b);
    }
  }

  lemma JoinGood(a: Replica, b: Replica)
    requires Good(a) && Good(b) && StampsUnique(a, b)
    ensures Good(Join(a, b))
  {
    JoinDead(a, b);
    forall e: Element | IsTop(e, Received(Join(a, b), e.id))
      ensures Shows(Join(a, b), e)
    {
      JoinTopShown(a, b, e);
    }
  }

  // ---- One vault's own writes ----

  /** A vault's write takes the map it shows from `before` to `after`: its items are new, and stand. */
  ghost predicate Wrote(r: Replica, r': Replica, before: Revs, after: Revs) {
    && Is(r, before) && Is(r', after)
    && r.items <= r'.items && r.dead <= r'.dead
    && DeadWereThere(r') && StampsUnique(r', r')
    && (forall i | i in r'.items && i !in r.items :: i.el in after)
    && (forall i | i in r'.items && i.stamp in r'.dead && i.stamp !in r.dead ::
          i.el in before && (i.el !in after || Rewritten(r', i)))
  }

  /** The key of a write was written again later. */
  ghost predicate Rewritten(r: Replica, i: Item) {
    exists j | j in r.items :: j.el == i.el && j.stamp > i.stamp
  }

  lemma ShownIn(r: Replica, revs: Revs, e: Element)
    requires Is(r, revs)
    ensures e in revs <==> Shows(r, e)
    ensures e in revs ==> e in Received(r, e.id)
  {
    if Shows(r, e) {
      var i :| IsShown(r, i) && i.el == e;
    }
  }

  /** A write that removes only what is beaten keeps every element's top shown. */
  lemma WroteGood(r: Replica, r': Replica, before: Revs, after: Revs)
    requires Good(r) && Wrote(r, r', before, after) && RemovesOnlyBeaten(before, after)
    ensures Good(r')
  {
    forall e: Element | IsTop(e, Received(r', e.id))
      ensures Shows(r', e)
    {
      var i :| i in r'.items && i.el == e;
      if e in Received(r, e.id) {
        TopInPart(e, Received(r, e.id), Received(r', e.id));
        ShownIn(r, before, e);
        if e !in after {
          var w :| w in after && w.id == e.id && Beats(w, e);
          ShownIn(r', after, w);
          BeatsTotal(w, e);
        }
      } else {
        assert i !in r.items;
      }
      ShownIn(r', after, e);
    }
  }

  /** A good replica reads, of each element, the version that beats all it ever received. */
  lemma ReadsTop(r: Replica, revs: Revs, e: Element)
    requires Good(r) && Is(r, revs) && e in Received(r, e.id)
    ensures e.id in Ids(revs)
    ensures IsTop(Standing(revs, e.id), Received(r, e.id))
  {
    HasTop(Received(r, e.id));
    var top :| IsTop(top, Received(r, e.id));
    assert top.id == e.id;
    ShownIn(r, revs, top);
    assert top.id in Ids(revs);
    var w := Standing(revs, e.id);
    ShownIn(r, revs, w);
    if w != top {
      StandingBeats(revs, top);
      BeatsTotal(w, top);
    }
  }

  /** Vaults that received the same versions of an element read the same one, whatever either removed. */
  lemma SameReceivedSameRead(a: Replica, b: Replica, revsA: Revs, revsB: Revs, id: string)
    requires Good(a) && Good(b) && Is(a, revsA) && Is(b, revsB)
    requires Received(a, id) == Received(b, id) != {}
    ensures id in Ids(revsA) && id in Ids(revsB) && Standing(revsA, id) == Standing(revsB, id)
  {
    var e :| e in Received(a, id);
    ReadsTop(a, revsA, e);
    ReadsTop(b, revsB, e);
    TopUnique(Standing(revsA, id), Standing(revsB, id), Received(a, id));
  }

  // ---- Any write can be made ----

  /** New writes of these keys, stamped above `floor`. */
  ghost function NewItems(keys: seq<Element>, after: Revs, floor: int): set<Item>
    requires forall e | e in keys :: e in after
  {
    set k: nat | k < |keys| :: Item(floor + 1 + k, keys[k], after[keys[k]])
  }

  ghost function Changed(before: Revs, after: Revs): set<Element> {
    set e | e in after && !(e in before && before[e] == after[e])
  }

  ghost function Killed(r: Replica, after: Revs): set<int> {
    set i | i in r.items && IsShown(r, i) && i.el !in after :: i.stamp
  }

  ghost predicate IsListing(keys: seq<Element>, s: set<Element>) {
    && (forall e :: e in keys <==> e in s)
    && (forall i, j | 0 <= i < j < |keys| :: keys[i] != keys[j])
  }

  lemma {:induction false} Listing(s: set<Element>) returns (keys: seq<Element>)
    ensures IsListing(keys, s)
    decreases |s|
  {
    keys := [];
    if s != {} {
      var e :| e in s;
      keys := Listing(s - {e});
      keys := keys + [e];
    }
  }

  ghost predicate IsStampedBelow(r: Replica, floor: int) {
    forall i | i in r.items :: i.stamp <= floor
  }

  ghost function WrittenTo(r: Replica, keys: seq<Element>, after: Revs, floor: int): Replica
    requires forall e | e in keys :: e in after
  {
    Replica(r.items + NewItems(keys, after, floor), r.dead + Killed(r, after))
  }

  /** A key not written again keeps its last item; a key written again has its new one last. */
  lemma LastWritten(r: Replica, keys: seq<Element>, before: Revs, after: Revs, floor: int, i: Item)
    requires IsStampedBelow(r, floor) && IsListing(keys, Changed(before, after))
    ensures IsLast(WrittenTo(r, keys, after, floor), i) <==>
      if i.el in keys then i in NewItems(keys, after, floor) else IsLast(r, i)
  {
    if i.el in keys {
      var k :| 0 <= k < |keys| && keys[k] == i.el;
      assert Item(floor + 1 + k, keys[k], after[keys[k]]) in NewItems(keys, after, floor);
    }
  }

  lemma DeadBelow(r: Replica, keys: seq<Element>, after: Revs, floor: int, s: int)
    requires DeadWereThere(r) && IsStampedBelow(r, floor) && (forall e | e in keys :: e in after)
    requires s in WrittenTo(r, keys, after, floor).dead
    ensures s <= floor
  {
  }

  /** What is written shows, and nothing else. */
  lemma WrittenIs(r: Replica, keys: seq<Element>, before: Revs, after: Revs, floor: int)
    requires DeadWereThere(r) && StampsUnique(r, r) && Is(r, before) && IsStampedBelow(r, floor)
    requires IsListing(keys, Changed(before, after))
    ensures Is(WrittenTo(r, keys, after, floor), after)
  {
    var r' := WrittenTo(r, keys, after, floor);
    forall i | IsShown(r', i)
      ensures i.el in after && after[i.el] == i.meta
    {
      LastWritten(r, keys, before, after, floor, i);
      if i.el !in keys {
        assert IsShown(r, i);
        assert i.el !in after ==> i.stamp in Killed(r, after);
      }
    }
    forall e | e in after
      ensures Shows(r', e)
    {
      if e in keys {
        var k :| 0 <= k < |keys| && keys[k] == e;
        var i := Item(floor + 1 + k, e, after[e]);
        assert i in NewItems(keys, after, floor);
        LastWritten(r, keys, before, after, floor, i);
        if i.stamp in r'.dead { DeadBelow(r, keys, after, floor, i.stamp); }
        assert IsShown(r', i);
      } else {
        assert Shows(r, e);
        var i :| IsShown(r, i) && i.el == e;
        LastWritten(r, keys, before, after, floor, i);
        assert IsShown(r', i);
      }
    }
  }

  lemma WrittenDead(r: Replica, keys: seq<Element>, before: Revs, after: Revs, floor: int)
    requires DeadWereThere(r) && StampsUnique(r, r) && Is(r, before) && IsStampedBelow(r, floor)
    requires forall e | e in keys :: e in after
    ensures DeadWereThere(WrittenTo(r, keys, after, floor))
    ensures forall i | i in WrittenTo(r, keys, after, floor).items && i.stamp in WrittenTo(r, keys, after, floor).dead
        && i.stamp !in r.dead :: i.el in before && i.el !in after
  {
    var r' := WrittenTo(r, keys, after, floor);
    forall s | s in r'.dead
      ensures exists i | i in r'.items :: i.stamp == s
    {
      var i :| i in r.items && i.stamp == s;
      assert i in r'.items;
    }
    forall i | i in r'.items && i.stamp in r'.dead && i.stamp !in r.dead
      ensures i.el in before && i.el !in after
    {
      DeadBelow(r, keys, after, floor, i.stamp);
      var j :| j in r.items && IsShown(r, j) && j.el !in after && j.stamp == i.stamp;
      assert i == j;
    }
  }

  lemma WrittenStamps(r: Replica, keys: seq<Element>, after: Revs, floor: int)
    requires StampsUnique(r, r) && IsStampedBelow(r, floor)
    requires (forall e | e in keys :: e in after) && forall i, j | 0 <= i < j < |keys| :: keys[i] != keys[j]
    ensures StampsUnique(WrittenTo(r, keys, after, floor), WrittenTo(r, keys, after, floor))
    ensures forall i | i in WrittenTo(r, keys, after, floor).items && i !in r.items ::
      i.el in after && i.stamp > floor
  {
  }

  /** Whatever an edit or a settling makes of the map, a vault can write. */
  lemma CanWrite(r: Replica, before: Revs, after: Revs, floor: int) returns (r': Replica)
    requires DeadWereThere(r) && StampsUnique(r, r) && Is(r, before) && IsStampedBelow(r, floor)
    ensures Wrote(r, r', before, after)
    ensures forall i | i in r'.items && i !in r.items :: i.stamp > floor
  {
    var keys := Listing(Changed(before, after));
    r' := WrittenTo(r, keys, after, floor);
    WrittenIs(r, keys, before, after, floor);
    WrittenDead(r, keys, before, after, floor);
    WrittenStamps(r, keys, after, floor);
  }

  // ---- Runs ----

  /** Every vault's copy, and every message sent. */
  datatype World = World(vaults: map<nat, Replica>, mail: set<Replica>)

  datatype Event =
    | Edit(vault: nat, els: seq<Element>, base: seq<BaseElement>, before: Revs, after: Revs)
    | Settle(vault: nat, settler: Settler, plan: Plan, before: Revs, after: Revs)
    | Send(vault: nat)
    | Receive(vault: nat, message: Replica)

  ghost predicate Init(w: World) {
    w.mail == {} && forall v | v in w.vaults :: w.vaults[v] == EMPTY
  }

  ghost predicate InWorld(w: World, r: Replica) {
    r in w.mail || exists v | v in w.vaults :: w.vaults[v] == r
  }

  /** Stamps written at a vault are new to everyone. */
  ghost predicate FreshStamps(w: World, r: Replica, r': Replica) {
    forall i, o, j | i in r'.items && i !in r.items && InWorld(w, o) && j in o.items :: i.stamp != j.stamp
  }

  ghost predicate Next(w: World, ev: Event, w': World) {
    && ev.vault in w.vaults
    && w'.vaults.Keys == w.vaults.Keys
    && (forall v | v in w.vaults && v != ev.vault :: w'.vaults[v] == w.vaults[v])
    && var r, r' := w.vaults[ev.vault], w'.vaults[ev.vault];
      match ev
      case Edit(_, els, base, before, after) =>
        w'.mail == w.mail && Wrote(r, r', before, after) && FreshStamps(w, r, r') && after == Applied(before, els, base)
      case Settle(_, settler, plan, before, after) =>
        w'.mail == w.mail && Wrote(r, r', before, after) && FreshStamps(w, r, r')
            && Settled(settler, before, plan, after)
      case Send(_) =>
        w'.mail == w.mail + {r} && r' == r
      case Receive(_, message) =>
        w'.mail == w.mail && message in w.mail && r' == Join(r, message)
  }

  /** A run: worlds one event apart. */
  ghost predicate IsRun(worlds: seq<World>, events: seq<Event>) {
    && |worlds| == |events| + 1
    && Init(worlds[0])
    && forall k | 0 <= k < |events| :: Next(worlds[k], events[k], worlds[k + 1])
  }

  ghost predicate Inv(w: World) {
    && (forall r | InWorld(w, r) :: Good(r))
    && (forall a, b | InWorld(w, a) && InWorld(w, b) :: StampsUnique(a, b))
  }

  lemma InitInv(w: World)
    requires Init(w)
    ensures Inv(w)
  {
  }

  /** What is in the world after a step was there before, or is the stepping vault's copy. */
  lemma NewInWorld(w: World, ev: Event, w': World, r: Replica)
    requires Next(w, ev, w') && InWorld(w', r)
    ensures InWorld(w, r) || r == w'.vaults[ev.vault]
    ensures InWorld(w, w.vaults[ev.vault])
  {
    if r in w'.mail {
      assert r in w.mail || r == w.vaults[ev.vault];
    } else {
      var v :| v in w'.vaults && w'.vaults[v] == r;
      assert v != ev.vault ==> w.vaults[v] == r;
    }
  }

  lemma StepGood(w: World, ev: Event, w': World)
    requires Inv(w) && Next(w, ev, w')
    ensures Good(w'.vaults[ev.vault])
  {
    var r, r' := w.vaults[ev.vault], w'.vaults[ev.vault];
    assert InWorld(w, r);
    match ev {
      case Edit(_, els, base, before, after) =>
        AppliedEffect(before, els, base);
        WroteGood(r, r', before, after);
      case Settle(_, settler, plan, before, after) =>
        SettleRemovesOnlyBeaten(settler, before, plan, after);
        WroteGood(r, r', before, after);
      case Send(_) =>
      case Receive(_, message) =>
        assert InWorld(w, message);
        JoinGood(r, message);
    }
  }

  lemma StepUnique(w: World, ev: Event, w': World, o: Replica)
    requires Inv(w) && Next(w, ev, w') && InWorld(w, o)
    ensures StampsUnique(w'.vaults[ev.vault], o) && StampsUnique(o, w'.vaults[ev.vault])
  {
    var r, r' := w.vaults[ev.vault], w'.vaults[ev.vault];
    assert InWorld(w, r) && StampsUnique(r, o);
    forall i, j | i in r'.items && j in o.items && i.stamp == j.stamp
      ensures i == j
    {
      if i !in r.items && ev.Receive? {
        assert InWorld(w, ev.message) && StampsUnique(ev.message, o);
      }
    }
  }

  lemma NextInv(w: World, ev: Event, w': World)
    requires Inv(w) && Next(w, ev, w')
    ensures Inv(w')
  {
    var mine := w'.vaults[ev.vault];
    StepGood(w, ev, w');
    forall r | InWorld(w', r)
      ensures Good(r)
    {
      NewInWorld(w, ev, w', r);
    }
    forall a, b | InWorld(w', a) && InWorld(w', b)
      ensures StampsUnique(a, b)
    {
      NewInWorld(w, ev, w', a);
      NewInWorld(w, ev, w', b);
      if a == mine && InWorld(w, b) { StepUnique(w, ev, w', b); }
      if b == mine && InWorld(w, a) { StepUnique(w, ev, w', a); }
    }
  }

  lemma {:induction false} RunInv(worlds: seq<World>, events: seq<Event>, k: nat)
    requires IsRun(worlds, events) && k < |worlds|
    ensures Inv(worlds[k])
  {
    if k == 0 {
      InitInv(worlds[0]);
    } else {
      RunInv(worlds, events, k - 1);
      NextInv(worlds[k - 1], events[k - 1], worlds[k]);
    }
  }

  // ---- What holds in every run ----

  /** In every run, at every moment, a vault reads of each element the version that beats all it ever
      received: whoever edited, settled or removed what, and in whatever order messages came. */
  lemma EveryVaultReadsTop(worlds: seq<World>, events: seq<Event>, k: nat, v: nat, revs: Revs, e: Element)
    requires IsRun(worlds, events) && k < |worlds| && v in worlds[k].vaults
    requires Is(worlds[k].vaults[v], revs) && e in Received(worlds[k].vaults[v], e.id)
    ensures e.id in Ids(revs)
    ensures IsTop(Standing(revs, e.id), Received(worlds[k].vaults[v], e.id))
  {
    RunInv(worlds, events, k);
    assert InWorld(worlds[k], worlds[k].vaults[v]);
    ReadsTop(worlds[k].vaults[v], revs, e);
  }

  /** Convergence: in every run, two vaults that received the same versions of every element read the same drawing. */
  lemma VaultsConverge(worlds: seq<World>, events: seq<Event>, k: nat, u: nat, v: nat, revsU: Revs, revsV: Revs)
    requires IsRun(worlds, events) && k < |worlds| && u in worlds[k].vaults && v in worlds[k].vaults
    requires Is(worlds[k].vaults[u], revsU) && Is(worlds[k].vaults[v], revsV)
    requires forall id :: Received(worlds[k].vaults[u], id) == Received(worlds[k].vaults[v], id)
    ensures Ids(revsU) == Ids(revsV)
    ensures forall id | id in Ids(revsU) :: Standing(revsU, id) == Standing(revsV, id)
  {
    RunInv(worlds, events, k);
    var a, b := worlds[k].vaults[u], worlds[k].vaults[v];
    assert InWorld(worlds[k], a) && InWorld(worlds[k], b);
    forall id
      ensures id in Ids(revsU) ==> id in Ids(revsV) && Standing(revsU, id) == Standing(revsV, id)
      ensures id in Ids(revsV) ==> id in Ids(revsU)
    {
      if id in Ids(revsU) {
        ShownIn(a, revsU, Standing(revsU, id));
        SameReceivedSameRead(a, b, revsU, revsV, id);
      } else if id in Ids(revsV) {
        ShownIn(b, revsV, Standing(revsV, id));
        SameReceivedSameRead(a, b, revsU, revsV, id);
      }
    }
  }

  // ---- No run is stuck ----

  ghost function ItemsOf(w: World): set<Item> {
    (set v, i | v in w.vaults && i in w.vaults[v].items :: i) + (set m, i | m in w.mail && i in m.items :: i)
  }

  lemma {:induction false} AllBelow(items: set<Item>) returns (floor: int)
    ensures forall i | i in items :: i.stamp <= floor
    decreases |items|
  {
    if items == {} {
      floor := 0;
    } else {
      var i :| i in items;
      var rest := AllBelow(items - {i});
      floor := if rest < i.stamp then i.stamp else rest;
    }
  }

  ghost function ShownOf(r: Replica, e: Element): Item
    requires Shows(r, e)
  {
    var i :| IsShown(r, i) && i.el == e;
    i
  }

  ghost function MapOf(r: Replica): Revs {
    map i | i in r.items && Shows(r, i.el) :: i.el := ShownOf(r, i.el).meta
  }

  lemma ShowsItsMap(r: Replica)
    requires StampsUnique(r, r)
    ensures Is(r, MapOf(r))
  {
    forall i | IsShown(r, i)
      ensures i.el in MapOf(r) && MapOf(r)[i.el] == i.meta
    {
      assert Shows(r, i.el);
      var j := ShownOf(r, i.el);
      assert i.stamp == j.stamp;
    }
  }

  /** What a vault has made of the map it shows, it can write with stamps new to everyone. */
  lemma CanWriteAnew(w: World, v: nat, after: Revs) returns (r: Replica)
    requires Inv(w) && v in w.vaults
    ensures Is(w.vaults[v], MapOf(w.vaults[v]))
    ensures Wrote(w.vaults[v], r, MapOf(w.vaults[v]), after) && FreshStamps(w, w.vaults[v], r)
  {
    var mine := w.vaults[v];
    assert InWorld(w, mine);
    ShowsItsMap(mine);
    var floor := AllBelow(ItemsOf(w));
    assert forall i | i in mine.items :: i in ItemsOf(w);
    r := CanWrite(mine, MapOf(mine), after, floor);
    forall i, o, j | i in r.items && i !in mine.items && InWorld(w, o) && j in o.items
      ensures i.stamp != j.stamp
    {
      assert j in ItemsOf(w);
    }
  }

  lemma GoesOn(worlds: seq<World>, events: seq<Event>, ev: Event, w: World)
    requires IsRun(worlds, events) && Next(worlds[|events|], ev, w)
    ensures IsRun(worlds + [w], events + [ev])
  {
    var more, on := worlds + [w], events + [ev];
    forall k | 0 <= k < |on|
      ensures Next(more[k], on[k], more[k + 1])
    {
      if k < |events| { assert Next(worlds[k], events[k], worlds[k + 1]); }
    }
  }

  /** Every run goes on with any edit at any vault, made on the map that vault shows. */
  lemma EditGoesOn(worlds: seq<World>, events: seq<Event>, v: nat, els: seq<Element>, base: seq<BaseElement>)
    returns (w: World)
    requires IsRun(worlds, events) && v in worlds[|events|].vaults
    ensures var before := MapOf(worlds[|events|].vaults[v]);
      && Is(worlds[|events|].vaults[v], before)
      && IsRun(worlds + [w], events + [Edit(v, els, base, before, Applied(before, els, base))])
  {
    var last := worlds[|events|];
    RunInv(worlds, events, |events|);
    var before := MapOf(last.vaults[v]);
    var after := Applied(before, els, base);
    var r := CanWriteAnew(last, v, after);
    w := last.(vaults := last.vaults[v := r]);
    GoesOn(worlds, events, Edit(v, els, base, before, after), w);
  }

  /** And with any settling of that map. */
  lemma SettleGoesOn(worlds: seq<World>, events: seq<Event>, v: nat, s: Settler, plan: Plan, after: Revs)
    returns (w: World)
    requires IsRun(worlds, events) && v in worlds[|events|].vaults
    requires Settled(s, MapOf(worlds[|events|].vaults[v]), plan, after)
    ensures Is(worlds[|events|].vaults[v], MapOf(worlds[|events|].vaults[v]))
    ensures IsRun(worlds + [w], events + [Settle(v, s, plan, MapOf(worlds[|events|].vaults[v]), after)])
  {
    var last := worlds[|events|];
    RunInv(worlds, events, |events|);
    var r := CanWriteAnew(last, v, after);
    w := last.(vaults := last.vaults[v := r]);
    GoesOn(worlds, events, Settle(v, s, plan, MapOf(last.vaults[v]), after), w);
  }

  // ---- No writing is lost ----

  /** The event removed revision `e` from the map of the vault it happened at. */
  ghost predicate Removes(ev: Event, e: Element) {
    (ev.Edit? || ev.Settle?) && e in ev.before && e !in ev.after
  }

  /** Why the event removed it: an edit made on it by someone who saw it, or a settling that accounts for it. */
  ghost predicate Explains(ev: Event, e: Element) {
    || (ev.Edit? && exists el | el in ev.els :: el in ev.after && IsSupersededBy(e, el, ById(ev.base)))
    || (ev.Settle? && e in ev.before && Accounted(ev.settler, ev.before, ev.after, e))
  }

  lemma RemovalExplained(w: World, ev: Event, w': World, e: Element)
    requires Next(w, ev, w') && Removes(ev, e) && (ev.Settle? ==> DerivesIds(ev.settler))
    ensures Explains(ev, e)
  {
    match ev {
      case Edit(_, els, base, before, after) =>
        AppliedEffect(before, els, base);
        assert EffectOn(before, els, ById(base), after, e);
      case Settle(_, settler, plan, before, after) =>
        NothingLost(settler, before, plan, after, e);
    }
  }

  ghost predicate RemovedBefore(events: seq<Event>, k: nat, e: Element)
    requires k <= |events|
  {
    exists m | 0 <= m < k :: Removes(events[m], e)
  }

  /** Every deleted write in the replica was removed by some event, or its key was written again. */
  ghost predicate DeadExplained(events: seq<Event>, k: nat, r: Replica)
    requires k <= |events|
  {
    forall i | i in r.items && i.stamp in r.dead :: RemovedBefore(events, k, i.el) || Rewritten(r, i)
  }

  lemma WroteExplained(events: seq<Event>, k: nat, r: Replica, r': Replica)
    requires k < |events| && (events[k].Edit? || events[k].Settle?)
    requires Good(r) && DeadExplained(events, k, r) && Wrote(r, r', events[k].before, events[k].after)
    ensures DeadExplained(events, k + 1, r')
  {
    forall i | i in r'.items && i.stamp in r'.dead
      ensures RemovedBefore(events, k + 1, i.el) || Rewritten(r', i)
    {
      if i.stamp in r.dead {
        var j :| j in r.items && j.stamp == i.stamp;
        assert i == j;
        if RemovedBefore(events, k, i.el) {
          var m :| 0 <= m < k && Removes(events[m], i.el);
        } else {
          var n :| n in r.items && n.el == i.el && n.stamp > i.stamp;
          assert n in r'.items;
        }
      } else if i.el !in events[k].after {
        assert Removes(events[k], i.el);
      }
    }
  }

  lemma StillExplained(events: seq<Event>, k: nat, r: Replica)
    requires k < |events| && DeadExplained(events, k, r)
    ensures DeadExplained(events, k + 1, r)
  {
    forall i | i in r.items && i.stamp in r.dead
      ensures RemovedBefore(events, k + 1, i.el) || Rewritten(r, i)
    {
      if RemovedBefore(events, k, i.el) {
        var m :| 0 <= m < k && Removes(events[m], i.el);
      }
    }
  }

  lemma JoinExplained(events: seq<Event>, k: nat, a: Replica, b: Replica)
    requires k <= |events| && DeadExplained(events, k, a) && DeadExplained(events, k, b)
    requires Good(a) && Good(b) && StampsUnique(a, b)
    ensures DeadExplained(events, k, Join(a, b))
  {
    var r := Join(a, b);
    forall i | i in r.items && i.stamp in r.dead
      ensures RemovedBefore(events, k, i.el) || Rewritten(r, i)
    {
      var o := if i.stamp in a.dead then a else b;
      var j :| j in o.items && j.stamp == i.stamp;
      assert j == i;
      if !RemovedBefore(events, k, i.el) {
        var n :| n in o.items && n.el == i.el && n.stamp > i.stamp;
        assert n in r.items;
      }
    }
  }

  lemma StepExplained(w: World, ev: Event, w': World, events: seq<Event>, k: nat, r: Replica)
    requires k < |events| && ev == events[k] && Inv(w) && Next(w, ev, w') && InWorld(w', r)
    requires forall o | InWorld(w, o) :: DeadExplained(events, k, o)
    ensures DeadExplained(events, k + 1, r)
  {
    NewInWorld(w, ev, w', r);
    var mine := w.vaults[ev.vault];
    if InWorld(w, r) {
      StillExplained(events, k, r);
    } else if ev.Receive? {
      assert InWorld(w, ev.message);
      JoinExplained(events, k, mine, ev.message);
      StillExplained(events, k, r);
    } else {
      WroteExplained(events, k, mine, r);
    }
  }

  lemma {:induction false} RunExplained(worlds: seq<World>, events: seq<Event>, k: nat, r: Replica)
    requires IsRun(worlds, events) && k < |worlds| && InWorld(worlds[k], r)
    ensures DeadExplained(events, k, r)
    decreases k
  {
    if k > 0 {
      var w := worlds[k - 1];
      RunInv(worlds, events, k - 1);
      forall o | InWorld(w, o)
        ensures DeadExplained(events, k - 1, o)
      {
        RunExplained(worlds, events, k - 1, o);
      }
      StepExplained(w, events[k - 1], worlds[k], events, k - 1, r);
    }
  }

  lemma {:induction false} LastOf(items: set<Item>, i: Item) returns (last: Item)
    requires i in items
    ensures last in items && last.el == i.el && forall j | j in items && j.el == i.el :: j.stamp <= last.stamp
    decreases |items|
  {
    var rest := items - {i};
    if j :| j in rest && j.el == i.el {
      var l := LastOf(rest, j);
      last := if i.stamp > l.stamp then i else l;
    } else {
      last := i;
    }
  }

  /** Every settling of a run keeps copies under ids of their own. */
  ghost predicate AllDeriveIds(events: seq<Event>) {
    forall n | 0 <= n < |events| && events[n].Settle? :: DerivesIds(events[n].settler)
  }

  /** No writing is lost, in any run: a revision a vault received and no longer shows was removed by an edit
      made on it, or by a settling that removed it as built on, or by its author or of a fill, and then as a
      delete, said elsewhere, taken for what stands written twice, said again, or kept as a copy. */
  lemma NoWritingLost(worlds: seq<World>, events: seq<Event>, k: nat, v: nat, revs: Revs, e: Element)
    requires IsRun(worlds, events) && k < |worlds| && v in worlds[k].vaults
    requires Is(worlds[k].vaults[v], revs) && e in Received(worlds[k].vaults[v], e.id) && e !in revs
    requires AllDeriveIds(events)
    ensures exists m | 0 <= m < k :: Removes(events[m], e) && Explains(events[m], e)
  {
    var r := worlds[k].vaults[v];
    assert InWorld(worlds[k], r);
    RunExplained(worlds, events, k, r);
    var i :| i in r.items && i.el == e;
    var last := LastOf(r.items, i);
    assert IsLast(r, last);
    assert !IsShown(r, last);
    assert RemovedBefore(events, k, e);
    var m :| 0 <= m < k && Removes(events[m], e);
    RemovalExplained(worlds[m], events[m], worlds[m + 1], e);
  }

  /** With each revision one vault's own, a version that lost and is no fill's is removed only by its author,
      or as what the version that stands, or an edit, was made on. */
  lemma OnlyAuthorsSettle(worlds: seq<World>, events: seq<Event>, author: Element -> nat, m: nat, e: Element)
    requires IsRun(worlds, events) && m < |events| && Removes(events[m], e)
    requires forall n, o | 0 <= n < |events| && events[n].Settle?
        && events[n].settler.ours(o) :: author(o) == events[n].vault
    ensures
      || author(e) == events[m].vault
      || (events[m].Settle? && events[m].settler.fill(e))
      || (events[m].Settle? && WasMadeOn(events[m].before, Standing(events[m].before, e.id), e))
      || (events[m].Edit? && exists el | el in events[m].els :: IsSupersededBy(e, el, ById(events[m].base)))
  {
    var ev := events[m];
    assert Next(worlds[m], ev, worlds[m + 1]);
    match ev {
      case Edit(_, els, base, before, after) =>
        AppliedEffect(before, els, base);
        assert EffectOn(before, els, ById(base), after, e);
      case Settle(_, settler, plan, before, after) =>
        if !settler.ours(e) && !settler.fill(e) && !WasMadeOn(before, Standing(before, e.id), e) {
          LeftToItsAuthor(settler, before, plan, after, e);
        }
    }
  }
}
