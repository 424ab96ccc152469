/** Running the operations on one path strictly one after another (`sequence`, `packages/plugin/src/file-sync.ts`).

    A task is chained to the promise that was the last of its path when it was handed in, and starts once that has
    settled, whether it failed or not. */
module PathChain {
  import opened Json

  /** A task handed in: its path, and the one whose promise it is chained to. */
  datatype Item = Item(path: string, after: Option<nat>)

  /** Of one path, and handed in one before the other. */
  predicate IsBefore(items: seq<Item>, i: nat, j: nat) {
    i < j < |items| && items[i].path == items[j].path
  }

  /** A task waits for the one handed in last before it on its path; with none, all before it had settled. */
  ghost predicate IsChained(items: seq<Item>, settled: set<nat>, j: nat)
    requires j < |items|
  {
    match items[j].after
    case None => forall i: nat | IsBefore(items, i, j) :: i in settled
    case Some(p) => IsBefore(items, p, j) && forall i: nat | IsBefore(items, i, j) :: i <= p
  }

  ghost predicate AllChained(items: seq<Item>, settled: set<nat>) {
    forall j | 0 <= j < |items| :: IsChained(items, settled, j)
  }

  /** What runs or has run, ran after all that came before it on its path. */
  ghost predicate RanInOrder(items: seq<Item>, running: set<nat>, settled: set<nat>) {
    forall i: nat, j: nat | IsBefore(items, i, j) && (j in running || j in settled) :: i in settled
  }

  /** The tail of a path is its last task; a path without one has nothing left to wait for. */
  ghost predicate AreTails(items: seq<Item>, tails: map<string, nat>, settled: set<nat>) {
    && (forall path | path in tails :: tails[path] < |items| && items[tails[path]].path == path)
    && (forall i | 0 <= i < |items| :: if items[i].path in tails then i <= tails[items[i].path] else i in settled)
  }

  lemma ChainedOn(items: seq<Item>, tails: map<string, nat>, settled: set<nat>, path: string)
    requires AllChained(items, settled) && AreTails(items, tails, settled)
    ensures var item := Item(path, if path in tails then Some(tails[path]) else None);
      AllChained(items + [item], settled) && AreTails(items + [item], tails[path := |items|], settled)
  {
    var more := items + [Item(path, if path in tails then Some(tails[path]) else None)];
    forall j | 0 <= j < |more|
      ensures IsChained(more, settled, j)
    {
      if j < |items| {
        assert IsChained(items, settled, j);
        assert forall i: nat :: IsBefore(more, i, j) <==> IsBefore(items, i, j);
      }
    }
  }

  lemma StartsInOrder(items: seq<Item>, running: set<nat>, settled: set<nat>, id: nat)
    requires AllChained(items, settled) && RanInOrder(items, running, settled) && id < |items|
    requires items[id].after.Some? ==> items[id].after.value in settled
    ensures RanInOrder(items, running + {id}, settled)
  {
    assert IsChained(items, settled, id);
    forall i: nat | IsBefore(items, i, id)
      ensures i in settled
    {
      if items[id].after.Some? && i != items[id].after.value {
        assert IsBefore(items, i, items[id].after.value);
      }
    }
  }

  class Sequencer {
    /** Tasks in the order they were handed in. */
    var items: seq<Item>
    /** The last task of each path, while it may be waited for. */
    var tails: map<string, nat>
    var running: set<nat>
    var settled: set<nat>

    ghost predicate Valid()
      reads this
    {
      && running !! settled && (forall i | i in running || i in settled :: i < |items|)
      && AllChained(items, settled)
      && RanInOrder(items, running, settled)
      && AreTails(items, tails, settled)
    }

    constructor ()
      ensures Valid() && items == []
    {
      items, tails, running, settled := [], map[], {}, {};
    }

    /** Of one path, at most one task runs at a time. */
    lemma OneAtATime(i: nat, j: nat)
      requires Valid() && i in running && j in running && items[i].path == items[j].path
      ensures i == j
    {
      assert IsBefore(items, i, j) || IsBefore(items, j, i) || i == j;
    }

    /** And a path's tasks run in the order they were handed in, each once those before it have settled. */
    lemma InOrder(i: nat, j: nat)
      requires Valid() && IsBefore(items, i, j) && (j in running || j in settled)
      ensures i in settled
    {
    }

    /** Hand a task in. */
    method Sequence(path: string) returns (id: nat)
      requires Valid()
      modifies this`items, this`tails
      ensures Valid() && id == |old(items)| && |items| == id + 1 && items[..id] == old(items) && items[id].path == path
      ensures id !in running && id !in settled
    {
      ChainedOn(items, tails, settled, path);
      id := |items|;
      items := items + [Item(path, if path in tails then Some(tails[path]) else None)];
      tails := tails[path := id];
    }

    /** A task starts when the one it waits for has settled. */
    method Start(id: nat)
      requires Valid() && id < |items| && id !in running && id !in settled
      requires items[id].after.Some? ==> items[id].after.value in settled
      modifies this`running
      ensures Valid() && running == old(running) + {id}
    {
      StartsInOrder(items, running, settled, id);
      running := running + {id};
    }

    method Settle(id: nat)
      requires Valid() && id in running
      modifies this`running, this`settled
      ensures Valid() && running == old(running) - {id} && settled == old(settled) + {id}
    {
      SettledStays(items, settled, id);
      running := running - {id};
      settled := settled + {id};
    }

    /** A settled task that is still the last of its path is forgotten. */
    method Forget(id: nat)
      requires Valid() && id in settled
      modifies this`tails
      ensures Valid() && items == old(items)
    {
      var path := items[id].path;
      if path in tails && tails[path] == id {
        forall i: nat | i < |items| && items[i].path == path
          ensures i in settled
        {
          assert i < id ==> IsBefore(items, i, id);
        }
        tails := tails - {path};
      }
    }
  }

  lemma SettledStays(items: seq<Item>, settled: set<nat>, id: nat)
    requires AllChained(items, settled)
    ensures AllChained(items, settled + {id})
  {
    forall j | 0 <= j < |items|
      ensures IsChained(items, settled + {id}, j)
    {
      assert IsChained(items, settled, j);
    }
  }
}
