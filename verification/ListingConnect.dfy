/** Connecting and letting go of folder listings across asynchronous steps (`packages/plugin/src/file-sync.ts`).

    Each method is what runs between two awaits, so any order of calls is an interleaving. A connect waits for the
    listing's document id and then for its local store; whether each wait ends, and whether the subscribe that
    follows finds a route, is up to the caller. */
module ListingConnect {
  datatype Stage = ForRef | ForStore

  /** A connect waiting to go on. */
  datatype Waiting = Waiting(folder: string, localPath: string, generation: nat, stage: Stage)

  datatype Connection = Connection(localPath: string, generation: nat)

  /** A connect that may still go on: begun for this folder, not let go of since, and not subscribed. */
  predicate IsConnecting(f: string, g: nat, begun: map<nat, string>, cancelled: set<nat>,
      subscribed: map<nat, string>)
  {
    g in begun && begun[g] == f && g !in cancelled && g !in subscribed
  }

  predicate IsListed(g: nat, f: string, connections: map<string, Connection>, begun: map<nat, string>) {
    f in connections && connections[f].generation == g && g in begun && begun[g] == f
  }

  predicate IsSubscribed(f: string, c: Connection, subscribed: map<nat, string>) {
    c.generation in subscribed && subscribed[c.generation] == f
  }

  /** Every connect begun for a folder. */
  ghost function BegunFor(begun: map<nat, string>, folder: string): set<nat> {
    set g | g in begun && begun[g] == folder
  }

  class FileSync {
    var connections: map<string, Connection>
    var connecting: map<string, nat>
    var connectGeneration: nat
    var unplaced: map<string, string>
    var waiting: set<Waiting>
    /** Listings the provider is subscribed to, by the connect that made each. */
    var subscribed: map<nat, string>
    /** The folder of every connect begun. */
    ghost var begun: map<nat, string>
    /** Connects whose folder was disconnected after they began. */
    ghost var cancelled: set<nat>

    ghost predicate Valid()
      reads this
    {
      && connections.Keys !! connecting.Keys && subscribed.Keys !! cancelled && cancelled <= begun.Keys
      && (forall g | g in begun :: g <= connectGeneration)
      && (forall f | f in connecting :: IsConnecting(f, connecting[f], begun, cancelled, subscribed))
      && (forall g | g in subscribed :: IsListed(g, subscribed[g], connections, begun))
      && (forall f | f in connections :: IsSubscribed(f, connections[f], subscribed))
    }

    constructor ()
      ensures Valid() && connections == map[] && subscribed == map[]
    {
      connections, connecting, connectGeneration, unplaced, waiting, subscribed := map[], map[], 0, map[], {}, map[];
      begun, cancelled := map[], {};
    }

    /** A folder has at most one subscribed listing: two connects subscribed for one folder are one. */
    lemma OneListing(g: nat, h: nat)
      requires Valid() && g in subscribed && h in subscribed && subscribed[g] == subscribed[h]
      ensures g == h
    {
      assert IsListed(g, subscribed[g], connections, begun) && IsListed(h, subscribed[h], connections, begun);
    }

    /** Begin to connect a folder, unless it is connected or connecting. */
    method ConnectFolder(folder: string, localPath: string, hasKeys: bool)
      requires Valid()
      modifies this`connecting, this`connectGeneration, this`waiting, this`begun
      ensures Valid()
      ensures old(folder in connections || folder in connecting) ==>
        connecting == old(connecting) && waiting == old(waiting) && begun == old(begun)
      ensures old(folder !in connections && folder !in connecting) ==>
        && connectGeneration == old(connectGeneration) + 1 && begun == old(begun)[connectGeneration := folder]
        && connecting == (if hasKeys then old(connecting)[folder := connectGeneration] else old(connecting))
        && waiting == old(waiting) + (if hasKeys then {Waiting(folder, localPath, connectGeneration, ForRef)} else {})
    {
      if folder in connections || folder in connecting {
        return;
      }
      connectGeneration := connectGeneration + 1;
      begun := begun[connectGeneration := folder];
      connecting := connecting[folder := connectGeneration];
      if !hasKeys {
        connecting := connecting - {folder};
        return;
      }
      waiting := waiting + {Waiting(folder, localPath, connectGeneration, ForRef)};
    }

    /** Whether the connect is still wanted. */
    predicate StillConnecting(folder: string, generation: nat)
      reads this`connecting
    {
      folder in connecting && connecting[folder] == generation
    }

    /** The listing's id is known: wait for its store, if the connect is still wanted. */
    method RefKnown(w: Waiting)
      requires Valid() && w in waiting && w.stage.ForRef?
      modifies this`waiting
      ensures Valid()
      ensures waiting == old(waiting) - {w} +
        (if w.folder in connecting && connecting[w.folder] == w.generation then {w.(stage := ForStore)} else {})
    {
      waiting := waiting - {w};
      if !StillConnecting(w.folder, w.generation) {
        return;
      }
      waiting := waiting + {w.(stage := ForStore)};
    }

    /** The store is loaded: subscribe, unless the folder was let go of, or connected anew, meanwhile. Never a
        connect begun before its folder was last disconnected. */
    method StartProvider(w: Waiting, hasRoute: bool)
      requires Valid() && w in waiting && w.stage.ForStore?
      modifies this`waiting, this`connecting, this`connections, this`unplaced, this`subscribed
      ensures Valid() && waiting == old(waiting) - {w}
      ensures (w.generation in cancelled || w.generation in old(subscribed)
               || !old(w.folder in connecting && connecting[w.folder] == w.generation)) ==>
        subscribed == old(subscribed) && connections == old(connections) && unplaced == old(unplaced)
        && connecting == old(connecting)
      ensures old(w.folder in connecting && connecting[w.folder] == w.generation) ==>
        && w.generation !in cancelled && connecting == old(connecting) - {w.folder}
        && (if hasRoute
            then (subscribed == old(subscribed)[w.generation := w.folder] && unplaced == old(unplaced)
                  && connections == old(connections)[w.folder := Connection(w.localPath, w.generation)])
            else (subscribed == old(subscribed) && connections == old(connections)
                  && unplaced == old(unplaced)[w.folder := w.localPath]))
    {
      waiting := waiting - {w};
      if !StillConnecting(w.folder, w.generation) {
        return;
      }
      connecting := connecting - {w.folder};
      if !hasRoute {
        unplaced := unplaced[w.folder := w.localPath];
        return;
      }
      subscribed := subscribed[w.generation := w.folder];
      connections := connections[w.folder := Connection(w.localPath, w.generation)];
    }

    /** Listings that found no route, connected again. */
    method RetryUnplaced(keys: set<string>)
      requires Valid()
      modifies this`connecting, this`connectGeneration, this`waiting, this`begun, this`unplaced
      ensures Valid() && unplaced == map[]
      ensures forall f | f in old(unplaced) && f in keys :: f in connections || f in connecting
      ensures forall f | f in old(connecting) :: f in connecting && connecting[f] == old(connecting[f])
    {
      var pending := unplaced;
      unplaced := map[];
      var rest := pending.Keys;
      while rest != {}
        invariant rest <= pending.Keys && Valid() && unplaced == map[]
        invariant forall f | f in pending && f in keys && f !in rest :: f in connections || f in connecting
        invariant forall f | f in old(connecting) :: f in connecting && connecting[f] == old(connecting[f])
        decreases |rest|
      {
        var f :| f in rest;
        ConnectFolder(f, pending[f], f in keys);
        rest := rest - {f};
      }
    }

    /** Let a folder go: nothing of it is subscribed, connecting or to be retried, and no connect begun before
        subscribes after. */
    method DisconnectFolder(folder: string)
      requires Valid()
      modifies this`connecting, this`connections, this`unplaced, this`subscribed, this`cancelled
      ensures Valid()
      ensures folder !in connections && folder !in connecting && folder !in unplaced
      ensures forall g :: g in subscribed <==> g in old(subscribed) && old(subscribed)[g] != folder
      ensures cancelled == old(cancelled) + BegunFor(begun, folder)
      ensures connections == old(connections) - {folder} && connecting == old(connecting) - {folder}
    {
      OnlyListing(subscribed, connections, begun, folder);
      unplaced, connecting := unplaced - {folder}, connecting - {folder};
      cancelled := cancelled + BegunFor(begun, folder);
      if folder !in connections {
        assert connections - {folder} == connections;
        return;
      }
      subscribed, connections := subscribed - {connections[folder].generation}, connections - {folder};
    }

    method DisconnectAll()
      requires Valid()
      modifies this`connecting, this`connections, this`unplaced, this`subscribed, this`cancelled
      ensures Valid() && connections == map[] && connecting == map[] && subscribed == map[]
    {
      var rest := connections.Keys + connecting.Keys;
      while rest != {}
        invariant Valid() && connections.Keys <= rest && connecting.Keys <= rest
        decreases |rest|
      {
        var f :| f in rest;
        DisconnectFolder(f);
        rest := rest - {f};
      }
      NoneListed(subscribed, connections, begun);
    }
  }

  /** What is subscribed for a folder is its connection's. */
  lemma OnlyListing(subscribed: map<nat, string>, connections: map<string, Connection>, begun: map<nat, string>,
      f: string)
    requires forall g | g in subscribed :: IsListed(g, subscribed[g], connections, begun)
    ensures forall g | g in subscribed && subscribed[g] == f :: f in connections && g == connections[f].generation
  {
  }

  lemma NoneListed(subscribed: map<nat, string>, connections: map<string, Connection>, begun: map<nat, string>)
    requires connections == map[] && forall g | g in subscribed :: IsListed(g, subscribed[g], connections, begun)
    ensures subscribed == map[]
  {
  }
}
