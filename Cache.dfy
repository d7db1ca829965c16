/**
  The mod's per-tick loop over all ships and its name memo: each ship is
  mapped to the last name it was customised with, a ship whose name has not
  changed is skipped, and the Home key forgets every entry.
 */
module Cache {
  import opened Dispatcher
  import opened Scanner

  /** The identity of a ship's Transform, the key of the memo. */
  type ShipId = nat

  /** The map from each ship to the last name processed for it (processedNames). */
  class NameCache {
    var entries: map<ShipId, string>

    constructor ()
      ensures entries == map[]
    {
      entries := map[];
    }

    /** A ship needs processing unless its entry equals its current name. */
    method ShouldProcess(ship: ShipId, name: string) returns (b: bool)
      ensures b <==> ship !in entries || entries[ship] != name
    {
      b := !(ship in entries && entries[ship] == name);
    }

    /** Records `name` as the name `ship` was last processed with. */
    method Commit(ship: ShipId, name: string)
      modifies this
      ensures entries == old(entries)[ship := name]
    {
      entries := entries[ship := name];
    }

    /** Forgets every ship, so that all are processed again. */
    method Clear()
      modifies this
      ensures entries == map[]
    {
      entries := map[];
    }
  }

  /**
    What one tick sees of the game: each ship's current name (a ship whose
    name cannot be looked up makes the lookup throw), the asset files that
    exist, and for each ship the scan positions at which the dispatcher throws.
   */
  datatype Host = Host(names: map<ShipId, string>, assets: set<string>, faults: map<ShipId, set<nat>>)

  /** The scan positions at which handling an operator of `ship` throws. */
  function FaultsOf(host: Host, ship: ShipId): set<nat>
  {
    if ship in host.faults then host.faults[ship] else {}
  }

  /** The work done on one processed ship: the name scanned, its dispatches and its apply calls. */
  datatype ShipWork = ShipWork(ship: ShipId, name: string, calls: seq<Dispatch>, effects: seq<Effect>)

  /** The work the scan of `ship`'s current name does. */
  predicate IsScanOf(w: ShipWork, host: Host)
  {
    w.ship in host.names && w.name == host.names[w.ship] &&
    w.calls == Directives(w.name, FaultsOf(host, w.ship)) &&
    w.effects == Applied(w.calls, host.assets, FaultsOf(host, w.ship))
  }

  /** One tick in terms of the memo: the ships processed, the memo afterwards, and whether the tick ran to the end. */
  datatype TickResult = TickResult(processed: seq<ShipId>, cache: map<ShipId, string>, completed: bool)

  /** The ship is already customised with `name`. */
  predicate UpToDate(cache: map<ShipId, string>, ship: ShipId, name: string)
  {
    ship in cache && cache[ship] == name
  }

  /**
    A tick over `ships`, in order: a ship whose name lookup throws ends the
    tick there (the exception is caught outside the loop); a ship whose
    memo entry equals its name is skipped; any other ship is processed and
    its entry set to its name.
   */
  function Tick(cache: map<ShipId, string>, ships: seq<ShipId>, names: map<ShipId, string>): (r: TickResult)
    ensures |r.processed| <= |ships|
    decreases |ships|
  {
    if ships == [] then TickResult([], cache, true)
    else
      var s := ships[0];
      if s !in names then TickResult([], cache, false)
      else if UpToDate(cache, s, names[s]) then Tick(cache, ships[1..], names)
      else
        var r := Tick(cache[s := names[s]], ships[1..], names);
        TickResult([s] + r.processed, r.cache, r.completed)
  }

  /** The ships a tick reaches: those before the first ship whose name lookup throws. */
  function Reached(ships: seq<ShipId>, names: map<ShipId, string>): (r: seq<ShipId>)
    ensures |r| <= |ships| && r == ships[..|r|]
    ensures |r| < |ships| ==> ships[|r|] !in names
    ensures forall s :: s in r ==> s in ships && s in names
    ensures (forall s :: s in ships ==> s in names) ==> r == ships
    decreases |ships|
  {
    if ships == [] || ships[0] !in names then []
    else [ships[0]] + Reached(ships[1..], names)
  }

  /**
    ShipLoop: one timer tick over the ships in the game's order. It returns
    the work done on every processed ship and whether the tick ran to the
    end, and leaves the memo as Tick says.
   */
  method ShipLoop(cache: NameCache, ships: seq<ShipId>, host: Host)
    returns (processed: seq<ShipId>, work: seq<ShipWork>, completed: bool)
    modifies cache
    ensures var r := Tick(old(cache.entries), ships, host.names);
      processed == r.processed && cache.entries == r.cache && completed == r.completed
    ensures |work| == |processed|
    ensures forall k :: 0 <= k < |work| ==> work[k].ship == processed[k] && IsScanOf(work[k], host)
  {
    ghost var spec := Tick(cache.entries, ships, host.names);
    processed, work, completed := [], [], true;
    var k := 0;
    while k < |ships|
      invariant k <= |ships|
      invariant var rest := Tick(cache.entries, ships[k..], host.names);
        processed + rest.processed == spec.processed && rest.cache == spec.cache && rest.completed == spec.completed
      invariant |work| == |processed|
      invariant forall n :: 0 <= n < |work| ==> work[n].ship == processed[n] && IsScanOf(work[n], host)
    {
      var ship := ships[k];
      TickStep(cache.entries, ships, k, host.names);
      if ship !in host.names {
        completed := false;
        break;
      }
      var shipName := host.names[ship];
      var process := cache.ShouldProcess(ship, shipName);
      if process {
        var calls, effects := Scan(shipName, host.assets, FaultsOf(host, ship));
        processed := processed + [ship];
        work := work + [ShipWork(ship, shipName, calls, effects)];
        cache.Commit(ship, shipName);
      }
      k := k + 1;
    }
  }

  /** One step of the tick, at position `k` of the ship list, as the loop of ShipLoop takes it. */
  lemma TickStep(cache: map<ShipId, string>, ships: seq<ShipId>, k: nat, names: map<ShipId, string>)
    requires k < |ships|
    ensures var s := ships[k];
      Tick(cache, ships[k..], names) ==
        if s !in names then TickResult([], cache, false)
        else if UpToDate(cache, s, names[s]) then Tick(cache, ships[k + 1..], names)
        else
          var r := Tick(cache[s := names[s]], ships[k + 1..], names);
          TickResult([s] + r.processed, r.cache, r.completed)
  {
    assert ships[k..][0] == ships[k] && ships[k..][1..] == ships[k + 1..];
  }

  /** Update: the Home key clears the memo; any other frame leaves it alone. */
  method Update(cache: NameCache, homeKeyDown: bool)
    modifies cache
    ensures cache.entries == if homeKeyDown then map[] else old(cache.entries)
  {
    if homeKeyDown {
      cache.Clear();
    }
  }

  /** A tick runs to the end exactly when every ship's name can be looked up, and then it reaches every ship. */
  lemma {:induction false} TickCompletes(cache: map<ShipId, string>, ships: seq<ShipId>, names: map<ShipId, string>)
    ensures Tick(cache, ships, names).completed <==> forall s :: s in ships ==> s in names
    decreases |ships|
  {
    if ships != [] && ships[0] in names {
      var s := ships[0];
      var c := if UpToDate(cache, s, names[s]) then cache else cache[s := names[s]];
      TickCompletes(c, ships[1..], names);
    }
  }

  /**
    After a tick, every ship it reached has its current name as entry, and
    every other entry is as before.
   */
  lemma {:induction false} TickCache(cache: map<ShipId, string>, ships: seq<ShipId>, names: map<ShipId, string>, s: ShipId)
    ensures var r := Tick(cache, ships, names);
      (s in r.cache <==> s in cache || s in Reached(ships, names)) &&
      (s in Reached(ships, names) ==> r.cache[s] == names[s]) &&
      (s !in Reached(ships, names) && s in cache ==> r.cache[s] == cache[s])
    decreases |ships|
  {
    if ships != [] && ships[0] in names {
      var t := ships[0];
      var c := if UpToDate(cache, t, names[t]) then cache else cache[t := names[t]];
      TickCache(c, ships[1..], names, s);
    }
  }

  /**
    A tick processes a ship exactly when it reaches the ship and the ship's
    entry differs from its current name, and processes each ship at most once.
   */
  lemma {:induction false} TickProcessed(cache: map<ShipId, string>, ships: seq<ShipId>, names: map<ShipId, string>, s: ShipId)
    ensures var r := Tick(cache, ships, names);
      (s in r.processed <==> s in Reached(ships, names) && !UpToDate(cache, s, names[s])) &&
      multiset(r.processed)[s] <= 1
    decreases |ships|
  {
    if ships != [] && ships[0] in names {
      var t := ships[0];
      if UpToDate(cache, t, names[t]) {
        TickProcessed(cache, ships[1..], names, s);
      } else {
        var c := cache[t := names[t]];
        TickProcessed(c, ships[1..], names, s);
        TickProcessed(c, ships[1..], names, t);
        var r := Tick(c, ships[1..], names);
        assert Tick(cache, ships, names).processed == [t] + r.processed;
        assert multiset([t] + r.processed) == multiset([t]) + multiset(r.processed);
      }
    }
  }

  /**
    A tick in which every ship it reaches is up to date processes nothing
    and leaves the memo as it was.
   */
  lemma {:induction false} TickIdle(cache: map<ShipId, string>, ships: seq<ShipId>, names: map<ShipId, string>)
    requires forall s :: s in Reached(ships, names) ==> UpToDate(cache, s, names[s])
    ensures Tick(cache, ships, names).processed == [] && Tick(cache, ships, names).cache == cache
    decreases |ships|
  {
    if ships != [] && ships[0] in names {
      assert Reached(ships, names) == [ships[0]] + Reached(ships[1..], names);
      assert ships[0] in Reached(ships, names);
      TickIdle(cache, ships[1..], names);
    }
  }

  /**
    A second tick over the same ships with the same names processes nothing,
    leaves the memo as the first tick left it, and stops where the first one
    stopped, whether or not the first tick ran to the end.
   */
  lemma SecondTickIdle(cache: map<ShipId, string>, ships: seq<ShipId>, names: map<ShipId, string>)
    ensures var r := Tick(cache, ships, names);
      Tick(r.cache, ships, names) == TickResult([], r.cache, r.completed)
  {
    var r := Tick(cache, ships, names);
    TickCompletes(cache, ships, names);
    TickCompletes(r.cache, ships, names);
    forall s | s in Reached(ships, names) ensures UpToDate(r.cache, s, names[s]) {
      TickCache(cache, ships, names, s);
    }
    TickIdle(r.cache, ships, names);
  }

  /** After the memo is cleared, the next tick processes exactly the ships it reaches. */
  lemma ClearForcesAll(ships: seq<ShipId>, names: map<ShipId, string>)
    ensures forall s :: s in Tick(map[], ships, names).processed <==> s in Reached(ships, names)
  {
    forall s {
      TickProcessed(map[], ships, names, s);
    }
  }
}
