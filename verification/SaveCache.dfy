/** `set_deduped` of `apps/desktop/src/project_panes_factory.rs`: skip a write whose digest is the one
    last written under the same key of the same store. */
module SaveCache {

  type StoreId = nat
  type Digest = nat

  datatype Save = Save(store: StoreId, key: string, json: string)

  /** The process-wide digest table, and what the stores really hold. */
  datatype World = World(last: map<StoreId, map<string, Digest>>, disk: map<StoreId, map<string, string>>)

  function Under<T>(m: map<StoreId, map<string, T>>, store: StoreId): map<string, T> {
    if store in m then m[store] else map[]
  }

  function Put<T>(m: map<StoreId, map<string, T>>, store: StoreId, key: string, value: T): map<StoreId, map<string, T>> {
    m[store := Under(m, store)[key := value]]
  }

  predicate IsCached(digest: string -> Digest, w: World, s: Save) {
    s.key in Under(w.last, s.store) && Under(w.last, s.store)[s.key] == digest(s.json)
  }

  /** The store holds exactly `s.json` under the key. */
  predicate IsStored(w: World, s: Save) {
    s.key in Under(w.disk, s.store) && Under(w.disk, s.store)[s.key] == s.json
  }

  // ---------- One save ----------

  datatype Saved = Saved(world: World, upToDate: bool)

  /** `lands` is whether the store accepts the write, if one is made. */
  function SetDeduped(digest: string -> Digest, w: World, s: Save, lands: bool): Saved {
    if IsCached(digest, w, s) then Saved(w, true)
    else if !lands then Saved(w, false)
    else Saved(World(Put(w.last, s.store, s.key, digest(s.json)), Put(w.disk, s.store, s.key, s.json)), true)
  }

  class Cache {
    const digest: string -> Digest
    /** Stands for `LAST_SAVED_TABS_HASH`. */
    var last: map<StoreId, map<string, Digest>>
    /** The databases behind the store handles. */
    var disk: map<StoreId, map<string, string>>

    constructor (digest: string -> Digest, disk: map<StoreId, map<string, string>>)
      ensures this.digest == digest && State() == World(map[], disk)
    {
      this.digest := digest;
      this.disk := disk;
      last := map[];
    }

    function State(): World
      reads this
    {
      World(last, disk)
    }

    /** The store's own write: all of it or none of it. */
    method Write(s: Save, lands: bool) returns (ok: bool)
      modifies this`disk
      ensures ok == lands
      ensures disk == if lands then Put(old(disk), s.store, s.key, s.json) else old(disk)
    {
      if lands {
        disk := Put(disk, s.store, s.key, s.json);
      }
      ok := lands;
    }

    method SaveDeduped(s: Save, lands: bool) returns (upToDate: bool)
      modifies this
      ensures Saved(State(), upToDate) == SetDeduped(digest, old(State()), s, lands)
    {
      var d := digest(s.json);
      if s.store in last && s.key in last[s.store] && last[s.store][s.key] == d {
        return true;
      }
      var ok := Write(s, lands);
      if !ok {
        return false;
      }
      if s.store !in last {
        last := last[s.store := map[]];
      }
      last := last[s.store := last[s.store][s.key := d]];
      upToDate := true;
    }
  }

  // ---------- Any run of saves ----------

  /** Every cached digest is the digest of what that store holds under that key. */
  ghost predicate Coherent(digest: string -> Digest, w: World) {
    forall store: StoreId, key: string :: key in Under(w.last, store) ==>
      key in Under(w.disk, store) && Under(w.last, store)[key] == digest(Under(w.disk, store)[key])
  }

  datatype Attempt = Attempt(save: Save, lands: bool)

  function Run(digest: string -> Digest, w: World, run: seq<Attempt>): World
    decreases |run|
  {
    if run == [] then w
    else Run(digest, SetDeduped(digest, w, run[0].save, run[0].lands).world, run[1..])
  }

  lemma PutGet<T>(m: map<StoreId, map<string, T>>, store: StoreId, key: string, value: T, store': StoreId, key': string)
    ensures var n := Put(m, store, key, value);
            if (store', key') == (store, key) then key' in Under(n, store') && Under(n, store')[key'] == value
            else && (key' in Under(n, store') <==> key' in Under(m, store'))
                 && (key' in Under(n, store') ==> Under(n, store')[key'] == Under(m, store')[key'])
  {
  }

  lemma SaveIsCoherent(digest: string -> Digest, w: World, s: Save, lands: bool)
    requires Coherent(digest, w)
    ensures Coherent(digest, SetDeduped(digest, w, s, lands).world)
  {
    var w' := SetDeduped(digest, w, s, lands).world;
    forall store: StoreId, key: string | w' != w && key in Under(w'.last, store)
      ensures key in Under(w'.disk, store) && Under(w'.last, store)[key] == digest(Under(w'.disk, store)[key])
    {
      PutGet(w.last, s.store, s.key, digest(s.json), store, key);
      PutGet(w.disk, s.store, s.key, s.json, store, key);
    }
  }

  lemma {:induction false} RunIsCoherent(digest: string -> Digest, w: World, run: seq<Attempt>)
    requires Coherent(digest, w)
    ensures Coherent(digest, Run(digest, w, run))
    decreases |run|
  {
    if run != [] {
      SaveIsCoherent(digest, w, run[0].save, run[0].lands);
      RunIsCoherent(digest, SetDeduped(digest, w, run[0].save, run[0].lands).world, run[1..]);
    }
  }

  /** Two texts with one digest do not occur among the texts in play. */
  ghost predicate NoCollision(digest: string -> Digest, w: World, json: string) {
    forall store: StoreId, key: string :: key in Under(w.disk, store) && digest(Under(w.disk, store)[key]) == digest(json) ==>
      Under(w.disk, store)[key] == json
  }

  /** After any run from an empty cache, over any stores, keys and failures: `true` means the store
      holds these bytes, `false` means the write failed and nothing at all changed, so the same save
      is attempted again; no other key of any store is touched. */
  lemma SaveIsHonest(digest: string -> Digest, disk: map<StoreId, map<string, string>>, run: seq<Attempt>, s: Save, lands: bool)
    requires NoCollision(digest, Run(digest, World(map[], disk), run), s.json)
    ensures var w := Run(digest, World(map[], disk), run);
            var r := SetDeduped(digest, w, s, lands);
            && (r.upToDate ==> IsStored(r.world, s))
            && (!r.upToDate ==> !lands && r.world == w && SetDeduped(digest, r.world, s, true).world != w)
            && (IsStored(w, s) || lands ==> IsStored(r.world, s))
            && (forall store: StoreId, key: string :: (store, key) != (s.store, s.key) ==>
                  && (key in Under(r.world.disk, store) <==> key in Under(w.disk, store))
                  && (key in Under(w.disk, store) ==> Under(r.world.disk, store)[key] == Under(w.disk, store)[key]))
  {
    var w := Run(digest, World(map[], disk), run);
    assert Coherent(digest, World(map[], disk));
    RunIsCoherent(digest, World(map[], disk), run);
    var r := SetDeduped(digest, w, s, lands);
    if !r.upToDate {
      var again := SetDeduped(digest, r.world, s, true).world;
      assert IsCached(digest, again, s) && !IsCached(digest, w, s);
    }
  }

  predicate SameKey(a: Save, b: Save) { a.store == b.store && a.key == b.key }

  lemma {:induction false} StaysCached(digest: string -> Digest, w: World, s: Save, between: seq<Attempt>)
    requires IsCached(digest, w, s)
    requires forall i :: 0 <= i < |between| && SameKey(between[i].save, s) ==> digest(between[i].save.json) == digest(s.json)
    ensures IsCached(digest, Run(digest, w, between), s)
    decreases |between|
  {
    if between != [] {
      var a := between[0];
      assert SameKey(a.save, s) ==> digest(a.save.json) == digest(s.json);
      PutGet(w.last, a.save.store, a.save.key, digest(a.save.json), s.store, s.key);
      StaysCached(digest, SetDeduped(digest, w, a.save, a.lands).world, s, between[1..]);
    }
  }

  /** A repeat is not written: after a save that came out up to date, and any saves but ones of its key
      with another digest, the same save changes nothing and does not fail, even if the store would refuse. */
  lemma RepeatIsSkipped(digest: string -> Digest, w: World, s: Save, lands: bool, between: seq<Attempt>)
    requires SetDeduped(digest, w, s, lands).upToDate
    requires forall i :: 0 <= i < |between| && SameKey(between[i].save, s) ==> digest(between[i].save.json) == digest(s.json)
    ensures var v := Run(digest, SetDeduped(digest, w, s, lands).world, between);
            SetDeduped(digest, v, s, false) == Saved(v, true)
  {
    PutGet(w.last, s.store, s.key, digest(s.json), s.store, s.key);
    StaysCached(digest, SetDeduped(digest, w, s, lands).world, s, between);
  }

  // ---------- Saves that overlap ----------

  /** A save between its lookup and the recording of its digest: the lock is not held in between. */
  datatype Flight = Flight(save: Save, written: bool)

  datatype Shared = Shared(world: World, flights: map<nat, Flight>)

  datatype Step =
    | Begin(id: nat, save: Save)        // look the digest up; a hit ends the save
    | Store(id: nat, lands: bool)       // the store's write
    | Record(id: nat)                   // insert the digest

  function Next(digest: string -> Digest, c: Shared, step: Step): Shared {
    match step
    case Begin(id, s) =>
      if id in c.flights || IsCached(digest, c.world, s) then c
      else c.(flights := c.flights[id := Flight(s, false)])
    case Store(id, lands) =>
      if id !in c.flights || c.flights[id].written then c
      else if !lands then c.(flights := c.flights - {id})
      else
        var s := c.flights[id].save;
        Shared(c.world.(disk := Put(c.world.disk, s.store, s.key, s.json)), c.flights[id := Flight(s, true)])
    case Record(id) =>
      if id !in c.flights || !c.flights[id].written then c
      else
        var s := c.flights[id].save;
        Shared(c.world.(last := Put(c.world.last, s.store, s.key, digest(s.json))), c.flights - {id})
  }

  function Steps(digest: string -> Digest, c: Shared, steps: seq<Step>): Shared
    decreases |steps|
  {
    if steps == [] then c else Steps(digest, Next(digest, c, steps[0]), steps[1..])
  }

  /** A save whose three steps nothing comes between is one save as above. */
  lemma UndisturbedIsSetDeduped(digest: string -> Digest, c: Shared, id: nat, s: Save, lands: bool)
    requires id !in c.flights
    ensures Steps(digest, c, [Begin(id, s), Store(id, lands), Record(id)]) ==
            Shared(SetDeduped(digest, c.world, s, lands).world, c.flights)
  {
    var steps := [Begin(id, s), Store(id, lands), Record(id)];
    var c1 := Next(digest, c, Begin(id, s));
    var c2 := Next(digest, c1, Store(id, lands));
    var c3 := Next(digest, c2, Record(id));
    assert steps[1..] == [Store(id, lands), Record(id)] && steps[1..][1..] == [Record(id)];
    assert Steps(digest, c2, [Record(id)]) == c3;
    assert Steps(digest, c1, steps[1..]) == c3;
    assert c3.flights == c.flights;
  }

  /** The store's bytes under the key of `s` have the digest of `s`. */
  predicate HoldsDigest(digest: string -> Digest, w: World, s: Save) {
    s.key in Under(w.disk, s.store) && digest(Under(w.disk, s.store)[s.key]) == digest(s.json)
  }

  /** A save of `s` would now be skipped, and wrongly. */
  predicate Misleads(digest: string -> Digest, w: World, s: Save) {
    IsCached(digest, w, s) && !HoldsDigest(digest, w, s)
  }

  /** A save of the same key with another digest is under way; if `s` would be skipped, it counts only
      once it has written. */
  ghost predicate Conflicts(digest: string -> Digest, c: Shared, s: Save) {
    exists i :: i in c.flights && ConflictsWith(digest, c, s, c.flights[i])
  }

  predicate ConflictsWith(digest: string -> Digest, c: Shared, s: Save, f: Flight) {
    SameKey(f.save, s) && digest(f.save.json) != digest(s.json) && (IsCached(digest, c.world, s) ==> f.written)
  }

  ghost predicate NoConflicts(digest: string -> Digest, c: Shared, steps: seq<Step>)
    decreases |steps|
  {
    steps == [] || (
      && (steps[0].Begin? && steps[0].id !in c.flights ==> !Conflicts(digest, c, steps[0].save))
      && NoConflicts(digest, Next(digest, c, steps[0]), steps[1..]))
  }

  /** The digest cached under this key is right, or a save of the key is about to record its own. */
  ghost predicate IsSettledAt(digest: string -> Digest, c: Shared, store: StoreId, key: string) {
    key in Under(c.world.last, store) ==>
      || (exists i :: i in c.flights && c.flights[i].written && c.flights[i].save.store == store && c.flights[i].save.key == key)
      || (key in Under(c.world.disk, store) && Under(c.world.last, store)[key] == digest(Under(c.world.disk, store)[key]))
  }

  ghost predicate OneDigestPerKey(digest: string -> Digest, flights: map<nat, Flight>) {
    forall i, j :: i in flights && j in flights && SameKey(flights[i].save, flights[j].save) ==>
      digest(flights[i].save.json) == digest(flights[j].save.json)
  }

  ghost predicate Settled(digest: string -> Digest, c: Shared) {
    && OneDigestPerKey(digest, c.flights)
    && (forall i :: i in c.flights && c.flights[i].written ==> HoldsDigest(digest, c.world, c.flights[i].save))
    && (forall store: StoreId, key: string :: IsSettledAt(digest, c, store, key))
  }

  lemma StoreIsSettled(digest: string -> Digest, c: Shared, id: nat)
    requires Settled(digest, c) && id in c.flights && !c.flights[id].written
    ensures Settled(digest, Next(digest, c, Store(id, true)))
  {
    var d, s := Next(digest, c, Store(id, true)), c.flights[id].save;
    forall i | i in d.flights && d.flights[i].written
      ensures HoldsDigest(digest, d.world, d.flights[i].save)
    {
      PutGet(c.world.disk, s.store, s.key, s.json, d.flights[i].save.store, d.flights[i].save.key);
    }
    forall store: StoreId, key: string
      ensures IsSettledAt(digest, d, store, key)
    {
      assert IsSettledAt(digest, c, store, key);
      PutGet(c.world.disk, s.store, s.key, s.json, store, key);
      assert d.flights[id].written && (forall i :: i in c.flights && i != id ==> d.flights[i] == c.flights[i]);
    }
  }

  lemma RecordIsSettled(digest: string -> Digest, c: Shared, id: nat)
    requires Settled(digest, c) && id in c.flights && c.flights[id].written
    ensures Settled(digest, Next(digest, c, Record(id)))
  {
    var d, s := Next(digest, c, Record(id)), c.flights[id].save;
    forall store: StoreId, key: string
      ensures IsSettledAt(digest, d, store, key)
    {
      assert IsSettledAt(digest, c, store, key);
      PutGet(c.world.last, s.store, s.key, digest(s.json), store, key);
      assert HoldsDigest(digest, c.world, s);
      if i :| i in c.flights && c.flights[i].written && c.flights[i].save.store == store && c.flights[i].save.key == key {
        assert i != id ==> i in d.flights && d.flights[i] == c.flights[i];
      }
    }
  }

  /** Beginning a save, or giving one up after a failed write. */
  lemma FlightsAreSettled(digest: string -> Digest, c: Shared, flights: map<nat, Flight>)
    requires Settled(digest, c) && OneDigestPerKey(digest, flights)
    requires forall i :: i in flights && flights[i].written ==> i in c.flights && c.flights[i] == flights[i]
    requires forall i :: i in c.flights && c.flights[i].written ==> i in flights && c.flights[i] == flights[i]
    ensures Settled(digest, Shared(c.world, flights))
  {
    forall store: StoreId, key: string
      ensures IsSettledAt(digest, Shared(c.world, flights), store, key)
    {
      assert IsSettledAt(digest, c, store, key);
    }
  }

  lemma NextIsSettled(digest: string -> Digest, c: Shared, step: Step)
    requires Settled(digest, c) && (step.Begin? && step.id !in c.flights ==> !Conflicts(digest, c, step.save))
    ensures Settled(digest, Next(digest, c, step))
  {
    match step
    case Begin(id, s) =>
      if id !in c.flights && !IsCached(digest, c.world, s) {
        assert forall i :: i in c.flights ==> !ConflictsWith(digest, c, s, c.flights[i]);
        FlightsAreSettled(digest, c, c.flights[id := Flight(s, false)]);
      }
    case Store(id, lands) =>
      if id in c.flights && !c.flights[id].written {
        if lands {
          StoreIsSettled(digest, c, id);
        } else {
          FlightsAreSettled(digest, c, c.flights - {id});
        }
      }
    case Record(id) =>
      if id in c.flights && c.flights[id].written { RecordIsSettled(digest, c, id); }
  }

  lemma {:induction false} StepsAreSettled(digest: string -> Digest, c: Shared, steps: seq<Step>)
    requires Settled(digest, c) && NoConflicts(digest, c, steps)
    ensures Settled(digest, Steps(digest, c, steps))
    decreases |steps|
  {
    if steps != [] {
      NextIsSettled(digest, c, steps[0]);
      StepsAreSettled(digest, Next(digest, c, steps[0]), steps[1..]);
    }
  }

  lemma SettledSkipIsHonest(digest: string -> Digest, c: Shared, s: Save)
    requires Settled(digest, c) && !Conflicts(digest, c, s)
    ensures !Misleads(digest, c.world, s)
  {
    assert IsSettledAt(digest, c, s.store, s.key);
    assert forall i :: i in c.flights ==> !ConflictsWith(digest, c, s, c.flights[i]);
  }

  function Empty(disk: map<StoreId, map<string, string>>): Shared { Shared(World(map[], disk), map[]) }

  /** Overlapping saves stay honest as long as no two of one key differ: a skip that is no such
      conflict itself means the store holds these bytes. */
  lemma SkipsStayHonest(digest: string -> Digest, disk: map<StoreId, map<string, string>>, steps: seq<Step>, s: Save)
    requires NoConflicts(digest, Empty(disk), steps)
    requires var c := Steps(digest, Empty(disk), steps);
             NoCollision(digest, c.world, s.json) && !Conflicts(digest, c, s) && IsCached(digest, c.world, s)
    ensures IsStored(Steps(digest, Empty(disk), steps).world, s)
  {
    StepsAreSettled(digest, Empty(disk), steps);
    SettledSkipIsHonest(digest, Steps(digest, Empty(disk), steps), s);
  }

  ghost predicate InFlight(c: Shared, s: Save) {
    exists id :: id in c.flights && SameKey(c.flights[id].save, s)
  }

  /** A save begins only when no other save of the same key is under way. */
  ghost predicate TakesTurns(digest: string -> Digest, c: Shared, steps: seq<Step>)
    decreases |steps|
  {
    steps == [] || (
      && (steps[0].Begin? ==> !InFlight(c, steps[0].save))
      && TakesTurns(digest, Next(digest, c, steps[0]), steps[1..]))
  }

  lemma {:induction false} TurnsDoNotConflict(digest: string -> Digest, c: Shared, steps: seq<Step>)
    requires TakesTurns(digest, c, steps)
    ensures NoConflicts(digest, c, steps)
    decreases |steps|
  {
    if steps != [] { TurnsDoNotConflict(digest, Next(digest, c, steps[0]), steps[1..]); }
  }

  /** In particular when saves of one key take turns, as on one thread. */
  lemma TurnsKeepSkipsHonest(digest: string -> Digest, disk: map<StoreId, map<string, string>>, steps: seq<Step>, s: Save)
    requires TakesTurns(digest, Empty(disk), steps)
    requires var c := Steps(digest, Empty(disk), steps);
             NoCollision(digest, c.world, s.json) && !InFlight(c, s) && IsCached(digest, c.world, s)
    ensures IsStored(Steps(digest, Empty(disk), steps).world, s)
  {
    TurnsDoNotConflict(digest, Empty(disk), steps);
    SkipsStayHonest(digest, disk, steps, s);
  }

  // ---------- And only as long ----------

  /** From here a run without conflicts leads to a wrong skip that is no conflict either. */
  ghost predicate CanMislead(digest: string -> Digest, c: Shared) {
    exists steps, t :: NoConflicts(digest, c, steps) && MisleadsAlone(digest, Steps(digest, c, steps), t)
  }

  ghost predicate MisleadsAlone(digest: string -> Digest, c: Shared, t: Save) {
    !Conflicts(digest, c, t) && Misleads(digest, c.world, t)
  }

  /** Write `i`, write `j`, record `j`, record `i`. */
  function Crossed(c: Shared, i: nat, j: nat): seq<Step>
    requires i in c.flights
  {
    (if c.flights[i].written then [] else [Store(i, true)]) + [Store(j, true), Record(j), Record(i)]
  }

  lemma CrossedRun(digest: string -> Digest, c: Shared, i: nat, j: nat)
    requires i in c.flights && j in c.flights && i != j && !c.flights[j].written
    ensures NoConflicts(digest, c, Crossed(c, i, j))
    ensures var b := if c.flights[i].written then c else Next(digest, c, Store(i, true));
            Steps(digest, c, Crossed(c, i, j)) == Next(digest, Next(digest, Next(digest, b, Store(j, true)), Record(j)), Record(i))
  {
    var b := if c.flights[i].written then c else Next(digest, c, Store(i, true));
    var b1 := Next(digest, b, Store(j, true));
    var b2 := Next(digest, b1, Record(j));
    var last := [Store(j, true), Record(j), Record(i)];
    assert last[1..] == [Record(j), Record(i)] && last[1..][1..] == [Record(i)];
    assert Steps(digest, b2, [Record(i)]) == Next(digest, b2, Record(i)) && NoConflicts(digest, b2, [Record(i)]);
    assert Steps(digest, b1, last[1..]) == Next(digest, b2, Record(i)) && NoConflicts(digest, b1, last[1..]);
    assert Steps(digest, b, last) == Next(digest, b2, Record(i)) && NoConflicts(digest, b, last);
    if c.flights[i].written { assert Crossed(c, i, j) == last; } else { assert Crossed(c, i, j)[1..] == last; }
  }

  /** Two saves of one key with different digests, written and recorded in opposite orders. */
  lemma CrossingMisleads(digest: string -> Digest, c: Shared, i: nat, j: nat, s: Save)
    requires Settled(digest, c) && i in c.flights && j !in c.flights && !IsCached(digest, c.world, s)
    requires ConflictsWith(digest, c, s, c.flights[i])
    ensures var b := Next(digest, c, Begin(j, s));
            NoConflicts(digest, b, Crossed(b, i, j)) && MisleadsAlone(digest, Steps(digest, b, Crossed(b, i, j)), c.flights[i].save)
  {
    var b, a := Next(digest, c, Begin(j, s)), c.flights[i].save;
    CrossedRun(digest, b, i, j);
    var d := Steps(digest, b, Crossed(b, i, j));
    assert d.flights == c.flights - {i};
    assert forall k :: k in d.flights ==> !ConflictsWith(digest, d, a, d.flights[k]);
  }

  /** Exactly then: after any run without conflicts, beginning a save of `s` is a wrong skip, or makes
      one possible later without a further conflict, if and only if `s` conflicts. */
  lemma MisleadsIffConflicts(digest: string -> Digest, disk: map<StoreId, map<string, string>>, steps: seq<Step>, j: nat, s: Save)
    requires NoConflicts(digest, Empty(disk), steps) && j !in Steps(digest, Empty(disk), steps).flights
    ensures var c := Steps(digest, Empty(disk), steps);
            Conflicts(digest, c, s) <==> Misleads(digest, c.world, s) || CanMislead(digest, Next(digest, c, Begin(j, s)))
  {
    var c := Steps(digest, Empty(disk), steps);
    StepsAreSettled(digest, Empty(disk), steps);
    var b := Next(digest, c, Begin(j, s));
    if Conflicts(digest, c, s) {
      var i :| i in c.flights && ConflictsWith(digest, c, s, c.flights[i]);
      if !IsCached(digest, c.world, s) {
        CrossingMisleads(digest, c, i, j, s);
        assert MisleadsAlone(digest, Steps(digest, b, Crossed(b, i, j)), c.flights[i].save);
      }
    } else {
      SettledSkipIsHonest(digest, c, s);
      NextIsSettled(digest, c, Begin(j, s));
      forall rest, t | NoConflicts(digest, b, rest)
        ensures !MisleadsAlone(digest, Steps(digest, b, rest), t)
      {
        StepsAreSettled(digest, b, rest);
        if !Conflicts(digest, Steps(digest, b, rest), t) { SettledSkipIsHonest(digest, Steps(digest, b, rest), t); }
      }
    }
  }
}
