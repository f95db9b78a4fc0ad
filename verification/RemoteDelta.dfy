/** src/sync/remote-delta.ts: exact-path observations, and how far they agree with a full scan. */
module RemoteDelta {
  import opened Types
  import opened Planner
  import opened RemoteView
  import opened Retention

  /** A Gateway change event; paths are already canonical. */
  datatype Change =
    | Put(path: Key, etag: Option<ETag>, size: Option<nat>, modified: Option<int>)
    | Delete(path: Key)
    | Rename(from: Key, to: Key, etag: Option<ETag>)

  /** Everything an observation can ask about. */
  datatype Environment = Environment(
    store: Store,
    files: map<Key, Stamp>,
    baselines: map<Key, PreviousEntry>,
    ignores: Key -> bool,
    acceptsBaseline: (Key, PreviousEntry) -> bool,
    intents: map<Key, Intent>)

  function KeySet(keys: seq<Key>): set<Key> { set k | k in keys }

  function UsableBaselines(keys: set<Key>, env: Environment): map<Key, PreviousEntry> {
    map k | k in env.baselines && k in keys && !env.ignores(k) && env.acceptsBaseline(k, env.baselines[k]) ::
      env.baselines[k]
  }

  function SeenFiles(keys: set<Key>, env: Environment): map<Key, Stamp> {
    map k | k in env.files && k in keys && !env.ignores(k) :: env.files[k]
  }

  /** The one shape a deletion is observed in: a deletion identity and nothing of a live object. */
  function DeletedObservation(present: Option<RemoteEntry>, baseline: Option<PreviousEntry>): RemoteEntry {
    var baselineModified := if baseline.Some? && baseline.value.remote.Some? then
      baseline.value.remote.value.lastModified else None;
    if present.None? || present.value.etag.None? then
      RemoteEntry(0, None, if baselineModified.Some? then baselineModified.value else if present.Some? then
        present.value.lastModified else 0, Some(Deletion(None, false)))
    else RemoteEntry(0, None, present.value.lastModified, Some(Deletion(present.value.etag, true)))
  }

  /** A record for exactly this version exists in either namespace, whatever its time. */
  predicate LogicallyDeleted(store: Store, path: Key, version: ETag) {
    RecordId(path, version) in store.current || RecordId(path, version) in store.legacy
  }

  /** What a locally reported key is observed as. */
  function LocalDeltaEntry(key: Key, env: Environment): Option<RemoteEntry> {
    if env.ignores(key) || key !in env.store.objects then None
    else
      var present := env.store.objects[key];
      if key !in env.files && present.etag.Some?
         && (key !in env.baselines || !env.acceptsBaseline(key, env.baselines[key]))
         && LogicallyDeleted(env.store, key, present.etag.value)
      then Some(DeletedObservation(Some(present), Lookup(env.baselines, key)))
      else Some(present)
  }

  /** A request that fails for any reason but 404 raises, and the whole observation with it. */
  method Request() returns (ok: bool) {
    ok := *;
  }

  ghost predicate SeenLocally(keys: seq<Key>, env: Environment, seen: Observations) {
    && seen.local == SeenFiles(KeySet(keys), env)
    && seen.previous == UsableBaselines(KeySet(keys), env)
    && seen.intents == env.intents
    && forall k :: Lookup(seen.remote, k) == if k in keys then LocalDeltaEntry(k, env) else None
  }

  method ObserveLocalDelta(keys: seq<Key>, env: Environment) returns (seen: Option<Observations>)
    ensures seen.Some? ==> SeenLocally(keys, env, seen.value)
  {
    var local: map<Key, Stamp>, remote: map<Key, RemoteEntry> := map[], map[];
    for i := 0 to |keys|
      invariant local == SeenFiles(KeySet(keys[..i]), env)
      invariant forall k :: Lookup(remote, k) == if k in keys[..i] then LocalDeltaEntry(k, env) else None
    {
      var key := keys[i];
      assert keys[..i + 1] == keys[..i] + [key];
      if !env.ignores(key) {
        if key in env.files { local := local[key := env.files[key]]; }
        var ok := Request();
        if !ok { return None; }
        if key in env.store.objects {
          var present := env.store.objects[key];
          var entry := present;
          if key !in local && present.etag.Some? &&
            (key !in env.baselines || !env.acceptsBaseline(key, env.baselines[key])) {
            ok := Request();
            if !ok { return None; }
            if LogicallyDeleted(env.store, key, present.etag.value) {
              entry := DeletedObservation(Some(present), Lookup(env.baselines, key));
            }
          }
          remote := remote[key := entry];
        }
      }
    }
    assert keys[..|keys|] == keys;
    seen := Some(Observations(local, remote, UsableBaselines(KeySet(keys), env), env.intents));
  }

  function DeltaKeys(changes: seq<Change>): (keys: set<Key>)
    ensures forall c :: c in changes ==> Touched(c) <= keys
  {
    if changes == [] then {} else DeltaKeys(changes[..|changes| - 1]) + Touched(changes[|changes| - 1])
  }

  function Touched(change: Change): set<Key> {
    if change.Rename? then {change.from, change.to} else {change.path}
  }

  /** A complete put fact needs no request. */
  predicate Complete(change: Change)
    requires change.Put?
  {
    change.etag.Some? && change.size.Some? && change.modified.Some?
  }

  /** What the last change touching a key leaves it observed as. */
  function RemoteDeltaEntry(key: Key, changes: seq<Change>, env: Environment): Option<RemoteEntry> {
    if changes == [] then None
    else
      var change := changes[|changes| - 1];
      var earlier := RemoteDeltaEntry(key, changes[..|changes| - 1], env);
      match change
      case Rename(from, to, _) =>
        if key == to && !env.ignores(key) then Lookup(env.store.objects, key)
        else if key == from then None
        else earlier
      case Delete(path) =>
        if key == path && !env.ignores(key) then
          Some(DeletedObservation(Lookup(env.store.objects, key), Lookup(env.baselines, key)))
        else earlier
      case Put(path, etag, size, modified) =>
        if key == path && !env.ignores(key) then
          if Complete(change) then Some(RemoteEntry(size.value, etag, modified.value, None))
            else Lookup(env.store.objects, key)
        else earlier
  }

  /** An exact HEAD, conditional on the event's ETag when it carries one; absence and mismatch raise. */
  method Head(key: Key, ifMatch: Option<ETag>, env: Environment) returns (entry: Option<RemoteEntry>)
    ensures entry.Some? ==> entry == Lookup(env.store.objects, key) && (ifMatch.Some? ==> entry.value.etag == ifMatch)
  {
    var ok := Request();
    entry := if ok then Lookup(env.store.objects, key) else None;
    if entry.Some? && ifMatch.Some? && entry.value.etag != ifMatch { entry := None; }
  }

  ghost predicate SeenRemotely(changes: seq<Change>, env: Environment, seen: Observations) {
    && seen.local == SeenFiles(DeltaKeys(changes), env)
    && seen.previous == UsableBaselines(DeltaKeys(changes), env)
    && seen.intents == env.intents
    && forall k :: Lookup(seen.remote, k) == RemoteDeltaEntry(k, changes, env)
  }

  method ObserveRemoteDelta(changes: seq<Change>, env: Environment) returns (seen: Option<Observations>)
    ensures seen.Some? ==> SeenRemotely(changes, env, seen.value)
  {
    var remote: map<Key, RemoteEntry> := map[];
    for i := 0 to |changes|
      invariant forall k :: Lookup(remote, k) == RemoteDeltaEntry(k, changes[..i], env)
    {
      var change := changes[i];
      assert changes[..i + 1][..i] == changes[..i];
      match change {
        case Rename(from, to, etag) =>
          remote := remote - {from};
          if !env.ignores(to) {
            var entry := Head(to, etag, env);
            if entry.None? { return None; }
            remote := remote[to := entry.value];
          }
        case Delete(path) =>
          if !env.ignores(path) {
            var ok := Request();
            if !ok { return None; }
            remote := remote[path := DeletedObservation(Lookup(env.store.objects, path), Lookup(env.baselines, path))];
          }
        case Put(path, etag, size, modified) =>
          if !env.ignores(path) {
            if Complete(change) {
              remote := remote[path := RemoteEntry(size.value, etag, modified.value, None)];
            } else {
              var entry := Head(path, etag, env);
              if entry.None? { return None; }
              remote := remote[path := entry.value];
            }
          }
      }
    }
    assert changes[..|changes|] == changes;
    seen := Some(Observations(SeenFiles(DeltaKeys(changes), env), remote, UsableBaselines(DeltaKeys(changes), env),
      env.intents));
  }

  // ---- agreement with a full scan ----

  /** What a full cycle observes: every file, the effective remote view, every accepted baseline. */
  ghost predicate IsFullScan(env: Environment, tombstones: seq<Tombstone>, full: Observations) {
    && full.local == (map k | k in env.files && !env.ignores(k) :: env.files[k])
    && IsView(env.store.objects, tombstones, env.ignores, full.remote)
    && full.previous
      == (map k | k in env.baselines && !env.ignores(k) && env.acceptsBaseline(k, env.baselines[k]) :: env.baselines[k])
    && full.intents == env.intents
  }

  /** No record, listed or stored, is about a key in the delta. */
  ghost predicate Untombed(keys: set<Key>, env: Environment, tombstones: seq<Tombstone>) {
    && (forall t :: t in tombstones ==> t.path !in keys)
    && (forall id :: id in env.store.current || id in env.store.legacy ==> id.path !in keys)
  }

  lemma UntombedView(key: Key, keys: set<Key>, env: Environment, tombstones: seq<Tombstone>, full: Observations)
    requires IsFullScan(env, tombstones, full) && Untombed(keys, env, tombstones) && key in keys
    ensures Lookup(full.remote, key) == if env.ignores(key) then None else Lookup(env.store.objects, key)
  {
    assert ViewOf(env.store.objects, tombstones, env.ignores, key, Lookup(full.remote, key));
    assert NobodySpeaksFor(tombstones, env.store.objects, key);
  }

  lemma LocallyAgree(k: Key, keys: seq<Key>, env: Environment, tombstones: seq<Tombstone>, full: Observations,
      seen: Observations)
    requires IsFullScan(env, tombstones, full) && Untombed(KeySet(keys), env, tombstones) &&
      SeenLocally(keys, env, seen)
    ensures k in keys ==> seen.Decide(k) == full.Decide(k)
    ensures k in seen.Keys() ==> k in keys
  {
    assert Lookup(seen.remote, k) == if k in keys then LocalDeltaEntry(k, env) else None;
    if k in keys {
      UntombedView(k, KeySet(keys), env, tombstones, full);
      assert Lookup(seen.local, k) == Lookup(full.local, k);
      assert Lookup(seen.previous, k) == Lookup(full.previous, k);
    }
  }

  /** A local delta plans exactly what the full scan plans for its keys. */
  lemma LocalDeltaRefinesFullScan(rank: Key -> real, keys: seq<Key>, env: Environment, tombstones: seq<Tombstone>,
      full: Observations, fullPlan: seq<Step>, seen: Observations, plan: seq<Step>)
    requires IsFullScan(env, tombstones, full) && IsPlan(rank, full, fullPlan) && IsPlan(rank, seen, plan)
    requires Untombed(KeySet(keys), env, tombstones)
    requires SeenLocally(keys, env, seen)
    ensures plan == Only(fullPlan, KeySet(keys))
  {
    forall k {
      LocallyAgree(k, keys, env, tombstones, full, seen);
    }
    PlannerLocality(rank, full, fullPlan, seen, plan, KeySet(keys));
  }

  /** The event states the object that is there now, or the absence that is there now. */
  ghost predicate Describes(change: Change, objects: map<Key, RemoteEntry>) {
    match change
    case Put(path, etag, size, modified) =>
      path in objects && (Complete(change) ==> objects[path] == RemoteEntry(size.value, etag, modified.value, None))
    case Delete(path) => path !in objects
    case Rename(from, to, _) => from !in objects && to in objects
  }

  lemma {:induction false} DescribedEntry(key: Key, changes: seq<Change>, env: Environment)
    requires forall c :: c in changes ==> Describes(c, env.store.objects)
    ensures key in DeltaKeys(changes) && !env.ignores(key) && key in env.store.objects ==>
      RemoteDeltaEntry(key, changes, env) == Some(env.store.objects[key])
    ensures key !in env.store.objects || env.ignores(key) || key !in DeltaKeys(changes) ==>
      RemoteDeltaEntry(key, changes, env).None? ||
      (key in DeltaKeys(changes) && !env.ignores(key) &&
        RemoteDeltaEntry(key, changes, env).value.deleted == Some(Deletion(None, false)))
  {
    if changes != [] {
      var last := changes[|changes| - 1];
      assert last in changes && Describes(last, env.store.objects);
      DescribedEntry(key, changes[..|changes| - 1], env);
    }
  }

  /** The keys a full scan would prune and a remote delta leaves alone: gone here, and observed as deleted. */
  ghost function UnprunedKeys(seen: Observations, keys: set<Key>): set<Key> {
    set k | k in keys && k !in seen.local && k in seen.remote && seen.remote[k].deleted.Some?
  }

  /** A deletion seen from an event and the plain absence a scan sees differ only in pruning. */
  lemma DeletionForAbsence(here: Option<Stamp>, there: RemoteEntry, before: Option<PreviousEntry>,
      intent: Option<Intent>)
    requires there.deleted == Some(Deletion(None, false))
    ensures if here.None? then
        PlanKey(here, Some(there), before, intent) == None &&
          PlanKey(here, None, before, intent) == (if before.Some? then Some(PruneBaseline) else None)
      else PlanKey(here, Some(there), before, intent) == PlanKey(here, None, before, intent)
  {
  }

  lemma SameHereAndBefore(k: Key, changes: seq<Change>, env: Environment, tombstones: seq<Tombstone>,
      full: Observations, seen: Observations)
    requires IsFullScan(env, tombstones, full) && SeenRemotely(changes, env, seen)
    ensures k in DeltaKeys(changes) ==>
      Lookup(seen.local, k) == Lookup(full.local, k) && Lookup(seen.previous, k) == Lookup(full.previous, k) &&
        seen.intents == full.intents
    ensures Lookup(seen.remote, k) == RemoteDeltaEntry(k, changes, env)
    ensures k in seen.Keys() ==> k in DeltaKeys(changes) || k in seen.remote
  {
  }

  lemma RemotelyAgree(k: Key, changes: seq<Change>, env: Environment, tombstones: seq<Tombstone>, full: Observations,
      seen: Observations)
    requires IsFullScan(env, tombstones, full) && Untombed(DeltaKeys(changes), env, tombstones) &&
      SeenRemotely(changes, env, seen)
    requires Stored(env.store.objects) && forall c :: c in changes ==> Describes(c, env.store.objects)
    ensures k in DeltaKeys(changes) ==> if k in UnprunedKeys(seen, DeltaKeys(changes))
      then seen.Decide(k) == None && full.Decide(k) == (if k in seen.previous then Some(PruneBaseline) else None)
      else seen.Decide(k) == full.Decide(k)
    ensures k in seen.Keys() ==> k in DeltaKeys(changes)
  {
    hide PlanKey, Describes, RemoteDeltaEntry, SeenRemotely, IsFullScan, Untombed, DeltaKeys;
    DescribedEntry(k, changes, env);
    SameHereAndBefore(k, changes, env, tombstones, full, seen);
    if k in DeltaKeys(changes) {
      UntombedView(k, DeltaKeys(changes), env, tombstones, full);
      var there := Lookup(seen.remote, k);
      if there.Some? && there.value.deleted.Some? {
        DeletionForAbsence(Lookup(seen.local, k), there.value, Lookup(seen.previous, k), Lookup(seen.intents, k));
      }
    }
  }

  /**
   * A remote delta plans what the full scan plans for its keys, except that a baseline whose file and
   * object are both gone is not pruned when the deletion was observed from an event.
   */
  lemma RemoteDeltaRefinesFullScan(rank: Key -> real, changes: seq<Change>, env: Environment,
      tombstones: seq<Tombstone>, full: Observations, fullPlan: seq<Step>, seen: Observations, plan: seq<Step>)
    requires IsFullScan(env, tombstones, full) && IsPlan(rank, full, fullPlan) && IsPlan(rank, seen, plan)
    requires Untombed(DeltaKeys(changes), env, tombstones) && Stored(env.store.objects)
    requires forall c :: c in changes ==> Describes(c, env.store.objects)
    requires SeenRemotely(changes, env, seen)
    ensures plan == Only(fullPlan, DeltaKeys(changes) - UnprunedKeys(seen, DeltaKeys(changes)))
    ensures forall k :: k in UnprunedKeys(seen, DeltaKeys(changes)) ==>
      full.Decide(k) == if k in seen.previous then Some(PruneBaseline) else None
  {
    forall k {
      RemotelyAgree(k, changes, env, tombstones, full, seen);
    }
    PlannerLocality(rank, full, fullPlan, seen, plan, DeltaKeys(changes) - UnprunedKeys(seen, DeltaKeys(changes)));
  }

  // ---- exactly when a local delta is exact ----

  /** A record the full scan lists speaks for the key. */
  ghost predicate Spoken(store: Store, key: Key) {
    if key in store.objects then store.Hidden(key) else exists id: RecordId :: id.path == key && store.Listed(id).Some?
  }

  lemma SpokenIsListed(store: Store, tombstones: seq<Tombstone>, key: Key)
    requires store.Valid() && ListsAll(tombstones, store)
    ensures Spoken(store, key) <==> !NobodySpeaksFor(tombstones, store.objects, key)
  {
    if Spoken(store, key) {
      var id: RecordId;
      if key in store.objects { id := RecordId(key, store.objects[key].etag.value); }
        else { id :| id.path == key && store.Listed(id).Some?; }
      var record := store.Listed(id).value;
      assert IdOf(record) == id && record in tombstones;
      var i :| 0 <= i < |tombstones| && tombstones[i] == record;
      assert SpeaksFor(tombstones[i], store.objects, key);
    }
    if !NobodySpeaksFor(tombstones, store.objects, key) {
      var i :| 0 <= i < |tombstones| && SpeaksFor(tombstones[i], store.objects, key);
      assert tombstones[i] in tombstones && store.Listed(IdOf(tombstones[i])) == Some(tombstones[i]);
      assert IdOf(tombstones[i]).path == key;
    }
  }

  /** What a full scan of a valid store sees at one key. */
  ghost predicate ScannedAs(store: Store, key: Key, entry: Option<RemoteEntry>) {
    if !Spoken(store, key) then entry == Lookup(store.objects, key)
    else
      entry.Some? && entry.value.deleted.Some?
      && entry.value.deleted.value.version.Some? && entry.value.deleted.value.objectPresent == (key in store.objects)
      && (key in store.objects ==> entry.value.deleted.value.version == store.objects[key].etag)
  }

  lemma ScannedEntry(key: Key, env: Environment, tombstones: seq<Tombstone>, view: map<Key, RemoteEntry>)
    requires env.store.Valid() && ListsAll(tombstones, env.store) &&
      IsView(env.store.objects, tombstones, env.ignores, view)
    ensures if env.ignores(key) then Lookup(view, key) == None else ScannedAs(env.store, key, Lookup(view, key))
  {
    SpokenIsListed(env.store, tombstones, key);
    assert ViewOf(env.store.objects, tombstones, env.ignores, key, Lookup(view, key));
  }

  function UsableBaseline(key: Key, env: Environment): Option<PreviousEntry> {
    if key in env.baselines && env.acceptsBaseline(key, env.baselines[key]) then Some(env.baselines[key]) else None
  }

  /** A record names the stored version, whether or not the version was written again after it. */
  predicate Recorded(store: Store, key: Key) {
    key in store.objects && store.objects[key].etag.Some? && LogicallyDeleted(store, key, store.objects[key].etag.value)
  }

  /**
   * The condition, by what the bucket holds. Where no record speaks for the key, the delta is exact but for a
   * note unknown here that was written again after its record. Where a record stands for a missing object, it
   * misses the pruning of a baseline and the record an accepted deletion names. Where a record hides the
   * object, it is right only without file and baseline, or when both sides changed and the user keeps this one.
   */
  ghost predicate LocallyExact(key: Key, env: Environment) {
    var here, before, intent := Lookup(env.files, key), UsableBaseline(key, env), Lookup(env.intents, key);
    if !Spoken(env.store, key) then !(here.None? && before.None? && Recorded(env.store, key))
    else if key !in env.store.objects then
      before.None? ||
        (here.Some? &&
        (LocalChanged(here.value, before.value) ==> intent.None? || intent.value.kind != AcceptRemoteDelete))
    else if before.None? then here.None?
    else
      && here.Some? && LocalChanged(here.value, before.value) && RemoteChanged(env.store.objects[key], before.value)
      && intent.Some? && intent.value.kind == KeepLocal
  }

  /** A hidden object was seen as it is stored. */
  lemma HiddenButSeenLive(here: Option<Stamp>, there: RemoteEntry, entry: RemoteEntry, before: Option<PreviousEntry>,
      intent: Option<Intent>)
    requires there.deleted.None? && entry.deleted == Some(Deletion(there.etag, true)) && (here.Some? || before.Some?)
    ensures PlanKey(here, Some(there), before, intent) == PlanKey(here, Some(entry), before, intent) <==>
      before.Some? && here.Some? && LocalChanged(here.value, before.value) && RemoteChanged(there, before.value)
      && intent.Some? && intent.value.kind == KeepLocal
  {
  }

  /** A recorded deletion was seen as plain absence. */
  lemma RecordedButSeenAbsent(here: Option<Stamp>, entry: RemoteEntry, before: Option<PreviousEntry>,
      intent: Option<Intent>)
    requires entry.deleted.Some? && entry.deleted.value.version.Some? && !entry.deleted.value.objectPresent
    ensures PlanKey(here, None, before, intent) == PlanKey(here, Some(entry), before, intent) <==>
      before.None? ||
        (here.Some? &&
        (LocalChanged(here.value, before.value) ==> intent.None? || intent.value.kind != AcceptRemoteDelete))
  {
  }

  /** A local delta decides a key as the full scan does exactly under this condition. */
  lemma LocalDeltaExactIff(k: Key, keys: seq<Key>, env: Environment, tombstones: seq<Tombstone>, full: Observations,
      seen: Observations)
    requires env.store.Valid() && ListsAll(tombstones, env.store) && IsFullScan(env, tombstones, full)
    requires SeenLocally(keys, env, seen) && k in keys
    ensures seen.Decide(k) == full.Decide(k) <==> env.ignores(k) || LocallyExact(k, env)
  {
    hide PlanKey, LocalChanged, RemoteChanged;
    SameObservations(k, keys, env, tombstones, full, seen);
    var here, before, intent := Lookup(seen.local, k), Lookup(seen.previous, k), Lookup(seen.intents, k);
    var there := Lookup(full.remote, k);
    ScannedEntry(k, env, tombstones, full.remote);
    if !env.ignores(k) {
      if Spoken(env.store, k) {
        if k in env.store.objects {
          if here.None? && before.None? {
            NothingForDeletion(there.value, intent);
            NothingForDeletion(Lookup(seen.remote, k).value, intent);
          } else {
            HiddenButSeenLive(here, env.store.objects[k], there.value, before, intent);
          }
        } else {
          RecordedButSeenAbsent(here, there.value, before, intent);
        }
      } else if here.None? && before.None? && Recorded(env.store, k) {
        NothingForDeletion(Lookup(seen.remote, k).value, intent);
        DownloadsTheUnknown(there.value, intent);
      }
    }
  }

  lemma NothingForDeletion(entry: RemoteEntry, intent: Option<Intent>)
    requires entry.deleted.Some?
    ensures PlanKey(None, Some(entry), None, intent) == None
  {
  }

  lemma DownloadsTheUnknown(entry: RemoteEntry, intent: Option<Intent>)
    requires entry.deleted.None?
    ensures PlanKey(None, Some(entry), None, intent) == Some(Download(None, entry))
  {
  }

  lemma SameObservations(k: Key, keys: seq<Key>, env: Environment, tombstones: seq<Tombstone>, full: Observations,
      seen: Observations)
    requires IsFullScan(env, tombstones, full) && SeenLocally(keys, env, seen) && k in keys
    ensures Lookup(seen.local, k) == Lookup(full.local, k) == if env.ignores(k) then None else Lookup(env.files, k)
    ensures Lookup(seen.previous, k) == Lookup(full.previous, k) == if env.ignores(k) then None
      else UsableBaseline(k, env)
    ensures Lookup(seen.remote, k) == LocalDeltaEntry(k, env)
    ensures Lookup(seen.intents, k) == Lookup(full.intents, k) == Lookup(env.intents, k)
  {
    assert Lookup(seen.remote, k) == if k in keys then LocalDeltaEntry(k, env) else None;
  }

  /** A local delta plans what the full scan plans for its keys exactly if every one of them meets the condition. */
  lemma LocalDeltaPlansIff(rank: Key -> real, keys: seq<Key>, env: Environment, tombstones: seq<Tombstone>,
      full: Observations, fullPlan: seq<Step>, seen: Observations, plan: seq<Step>)
    requires IsFullScan(env, tombstones, full) && IsPlan(rank, full, fullPlan) && IsPlan(rank, seen, plan)
    requires env.store.Valid() && ListsAll(tombstones, env.store) && SeenLocally(keys, env, seen)
    ensures plan == Only(fullPlan, KeySet(keys)) <==> forall k :: k in keys ==> env.ignores(k) || LocallyExact(k, env)
  {
    hide LocallyExact, IsFullScan;
    forall k | k in keys { LocalDeltaExactIff(k, keys, env, tombstones, full, seen); }
    assert forall k :: k in seen.Keys() ==> k in keys by { SeenKeys(keys, env, seen); }
    PlannerLocalityIff(rank, full, fullPlan, seen, plan, KeySet(keys));
  }

  lemma SeenKeys(keys: seq<Key>, env: Environment, seen: Observations)
    requires SeenLocally(keys, env, seen)
    ensures forall k :: k in seen.Keys() ==> k in keys
  {
    forall k | k in seen.Keys() ensures k in keys {
      assert Lookup(seen.remote, k) == if k in keys then LocalDeltaEntry(k, env) else None;
    }
  }

  /** The condition is met wherever no record is about the keys, so this is a refinement. */
  lemma UntombedIsExact(k: Key, keys: set<Key>, env: Environment, tombstones: seq<Tombstone>)
    requires Untombed(keys, env, tombstones) && k in keys
    ensures LocallyExact(k, env)
  {
    if k in env.store.objects && env.store.objects[k].etag.Some? {
      assert RecordId(k, env.store.objects[k].etag.value) !in env.store.current;
      assert RecordId(k, env.store.objects[k].etag.value) !in env.store.legacy;
    }
  }

  // ---- exactly when a remote delta is exact ----

  /** A deletion is told in one shape; anything else is a stated version or the object that is there. */
  lemma {:induction false} ToldEntry(key: Key, changes: seq<Change>, env: Environment)
    requires env.store.Valid()
    ensures var told := RemoteDeltaEntry(key, changes, env);
      told.Some? && told.value.deleted.Some? ==>
        told.value.deleted == DeletedObservation(Lookup(env.store.objects, key), Lookup(env.baselines, key)).deleted
  {
    if changes != [] { ToldEntry(key, changes[..|changes| - 1], env); }
  }

  /** Both sides changed and the user keeps this one, so it does not matter whether the object is deleted or live. */
  predicate KeptOverBoth(here: Option<Stamp>, there: RemoteEntry, before: Option<PreviousEntry>,
      intent: Option<Intent>) {
    && here.Some? && before.Some? && LocalChanged(here.value, before.value) && RemoteChanged(there, before.value)
    && intent.Some? && intent.value.kind == KeepLocal
  }

  /** The user's decision names the deletion itself. */
  predicate NamesDeletion(here: Option<Stamp>, before: Option<PreviousEntry>, intent: Option<Intent>,
      kinds: set<IntentType>) {
    here.Some? && before.Some? && LocalChanged(here.value, before.value) && intent.Some? && intent.value.kind in kinds
  }

  /** The user's decision names the version that is stored. */
  predicate NamesVersion(here: Option<Stamp>, intent: Option<Intent>) {
    intent.Some? &&
    if here.Some? then intent.value.kind == KeepLocal || intent.value.kind == KeepRemote || intent.value.merged.Some?
    else intent.value.kind == KeepRemote || intent.value.kind == AcceptLocalDelete
  }

  /** Two versions that differ, and it does not matter which of them is stored. */
  predicate SameFor(here: Option<Stamp>, a: RemoteEntry, b: RemoteEntry, before: Option<PreviousEntry>,
      intent: Option<Intent>) {
    a == b ||
    match before
    case None => here.Some?
    case Some(entry) =>
      && RemoteChanged(a, entry) == RemoteChanged(b, entry)
      && (RemoteChanged(b, entry) ==>
        (here.Some? ==> LocalChanged(here.value, entry)) && (a.etag == b.etag || !NamesVersion(here, intent)))
  }

  /**
   * The condition, by what was told, what is there, and whether a record speaks for it. Told nothing: a rename
   * away. Told a deletion: it is exact over a hidden object, and over a missing one but for pruning and the record
   * an accepted deletion names. Told a version: it must be stored, or not matter, and no record may hide the object.
   */
  ghost predicate RemotelyExact(key: Key, told: Option<RemoteEntry>, env: Environment) {
    var here, before, intent := Lookup(env.files, key), UsableBaseline(key, env), Lookup(env.intents, key);
    var spoken, stored := Spoken(env.store, key), Lookup(env.store.objects, key);
    match told
    case None =>
      if stored.Some? then
        spoken && (here.Some? <==> before.Some?) &&
          !NamesDeletion(here, before, intent, {KeepLocal, AcceptRemoteDelete})
      else spoken ==> !NamesDeletion(here, before, intent, {AcceptRemoteDelete}) && (here.Some? || before.None?)
    case Some(entry) =>
      if entry.deleted.Some? then
        if stored.Some? then
          spoken || (stored.value.etag.Some? && KeptOverBoth(here, stored.value, before, intent))
        else if spoken then !NamesDeletion(here, before, intent, {AcceptRemoteDelete})
        else here.Some? || before.None?
      else
        && stored.Some?
        && if spoken then KeptOverBoth(here, entry, before, intent) && entry.etag == stored.value.etag
           else SameFor(here, entry, stored.value, before, intent)
  }

  /** A version told is never absence, nor a deletion of a missing object. */
  lemma ToldIsThere(here: Option<Stamp>, told: RemoteEntry, gone: RemoteEntry, before: Option<PreviousEntry>,
      intent: Option<Intent>)
    requires told.deleted.None? && gone.deleted.Some? && !gone.deleted.value.objectPresent
    ensures PlanKey(here, Some(told), before, intent) != PlanKey(here, None, before, intent)
    ensures PlanKey(here, Some(told), before, intent) != PlanKey(here, Some(gone), before, intent)
  {
  }

  lemma ToldOverHidden(here: Option<Stamp>, told: RemoteEntry, hidden: RemoteEntry, before: Option<PreviousEntry>,
      intent: Option<Intent>)
    requires told.deleted.None? && hidden.deleted.Some? && hidden.deleted.value.objectPresent
    ensures PlanKey(here, Some(told), before, intent) == PlanKey(here, Some(hidden), before, intent) <==>
      KeptOverBoth(here, told, before, intent) && told.etag == hidden.deleted.value.version
  {
  }

  lemma ToldOverOther(here: Option<Stamp>, told: RemoteEntry, stored: RemoteEntry, before: Option<PreviousEntry>,
      intent: Option<Intent>)
    requires told.deleted.None? && stored.deleted.None?
    ensures PlanKey(here, Some(told), before, intent) == PlanKey(here, Some(stored), before, intent) <==>
      SameFor(here, told, stored, before, intent)
  {
  }

  lemma HiddenObject(here: Option<Stamp>, there: RemoteEntry, entry: RemoteEntry, before: Option<PreviousEntry>,
      intent: Option<Intent>)
    requires there.deleted.None? && entry.deleted == Some(Deletion(there.etag, true))
    ensures PlanKey(here, Some(there), before, intent) == PlanKey(here, Some(entry), before, intent) <==>
      KeptOverBoth(here, there, before, intent)
    ensures PlanKey(here, None, before, intent) != PlanKey(here, Some(there), before, intent)
    ensures there.etag.Some? ==>
      (PlanKey(here, None, before, intent) == PlanKey(here, Some(entry), before, intent) <==>
        (here.Some? <==> before.Some?) && !NamesDeletion(here, before, intent, {KeepLocal, AcceptRemoteDelete}))
  {
  }

  lemma AbsentIsNotLive(here: Option<Stamp>, there: RemoteEntry, told: RemoteEntry, before: Option<PreviousEntry>,
      intent: Option<Intent>)
    requires there.deleted.None? && told.deleted == Some(Deletion(None, false))
    ensures PlanKey(here, Some(told), before, intent) != PlanKey(here, Some(there), before, intent)
    ensures PlanKey(here, None, before, intent) != PlanKey(here, Some(there), before, intent)
  {
  }

  lemma AbsentObject(here: Option<Stamp>, recorded: RemoteEntry, told: RemoteEntry, before: Option<PreviousEntry>,
      intent: Option<Intent>)
    requires recorded.deleted.Some? && recorded.deleted.value.version.Some? && !recorded.deleted.value.objectPresent
    requires told.deleted == Some(Deletion(None, false))
    ensures PlanKey(here, Some(told), before, intent) == PlanKey(here, None, before, intent) <==>
      here.Some? || before.None?
    ensures PlanKey(here, Some(told), before, intent) == PlanKey(here, Some(recorded), before, intent) <==>
      !NamesDeletion(here, before, intent, {AcceptRemoteDelete})
    ensures PlanKey(here, None, before, intent) == PlanKey(here, Some(recorded), before, intent) <==>
      !NamesDeletion(here, before, intent, {AcceptRemoteDelete}) && (here.Some? || before.None?)
  {
  }

  /** Planning depends on a deletion only, whatever else the entry carries. */
  lemma DeletionDecides(here: Option<Stamp>, a: RemoteEntry, b: RemoteEntry, before: Option<PreviousEntry>,
      intent: Option<Intent>)
    requires a.deleted.Some? && a.deleted == b.deleted
    ensures PlanKey(here, Some(a), before, intent) == PlanKey(here, Some(b), before, intent)
  {
  }

  /** A remote delta decides a key as the full scan does exactly under this condition. */
  lemma RemoteDeltaExactIff(k: Key, changes: seq<Change>, env: Environment, tombstones: seq<Tombstone>,
      full: Observations, seen: Observations)
    requires env.store.Valid() && ListsAll(tombstones, env.store) && IsFullScan(env, tombstones, full)
    requires SeenRemotely(changes, env, seen) && k in DeltaKeys(changes) && !env.ignores(k)
    ensures seen.Decide(k) == full.Decide(k) <==> RemotelyExact(k, RemoteDeltaEntry(k, changes, env), env)
  {
    hide PlanKey, LocalChanged, RemoteChanged, KeptOverBoth, NamesDeletion, RemoteDeltaEntry, DeltaKeys, SameFor;
    ToldEntry(k, changes, env);
    SameHereAndBefore(k, changes, env, tombstones, full, seen);
    UsableHere(k, env, tombstones, full);
    ScannedEntry(k, env, tombstones, full.remote);
    var here, before, intent := Lookup(seen.local, k), Lookup(seen.previous, k), Lookup(seen.intents, k);
    var told := DeletedObservation(Lookup(env.store.objects, k), Lookup(env.baselines, k));
    var entry, there := RemoteDeltaEntry(k, changes, env), Lookup(full.remote, k);
    if entry.Some? && entry.value.deleted.None? {
      ToldVersionIff(k, entry.value, env, there, here, before, intent);
    } else if k in env.store.objects {
      var o := env.store.objects[k];
      if o.etag.Some? {
        HiddenObject(here, o, told, before, intent);
      } else {
        AbsentIsNotLive(here, o, told, before, intent);
      }
      if Spoken(env.store, k) { DeletionDecides(here, told, there.value, before, intent); }
      if entry.Some? { DeletionDecides(here, entry.value, told, before, intent); }
    } else {
      var record := RemoteEntry(0, None, 0, Some(Deletion(Some(ETag([])), false)));
      AbsentObject(here, if Spoken(env.store, k) then there.value else record, told, before, intent);
      if entry.Some? { DeletionDecides(here, entry.value, told, before, intent); }
    }
  }

  lemma ToldVersionIff(k: Key, told: RemoteEntry, env: Environment, there: Option<RemoteEntry>, here: Option<Stamp>,
      before: Option<PreviousEntry>, intent: Option<Intent>)
    requires env.store.Valid() && ScannedAs(env.store, k, there) && told.deleted.None?
    requires here == Lookup(env.files, k) && before == UsableBaseline(k, env) && intent == Lookup(env.intents, k)
    ensures PlanKey(here, Some(told), before, intent) == PlanKey(here, there, before, intent) <==>
      RemotelyExact(k, Some(told), env)
  {
    hide PlanKey, LocalChanged, RemoteChanged, KeptOverBoth, NamesDeletion, SameFor;
    var gone := RemoteEntry(0, None, 0, Some(Deletion(None, false)));
    if k !in env.store.objects {
      ToldIsThere(here, told, if Spoken(env.store, k) then there.value else gone, before, intent);
    } else if Spoken(env.store, k) {
      ToldOverHidden(here, told, there.value, before, intent);
    } else {
      ToldOverOther(here, told, env.store.objects[k], before, intent);
    }
  }

  /** A remote delta plans what the full scan plans for its keys exactly if every one of them meets the condition. */
  lemma RemoteDeltaPlansIff(rank: Key -> real, changes: seq<Change>, env: Environment, tombstones: seq<Tombstone>,
      full: Observations, fullPlan: seq<Step>, seen: Observations, plan: seq<Step>)
    requires IsFullScan(env, tombstones, full) && IsPlan(rank, full, fullPlan) && IsPlan(rank, seen, plan)
    requires env.store.Valid() && ListsAll(tombstones, env.store) && SeenRemotely(changes, env, seen)
    ensures plan == Only(fullPlan, DeltaKeys(changes)) <==>
      forall k :: k in DeltaKeys(changes) ==> env.ignores(k) || RemotelyExact(k, RemoteDeltaEntry(k, changes, env), env)
  {
    hide RemotelyExact, IsFullScan, RemoteDeltaEntry, DeltaKeys, SeenRemotely;
    forall k | k in DeltaKeys(changes)
      ensures seen.Decide(k) == full.Decide(k) <==>
        env.ignores(k) || RemotelyExact(k, RemoteDeltaEntry(k, changes, env), env)
    {
      if env.ignores(k) {
        IgnoredDecidesNothing(k, changes, env, tombstones, full, seen);
      } else {
        RemoteDeltaExactIff(k, changes, env, tombstones, full, seen);
      }
    }
    assert forall k :: k in seen.Keys() ==> k in DeltaKeys(changes) by { SeenFromEvents(changes, env, seen); }
    PlannerLocalityIff(rank, full, fullPlan, seen, plan, DeltaKeys(changes));
  }

  lemma {:induction false} UntouchedHasNoEntry(k: Key, changes: seq<Change>, env: Environment)
    ensures k !in DeltaKeys(changes) || env.ignores(k) ==> RemoteDeltaEntry(k, changes, env) == None
  {
    if changes != [] { UntouchedHasNoEntry(k, changes[..|changes| - 1], env); }
  }

  lemma SeenFromEvents(changes: seq<Change>, env: Environment, seen: Observations)
    requires SeenRemotely(changes, env, seen)
    ensures forall k :: k in seen.Keys() ==> k in DeltaKeys(changes)
  {
    forall k | k in seen.Keys() ensures k in DeltaKeys(changes) {
      UntouchedHasNoEntry(k, changes, env);
      assert Lookup(seen.remote, k) == RemoteDeltaEntry(k, changes, env);
    }
  }

  lemma IgnoredDecidesNothing(k: Key, changes: seq<Change>, env: Environment, tombstones: seq<Tombstone>,
      full: Observations, seen: Observations)
    requires IsFullScan(env, tombstones, full) && SeenRemotely(changes, env, seen) && env.ignores(k)
    ensures seen.Decide(k) == full.Decide(k) == None
  {
    UntouchedHasNoEntry(k, changes, env);
    assert Lookup(seen.remote, k) == RemoteDeltaEntry(k, changes, env);
    assert ViewOf(env.store.objects, tombstones, env.ignores, k, Lookup(full.remote, k));
  }

  lemma UsableHere(k: Key, env: Environment, tombstones: seq<Tombstone>, full: Observations)
    requires IsFullScan(env, tombstones, full) && !env.ignores(k)
    ensures Lookup(full.local, k) == Lookup(env.files, k) && Lookup(full.previous, k) == UsableBaseline(k, env)
    ensures Lookup(full.intents, k) == Lookup(env.intents, k)
  {
  }

  /**
   * The guard is needed. A note deleted logically elsewhere and edited here is a conflict to the full
   * scan; the local delta does not look for the record once a baseline exists, and plans an upload.
   */
  lemma LocalDeltaCanMissADeletion(digest: Content, edited: Stamp)
      returns (env: Environment, tombstones: seq<Tombstone>)
    requires edited != Stamp(|digest|, 0)
    ensures env.store.Valid() && ListsAll(tombstones, env.store)
    ensures PlanKey(Some(edited), LocalDeltaEntry("note.md", env), Lookup(env.baselines, "note.md"), None)
      == Some(Upload(edited, Exactly(Some(ETag(digest)))))
    ensures forall view :: IsView(env.store.objects, tombstones, env.ignores, view) ==>
      PlanKey(Some(edited), Lookup(view, "note.md"), Lookup(env.baselines, "note.md"), None)
        == Some(Conflict(LocalModifiedRemoteDeleted))
  {
    var id := RecordId("note.md", ETag(digest));
    var note := RemoteEntry(|digest|, Some(ETag(digest)), 20, None);
    var record := Tombstone("note.md", ETag(digest), 30, Some(30));
    tombstones := [record];
    env := Environment(Store(map["note.md" := note], map[id := record], map[]), map["note.md" := edited],
      map["note.md" := PreviousEntry(Some(Stamp(|digest|, 0)), Some(Version(digest)))], _ => false, (_, _) => true,
        map[]);
    forall view | IsView(env.store.objects, tombstones, env.ignores, view)
      ensures PlanKey(Some(edited), Lookup(view, "note.md"), Lookup(env.baselines, "note.md"), None)
        == Some(Conflict(LocalModifiedRemoteDeleted))
    {
      assert ViewOf(env.store.objects, tombstones, env.ignores, "note.md", Lookup(view, "note.md"));
      assert SpeaksFor(tombstones[0], env.store.objects, "note.md");
    }
  }
}
