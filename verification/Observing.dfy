/** One key of src/sync/remote-delta.ts: the observations of both delta modes are what the executor's world shows. */
module Observing {
  import opened Types
  import opened RemoteView
  import opened RemoteDelta
  import Retention
  import opened Worlds

  /** The world is this key of the environment. */
  ghost predicate Pictures(env: Environment, key: Key, w: World) {
    && !env.ignores(key) && Lookup(env.files, key) == w.local && UsableBaseline(key, env) == w.baseline
    && Lookup(env.store.objects, key) == (if w.remote.Some? then Some(LiveEntry(w.remote.value)) else None)
    && (w.remote.Some? ==> (env.store.Hidden(key) <==> w.Hidden()))
    && forall e :: LogicallyDeleted(env.store, key, e) <==> e in w.tombs
  }

  /** What a local delta observes at the key. */
  lemma LocalDeltaIsSeen(env: Environment, key: Key, current: bool, w: World)
    requires Pictures(env, key, w)
    ensures Sees(LocalDelta, current, w, w.local, LocalDeltaEntry(key, env))
  {
  }

  /** The last change about the key, as an event. */
  function LastEvent(key: Key, changes: seq<Change>): Option<Event> {
    if changes == [] then None
    else
      var change, earlier := changes[|changes| - 1], LastEvent(key, changes[..|changes| - 1]);
      match change
      case Rename(from, to, _) => if key == to then Some(Written) else if key == from then Some(RenamedAway)
        else earlier
      case Delete(path) => if key == path then Some(DeletedThere) else earlier
      case Put(path, etag, size, modified) =>
        if key != path then earlier
        else if Complete(change) then Some(PutFact(RemoteEntry(size.value, etag, modified.value, None)))
          else Some(Written)
  }

  lemma {:induction false} TouchedHasEvent(key: Key, changes: seq<Change>)
    ensures key in DeltaKeys(changes) <==> LastEvent(key, changes).Some?
  {
    if changes != [] { TouchedHasEvent(key, changes[..|changes| - 1]); }
  }

  /** The entry is what a delta cycle makes of the event. */
  ghost predicate Comes(w: World, event: Event, entry: Option<RemoteEntry>) {
    exists modified: int :: entry == EventEntry(w, event, modified)
  }

  lemma ComesFrom(w: World, event: Event, modified: int)
    ensures Comes(w, event, EventEntry(w, event, modified))
  {
  }

  /** What a remote delta observes at a key is what the executor makes of the last event about it. */
  lemma {:induction false} RemoteDeltaIsEvent(env: Environment, key: Key, changes: seq<Change>, w: World)
    requires Pictures(env, key, w)
    ensures match LastEvent(key, changes)
      case None => RemoteDeltaEntry(key, changes, env) == None
      case Some(event) => Comes(w, event, RemoteDeltaEntry(key, changes, env))
  {
    if changes != [] {
      hide Comes;
      var change := changes[|changes| - 1];
      RemoteDeltaIsEvent(env, key, changes[..|changes| - 1], w);
      if change.Delete? && change.path == key {
        var entry := DeletedObservation(Lookup(env.store.objects, key), Lookup(env.baselines, key));
        ComesFrom(w, DeletedThere, entry.lastModified);
      } else if key in Touched(change) {
        ComesFrom(w, LastEvent(key, changes).value, 0);
      }
    }
  }

  /** The change still says what the bucket shows; a record's deletion counts like a physical one. */
  ghost predicate HoldsNow(change: Change, store: Retention.Store) {
    match change
    case Put(path, etag, size, modified) =>
      store.IsLive(path) &&
        (Complete(change) ==> store.objects[path] == RemoteEntry(size.value, etag, modified.value, None))
    case Delete(path) => !store.IsLive(path)
    case Rename(from, to, _) => !store.IsLive(from) && store.IsLive(to)
  }

  /** Changes that hold are true events. */
  lemma {:induction false} DescribedIsTrue(env: Environment, key: Key, changes: seq<Change>, w: World)
    requires Pictures(env, key, w) && forall c :: c in changes ==> HoldsNow(c, env.store)
    ensures LastEvent(key, changes).Some? ==>
      Readable(w, LastEvent(key, changes).value) && StillTrue(w, LastEvent(key, changes).value)
  {
    if changes != [] {
      assert changes[|changes| - 1] in changes;
      DescribedIsTrue(env, key, changes[..|changes| - 1], w);
    }
  }

  /** So a delta cycle over changes that hold is one the executor calls current. */
  lemma RemoteDeltaIsSeen(env: Environment, key: Key, changes: seq<Change>, current: bool, w: World)
    requires Pictures(env, key, w) && LastEvent(key, changes).Some? && Readable(w, LastEvent(key, changes).value)
    requires current ==> forall c :: c in changes ==> HoldsNow(c, env.store)
    ensures Sees(RemoteDelta, current, w, w.local, RemoteDeltaEntry(key, changes, env))
  {
    RemoteDeltaIsEvent(env, key, changes, w);
    if current { DescribedIsTrue(env, key, changes, w); }
  }
}
