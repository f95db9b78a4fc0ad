/** src/remote/tombstone-retention.ts over the bucket calls of src/remote/r2-client.ts:260-294 and 358-380. */
module Retention {
  import opened Types
  import opened RemoteView

  /** A record's key is a digest of the path and the exact deleted version. */
  datatype RecordId = RecordId(path: Key, version: ETag)

  /** R2 as retention sees it: user objects, and records under the current and the legacy namespace. */
  datatype Store = Store(objects: map<Key, RemoteEntry>, current: map<RecordId, Tombstone>,
    legacy: map<RecordId, Tombstone>)
  {
    /** Readers prefer the current record of an id that both namespaces hold. */
    function Listed(id: RecordId): Option<Tombstone> {
      if id in current then Some(current[id]) else if id in legacy then Some(legacy[id]) else None
    }

    ghost predicate Valid() {
      && Stored(objects)
      && (forall id :: id in current ==> id == IdOf(current[id]))
      && (forall id :: id in legacy ==> id == IdOf(legacy[id]))
    }

    /** Only the record named after the object's own version can hide it. */
    predicate Hidden(path: Key)
      requires path in objects
    {
      && objects[path].etag.Some?
      && var record := Listed(RecordId(path, objects[path].etag.value));
         record.Some? && Hides(record.value, objects[path])
    }

    predicate IsLive(path: Key) { path in objects && !Hidden(path) }

    /** What every device may download: the live part of the effective view, before path filtering. */
    function LiveNotes(): map<Key, RemoteEntry> {
      map k | k in objects && IsLive(k) :: objects[k]
    }

    /**
     * A legacy record that would hide the object now at its path, masked by a current record of the same
     * id that does not. `deleteTombstone` removes the current record only, so removing it unmasks the other.
     */
    ghost predicate Masks(id: RecordId) {
      && id in current && id in legacy && id.path in objects
      && !Hides(current[id], objects[id.path]) && Hides(legacy[id], objects[id.path])
    }
  }

  function IdOf(record: Tombstone): RecordId { RecordId(record.path, record.version) }

  /** The live notes are the live part of the view a scan of this store builds, whatever the listing order. */
  lemma LiveNotesAreScanned(s: Store, tombstones: seq<Tombstone>, ignores: Key -> bool, view: map<Key, RemoteEntry>)
    requires s.Valid() && IsView(s.objects, tombstones, ignores, view)
    requires ListsAll(tombstones, s)
    ensures Live(view) == map k | k in s.LiveNotes() && !ignores(k) :: s.LiveNotes()[k]
  {
    LivePart(s.objects, tombstones, ignores, view);
    forall k | k in s.objects
      ensures s.Hidden(k) <==> exists t :: t in tombstones && t.path == k && Hides(t, s.objects[k])
    {
      if s.Hidden(k) {
        assert s.Listed(RecordId(k, s.objects[k].etag.value)).value in tombstones;
      }
    }
  }

  /** A listing of the store: each effective record once, in any order. */
  ghost predicate ListsAll(tombstones: seq<Tombstone>, s: Store) {
    && (forall t :: t in tombstones <==> s.Listed(IdOf(t)) == Some(t))
    && Distinct(tombstones)
  }

  ghost predicate Distinct(tombstones: seq<Tombstone>) {
    forall i, j :: 0 <= i < j < |tombstones| ==> IdOf(tombstones[i]) != IdOf(tombstones[j])
  }

  const RETENTION_MS := 30 * 24 * 60 * 60 * 1000

  predicate IsExpired(record: Tombstone, now: int, retentionMs: int) { record.createdAt < now - retentionMs }

  function ExpiredTombstones(tombstones: seq<Tombstone>, now: int, retentionMs: int): (r: seq<Tombstone>)
    ensures forall t :: t in r <==> t in tombstones && IsExpired(t, now, retentionMs)
  {
    if tombstones == [] then []
    else
      (if IsExpired(tombstones[0], now, retentionMs) then [tombstones[0]] else [])
      + ExpiredTombstones(tombstones[1..], now, retentionMs)
  }

  /** Where the expired records stand in the listing. */
  function ExpiredAt(tombstones: seq<Tombstone>, now: int, retentionMs: int): seq<nat> {
    if tombstones == [] then []
    else
      var last := |tombstones| - 1;
      ExpiredAt(tombstones[..last], now, retentionMs) + if IsExpired(tombstones[last], now, retentionMs) then [last]
        else []
  }

  lemma {:induction false} ExpiredPositions(tombstones: seq<Tombstone>, now: int, retentionMs: int)
    ensures var at := ExpiredAt(tombstones, now, retentionMs);
      && (forall i, j :: 0 <= i < j < |at| ==> at[i] < at[j])
      && (forall i :: i in at <==> 0 <= i < |tombstones| && IsExpired(tombstones[i], now, retentionMs))
  {
    if tombstones != [] {
      var init := tombstones[..|tombstones| - 1];
      ExpiredPositions(init, now, retentionMs);
      var at := ExpiredAt(init, now, retentionMs);
      forall i | 0 <= i < |at| ensures at[i] < |init| { assert at[i] in at; }
    }
  }

  ghost predicate Picks(from: seq<Tombstone>, at: seq<nat>, picked: seq<Tombstone>) {
    |picked| == |at| && forall i :: 0 <= i < |picked| ==> at[i] < |from| && picked[i] == from[at[i]]
  }

  lemma PicksOneMore(from: seq<Tombstone>, last: Tombstone, at: seq<nat>, picked: seq<Tombstone>)
    requires Picks(from, at, picked)
    ensures Picks(from + [last], at + [|from|], picked + [last]) && Picks(from + [last], at + [], picked + [])
  {
    assert at + [] == at && picked + [] == picked;
  }

  lemma {:induction false} ExpiredPicked(tombstones: seq<Tombstone>, now: int, retentionMs: int)
    ensures Picks(tombstones, ExpiredAt(tombstones, now, retentionMs), ExpiredTombstones(tombstones, now, retentionMs))
  {
    if tombstones == [] {
      ExpiredNone(now, retentionMs);
    } else {
      hide Picks, IsExpired, ExpiredAt, ExpiredTombstones;
      var init, last := tombstones[..|tombstones| - 1], tombstones[|tombstones| - 1];
      assert tombstones == init + [last];
      ExpiredPicked(init, now, retentionMs);
      ExpiredConcat(init, [last], now, retentionMs);
      ExpiredOne(last, now, retentionMs);
      ExpiredAtLast(init, last, now, retentionMs);
      PicksOneMore(init, last, ExpiredAt(init, now, retentionMs), ExpiredTombstones(init, now, retentionMs));
    }
  }

  lemma ExpiredNone(now: int, retentionMs: int)
    ensures ExpiredAt([], now, retentionMs) == [] && ExpiredTombstones([], now, retentionMs) == []
  {
  }

  lemma ExpiredAtLast(init: seq<Tombstone>, last: Tombstone, now: int, retentionMs: int)
    ensures ExpiredAt(init + [last], now, retentionMs)
      == ExpiredAt(init, now, retentionMs) + if IsExpired(last, now, retentionMs) then [|init|] else []
  {
    assert (init + [last])[..|init|] == init;
  }

  lemma ExpiredOne(t: Tombstone, now: int, retentionMs: int)
    ensures ExpiredTombstones([t], now, retentionMs) == if IsExpired(t, now, retentionMs) then [t] else []
  {
    assert [t][1..] == [];
  }

  /** The selection picks every expired entry of the listing once, in listing order. */
  lemma ExpiredInListingOrder(tombstones: seq<Tombstone>, now: int, retentionMs: int)
    ensures var at, r := ExpiredAt(tombstones, now, retentionMs), ExpiredTombstones(tombstones, now, retentionMs);
      && (forall i, j :: 0 <= i < j < |at| ==> at[i] < at[j])
      && (forall i :: i in at <==> 0 <= i < |tombstones| && IsExpired(tombstones[i], now, retentionMs))
      && |r| == |at| && forall i :: 0 <= i < |r| ==> at[i] < |tombstones| && r[i] == tombstones[at[i]]
  {
    hide ExpiredAt, ExpiredTombstones;
    ExpiredPositions(tombstones, now, retentionMs);
    ExpiredPicked(tombstones, now, retentionMs);
  }

  lemma {:induction false} ExpiredConcat(a: seq<Tombstone>, b: seq<Tombstone>, now: int, retentionMs: int)
    ensures ExpiredTombstones(a + b, now, retentionMs) == ExpiredTombstones(a, now, retentionMs)
      + ExpiredTombstones(b, now, retentionMs)
  {
    if a == [] {
      assert a + b == b;
    } else {
      assert (a + b)[1..] == a[1..] + b;
      ExpiredConcat(a[1..], b, now, retentionMs);
    }
  }

  datatype Outcome = ObjectAndRecord | RecordOnly | Skipped

  /** What one retirement may do to the store, under every pattern of failed and failed-but-landed requests. */
  ghost predicate Retirement(s: Store, t: Store, id: RecordId) {
    && t.legacy == s.legacy
    && (t.objects == s.objects
        || (id.path in s.objects && s.Listed(id).Some? && Hides(s.Listed(id).value, s.objects[id.path]) &&
          t.objects == s.objects - {id.path}))
    && (t.current == s.current
        || (t.current == s.current - {id}
            && (id in s.current && id.path in t.objects ==> !Hides(s.current[id], t.objects[id.path]))))
  }

  /**
   * One retirement never makes a note live, and takes a note out of the live view only by removing a
   * record that masked a hiding legacy record of the same id.
   */
  lemma RetirementKeepsLive(s: Store, t: Store, id: RecordId)
    requires s.Valid() && Retirement(s, t, id)
    ensures t.Valid()
    ensures forall k :: t.IsLive(k) ==> s.IsLive(k) && t.objects[k] == s.objects[k]
    ensures forall k :: s.IsLive(k) && !t.IsLive(k) ==> k == id.path && s.Masks(id) && id !in t.current
  {
    forall k | t.IsLive(k) ensures s.IsLive(k) {
      assert forall own :: own != id ==> t.Listed(own) == s.Listed(own);
    }
    forall k | s.IsLive(k) && !t.IsLive(k) ensures k == id.path && s.Masks(id) && id !in t.current {
      assert k in t.objects;
      assert RecordId(k, t.objects[k].etag.value) == id;
    }
  }

  class Bucket {
    var store: Store
    /** Whether the client offers each optional capability. */
    const canDeleteObject: bool
    const canDeleteTombstone: bool
    const canListTombstones: bool
    /** Set when every request of the pass is answered and succeeds. */
    const faultless: bool

    constructor (store: Store, canDeleteObject: bool, canDeleteTombstone: bool, canListTombstones: bool,
      faultless: bool)
      ensures this.store == store && this.canDeleteObject == canDeleteObject &&
        this.canDeleteTombstone == canDeleteTombstone
      ensures this.canListTombstones == canListTombstones && this.faultless == faultless
    {
      this.store, this.faultless := store, faultless;
      this.canDeleteObject, this.canDeleteTombstone, this.canListTombstones := canDeleteObject, canDeleteTombstone,
        canListTombstones;
    }

    /** `found` is `None` for 404; `ok` is false when the request failed for any other reason. */
    method HeadObject(path: Key) returns (ok: bool, found: Option<RemoteEntry>)
      ensures ok ==> found == Lookup(store.objects, path)
      ensures faultless ==> ok
    {
      ok := *;
      if faultless { ok := true; }
      found := if ok then Lookup(store.objects, path) else None;
    }

    /** An already absent object is the state this call exists to produce; a failed call may have landed. */
    method DeleteObject(path: Key) returns (ok: bool)
      modifies this`store
      ensures store == old(store).(objects := old(store).objects - {path}) || (store == old(store) && !ok)
      ensures faultless ==> ok
    {
      var landed: bool := *;
      ok := *;
      if faultless { landed, ok := true, true; }
      ok := ok && landed;
      if landed { store := store.(objects := store.objects - {path}); }
    }

    /** Addresses the current namespace only (r2-client.ts:358-361). */
    method DeleteTombstone(id: RecordId) returns (ok: bool)
      modifies this`store
      ensures store == old(store).(current := old(store).current - {id}) || (store == old(store) && !ok)
      ensures faultless ==> ok
    {
      var landed: bool := *;
      ok := *;
      if faultless { landed, ok := true, true; }
      ok := ok && landed;
      if landed { store := store.(current := store.current - {id}); }
    }

    method Retire(record: Tombstone) returns (outcome: Outcome)
      requires store.Valid() && store.Listed(IdOf(record)) == Some(record)
      modifies this`store
      ensures Retirement(old(store), store, IdOf(record))
      ensures outcome == ObjectAndRecord ==> record.path in old(store).objects && record.path !in store.objects
      ensures outcome == RecordOnly ==> store.objects == old(store).objects && IdOf(record) !in store.current
      ensures faultless && canDeleteTombstone &&
        !(record.path in old(store).objects && Hides(record, old(store).objects[record.path]))
        ==> outcome == RecordOnly
    {
      outcome := Skipped;
      var ok, present := HeadObject(record.path);
      if !ok { return; }
      var revived := present.Some? && record.acceptedAt.Some? && present.value.lastModified > record.acceptedAt.value;
      if present.Some? && present.value.etag == Some(record.version) && !revived {
        if !canDeleteObject || record.acceptedAt.None? { return; }
        ok := DeleteObject(record.path);
        if !ok || !canDeleteTombstone { return; }
        ok := DeleteTombstone(IdOf(record));
        return ObjectAndRecord;
      }
      if !canDeleteTombstone { return; }
      ok := DeleteTombstone(IdOf(record));
      if ok { outcome := RecordOnly; }
    }

    /**
     * A whole pass. `tombstones` is the listing the pass starts from, in any order. Nothing becomes live,
     * and a live note leaves the view exactly through an expired, unprotected record that masks a hiding
     * legacy record; on a faultless pass every such note does leave.
     */
    method PruneExpiredTombstones(tombstones: seq<Tombstone>, now: int, retentionMs: int, protect: Key -> bool)
        returns (pruned: Option<(nat, nat, nat)>)
      requires store.Valid() && ListsAll(tombstones, store)
      modifies this`store
      ensures Cleaned(old(store), store, now, retentionMs, protect)
      ensures faultless && pruned.Some? ==> UnmaskedAreLost(old(store), store, now, retentionMs, protect)
      ensures pruned.Some? <==> canListTombstones && canDeleteTombstone
      ensures pruned.None? ==> store == old(store)
      ensures pruned.Some? ==> pruned.value.0 + pruned.value.1 == |tombstones| && pruned.value.2 <= pruned.value.0
    {
      hide Passed, Cleaned, UnmaskedAreLost, Surfaced, IsExpired, IdSet, Distinct, ListsAll, AllListed,
        ExpiredTombstones;
      PassStarts(store, now, retentionMs, protect);
      PassEnds(store, store, {}, now, retentionMs, protect);
      pruned := None;
      if canListTombstones && canDeleteTombstone {
        var expired := ExpiredTombstones(tombstones, now, retentionMs);
        ExpiredKeepsOrder(tombstones, now, retentionMs);
        ExpiredAreListed(store, tombstones, now, retentionMs);
        var removed, objects := PruneAll(expired, now, retentionMs, protect);
        if faultless { EveryMaskSurfaces(old(store), store, expired, now, retentionMs, protect); }
        PassEnds(old(store), store, IdSet(expired), now, retentionMs, protect);
        pruned := Some((removed, |tombstones| - removed, objects));
      }
    }

    method PruneAll(expired: seq<Tombstone>, ghost now: int, ghost retentionMs: int, protect: Key -> bool)
        returns (removed: nat, objects: nat)
      requires store.Valid() && canDeleteTombstone && Distinct(expired) && AllListed(store, expired, now, retentionMs)
      modifies this`store
      ensures Passed(old(store), store, IdSet(expired), now, retentionMs, protect)
      ensures faultless ==> Surfaced(old(store), store, IdSet(expired), protect)
      ensures objects <= removed <= |expired|
    {
      hide Passed, Surfaced, IsExpired, IdSet, Distinct, AllListed;
      PassStarts(store, now, retentionMs, protect);
      NoIds(expired);
      removed, objects := 0, 0;
      for i := 0 to |expired|
        invariant objects <= removed <= i
        invariant Passed(old(store), store, IdSet(expired[..i]), now, retentionMs, protect)
        invariant faultless ==> Surfaced(old(store), store, IdSet(expired[..i]), protect)
      {
        NextId(old(store), expired, i, now, retentionMs);
        var outcome := PruneOne(expired[i], old(store), IdSet(expired[..i]), now, retentionMs, protect);
        if outcome != Skipped { removed := removed + 1; }
        if outcome == ObjectAndRecord { objects := objects + 1; }
      }
      assert expired[..|expired|] == expired;
    }

    /** One expired record; a protected path is skipped. */
    method PruneOne(record: Tombstone, ghost was: Store, ghost done: set<RecordId>, ghost now: int,
        ghost retentionMs: int, protect: Key -> bool)
      returns (outcome: Outcome)
      requires canDeleteTombstone && Passed(was, store, done, now, retentionMs, protect)
      requires IdOf(record) !in done && was.Listed(IdOf(record)) == Some(record) && IsExpired(record, now, retentionMs)
      modifies this`store
      ensures Passed(was, store, done + {IdOf(record)}, now, retentionMs, protect)
      ensures faultless && Surfaced(was, old(store), done, protect) ==>
        Surfaced(was, store, done + {IdOf(record)}, protect)
    {
      hide Passed, Surfaced;
      outcome := Skipped;
      ghost var s := store;
      if !protect(record.path) {
        ListedStill(was, s, done, now, retentionMs, protect, record);
        MaskHidesNothing(was, s, done, now, retentionMs, protect, record);
        outcome := Retire(record);
        PassStep(was, s, store, done, now, retentionMs, protect, record);
        SurfaceStep(was, s, store, done, now, retentionMs, protect, record);
      } else {
        PassSkip(was, s, done, now, retentionMs, protect, record);
      }
    }
  }

  /** `k` is live only because an expired, unprotected current record masks the legacy record hiding it. */
  ghost predicate UnmasksAt(s: Store, now: int, retentionMs: int, protect: Key -> bool, k: Key, id: RecordId) {
    id.path == k && s.Masks(id) && IsExpired(s.current[id], now, retentionMs) && !protect(k)
  }

  ghost predicate Unmasked(s: Store, now: int, retentionMs: int, protect: Key -> bool, k: Key) {
    exists id :: UnmasksAt(s, now, retentionMs, protect, k, id)
  }

  /**
   * What a pass may do: no note becomes live or changes, a live note is lost only by unmasking, and without
   * masking records nothing live is lost at all.
   */
  ghost predicate Cleaned(s: Store, t: Store, now: int, retentionMs: int, protect: Key -> bool) {
    && t.Valid()
    && (forall k :: t.IsLive(k) ==> s.IsLive(k) && t.objects[k] == s.objects[k])
    && (forall k :: s.IsLive(k) && !t.IsLive(k) ==> Unmasked(s, now, retentionMs, protect, k))
    && ((forall id :: !s.Masks(id)) ==> t.LiveNotes() == s.LiveNotes())
  }

  ghost predicate UnmaskedAreLost(s: Store, t: Store, now: int, retentionMs: int, protect: Key -> bool) {
    forall k :: Unmasked(s, now, retentionMs, protect, k) ==> !t.IsLive(k)
  }

  /** Where a pass stands after the records `done`, compared with the store it started from. */
  ghost predicate Passed(s: Store, t: Store, done: set<RecordId>, now: int, retentionMs: int, protect: Key -> bool) {
    && s.Valid() && t.Valid() && t.legacy == s.legacy
    && (forall id :: id in t.current ==> id in s.current && t.current[id] == s.current[id])
    && (forall id :: id in s.current && id !in t.current ==> id in done)
    && (forall k :: k in t.objects ==> k in s.objects && t.objects[k] == s.objects[k])
    && (forall k :: t.IsLive(k) ==> s.IsLive(k))
    && (forall k :: s.IsLive(k) && !t.IsLive(k) ==> Unmasked(s, now, retentionMs, protect, k))
  }

  lemma ListedStill(s: Store, t: Store, done: set<RecordId>, now: int, retentionMs: int, protect: Key -> bool,
      record: Tombstone)
    requires Passed(s, t, done, now, retentionMs, protect)
    requires IdOf(record) !in done && s.Listed(IdOf(record)) == Some(record)
    ensures t.Listed(IdOf(record)) == Some(record)
  {}

  ghost predicate AllListed(s: Store, records: seq<Tombstone>, now: int, retentionMs: int) {
    forall i :: 0 <= i < |records| ==>
      s.Listed(IdOf(records[i])) == Some(records[i]) && IsExpired(records[i], now, retentionMs)
  }

  function IdSet(records: seq<Tombstone>): set<RecordId> {
    set t | t in records :: IdOf(t)
  }

  lemma NoIds(records: seq<Tombstone>)
    ensures IdSet(records[..0]) == {}
  {
  }

  lemma NextId(s: Store, records: seq<Tombstone>, i: nat, now: int, retentionMs: int)
    requires Distinct(records) && i < |records| && AllListed(s, records, now, retentionMs)
    ensures s.Listed(IdOf(records[i])) == Some(records[i]) && IsExpired(records[i], now, retentionMs)
    ensures IdOf(records[i]) !in IdSet(records[..i]) &&
      IdSet(records[..i + 1]) == IdSet(records[..i]) + {IdOf(records[i])}
  {
    assert records[..i + 1] == records[..i] + [records[i]];
  }

  /** Every expired, unprotected mask among `done` is gone. */
  ghost predicate Surfaced(s: Store, t: Store, done: set<RecordId>, protect: Key -> bool) {
    forall id :: id in done && s.Masks(id) && !protect(id.path) ==> id !in t.current
  }

  /** A valid store with this record listed; a record that masks another does not hide the object itself. */
  lemma MaskHidesNothing(s: Store, t: Store, done: set<RecordId>, now: int, retentionMs: int, protect: Key -> bool,
      record: Tombstone)
    requires Passed(s, t, done, now, retentionMs, protect)
    requires IdOf(record) !in done && s.Listed(IdOf(record)) == Some(record)
    ensures t.Valid()
    ensures s.Masks(IdOf(record)) ==> !(record.path in t.objects && Hides(record, t.objects[record.path]))
  {
  }

  lemma SurfaceStep(s: Store, t: Store, u: Store, done: set<RecordId>, now: int, retentionMs: int, protect: Key -> bool,
      record: Tombstone)
    requires Passed(s, t, done, now, retentionMs, protect) && Retirement(t, u, IdOf(record))
    requires IdOf(record) !in done && s.Listed(IdOf(record)) == Some(record)
    ensures Surfaced(s, t, done, protect) && (s.Masks(IdOf(record)) ==> IdOf(record) !in u.current) ==>
      Surfaced(s, u, done + {IdOf(record)}, protect)
  {
  }

  lemma PassSkip(s: Store, t: Store, done: set<RecordId>, now: int, retentionMs: int, protect: Key -> bool,
      record: Tombstone)
    requires Passed(s, t, done, now, retentionMs, protect) && protect(record.path)
    ensures Passed(s, t, done + {IdOf(record)}, now, retentionMs, protect)
    ensures Surfaced(s, t, done, protect) ==> Surfaced(s, t, done + {IdOf(record)}, protect)
  {
  }

  lemma PassStep(s: Store, t: Store, u: Store, done: set<RecordId>, now: int, retentionMs: int, protect: Key -> bool,
      record: Tombstone)
    requires Passed(s, t, done, now, retentionMs, protect)
    requires IdOf(record) !in done && s.Listed(IdOf(record)) == Some(record) && IsExpired(record, now, retentionMs) &&
      !protect(record.path)
    requires Retirement(t, u, IdOf(record))
    ensures Passed(s, u, done + {IdOf(record)}, now, retentionMs, protect)
  {
    var id := IdOf(record);
    RetirementKeepsLive(t, u, id);
    forall k | s.IsLive(k) && !u.IsLive(k) ensures Unmasked(s, now, retentionMs, protect, k) {
      if t.IsLive(k) {
        assert t.Masks(id) && s.Masks(id);
        assert UnmasksAt(s, now, retentionMs, protect, k, id);
      }
    }
  }

  /** A faultless pass removes every expired, unprotected mask, and what it masked then hides the note. */
  lemma EveryMaskSurfaces(s: Store, t: Store, expired: seq<Tombstone>, now: int, retentionMs: int, protect: Key -> bool)
    requires Passed(s, t, IdSet(expired), now, retentionMs, protect)
    requires forall id :: id in s.current && IsExpired(s.current[id], now, retentionMs) ==> s.current[id] in expired
    requires Surfaced(s, t, IdSet(expired), protect)
    ensures UnmaskedAreLost(s, t, now, retentionMs, protect)
  {
    forall k | Unmasked(s, now, retentionMs, protect, k) ensures !t.IsLive(k) {
      var id :| UnmasksAt(s, now, retentionMs, protect, k, id);
      assert IdOf(s.current[id]) == id && id in IdSet(expired);
    }
  }

  lemma ExpiredAreListed(s: Store, tombstones: seq<Tombstone>, now: int, retentionMs: int)
    requires s.Valid() && ListsAll(tombstones, s)
    ensures forall id :: id in s.current && IsExpired(s.current[id], now, retentionMs) ==>
      s.current[id] in ExpiredTombstones(tombstones, now, retentionMs)
    ensures AllListed(s, ExpiredTombstones(tombstones, now, retentionMs), now, retentionMs) &&
      Distinct(ExpiredTombstones(tombstones, now, retentionMs))
  {
    ExpiredKeepsOrder(tombstones, now, retentionMs);
    forall id | id in s.current && IsExpired(s.current[id], now, retentionMs)
      ensures s.current[id] in ExpiredTombstones(tombstones, now, retentionMs) {
      assert s.Listed(id) == Some(s.current[id]);
    }
  }

  lemma PassStarts(s: Store, now: int, retentionMs: int, protect: Key -> bool)
    requires s.Valid()
    ensures Passed(s, s, {}, now, retentionMs, protect) && Surfaced(s, s, {}, protect)
  {
  }

  lemma PassEnds(s: Store, t: Store, done: set<RecordId>, now: int, retentionMs: int, protect: Key -> bool)
    requires Passed(s, t, done, now, retentionMs, protect)
    ensures Cleaned(s, t, now, retentionMs, protect)
  {
    if forall id :: !s.Masks(id) {
      forall k ensures s.IsLive(k) == t.IsLive(k) {}
    }
  }

  lemma {:induction false} ExpiredKeepsOrder(tombstones: seq<Tombstone>, now: int, retentionMs: int)
    ensures |ExpiredTombstones(tombstones, now, retentionMs)| <= |tombstones|
    ensures Distinct(tombstones) ==> Distinct(ExpiredTombstones(tombstones, now, retentionMs))
  {
    if tombstones != [] {
      ExpiredKeepsOrder(tombstones[1..], now, retentionMs);
      if Distinct(tombstones) {
        forall t | t in tombstones[1..] ensures IdOf(t) != IdOf(tombstones[0]) {
          var i :| 0 <= i < |tombstones[1..]| && tombstones[1..][i] == t;
          assert tombstones[i + 1] == t;
        }
        var rest := ExpiredTombstones(tombstones[1..], now, retentionMs);
        forall i | 0 <= i < |rest| ensures IdOf(rest[i]) != IdOf(tombstones[0]) { assert rest[i] in rest; }
      }
    }
  }

  /**
   * The masked case is reachable: a note deleted, written again, and deleted once more by a client that
   * still uses the legacy namespace. Retiring the current record takes the note out of the view.
   */
  lemma MaskedNoteLeavesTheView(digest: Content) returns (s: Store, t: Store, id: RecordId)
    ensures s.Valid() && Retirement(s, t, id) && s.Masks(id)
    ensures s.IsLive("note.md") && !t.IsLive("note.md") && t.objects == s.objects
  {
    id := RecordId("note.md", ETag(digest));
    var note := RemoteEntry(|digest|, Some(ETag(digest)), 20, None);
    var early, late := Tombstone("note.md", ETag(digest), 10, Some(10)),
      Tombstone("note.md", ETag(digest), 30, Some(30));
    s := Store(map["note.md" := note], map[id := early], map[id := late]);
    t := s.(current := map[]);
    assert s.current - {id} == map[];
  }
}
