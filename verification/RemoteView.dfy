/** src/remote/scan-remote.ts: the effective remote view of a bucket that deletes logically. */
module RemoteView {
  import opened Types

  /** A tombstone as listed. `acceptedAt` is R2's own time for the record, on the clock of `lastModified`. */
  datatype Tombstone = Tombstone(path: Key, version: ETag, createdAt: int, acceptedAt: Option<int>)

  /** The record names exactly this version, and the version was not written again after the record. */
  predicate Hides(record: Tombstone, stored: RemoteEntry) {
    && stored.etag == Some(record.version)
    && !(record.acceptedAt.Some? && stored.lastModified > record.acceptedAt.value)
  }

  /** A record speaks for a path when the path holds no object, or holds one the record hides. */
  predicate SpeaksFor(record: Tombstone, objects: map<Key, RemoteEntry>, path: Key) {
    record.path == path && (path in objects ==> Hides(record, objects[path]))
  }

  function DeletedEntry(record: Tombstone, objectPresent: bool): RemoteEntry {
    RemoteEntry(0, None, record.createdAt, Some(Deletion(Some(record.version), objectPresent)))
  }

  ghost predicate NobodySpeaksFor(tombstones: seq<Tombstone>, objects: map<Key, RemoteEntry>, path: Key) {
    forall i :: 0 <= i < |tombstones| ==> !SpeaksFor(tombstones[i], objects, path)
  }

  /** The first listed record that speaks for the path. */
  ghost predicate FirstSpeaker(tombstones: seq<Tombstone>, objects: map<Key, RemoteEntry>, path: Key, i: int) {
    0 <= i < |tombstones| && SpeaksFor(tombstones[i], objects, path) && NobodySpeaksFor(tombstones[..i], objects, path)
  }

  /** What the view says about one path, with no reference to the order the view was built in. */
  ghost predicate ViewOf(objects: map<Key, RemoteEntry>, tombstones: seq<Tombstone>, ignores: Key -> bool, path: Key,
      entry: Option<RemoteEntry>) {
    if ignores(path) then entry == None
    else if NobodySpeaksFor(tombstones, objects, path) then entry == Lookup(objects, path)
    else exists i ::
      FirstSpeaker(tombstones, objects, path, i) && entry == Some(DeletedEntry(tombstones[i], path in objects))
  }

  ghost predicate IsView(objects: map<Key, RemoteEntry>, tombstones: seq<Tombstone>, ignores: Key -> bool,
      view: map<Key, RemoteEntry>) {
    forall path :: ViewOf(objects, tombstones, ignores, path, Lookup(view, path))
  }

  /** An object listing carries stored objects only, never deletions. */
  ghost predicate Stored(objects: map<Key, RemoteEntry>) {
    forall k :: k in objects ==> objects[k].deleted.None?
  }

  /** One more listed record changes the view of its own path only, and only where nobody spoke before. */
  lemma ViewStep(objects: map<Key, RemoteEntry>, tombstones: seq<Tombstone>, n: nat, ignores: Key -> bool, path: Key,
      entry: Option<RemoteEntry>)
    requires n < |tombstones|
    requires ViewOf(objects, tombstones[..n], ignores, path, entry)
    ensures ViewOf(objects, tombstones[..n + 1], ignores, path,
      if !ignores(path) && SpeaksFor(tombstones[n], objects, path) && NobodySpeaksFor(tombstones[..n], objects, path)
      then Some(DeletedEntry(tombstones[n], path in objects)) else entry)
  {
    var before, after := tombstones[..n], tombstones[..n + 1];
    assert after == before + [tombstones[n]];
    if !ignores(path) {
      if NobodySpeaksFor(before, objects, path) {
        if SpeaksFor(tombstones[n], objects, path) {
          assert after[..n] == before && after[n] == tombstones[n];
          assert FirstSpeaker(after, objects, path, n);
        }
      } else {
        var i :| FirstSpeaker(before, objects, path, i) && entry == Some(DeletedEntry(before[i], path in objects));
        assert after[i] == before[i] && after[..i] == before[..i];
        assert FirstSpeaker(after, objects, path, i);
      }
    }
  }

  method ScanRemote(objects: map<Key, RemoteEntry>, tombstones: seq<Tombstone>, ignores: Key -> bool)
      returns (output: map<Key, RemoteEntry>)
    requires Stored(objects)
    ensures IsView(objects, tombstones, ignores, output)
  {
    output := map k | k in objects && !ignores(k) :: objects[k];
    for i := 0 to |tombstones|
      invariant forall path :: ViewOf(objects, tombstones[..i], ignores, path, Lookup(output, path))
    {
      var record := tombstones[i];
      var path := record.path;
      ghost var was := output;
      if !ignores(path) {
        // An entry that is already a deletion has no ETag, so no further record can match it.
        var found := Lookup(output, path);
        if !(found.Some? && found.value.etag != Some(record.version))
           && !(found.Some? && record.acceptedAt.Some? && found.value.lastModified > record.acceptedAt.value) {
          output := output[path := DeletedEntry(record, found.Some?)];
        }
      }
      forall p ensures ViewOf(objects, tombstones[..i + 1], ignores, p, Lookup(output, p)) {
        ViewStep(objects, tombstones, i, ignores, p, Lookup(was, p));
      }
    }
    assert tombstones[..|tombstones|] == tombstones;
  }

  /** The live part of a view: what a device may download. */
  function Live(view: map<Key, RemoteEntry>): map<Key, RemoteEntry> {
    map k | k in view && view[k].deleted.None? :: view[k]
  }

  /** The live part is the stored objects nobody hides; no listing order appears in it. */
  lemma LivePart(objects: map<Key, RemoteEntry>, tombstones: seq<Tombstone>, ignores: Key -> bool,
      view: map<Key, RemoteEntry>)
    requires Stored(objects) && IsView(objects, tombstones, ignores, view)
    ensures Live(view) == map k | k in objects && !ignores(k) &&
      (forall t :: t in tombstones ==> !(t.path == k && Hides(t, objects[k]))) :: objects[k]
  {
    var live := map k | k in objects && !ignores(k) &&
      (forall t :: t in tombstones ==> !(t.path == k && Hides(t, objects[k]))) :: objects[k];
    forall k ensures k in Live(view) <==> k in live {
      assert ViewOf(objects, tombstones, ignores, k, Lookup(view, k));
      if k in objects && !ignores(k) && NobodySpeaksFor(tombstones, objects, k) {
        forall t | t in tombstones ensures !(t.path == k && Hides(t, objects[k])) {
          var i :| 0 <= i < |tombstones| && tombstones[i] == t;
          assert !SpeaksFor(tombstones[i], objects, k);
        }
      }
    }
    forall k | k in live ensures Live(view)[k] == live[k] {
      assert ViewOf(objects, tombstones, ignores, k, Lookup(view, k));
    }
  }

  /** Two listings of the same records, in any order and with any repetition, show the same live notes. */
  lemma ListingOrderIsIrrelevant(objects: map<Key, RemoteEntry>, one: seq<Tombstone>, other: seq<Tombstone>,
      ignores: Key -> bool, v: map<Key, RemoteEntry>, w: map<Key, RemoteEntry>)
    requires Stored(objects) && IsView(objects, one, ignores, v) && IsView(objects, other, ignores, w)
    requires forall t :: t in one <==> t in other
    ensures Live(v) == Live(w)
  {
    LivePart(objects, one, ignores, v);
    LivePart(objects, other, ignores, w);
  }
}
