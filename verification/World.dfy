/** One key as the executor meets it: a Vault file, an R2 object, its logical deletions and this device's baseline. */
module Worlds {
  import opened Types
  import opened RemoteView

  datatype R2Object = R2Object(content: Content, modified: int)

  /**
   * `history` remembers the content every Vault version had, so that a stamp identifies content. `named`
   * remembers every version a tombstone ever named. `clock` is past every timestamp already given out.
   * `index` is the version of this device's own write while the Vault index still shows it; with `None` the
   * index shows the current file.
   */
  datatype World = World(
    history: map<Stamp, Content>, local: Option<Stamp>, index: Option<Stamp>,
    remote: Option<R2Object>, tombs: map<ETag, int>, named: set<ETag>,
    clock: int, baseline: Option<PreviousEntry>)
  {
    ghost predicate Ok() {
      && (local.Some? ==> local.value in history)
      && (forall s :: s in history ==> s.size == |history[s]| && s.mtime < clock)
      && (forall e :: e in tombs ==> e in named && tombs[e] < clock)
      && (remote.Some? ==> remote.value.modified < clock)
    }

    /** The Vault version `s` held `content`. */
    predicate Held(s: Stamp, content: Content) { s in history && history[s] == content }

    predicate Stores(e: ETag) { remote.Some? && ETag(remote.value.content) == e }

    /** A logical deletion makes the stored object absent, unless it was written again since. */
    predicate Hidden() {
      remote.Some? && ETag(remote.value.content) in tombs && remote.value.modified <= tombs[ETag(remote.value.content)]
    }

    /** The `stat` a TFile carries. */
    function FileStat(): Option<Stamp> {
      if index.Some? then index else local
    }

    function BaselineETag(): Option<ETag> {
      if baseline.None? || baseline.value.remote.None? then None else baseline.value.remote.value.etag
    }

    function BaselineLocal(): Option<Stamp> {
      if baseline.None? then None else baseline.value.local
    }
  }

  function LiveEntry(o: R2Object): RemoteEntry {
    RemoteEntry(|o.content|, Some(ETag(o.content)), o.modified, None)
  }

  /** A complete entry whose two versions carry the same content. */
  ghost predicate Truthful(w: World, entry: PreviousEntry) {
    && entry.local.Some? && entry.remote.Some? && entry.remote.value.etag.Some?
    && entry.remote.value.size == |entry.remote.value.etag.value.digest|
    && w.Held(entry.local.value, entry.remote.value.etag.value.digest)
  }

  /** A complete entry whose Vault version held other content than its ETag names. */
  ghost predicate Untruthful(w: World, entry: PreviousEntry) {
    && entry.local.Some? && entry.remote.Some? && entry.remote.value.etag.Some?
    && entry.local.value in w.history && w.history[entry.local.value] != entry.remote.value.etag.value.digest
  }

  /** The baseline pairs a Vault version and an object version that carry the same content. */
  ghost predicate Truth(w: World) {
    w.baseline.Some? ==> Truthful(w, w.baseline.value)
  }

  /** What the effective remote view may say about the key. */
  ghost predicate Shows(w: World, there: Option<RemoteEntry>) {
    match w.remote
    case None =>
      if w.tombs == map[] then there == None
      else there.Some? && exists e, created ::
        e in w.tombs && there.value == RemoteEntry(0, None, created, Some(Deletion(Some(e), false)))
    case Some(o) =>
      if w.Hidden() then
        there.Some? && exists created ::
        there.value == RemoteEntry(0, None, created, Some(Deletion(Some(ETag(o.content)), true)))
      else there == Some(LiveEntry(o))
  }

  /** How a cycle observes the key: it lists everything, asks for a locally changed key, or reads Gateway events. */
  datatype Mode = FullScan | LocalDelta | RemoteDelta

  /** An object whose version is known to be deleted, with nothing of a live object. */
  function DeletedObject(o: R2Object): RemoteEntry {
    RemoteEntry(0, None, o.modified, Some(Deletion(Some(ETag(o.content)), true)))
  }

  /** What asking for the key shows; a record is looked for only where file and baseline are missing. */
  predicate LocallyShows(w: World, here: Option<Stamp>, there: Option<RemoteEntry>) {
    match w.remote
    case None => there == None
    case Some(o) =>
      there == Some(if here.None? && w.baseline.None? && ETag(o.content) in w.tombs then DeletedObject(o)
        else LiveEntry(o))
  }

  /** The last event about the key: a complete put fact, a put or rename to ask about, a deletion, or a rename away. */
  datatype Event = PutFact(stated: RemoteEntry) | Written | DeletedThere | RenamedAway

  /** A put fact states size and ETag of one version; a put to ask about is refused where there is no object. */
  predicate Readable(w: World, event: Event) {
    && (event.PutFact? ==> event.stated.deleted.None? && DescribesBytes(event.stated))
    && (event.Written? ==> w.remote.Some?)
  }

  /** An observed entry has the size of the bytes its ETag names. */
  predicate DescribesBytes(there: RemoteEntry) {
    there.etag.Some? ==> there.size == |there.etag.value.digest|
  }

  /** The event still says what is there; an object a record hides is gone. */
  predicate StillTrue(w: World, event: Event) {
    var live := w.remote.Some? && !w.Hidden();
    match event
    case PutFact(stated) => live && stated == LiveEntry(w.remote.value)
    case Written => live
    case DeletedThere => !live
    case RenamedAway => !live
  }

  /** What a delta cycle makes of the event; a deletion is taken at its word, whatever object is there. */
  function EventEntry(w: World, event: Event, modified: int): Option<RemoteEntry> {
    match event
    case PutFact(stated) => Some(stated)
    case Written => if w.remote.Some? then Some(LiveEntry(w.remote.value)) else None
    case DeletedThere =>
      Some(if w.remote.Some? then DeletedObject(w.remote.value)
        else RemoteEntry(0, None, modified, Some(Deletion(None, false))))
    case RenamedAway => None
  }

  /** What a cycle may observe at the key; `current` says that the event is true when it is read. */
  ghost predicate Sees(mode: Mode, current: bool, w: World, here: Option<Stamp>, there: Option<RemoteEntry>) {
    match mode
    case FullScan => Shows(w, there)
    case LocalDelta => LocallyShows(w, here, there)
    case RemoteDelta =>
      exists event: Event, modified: int ::
        Readable(w, event) && (current ==> StillTrue(w, event)) && there == EventEntry(w, event, modified)
  }

  /** `Shows` is the bucket-wide remote view, read at one key whose records and object these are. */
  lemma ShowsIsTheView(objects: map<Key, RemoteEntry>, records: seq<Tombstone>, ignores: Key -> bool,
      view: map<Key, RemoteEntry>, key: Key, w: World)
    requires IsView(objects, records, ignores, view) && !ignores(key)
    requires Lookup(objects, key) == if w.remote.Some? then Some(LiveEntry(w.remote.value)) else None
    requires forall r :: r in records && r.path == key ==>
      r.version in w.tombs && r.acceptedAt == Some(w.tombs[r.version])
    requires forall e :: e in w.tombs ==> exists r :: r in records && r.path == key && r.version == e
    ensures Shows(w, Lookup(view, key))
  {
    assert ViewOf(objects, records, ignores, key, Lookup(view, key));
    if NobodySpeaksFor(records, objects, key) {
      forall e | e in w.tombs ensures w.remote.Some? && !w.Hidden() {
        var r :| r in records && r.path == key && r.version == e;
        var i :| 0 <= i < |records| && records[i] == r;
        assert !SpeaksFor(records[i], objects, key);
      }
    } else {
      var i :| FirstSpeaker(records, objects, key, i) &&
        Lookup(view, key) == Some(DeletedEntry(records[i], key in objects));
      assert records[i] in records;
      assert Lookup(view, key).value
        == RemoteEntry(0, None, records[i].createdAt, Some(Deletion(Some(records[i].version), key in objects)));
    }
  }

  // ---- what the executor does to the world ----

  datatype Deed =
    | Put(content: Content)
    | Wrote(bytes: Content)
    | Trashed
    | Entombed(version: ETag)
    | Removed
    | Recorded(entry: PreviousEntry)
    | Forgot

  /** The version the file system gives a write made now. */
  function NextStamp(w: World, content: Content): Stamp { Stamp(|content|, w.clock) }

  function After(w: World, deed: Deed): World {
    match deed
    case Put(content) => w.(remote := Some(R2Object(content, w.clock)), clock := w.clock + 1)
    case Wrote(bytes) => w.(history := w.history[NextStamp(w, bytes) := bytes], local := Some(NextStamp(w, bytes)),
      index := Some(NextStamp(w, bytes)), clock := w.clock + 1)
    case Trashed => w.(local := None)
    case Entombed(e) => w.(tombs := w.tombs[e := w.clock], named := w.named + {e}, clock := w.clock + 1)
    case Removed => w.(remote := None)
    case Recorded(entry) => w.(baseline := Some(entry))
    case Forgot => w.(baseline := None)
  }

  // ---- what everybody else may do between two steps ----

  /** What time and anybody's writes preserve: versions keep their content, and a version once left never returns. */
  ghost predicate Since(a: World, b: World) {
    && b.Ok()
    && (forall s :: s in a.history ==> s in b.history && b.history[s] == a.history[s])
    && (b.local == a.local || b.local.None? || b.local.value !in a.history)
    && a.named <= b.named && a.clock <= b.clock
  }

  /**
   * Interference: only this device writes its baseline, the Vault index catches up at most, and a sole
   * writer keeps the bucket to itself.
   */
  ghost predicate Rely(solo: bool, a: World, b: World) {
    Since(a, b) && b.baseline == a.baseline && (b.index == a.index || b.index.None?) &&
      (solo ==> b.remote == a.remote && b.tombs == a.tombs)
  }

  lemma SinceRefl(a: World)
    requires a.Ok()
    ensures Since(a, a)
  {
  }

  lemma RelyRefl(solo: bool, a: World)
    requires a.Ok()
    ensures Rely(solo, a, a)
  {
  }

  lemma SinceTrans(a: World, b: World, c: World)
    requires Since(a, b) && Since(b, c)
    ensures Since(a, c)
  {
  }

  lemma DeedIsSince(w: World, deed: Deed)
    requires w.Ok()
    ensures Since(w, After(w, deed))
  {
  }

  lemma TruthfulLasts(a: World, b: World, entry: PreviousEntry)
    requires Since(a, b) && Truthful(a, entry)
    ensures Truthful(b, entry)
  {
  }

  /** What a version held never changes, so neither does the verdict on an entry. */
  lemma VerdictLasts(a: World, b: World, entry: PreviousEntry)
    requires Since(a, b)
    ensures Truthful(a, entry) ==> Truthful(b, entry) && !Untruthful(b, entry)
    ensures Untruthful(a, entry) ==> Untruthful(b, entry) && !Truthful(b, entry)
  {
  }

  lemma TruthLasts(a: World, b: World)
    requires Since(a, b) && b.baseline == a.baseline && Truth(a)
    ensures Truth(b)
  {
    if a.baseline.Some? { TruthfulLasts(a, b, a.baseline.value); }
  }

  /** A stamp seen before and after a moment was the file's stamp at that moment. */
  lemma StampsDoNotReturn(a: World, b: World, c: World, s: Stamp)
    requires a.Ok() && Since(a, b) && Since(b, c) && a.local == Some(s) && c.local == Some(s)
    ensures b.local == Some(s)
  {
  }

  // ---- one operation when nobody interferes and nothing fails ----

  /** R2's own precondition on a conditional write. */
  predicate Allows(remote: Option<R2Object>, expected: ExpectedRemote) {
    match expected
    case Absent => remote.None?
    case Exactly(etag) => remote.Some? && etag == Some(ETag(remote.value.content))
  }

  function Pair(s: Stamp, content: Content): PreviousEntry {
    PreviousEntry(Some(s), Some(Version(content)))
  }

  ghost function QuietSend(w: World, s: Stamp, content: Content, expected: ExpectedRemote): World {
    if Allows(w.remote, expected) then After(After(w, Put(content)), Recorded(Pair(s, content))) else w
  }

  ghost function QuietUpload(w: World, here: Stamp, expected: ExpectedRemote): World
    requires w.Ok()
  {
    if w.local != Some(here) then w else QuietSend(w, here, w.history[here], expected)
  }

  ghost function QuietDownload(w: World, expectedHere: Option<Stamp>, version: RemoteVersion): World {
    if w.local != expectedHere || w.remote.None? || version.etag != Some(ETag(w.remote.value.content)) then w
    else
      var bytes := w.remote.value.content;
      After(After(w, Wrote(bytes)), Recorded(PreviousEntry(Some(NextStamp(w, bytes)), Some(version))))
  }

  function VersionFrom(there: RemoteEntry): RemoteVersion {
    RemoteVersion(there.size, there.etag, Some(there.lastModified))
  }

  /** The version a keep-remote resolution records: the bytes it fetched, under the ETag it fetched them by. */
  function KeptRemote(etag: Option<ETag>): RemoteVersion {
    RemoteVersion(if etag.Some? then |etag.value.digest| else 0, etag, None)
  }

  ghost function QuietMerge(w: World, here: Stamp, etag: Option<ETag>, merged: Content): World {
    if w.local != Some(here) || !Allows(w.remote, Exactly(etag)) then w
    else
      var stored := After(w, Put(merged));
      After(After(stored, Wrote(merged)), Recorded(Pair(NextStamp(stored, merged), merged)))
  }

  ghost function QuietTrash(w: World, here: Stamp): World {
    if w.local.None? then After(w, Forgot) else if w.local != Some(here) then w else After(After(w, Trashed), Forgot)
  }

  /** A record that already exists is left as it is. */
  ghost function QuietEntomb(w: World, etag: ETag): World {
    After(if etag in w.tombs then w else After(w, Entombed(etag)), Forgot)
  }

  ghost function QuietRemoteDelete(physical: bool, w: World, etag: Option<ETag>): World {
    if etag.None? || !w.Stores(etag.value) then w
    else if physical then After(After(w, Removed), Forgot)
    else QuietEntomb(w, etag.value)
  }

  ghost function Quiet(physical: bool, w: World, op: Operation): World
    requires w.Ok()
  {
    match op
    case Noop => w
    case Conflict(_) => w
    case Upload(here, expected) => QuietUpload(w, here, expected)
    case Download(expectedHere, there) => QuietDownload(w, expectedHere, VersionFrom(there))
    case DeleteLocal(here) => QuietTrash(w, here)
    case DeleteRemote(etag) => QuietRemoteDelete(physical, w, etag)
    case PruneBaseline => After(w, Forgot)
    case ResolveKeepLocal(_, here, etag, expectAbsent) => QuietUpload(w, here, if expectAbsent then Absent
      else Exactly(etag))
    case ResolveKeepRemote(_, expectedHere, etag) =>
      QuietDownload(w, expectedHere, KeptRemote(etag))
    case ResolveMerged(_, here, etag, merged) =>
      QuietMerge(w, here, etag, merged)
    case ResolveAcceptRemoteDelete(_, here, deletion) =>
      if deletion.objectPresent && !Allows(w.remote, Exactly(deletion.version)) then w else QuietTrash(w, here)
    case ResolveAcceptLocalDelete(_, accepted) => QuietRemoteDelete(physical, w, Some(accepted))
  }

  // ---- what it reports then ----

  function Done(localWrite: Option<Stamp>, remote: Option<RemoteVersion>): Result {
    Applied(localWrite, remote, None, false)
  }

  /** A conditional read or HEAD that is not satisfied. */
  function Unmet(remote: Option<R2Object>): Result {
    if remote.None? then Failed(Some(404)) else Stale
  }

  ghost function UploadReport(w: World, here: Stamp, expected: ExpectedRemote): Result
    requires w.Ok()
  {
    if expected == Exactly(None) then Blocked
    else if w.local != Some(here) || !Allows(w.remote, expected) then Stale
    else Done(None, Some(Version(w.history[here])))
  }

  ghost function DownloadReport(w: World, expectedHere: Option<Stamp>, etag: Option<ETag>): Result {
    if etag.None? then Blocked
    else if w.local != expectedHere then Stale
    else if !w.Stores(etag.value) then Unmet(w.remote)
    else Done(Some(NextStamp(w, w.remote.value.content)), None)
  }

  ghost function MergeReport(w: World, here: Stamp, etag: Option<ETag>, merged: Content): Result {
    if etag.None? then Blocked
    else if w.local != Some(here) || !Allows(w.remote, Exactly(etag)) then Stale
    else Done(Some(NextStamp(After(w, Put(merged)), merged)), Some(Version(merged)))
  }

  ghost function TrashReport(w: World, here: Stamp): Result {
    if w.local.Some? && w.local != Some(here) then Stale else Done(None, None)
  }

  ghost function RemoteDeleteReport(physical: bool, w: World, etag: Option<ETag>): Result {
    if etag.None? then Blocked
    else if !w.Stores(etag.value) then if physical then Stale else Unmet(w.remote)
    else Applied(None, None, if physical then None else etag, physical)
  }

  ghost function QuietReport(physical: bool, w: World, op: Operation): Result
    requires w.Ok()
  {
    match op
    case Noop => Failed(None)
    case Conflict(_) => Failed(None)
    case Upload(here, expected) => UploadReport(w, here, expected)
    case Download(expectedHere, there) => DownloadReport(w, expectedHere, there.etag)
    case DeleteLocal(here) => TrashReport(w, here)
    case DeleteRemote(etag) => RemoteDeleteReport(physical, w, etag)
    case PruneBaseline => Done(None, None)
    case ResolveKeepLocal(_, here, etag, expectAbsent) => UploadReport(w, here, if expectAbsent then Absent
      else Exactly(etag))
    case ResolveKeepRemote(_, expectedHere, etag) => DownloadReport(w, expectedHere, etag)
    case ResolveMerged(_, here, etag, merged) => MergeReport(w, here, etag, merged)
    case ResolveAcceptRemoteDelete(_, here, deletion) =>
      if deletion.objectPresent && !Allows(w.remote, Exactly(deletion.version)) then Unmet(w.remote)
        else TrashReport(w, here)
    case ResolveAcceptLocalDelete(_, accepted) => RemoteDeleteReport(physical, w, Some(accepted))
  }
}
