/** src/scheduler/scheduler.ts: the event-driven scheduler, and the cursor it advances (src/gateway/client.ts). */
module Scheduler {
  import opened Types
  import Executor
  import opened Worlds
  import Reporter
  import opened RemoteDelta
  import Planner
  import RemoteView

  datatype Reason =
    | Startup | Manual | LocalEvent | EditorChange | FocusResume | ForegroundResume | IntegrityCheck
    | ConfigChange | AfterStale | Retry | RemoteChange | ConflictAutoMerge | ConflictManualResolution

  datatype State = Idle | Debouncing | Running | RerunPending | BlockedByAuth

  datatype FailureClass = Retryable | Stable | Auth

  datatype Counts = Counts(applied: nat, stale: nat, failed: nat, unresolved: nat, blocked: nat, partial: nat,
    conflict: nat, noop: nat)

  const NO_COUNTS := Counts(0, 0, 0, 0, 0, 0, 0, 0)

  function Count(c: Counts, r: Result): Counts {
    match r
    case Applied(_, _, _, _) => c.(applied := c.applied + 1)
    case Stale => c.(stale := c.stale + 1)
    case Failed(_) => c.(failed := c.failed + 1)
    case Unresolved(_, _, _, _) => c.(unresolved := c.unresolved + 1)
    case Blocked => c.(blocked := c.blocked + 1)
    case Partial(_, _) => c.(partial := c.partial + 1)
    case ConflictResult => c.(conflict := c.conflict + 1)
    case NoAction => c.(noop := c.noop + 1)
    case Raised => c
  }

  /** What a cycle's operations added up to. `thrown` is an exception that ended the cycle's work early. */
  datatype Tally = Tally(counts: Counts, stale: bool, halted: bool, failure: Option<FailureClass>, thrown: bool)

  const NO_TALLY := Tally(NO_COUNTS, false, false, None, false)

  datatype Shortfall = Halted | WentStale | LeftUnresolved | LandingUnknown | Complete

  function IncompleteWindowReason(t: Tally): Shortfall {
    if t.halted then Halted
    else if t.stale then WentStale
    else if t.counts.unresolved > 0 then LeftUnresolved
    else if t.counts.partial > 0 then LandingUnknown
    else Complete
  }

  predicate IsRemoteObservationComplete(t: Tally) {
    IncompleteWindowReason(t) == Complete
  }

  function Classify(r: Result): Option<FailureClass> {
    match r
    case Unresolved(_, _, _, _) => Some(Retryable)
    case Failed(Some(status)) => if status == 401 || status == 403 then Some(Auth)
      else if status == 429 || status >= 500 then Some(Retryable) else Some(Stable)
    case Failed(None) => Some(Stable)
    case _ => None
  }

  /** One more result. Only a rejected credential stops the operation loop. */
  function Absorb(t: Tally, r: Result): Tally {
    var verdict := Classify(r);
    Tally(Count(t.counts, r), t.stale || r.Stale? || r.Partial?, t.halted || verdict == Some(Auth),
      if verdict == Some(Auth) then Some(Auth)
      else if verdict == Some(Retryable) && t.failure != Some(Auth) then Some(Retryable)
      else if verdict == Some(Stable) && t.failure == None then Some(Stable)
      else t.failure, t.thrown)
  }

  function TallyOf(results: seq<Result>): Tally {
    if results == [] then NO_TALLY else Absorb(TallyOf(results[..|results| - 1]), results[|results| - 1])
  }

  /** A result the engine counts against a window. */
  predicate IsShortfall(r: Result) {
    r.Stale? || r.Partial? || r.Unresolved? || Classify(r) == Some(Auth)
  }

  /** An operation after which the remote may not be what the window saw: a shortfall, or one that raised. */
  predicate SpoilsWindow(r: Result) {
    IsShortfall(r) || r.Raised?
  }

  ghost predicate NothingInDoubt(results: seq<Result>) {
    forall i :: 0 <= i < |results| ==> !SpoilsWindow(results[i])
  }

  ghost predicate SomeRaised(results: seq<Result>) {
    exists i :: 0 <= i < |results| && results[i].Raised?
  }

  /** The tally is complete exactly if there is no shortfall; refusals, conflicts and exceptions do not count. */
  lemma {:induction false} CompleteIff(results: seq<Result>)
    ensures IsRemoteObservationComplete(TallyOf(results)) <==>
      forall i :: 0 <= i < |results| ==> !IsShortfall(results[i])
  {
    if results != [] {
      var rest := results[..|results| - 1];
      CompleteIff(rest);
      assert forall i :: 0 <= i < |rest| ==> rest[i] == results[i];
      TallyOnlyGrows(TallyOf(rest), results[|results| - 1]);
    }
  }

  lemma TallyOnlyGrows(t: Tally, r: Result)
    ensures IsRemoteObservationComplete(Absorb(t, r)) <==> IsRemoteObservationComplete(t) && !IsShortfall(r)
  {
  }

  /** A complete tally hides an operation left in doubt exactly when one raised. */
  lemma CompleteHidesRaised(results: seq<Result>)
    requires IsRemoteObservationComplete(TallyOf(results))
    ensures NothingInDoubt(results) <==> !SomeRaised(results)
  {
    CompleteIff(results);
  }

  /** What a cycle did before its boundary; `observed` is false when an observation call threw. */
  datatype Work = Work(observed: bool, results: seq<Result>)

  ghost predicate Finished(work: Work) {
    work.observed && NothingInDoubt(work.results)
  }

  ghost predicate Threw(work: Work) {
    !work.observed || SomeRaised(work.results)
  }

  /** No throw is a shortfall: a cycle that threw is as complete as its remaining results are. */
  lemma ThrownWindowCountsAsComplete(work: Work, failure: FailureClass)
    requires Threw(work) && forall i :: 0 <= i < |work.results| ==> !IsShortfall(work.results[i])
    ensures IsRemoteObservationComplete(TallyOf(work.results).(thrown := true, failure := Some(failure))) &&
      !Finished(work)
  {
    CompleteIff(work.results);
  }

  /**
   * An exception in the only operation of a delta: nothing was applied, the tally is complete, and the proof
   * that confirms the generation covers nothing.
   */
  lemma RaisedDeltaIsConfirmed(generation: nat, changes: seq<Change>)
    ensures var work := Work(true, [Raised]); var p := ByDelta(generation + 1, generation, changes, work);
      IsRemoteObservationComplete(TallyOf(work.results)) && Confirms(p, generation + 1) && Threw(work) &&
        !Covers(p, generation + 1)
  {
    CompleteIff([Raised]);
    assert [Raised][0].Raised?;
  }

  datatype RemoteMutation = Confirmed | Possible

  predicate WritesRemote(op: Operation) {
    op.Upload? || op.DeleteRemote? || op.ResolveKeepLocal? || op.ResolveMerged? || op.ResolveAcceptLocalDelete?
  }

  function ObserveRemoteMutation(op: Operation, r: Result): Option<RemoteMutation> {
    if !WritesRemote(op) then None
    else
      match r
      case Applied(_, _, _, _) => Some(Confirmed)
      case Unresolved(reason, _, _, _) => if reason.AmbiguousPut? then Some(Possible) else None
      case Partial(why, _) => if why.RemoteAppliedLocalChanged? then Some(Confirmed) else None
      case _ => None
  }

  /** `text` spells an ETag the way R2 does. */
  function LandedWriteForOperation(op: Operation, key: Key, r: Result,
      text: ETag -> string): Option<Reporter.LandedWrite> {
    if op.Upload? || op.ResolveKeepLocal? || op.ResolveMerged? then
      var revision := r.Remote();
      if revision.None? || revision.value.etag.None? then None
      else Some(Reporter.PutWrite(key, text(revision.value.etag.value), Some(revision.value.size)))
    else if op.DeleteRemote? || op.ResolveAcceptLocalDelete? then
      if (r.Applied? || r.Unresolved?) && r.physicalDeleted then Some(Reporter.PhysicalDelete(key))
      else if (r.Applied? || r.Unresolved?) && r.retired.Some? then
        Some(Reporter.LogicalDelete(key, text(r.retired.value)))
      else None
    else None
  }

  /** Everything a cycle may hand to the journal for one operation. */
  function Reported(op: Operation, key: Key, r: Result, text: ETag -> string): Option<Reporter.LandedWrite> {
    if ObserveRemoteMutation(op, r) == Some(Confirmed) then LandedWriteForOperation(op, key, r, text) else None
  }

  /** A reported PUT is a fact: it names the last revision the operation wrote. */
  lemma ReportedPutsAreFacts(op: Operation, key: Key, r: Result, own: seq<Executor.Effect>, now: World,
      text: ETag -> string)
    requires Executor.Honest(r, own, now)
    ensures var w := Reported(op, key, r, text); w.Some? && w.value.PutWrite? ==>
      var last := Executor.LastPut(own);
        last.Some? && last.value.etag.Some? &&
        w.value == Reporter.PutWrite(key, text(last.value.etag.value), Some(last.value.size))
  {
  }

  /**
   * A landed PUT goes unreported exactly when its result is unresolved, an exception, or a half-applied one
   * that names no revision; in particular whenever its baseline commit failed, although the result names it.
   */
  lemma LandedButUnreported(op: Operation, key: Key, r: Result, own: seq<Executor.Effect>, now: World,
      text: ETag -> string)
    requires op.Upload? || op.ResolveKeepLocal? || op.ResolveMerged?
    requires Executor.Honest(r, own, now) && Executor.LastPut(own).Some?
    ensures Reported(op, key, r, text).None? <==> r.Unresolved? || r.Raised? || (r.Partial? && r.remote.None?)
    ensures r.Unresolved? && r.remote.Some? && r.remote.value.etag.Some? ==>
      LandedWriteForOperation(op, key, r, text).Some?
  {
    LastPutNamesAVersion(own);
  }

  lemma {:induction false} LastPutNamesAVersion(own: seq<Executor.Effect>)
    ensures var put := Executor.LastPut(own); put.Some? ==> put.value.etag.Some?
  {
    if own != [] { LastPutNamesAVersion(own[..|own| - 1]); }
  }

  // ---- what the properties speak about ----

  /** A concrete remote change, and the generation that announced it. */
  datatype Delta = Delta(generation: nat, changes: seq<Change>)

  /** Why a generation was confirmed. `seen` are the remote writes a full listing found. */
  datatype Proof =
    | ByWindow(opening: nat, closing: nat, seen: set<nat>, work: Work)
    | ByDelta(generation: nat, confirmedBefore: nat, changes: seq<Change>, work: Work)

  /** The window had equal boundaries, or the delta advanced the cursor by exactly one. */
  predicate Confirms(p: Proof, g: nat) {
    match p
    case ByWindow(opening, closing, _, _) => opening == closing && g <= opening
    case ByDelta(generation, confirmedBefore, _, _) => g == generation && generation == confirmedBefore + 1
  }

  /** The write of generation `g` was listed, or carried by its delta, and the cycle finished its work. */
  ghost predicate Covers(p: Proof, g: nat) {
    Confirms(p, g) && Finished(p.work) && (p.ByWindow? ==> g in p.seen)
  }

  /** A cycle that confirmed had no shortfall, and one whose observation returned had listed what it announced. */
  ghost predicate ProofOk(p: Proof) {
    && (Finished(p.work) <==> !Threw(p.work))
    && (p.ByWindow? && p.work.observed ==> forall g :: 1 <= g <= p.opening ==> g in p.seen)
  }

  ghost predicate HasProof(proofs: seq<Proof>, g: nat) {
    exists i :: 0 <= i < |proofs| && Confirms(proofs[i], g)
  }

  /** A mark, with the version of the file when it was made. */
  datatype Mark = Mark(key: Key, version: nat, stamp: Option<Stamp>)

  /**
   * A file the executor wrote: the version it reported, the version it wrote, and the dirty version at that
   * moment. The two versions differ when the stamp of a later save was read back.
   */
  datatype OwnWrite = OwnWrite(stamp: Stamp, written: Stamp, at: nat)
  {
    predicate Misread() { stamp != written }
  }

  /**
   * The part of the state the long-run properties are about. Remote writes are numbered by the generation
   * that will announce them; `landed` are those already visible in the bucket. `marks` is every mark ever
   * made, `finished` the start version of the last cycle that ended, `excused` the marks dropped with an own
   * write that stand for it or for what it replaced, `lost` those dropped that stand for a later version.
   * `held` is the delta a running cycle took from the queue. `files` are the Vault's current versions, `used`
   * every version each file ever had.
   */
  datatype View = View(
    dirty: map<Key, nat>, version: nat, marks: set<Mark>, finished: nat, excused: set<Mark>, lost: set<Mark>,
    files: map<Key, Stamp>, used: set<(Key, Stamp)>,
    queue: seq<Delta>, held: Option<Delta>, announced: nat, published: nat, landed: set<nat>,
    reconciled: nat, proofs: seq<Proof>)

  ghost predicate AscendingQueue(queue: seq<Delta>) {
    forall i, j :: 0 <= i < j < |queue| ==> queue[i].generation < queue[j].generation
  }

  ghost predicate Accounted(v: View, m: Mark) {
    (m.key in v.dirty && v.dirty[m.key] >= m.version) || m.version <= v.finished || m in v.excused || m in v.lost
  }

  ghost predicate FilesOk(v: View) {
    forall k :: k in v.files ==> (k, v.files[k]) in v.used
  }

  ghost predicate DirtyOk(v: View) {
    && (forall k :: k in v.dirty ==> v.finished < v.dirty[k] <= v.version)
    && v.finished <= v.version && FilesOk(v)
    && forall m :: m in v.marks ==> m.version <= v.version && Accounted(v, m)
  }

  /** The delta in work, then the queued ones. */
  function Pipeline(v: View): seq<Delta> {
    (if v.held.Some? then [v.held.value] else []) + v.queue
  }

  ghost predicate QueueOk(v: View) {
    AscendingQueue(Pipeline(v)) && forall i :: 0 <= i < |Pipeline(v)| ==> Pipeline(v)[i].generation <= v.announced
  }

  ghost predicate CursorOk(v: View) {
    && v.announced <= v.published && v.reconciled <= v.published
    && (forall g :: 1 <= g <= v.published ==> g in v.landed)
    && (forall i :: 0 <= i < |v.proofs| ==> ProofOk(v.proofs[i]))
    && (forall g :: 1 <= g <= v.reconciled ==> HasProof(v.proofs, g))
  }

  ghost predicate Sane(v: View) {
    DirtyOk(v) && QueueOk(v) && CursorOk(v)
  }

  /**
   * Cursor soundness: every confirmed generation has a proof, and a proof covers the write it confirms exactly
   * if nothing in its cycle threw.
   */
  lemma ConfirmedIsCoveredUnlessThrown(v: View, g: nat) returns (p: Proof)
    requires Sane(v) && 1 <= g <= v.reconciled
    ensures p in v.proofs && Confirms(p, g) && (Covers(p, g) <==> !Threw(p.work))
  {
    assert HasProof(v.proofs, g);
    var i :| 0 <= i < |v.proofs| && Confirms(v.proofs[i], g);
    assert ProofOk(v.proofs[i]);
    p := v.proofs[i];
  }

  /** What events between two steps of a cycle preserve: everything the cycle relies on. */
  ghost predicate Later(a: View, b: View) {
    && a.version <= b.version && a.marks <= b.marks
    && b.finished == a.finished && b.excused == a.excused && b.lost == a.lost
    && (forall k :: k in a.dirty ==> k in b.dirty && (b.dirty[k] == a.dirty[k] || b.dirty[k] > a.version))
    && (forall k :: k in b.dirty && k !in a.dirty ==> b.dirty[k] > a.version)
    && (forall m :: m in b.marks && m !in a.marks ==> m.version > a.version)
    && FilesLater(a, b)
    && a.queue <= b.queue && b.held == a.held
    && a.announced <= b.announced && a.published <= b.published && a.landed <= b.landed
    && b.reconciled == a.reconciled && b.proofs == a.proofs
  }

  /** A file version once left never returns; while one stays, every mark of its file is made on it. */
  ghost predicate FilesLater(a: View, b: View) {
    && a.used <= b.used && FilesOk(a)
    && (forall k :: k in b.files ==> Lookup(a.files, k) == Some(b.files[k]) || (k, b.files[k]) !in a.used)
    && (forall m ::
      m in b.marks && m !in a.marks && m.key in b.files && Lookup(a.files, m.key) == Some(b.files[m.key]) ==>
      m.stamp == Some(b.files[m.key]))
  }

  lemma LaterRefl(a: View)
    requires Sane(a)
    ensures Later(a, a)
  {
  }

  lemma LaterTrans(a: View, b: View, c: View)
    requires Later(a, b) && Later(b, c)
    ensures Later(a, c)
  {
    FilesLaterTrans(a, b, c);
  }

  lemma FilesLaterTrans(a: View, b: View, c: View)
    requires FilesLater(a, b) && FilesLater(b, c) && a.marks <= b.marks <= c.marks
    ensures FilesLater(a, c)
  {
    forall k | k in c.files && Lookup(a.files, k) == Some(c.files[k]) ensures Lookup(b.files, k) == Some(c.files[k]) {
      assert (k, c.files[k]) in b.used;
    }
  }

  /** The marks of a file made since the executor wrote it, while it still is that version, stand for that write. */
  ghost predicate OwnMarks(v: View, writes: map<Key, OwnWrite>) {
    forall k :: k in writes ==>
      (k, writes[k].stamp) in v.used && (k, writes[k].written) in v.used && writes[k].at <= v.version &&
        OwnSince(v, k, writes[k])
  }

  ghost predicate OwnSince(v: View, k: Key, write: OwnWrite) {
    Lookup(v.files, k) == Some(write.written) ==>
      forall m :: m in v.marks && m.key == k && m.version > write.at ==> m.stamp == Some(write.written)
  }

  lemma OwnMarksLast(a: View, b: View, writes: map<Key, OwnWrite>)
    requires Later(a, b) && OwnMarks(a, writes)
    ensures OwnMarks(b, writes)
  {
    forall k | k in writes ensures OwnSince(b, k, writes[k]) {
      if Lookup(b.files, k) == Some(writes[k].written) {
        assert (k, b.files[k]) in a.used;
        assert Lookup(a.files, k) == Some(writes[k].written);
        assert OwnSince(a, k, writes[k]);
      }
    }
  }

  // ---- pure steps ----

  function MarkAll(dirty: map<Key, nat>, keys: set<Key>, version: nat): map<Key, nat> {
    map k | k in dirty.Keys + keys :: if k in keys then version else dirty[k]
  }

  function Marked(v: View, keys: set<Key>): View {
    v.(version := v.version + 1, dirty := MarkAll(v.dirty, keys, v.version + 1),
       marks := v.marks + set k | k in keys :: Mark(k, v.version + 1, Lookup(v.files, k)))
  }

  lemma MarkedIsLater(v: View, keys: set<Key>)
    requires Sane(v)
    ensures Sane(Marked(v, keys)) && Later(v, Marked(v, keys))
  {
    var w := Marked(v, keys);
    forall m | m in w.marks ensures m.version <= w.version && Accounted(w, m) {
      if m in v.marks { assert Accounted(v, m); }
    }
  }

  /** An announcement that names paths is queued; one without is only counted. */
  function Queued(v: View, generation: nat, changes: seq<Change>): View {
    v.(queue := v.queue + if changes == [] then [] else [Delta(generation, changes)], announced := generation)
  }

  lemma QueuedIsLater(v: View, generation: nat, changes: seq<Change>)
    requires Sane(v) && v.announced < generation <= v.published
    ensures Sane(Queued(v, generation, changes)) && Later(v, Queued(v, generation, changes))
  {
    assert Pipeline(Queued(v, generation, changes)) == Pipeline(v) + if changes == [] then []
      else [Delta(generation, changes)];
  }

  /** The marks a finished cycle started after are settled. */
  function Pruned(v: View, start: nat): View {
    v.(dirty := map k | k in v.dirty && v.dirty[k] > start :: v.dirty[k], finished := start)
  }

  lemma PruneKeepsMarks(v: View, start: nat)
    requires Sane(v) && v.finished <= start <= v.version
    ensures Sane(Pruned(v, start))
  {
    var w := Pruned(v, start);
    forall m | m in w.marks ensures Accounted(w, m) { assert Accounted(v, m); }
  }

  /** Somebody saves a file, under a version no file had before. */
  function Saved(v: View, key: Key, stamp: Stamp): View {
    v.(files := v.files[key := stamp], used := v.used + {(key, stamp)})
  }

  lemma SavedIsLater(v: View, key: Key, stamp: Stamp)
    requires Sane(v) && (key, stamp) !in v.used
    ensures Sane(Saved(v, key, stamp)) && Later(v, Saved(v, key, stamp))
  {
    var w := Saved(v, key, stamp);
    forall m | m in w.marks ensures Accounted(w, m) { assert Accounted(v, m); }
  }

  lemma RemovedIsLater(v: View, key: Key)
    requires Sane(v)
    ensures Sane(v.(files := v.files - {key})) && Later(v, v.(files := v.files - {key}))
  {
    var w := v.(files := v.files - {key});
    forall m | m in w.marks ensures Accounted(w, m) { assert Accounted(v, m); }
  }

  lemma OwnWriteIsNoted(v: View, writes: map<Key, OwnWrite>, key: Key, stamp: Stamp)
    requires Sane(v) && OwnMarks(v, writes) && (key, stamp) !in v.used
    ensures OwnMarks(Saved(v, key, stamp), writes[key := OwnWrite(stamp, stamp, v.version)])
  {
    var w, after := Saved(v, key, stamp), writes[key := OwnWrite(stamp, stamp, v.version)];
    forall k | k in after ensures OwnSince(w, k, after[k]) {
      if k != key { assert OwnSince(v, k, writes[k]); }
    }
  }

  /** The operation reports whatever version the file has when its stamp is read back. */
  lemma ReportedStampIsNoted(v: View, writes: map<Key, OwnWrite>, key: Key)
    requires Sane(v) && OwnMarks(v, writes) && key in writes && key in v.files
    ensures OwnMarks(v, writes[key := writes[key].(stamp := v.files[key])])
  {
    var after := writes[key := writes[key].(stamp := v.files[key])];
    forall k | k in after ensures OwnSince(v, k, after[k]) { assert OwnSince(v, k, writes[k]); }
  }

  /** A mark made after the `stat` had read the file, on another version than the one written. */
  predicate Pending(m: Mark, key: Key, write: OwnWrite, sampled: nat) {
    m.key == key && m.version > sampled && m.stamp != Some(write.written)
  }

  /** A mark made since the write on another version than the one written, where the stamp was misread. */
  predicate TakenForOwn(m: Mark, key: Key, write: OwnWrite) {
    m.key == key && write.Misread() && m.version > write.at && m.stamp != Some(write.written)
  }

  /** The marks that a dropped key takes with it, when its reported write was confirmed with `sampled` marks made. */
  function Swallowed(marks: set<Mark>, key: Key, write: OwnWrite, sampled: nat): set<Mark> {
    set m | m in marks && (Pending(m, key, write, sampled) || TakenForOwn(m, key, write))
  }

  /** A mark of the write itself, or of a version the write replaced. */
  predicate Answered(m: Mark, key: Key, write: OwnWrite) {
    m.key == key && (m.stamp == Some(write.written) || m.version <= write.at)
  }

  /** A key leaves because the `stat` found the version this device reported as its own write. */
  function Dropped(v: View, key: Key, write: OwnWrite, sampled: nat): View {
    v.(dirty := v.dirty - {key}, excused := v.excused + (set m | m in v.marks && Answered(m, key, write)),
       lost := v.lost + Swallowed(v.marks, key, write, sampled))
  }

  /**
   * Dropping a key loses a mark exactly when the mark was made on another version than the one written, either
   * after the `stat` had read the file or, where the stamp was misread, at any time since the write. Every other
   * mark of the key stands for the write or for what it replaced.
   */
  lemma DropLosesIff(at: View, v: View, writes: map<Key, OwnWrite>, key: Key)
    requires Sane(v) && Later(at, v) && OwnMarks(at, writes) && key in writes &&
      Lookup(at.files, key) == Some(writes[key].stamp)
    ensures Sane(Dropped(v, key, writes[key], at.version))
    ensures forall m :: m in v.marks && m.key == key ==>
      (!Answered(m, key, writes[key]) <==> Pending(m, key, writes[key], at.version) || TakenForOwn(m, key, writes[key]))
  {
    var write := writes[key];
    var w := Dropped(v, key, write, at.version);
    assert OwnSince(at, key, write);
    forall m | m in v.marks && m.key == key
      ensures !Answered(m, key, write) <==> Pending(m, key, write, at.version) || TakenForOwn(m, key, write)
    {}
    forall m | m in w.marks ensures Accounted(w, m) { assert Accounted(v, m); }
  }

  /**
   * A misread write is enough: the user saves and marks the file before its stamp is read back, nothing else
   * happens, and the `stat` takes that version for the device's own.
   */
  lemma MisreadEditIsLost(v: View, writes: map<Key, OwnWrite>, key: Key, own: Stamp, edit: Stamp)
    requires Sane(v) && OwnMarks(v, writes) && (key, own) !in v.used && (key, edit) !in v.used && own != edit
    ensures var written := Saved(v, key, own); var edited := Marked(Saved(written, key, edit), {key});
      var write := OwnWrite(edit, own, v.version);
      var w := Dropped(edited, key, write, edited.version);
      && Later(v, edited) && OwnMarks(edited, writes[key := write]) && Lookup(edited.files, key) == Some(write.stamp)
      && Mark(key, v.version + 1, Some(edit)) in w.lost && key !in w.dirty && w.files[key] == edit
  {
    hide Sane, Later, OwnMarks;
    var written := Saved(v, key, own);
    var saved := Saved(written, key, edit);
    var edited := Marked(saved, {key});
    SavedIsLater(v, key, own);
    OwnWriteIsNoted(v, writes, key, own);
    SavedIsLater(written, key, edit);
    MarkedIsLater(saved, {key});
    LaterTrans(written, saved, edited);
    LaterTrans(v, written, edited);
    OwnMarksLast(written, edited, writes[key := OwnWrite(own, own, v.version)]);
    ReportedStampIsNoted(edited, writes[key := OwnWrite(own, own, v.version)], key);
    assert key in {key};
    assert writes[key := OwnWrite(own, own, v.version)][key := OwnWrite(edit, own, v.version)]
      == writes[key := OwnWrite(edit, own, v.version)];
  }

  /**
   * The loss is possible whenever a key is about to be dropped: an edit saved and marked after the `stat` goes
   * with it, and the key is not dirty any more.
   */
  lemma PendingEditIsLost(v: View, key: Key, write: OwnWrite, edit: Stamp)
    requires Sane(v) && Lookup(v.files, key) == Some(write.stamp) && (key, edit) !in v.used &&
      (key, write.written) in v.used
    ensures var edited := Marked(Saved(v, key, edit), {key}); var w := Dropped(edited, key, write, v.version);
      Later(v, edited) && Mark(key, v.version + 1, Some(edit)) in w.lost && key !in w.dirty && w.files[key] == edit
  {
    SavedIsLater(v, key, edit);
    MarkedIsLater(Saved(v, key, edit), {key});
    LaterTrans(v, Saved(v, key, edit), Marked(Saved(v, key, edit), {key}));
    assert key in {key};
  }

  /** The cursor moves forward only. */
  function Reconciled(v: View, generation: nat, proof: Proof): View {
    v.(reconciled := if generation > v.reconciled then generation else v.reconciled, proofs := v.proofs + [proof])
  }

  lemma ProofIsAdded(v: View, generation: nat, p: Proof)
    requires Sane(v) && generation <= v.published && ProofOk(p)
    requires forall g :: v.reconciled < g <= generation ==> Confirms(p, g)
    ensures Sane(Reconciled(v, generation, p))
  {
    var w := Reconciled(v, generation, p);
    assert w.proofs[|v.proofs|] == p;
    forall g | 1 <= g <= w.reconciled ensures HasProof(w.proofs, g) {
      if g <= v.reconciled {
        assert HasProof(v.proofs, g);
        var i :| 0 <= i < |v.proofs| && Confirms(v.proofs[i], g);
        assert w.proofs[i] == v.proofs[i];
      }
    }
    forall m | m in w.marks ensures Accounted(w, m) { assert Accounted(v, m); }
  }

  /** A complete window may confirm what it opened with; its proof covers all of it unless its cycle threw. */
  lemma WindowCovers(v: View, opening: nat, seen: set<nat>, work: Work)
    requires Sane(v) && opening <= v.published && IsRemoteObservationComplete(TallyOf(work.results))
    requires work.observed ==> forall g :: 1 <= g <= opening ==> g in seen
    ensures var p := ByWindow(opening, opening, seen, work);
      Sane(Reconciled(v, opening, p)) && forall g :: 1 <= g <= opening ==> (Covers(p, g) <==> !Threw(work))
  {
    CompleteHidesRaised(work.results);
    ProofIsAdded(v, opening, ByWindow(opening, opening, seen, work));
  }

  /** A complete delta may confirm the next generation; its proof covers it unless its cycle threw. */
  lemma DeltaCovers(v: View, generation: nat, changes: seq<Change>, work: Work)
    requires Sane(v) && generation <= v.published && generation == v.reconciled + 1 &&
      IsRemoteObservationComplete(TallyOf(work.results))
    ensures var p := ByDelta(generation, v.reconciled, changes, work);
      Sane(Reconciled(v, generation, p)) && (Covers(p, generation) <==> !Threw(work))
  {
    CompleteHidesRaised(work.results);
    ProofIsAdded(v, generation, ByDelta(generation, v.reconciled, changes, work));
  }

  const LOCAL_DEBOUNCE := 1200
  const FOCUS_DEBOUNCE := 800
  const CONFIG_DEBOUNCE := 400
  const RETRY_INITIAL := 5000
  const RETRY_MAX := 60000

  function DelayFor(reason: Reason): nat {
    match reason
    case Manual => 0
    case ConflictManualResolution => 0
    case RemoteChange => 0
    case ForegroundResume => 0
    case IntegrityCheck => 0
    case EditorChange => 300
    case ConfigChange => CONFIG_DEBOUNCE
    case FocusResume => FOCUS_DEBOUNCE
    case AfterStale => 0
    case Retry => 0
    case _ => LOCAL_DEBOUNCE
  }

  datatype Next = Runs(reason: Reason, delay: nat) | BacksOff | Sleeps

  /** The next step after a cycle: a resume first, then a delta, local marks, other reruns, back-off, stale plans. */
  function NextAfter(failure: Option<FailureClass>, stale: bool, localDirty: bool, rerun: Option<Reason>,
      queued: bool): Next {
    if rerun == Some(ForegroundResume) then Runs(ForegroundResume, 0)
    else if queued && failure != Some(Retryable) then Runs(RemoteChange, 0)
    else if localDirty then Runs(LocalEvent, LOCAL_DEBOUNCE)
    else if rerun.Some? then Runs(rerun.value, DelayFor(rerun.value))
    else if failure == Some(Retryable) then BacksOff
    else if stale then Runs(AfterStale, 0)
    else Sleeps
  }

  /** The scheduler sleeps exactly when no work is left, and an outage never makes it spin on its queue. */
  lemma SleepsWithoutWork(failure: Option<FailureClass>, stale: bool, localDirty: bool, rerun: Option<Reason>,
      queued: bool)
    ensures var next := NextAfter(failure, stale, localDirty, rerun, queued);
      && (next == Sleeps <==> !queued && !localDirty && rerun.None? && !stale && failure != Some(Retryable))
      && (next == BacksOff <==> failure == Some(Retryable) && !localDirty && rerun.None?)
  {
  }

  /** What an armed timer will do. */
  datatype Alarm = RunsCycle(delay: nat) | Retries(delay: nat)

  /** What a cycle fixes at its start. */
  datatype Cycle = Cycle(
    reason: Reason, startVersion: nat, generation: nat, incremental: Option<Delta>, useRemote: bool,
      localKeys: set<Key>)
  {
    predicate UseLocal() { !useRemote && localKeys != {} }

    /** The keys whose state the observation of this cycle looks at. */
    predicate LooksAt(k: Key) {
      if useRemote then incremental.Some? && k in DeltaKeys(incremental.value.changes)
      else if UseLocal() then k in localKeys
      else true
    }
  }

  /**
   * What a cycle did, for the record: `reached` is false when it stopped or threw before planning, and `raised` is
   * the key whose check of an own write threw.
   */
  datatype Report = Report(own: map<Key, OwnWrite>, work: Work, cycle: Option<Cycle>, reached: bool,
    raised: Option<Key>)

  /** What the observation of a cycle is, in each of its three modes. */
  ghost predicate ObservedBy(c: Cycle, env: Environment, tombstones: seq<RemoteView.Tombstone>,
      seen: Planner.Observations) {
    if c.useRemote then c.incremental.Some? && SeenRemotely(c.incremental.value.changes, env, seen)
    else if c.UseLocal() then exists keys :: KeySet(keys) == c.localKeys && SeenLocally(keys, env, seen)
    else IsFullScan(env, tombstones, seen)
  }

  /** A cycle looks at a key exactly in that its observation holds the key's file and baseline, and nothing else's. */
  lemma LooksAtIsObserved(c: Cycle, env: Environment, tombstones: seq<RemoteView.Tombstone>, seen: Planner.Observations,
      k: Key)
    requires ObservedBy(c, env, tombstones, seen) && !env.ignores(k)
    ensures c.LooksAt(k) ==>
      Lookup(seen.local, k) == Lookup(env.files, k) && Lookup(seen.previous, k) == UsableBaseline(k, env)
    ensures !c.LooksAt(k) ==> k !in seen.Keys() && seen.Decide(k) == None
  {
    if c.useRemote {
      SeenFromEvents(c.incremental.value.changes, env, seen);
    } else if c.UseLocal() {
      var keys :| KeySet(keys) == c.localKeys && SeenLocally(keys, env, seen);
      SeenKeys(keys, env, seen);
    }
  }

  /** A dirty key is settled unseen exactly in a delta cycle that does not name it, or in an unfinished one. */
  lemma SettledUnseenIff(c: Cycle, reached: bool, dirty: map<Key, nat>, k: Key)
    requires k in dirty && (c.useRemote ==> c.incremental.Some?) && (c.localKeys == {} || c.localKeys == dirty.Keys)
    ensures !(reached && c.LooksAt(k)) <==> !reached || (c.useRemote && k !in DeltaKeys(c.incremental.value.changes))
  {
  }

  datatype Handshake = Handshake(start: Option<nat>, startFailed: bool)

  datatype Outcome =
    | NotRequested
    | StartUnavailable
    | ObservationIncomplete
    | NotifyFailed
    | Mismatch(opening: nat, closing: nat)
    | Reconfirmed(generation: nat)

  /** The head of the queue is taken out, and kept in work when it is used. */
  function Taken(v: View, shift: bool, use: bool): View
    requires shift ==> v.queue != []
  {
    v.(queue := if shift then v.queue[1..] else v.queue, held := if shift && use then Some(v.queue[0]) else None)
  }

  lemma TakeIsSane(v: View, shift: bool, use: bool)
    requires Sane(v) && v.held.None? && (shift ==> v.queue != [])
    ensures Sane(Taken(v, shift, use))
  {
    hide DirtyOk, CursorOk, AscendingQueue;
    var w := Taken(v, shift, use);
    DirtyUntouched(v, w);
    CursorUntouched(v, w);
    assert Pipeline(v) == v.queue;
    if shift { TailAscends(v.queue); }
    assert Pipeline(w) == if shift && !use then v.queue[1..] else v.queue;
  }

  lemma TailAscends(queue: seq<Delta>)
    requires AscendingQueue(queue) && queue != []
    ensures AscendingQueue(queue[1..]) && [queue[0]] + queue[1..] == queue
  {
  }

  lemma DirtyUntouched(v: View, w: View)
    requires w == v.(queue := w.queue, held := w.held)
    ensures DirtyOk(v) ==> DirtyOk(w)
  {
    if DirtyOk(v) {
      forall m | m in w.marks ensures m.version <= w.version && Accounted(w, m) { assert Accounted(v, m); }
    }
  }

  lemma CursorUntouched(v: View, w: View)
    requires w == v.(queue := w.queue, held := w.held)
    ensures CursorOk(v) ==> CursorOk(w)
  {
  }

  /** The queue between cycles is the whole pipeline, its tail, or nothing. */
  lemma PutBackIsSane(v: View, forget: bool, putBack: bool)
    requires Sane(v) && !(forget && putBack) && (putBack ==> v.held.Some?)
    ensures Sane(v.(queue := if forget then [] else if putBack then [v.held.value] + v.queue
      else v.queue, held := None))
  {
    hide Sane, DirtyOk, CursorOk;
    PipelineIsOrdered(v);
    var queue := if forget then [] else if putBack then [v.held.value] + v.queue else v.queue;
    var drop := if forget then |Pipeline(v)| else if v.held.Some? && !putBack then 1 else 0;
    assert queue == Pipeline(v)[drop..];
    QueueReplaced(v, queue);
  }

  lemma PipelineIsOrdered(v: View)
    requires Sane(v)
    ensures AscendingQueue(Pipeline(v)) && forall i :: 0 <= i < |Pipeline(v)| ==>
      Pipeline(v)[i].generation <= v.announced
  {
  }

  lemma QueueReplaced(v: View, queue: seq<Delta>)
    requires Sane(v) && AscendingQueue(queue) && forall i :: 0 <= i < |queue| ==> queue[i].generation <= v.announced
    ensures Sane(v.(queue := queue, held := None))
  {
    hide DirtyOk, CursorOk, AscendingQueue;
    var w := v.(queue := queue, held := None);
    DirtyUntouched(v, w);
    CursorUntouched(v, w);
    assert Pipeline(w) == queue;
  }

  lemma LaterKeeps(a: View, b: View)
    requires Later(a, b)
    ensures a.version <= b.version && b.finished == a.finished && b.excused == a.excused && b.lost == a.lost
    ensures b.reconciled == a.reconciled && b.proofs == a.proofs && b.held == a.held && b.published >= a.published
  {
  }

  lemma FinishedBound(v: View)
    requires Sane(v)
    ensures v.finished <= v.version
  {
  }

  lemma OnwardKeeps(a: View, b: View)
    requires Onward(a, b)
    ensures a.version <= b.version && b.finished == a.finished && b.excused == a.excused && b.lost == a.lost
    ensures b.reconciled >= a.reconciled && b.held == a.held && FilesLater(a, b)
  {
  }

  function ApplyConfirmationFailure(outcome: Outcome, failure: Option<FailureClass>): Option<FailureClass> {
    if (outcome.NotifyFailed? || outcome.StartUnavailable?) && failure.None? then Some(Retryable) else failure
  }

  /** The reason a cycle leaves for its successor; local reasons live in the dirty map instead. */
  function RerunFor(requested: bool, reason: Option<Reason>, outcome: Outcome): Option<Reason> {
    if requested && reason.Some? && reason.value != LocalEvent && reason.value != EditorChange then reason
    else if outcome.Mismatch? then Some(RemoteChange)
    else None
  }

  /** Both happen: a delta for one note settles the mark of another. */
  lemma DeltaSettlesUnseen(named: Key, other: Key, generation: nat)
    requires named != other
    ensures var c :=
      Cycle(RemoteChange, 1, 0, Some(Delta(generation, [Change.Put(named, None, None, None)])), true, {});
      c.LooksAt(named) && !c.LooksAt(other) && Pruned(OneMark(other), c.startVersion).dirty == map[]
  {
    assert DeltaKeys([Change.Put(named, None, None, None)]) == {named} by {
      assert [Change.Put(named, None, None, None)][..0] == [];
    }
  }

  function OneMark(k: Key): View {
    View(map[k := 1], 1, {Mark(k, 1, None)}, 0, {}, {}, map[], {}, [], None, 0, 0, {}, 0, [])
  }

  lemma LandedAnnounced(v: View)
    requires Sane(v)
    ensures forall g :: 1 <= g <= v.published ==> g in v.landed
  {
  }

  lemma SeesLanded(a: View, b: View)
    requires Later(a, b)
    ensures a.published <= b.published && a.landed <= b.landed
  {
  }

  lemma HeldIsPublished(v: View)
    requires Sane(v) && v.held.Some?
    ensures v.held.value.generation <= v.published
  {
    assert Pipeline(v)[0] == v.held.value;
  }

  /** The cycle's tally and the one of all results agree on completeness; a raised result leaves both alone. */
  ghost predicate Agree(t: Tally, results: seq<Result>) {
    var u := TallyOf(results);
    t.counts == u.counts && t.stale == u.stale && (u.halted ==> t.halted)
  }

  lemma AgreeOnOneMore(t: Tally, results: seq<Result>, r: Result)
    requires Agree(t, results)
    ensures r.Raised? ==> Agree(t, results + [r])
    ensures Agree(Absorb(t, r), results + [r])
  {
    assert (results + [r])[..|results|] == results;
  }

  lemma AgreesOnCompleteness(t: Tally, results: seq<Result>)
    requires Agree(t, results)
    ensures IsRemoteObservationComplete(t) ==> IsRemoteObservationComplete(TallyOf(results))
    ensures IsRemoteObservationComplete(TallyOf(results)) && !t.halted ==> IsRemoteObservationComplete(t)
  {
  }

  lemma AgreeMeans(t: Tally, results: seq<Result>)
    requires Agree(t, results)
    ensures t.counts == TallyOf(results).counts && t.stale == TallyOf(results).stale &&
      (TallyOf(results).halted ==> t.halted)
    ensures IsRemoteObservationComplete(t) ==> !t.halted
  {
  }

  lemma NothingRaisedYet()
    ensures !SomeRaised([]) && Agree(NO_TALLY, [])
  {
  }

  lemma HaltingAgrees(t: Tally, results: seq<Result>, failure: FailureClass)
    requires Agree(t, results)
    ensures Agree(t.(halted := true), results) && Agree(t.(thrown := true, failure := Some(failure)), results)
  {
  }

  /** As `Later`, but the cursor may have moved forward. */
  ghost predicate Onward(a: View, b: View) {
    a.reconciled <= b.reconciled && Later(a, b.(reconciled := a.reconciled, proofs := a.proofs))
  }

  lemma OnwardRefl(a: View, b: View)
    requires Later(a, b)
    ensures Onward(a, b)
  {
  }

  lemma OnwardFrom(a: View, moved: View, b: View)
    requires moved == a.(reconciled := moved.reconciled, proofs := moved.proofs) && a.reconciled <= moved.reconciled &&
      Later(moved, b)
    ensures Onward(a, b)
  {
  }

  lemma OnwardThen(a: View, b: View, c: View)
    requires Onward(a, b) && Later(b, c)
    ensures Onward(a, c)
  {
  }

  lemma OnwardTrans(a: View, b: View, c: View)
    requires Onward(a, b) && Onward(b, c)
    ensures Onward(a, c)
  {
  }

  /** The cursor moved by one more proof, of this work; it covers what it confirms unless the work threw. */
  ghost predicate MovedBy(before: seq<Proof>, after: seq<Proof>, work: Work) {
    && |after| == |before| + 1 && before <= after && after[|before|].work == work
    && (Finished(work) <==> !Threw(work))
  }

  ghost predicate SettlesUnseen(c: Cycle, reached: bool, dirty: map<Key, nat>) {
    && (c.useRemote ==> c.incremental.Some?)
    && forall k :: k in dirty ==>
      (!(reached && c.LooksAt(k)) <==> !reached || (c.useRemote && k !in DeltaKeys(c.incremental.value.changes)))
  }

  lemma UnseenIs(c: Cycle, dirty: map<Key, nat>)
    requires (c.useRemote ==> c.incremental.Some?) && (c.localKeys == {} || c.localKeys == dirty.Keys)
    ensures SettlesUnseen(c, true, dirty) && SettlesUnseen(c, false, dirty)
  {
    forall k | k in dirty ensures !c.LooksAt(k) <==> c.useRemote && k !in DeltaKeys(c.incremental.value.changes) {
      SettledUnseenIff(c, true, dirty, k);
    }
  }

  /** Newly excused marks stand for own writes or what they replaced; newly lost ones are later, and for neither. */
  ghost predicate DroppedOnlyOwn(excused: set<Mark>, excusedNow: set<Mark>, lost: set<Mark>, lostNow: set<Mark>,
      writes: map<Key, OwnWrite>, version: nat) {
    && (forall m :: m in excusedNow && m !in excused ==> m.key in writes && Answered(m, m.key, writes[m.key]))
    && (forall m :: m in lostNow && m !in lost ==>
      m.key in writes && (Pending(m, m.key, writes[m.key], version) || TakenForOwn(m, m.key, writes[m.key])))
  }

  lemma NothingDropped(excused: set<Mark>, lost: set<Mark>, writes: map<Key, OwnWrite>, version: nat)
    ensures DroppedOnlyOwn(excused, excused, lost, lost, writes, version)
  {
  }

  lemma DropsAdd(e: set<Mark>, f: set<Mark>, g: set<Mark>, l: set<Mark>, m: set<Mark>, n: set<Mark>,
      writes: map<Key, OwnWrite>, version: nat, key: Key)
    requires DroppedOnlyOwn(e, f, l, m, writes, version) && key in writes
    requires forall x :: x in g && x !in f ==> Answered(x, key, writes[key])
    requires forall x :: x in n && x !in m ==> Pending(x, key, writes[key], version) || TakenForOwn(x, key, writes[key])
    ensures DroppedOnlyOwn(e, g, l, n, writes, version)
  {
  }

  lemma DropsSince(e: set<Mark>, f: set<Mark>, l: set<Mark>, m: set<Mark>, writes: map<Key, OwnWrite>, later: nat,
      version: nat)
    requires DroppedOnlyOwn(e, f, l, m, writes, later) && version <= later
    ensures DroppedOnlyOwn(e, f, l, m, writes, version)
  {
  }

  /** The key was marked after the version the cycle started at. */
  predicate MarkedSince(dirty: map<Key, nat>, key: Key, start: nat) { key in dirty && dirty[key] > start }

  lemma MarkStays(a: View, b: View, key: Key, start: nat)
    requires Sane(a) && Later(a, b) && MarkedSince(a.dirty, key, start)
    ensures MarkedSince(b.dirty, key, start)
  {
  }

  /**
   * The check that may throw is asked for whenever an own write's event was marked, which is what a write causes:
   * the executor saves a file at any time of a cycle, and its event marks it.
   */
  lemma OwnEventIsChecked(v: View, writes: map<Key, OwnWrite>, key: Key, own: Stamp, start: nat)
    requires Sane(v) && OwnMarks(v, writes) && (key, own) !in v.used && start <= v.version
    ensures var w := Marked(Saved(v, key, own), {key}); var noted := writes[key := OwnWrite(own, own, v.version)];
      Later(v, w) && Sane(w) && OwnMarks(w, noted) && key in noted && MarkedSince(w.dirty, key, start)
  {
    hide Sane, Later, OwnMarks;
    SavedIsLater(v, key, own);
    OwnWriteIsNoted(v, writes, key, own);
    MarkedIsLater(Saved(v, key, own), {key});
    LaterTrans(v, Saved(v, key, own), Marked(Saved(v, key, own), {key}));
    OwnMarksLast(Saved(v, key, own), Marked(Saved(v, key, own), {key}), writes[key := OwnWrite(own, own, v.version)]);
    assert key in {key};
  }

  lemma NothingYet(v: View)
    ensures OwnMarks(v, map[])
  {
  }

  lemma OwnMarksOnward(a: View, b: View, writes: map<Key, OwnWrite>)
    requires Onward(a, b) && OwnMarks(a, writes)
    ensures OwnMarks(b, writes)
  {
    OwnMarksLast(a, b.(reconciled := a.reconciled, proofs := a.proofs), writes);
    forall k | k in writes ensures OwnSince(b, k, writes[k]) {
      assert OwnSince(b.(reconciled := a.reconciled, proofs := a.proofs), k, writes[k]);
    }
  }

  lemma OwnMarksElsewhere(a: View, b: View, writes: map<Key, OwnWrite>)
    requires b == a.(queue := b.queue, held := b.held) && OwnMarks(a, writes)
    ensures OwnMarks(b, writes)
  {
    forall k | k in writes ensures OwnSince(b, k, writes[k]) { assert OwnSince(a, k, writes[k]); }
  }

  lemma LastProof(v: View, before: View, work: Work)
    requires Sane(v) && |v.proofs| == |before.proofs| + 1 ==>
      before.proofs <= v.proofs && v.proofs[|before.proofs|].work == work
    ensures Sane(v) && |v.proofs| == |before.proofs| + 1 ==> MovedBy(before.proofs, v.proofs, work)
  {
    if Sane(v) && |v.proofs| == |before.proofs| + 1 { assert ProofOk(v.proofs[|before.proofs|]); }
  }

  lemma RaisedSoFar(results: seq<Result>, r: Result)
    ensures SomeRaised(results + [r]) <==> SomeRaised(results) || r.Raised?
  {
    var all := results + [r];
    if r.Raised? { assert all[|results|].Raised?; }
    if SomeRaised(results) {
      var i :| 0 <= i < |results| && results[i].Raised?;
      assert all[i].Raised?;
    }
  }

  class SyncScheduler {
    var state: State
    var stopped: bool
    var configGeneration: nat
    var syncDirtyVersion: nat
    var dirty: map<Key, nat>
    var debounceTimer: Option<nat>
    var retryTimer: Option<nat>
    var retryDelay: nat
    var pendingReason: Option<Reason>
    var rerunRequested: bool
    var rerunReason: Option<Reason>
    var incrementalStateTrusted: bool
    var pendingRemoteChanges: seq<Delta>

    /** The surroundings: whether the app is visible, the armed timers, the Gateway cursor and the channel. */
    var visible: bool
    var armed: map<nat, Alarm>
    var nextHandle: nat
    var highestAnnounced: nat
    var lastReconciled: nat
    var published: nat
    /** The Vault: every file's current version, and every version each file ever had. */
    var files: map<Key, Stamp>
    var used: set<(Key, Stamp)>

    ghost var landed: set<nat>
    ghost var marks: set<Mark>
    ghost var finished: nat
    ghost var excused: set<Mark>
    ghost var lost: set<Mark>
    ghost var held: Option<Delta>
    ghost var proofs: seq<Proof>
    /** A cycle is running. */
    ghost var active: bool
    /** A cycle died before its end was reached. */
    ghost var wedged: bool
    /** How many cycles ever started. */
    ghost var cycles: nat

    ghost function Now(): View
      reads this`dirty, this`syncDirtyVersion, this`marks, this`finished, this`excused, this`lost, this`files,
        this`used,
        this`pendingRemoteChanges, this`held,
        this`highestAnnounced, this`published, this`landed, this`lastReconciled, this`proofs
    {
      View(dirty, syncDirtyVersion, marks, finished, excused, lost, files, used,
           pendingRemoteChanges, held, highestAnnounced, published, landed, lastReconciled, proofs)
    }

    /** At most one cycle timer is armed, and the scheduler holds its handle. */
    ghost predicate Alarms()
      reads this`armed, this`nextHandle, this`debounceTimer, this`retryTimer
    {
      && (forall h :: h in armed ==> h < nextHandle && (armed[h].RunsCycle? ==> debounceTimer == Some(h)))
      && (debounceTimer.Some? ==> debounceTimer.value in armed && armed[debounceTimer.value].RunsCycle?)
      && (retryTimer.Some? ==> retryTimer.value < nextHandle && retryTimer != debounceTimer)
    }

    /** Single flight: `running` holds exactly while a cycle is active, or after one died in mid-flight. */
    ghost predicate Flight()
      reads this`armed, this`nextHandle, this`debounceTimer, this`retryTimer, this`retryDelay, this`state, this`active,
        this`wedged, this`held
    {
      && Alarms() && (state == Running ==> debounceTimer.None?)
      && !(active && wedged) && (state == Running <==> active || wedged)
      && RETRY_INITIAL <= retryDelay <= RETRY_MAX && (!active ==> held.None?)
    }

    ghost predicate Valid()
      reads this
    {
      Flight() && Sane(Now())
    }

    constructor (reconciled: nat, ghost landed: set<nat>)
      requires forall g :: 1 <= g <= reconciled ==> g in landed
      ensures Valid() && state == Idle && !active && !wedged && dirty == map[] && lastReconciled == reconciled
    {
      state, stopped, configGeneration, syncDirtyVersion, dirty := Idle, false, 0, 0, map[];
      debounceTimer, retryTimer, retryDelay, pendingReason := None, None, RETRY_INITIAL, None;
      rerunRequested, rerunReason, incrementalStateTrusted, pendingRemoteChanges := false, None, false, [];
      visible, armed, nextHandle := true, map[], 0;
      highestAnnounced, lastReconciled, published := reconciled, reconciled, reconciled;
      files, used := map[], {};
      this.landed, marks, finished, excused, lost, held := landed, {}, 0, {}, {}, None;
      proofs := [ByWindow(reconciled, reconciled, landed, Work(true, []))];
      active, wedged, cycles := false, false, 0;
      new;
      forall g | 1 <= g <= reconciled ensures HasProof(proofs, g) { assert Confirms(proofs[0], g); }
    }

    /** The cycle timer is armed for this reason. */
    ghost predicate Armed(reason: Reason, delay: nat)
      reads this`pendingReason, this`debounceTimer, this`armed
    {
      pendingReason == Some(reason) && debounceTimer.Some? && debounceTimer.value in armed &&
        armed[debounceTimer.value] == RunsCycle(delay)
    }

    // ---- timers ----

    method ClearDebounce()
      requires Alarms()
      modifies this`debounceTimer, this`armed
      ensures Alarms() && debounceTimer.None? && forall h :: h in armed ==> armed[h].Retries?
    {
      if debounceTimer.Some? { armed := armed - {debounceTimer.value}; }
      debounceTimer := None;
    }

    method ClearRetry()
      requires Alarms()
      modifies this`retryTimer, this`armed
      ensures Alarms() && retryTimer.None?
    {
      if retryTimer.Some? { armed := armed - {retryTimer.value}; }
      retryTimer := None;
    }

    method ClearTimers()
      requires Alarms()
      modifies this`debounceTimer, this`retryTimer, this`armed
      ensures Alarms() && debounceTimer.None? && retryTimer.None?
    {
      ClearDebounce();
      ClearRetry();
    }

    method ScheduleDebounce(delay: nat)
      requires Alarms()
      modifies this`state, this`debounceTimer, this`armed, this`nextHandle
      ensures Alarms() && state == Debouncing && debounceTimer.Some? && debounceTimer.value in armed &&
        armed[debounceTimer.value] == RunsCycle(delay)
    {
      ClearDebounce();
      state := Debouncing;
      armed, debounceTimer, nextHandle := armed[nextHandle := RunsCycle(delay)], Some(nextHandle), nextHandle + 1;
    }

    method ScheduleRerun()
      requires Alarms()
      modifies this`state, this`debounceTimer, this`armed, this`nextHandle
      ensures Alarms() && state == RerunPending && debounceTimer.Some? && debounceTimer.value in armed &&
        armed[debounceTimer.value] == RunsCycle(LOCAL_DEBOUNCE)
    {
      ClearDebounce();
      state := RerunPending;
      armed, debounceTimer, nextHandle := armed[nextHandle := RunsCycle(LOCAL_DEBOUNCE)], Some(nextHandle), nextHandle
        + 1;
    }

    /** A retry timer goes off, whether or not the scheduler still holds its handle. */
    method Expire(h: nat)
      requires Alarms() && h in armed && armed[h].Retries?
      modifies this`retryTimer, this`armed
      ensures Alarms() && retryTimer.None?
    {
      armed := armed - {h};
      retryTimer := None;
    }

    // ---- events ----

    /** A reason that arrives during a cycle is kept for its end; otherwise it arms the one cycle timer. */
    method RequestReconcile(reason: Reason)
      requires Flight()
      modifies this`rerunRequested, this`rerunReason, this`pendingReason, this`state, this`debounceTimer, this`armed,
        this`nextHandle
      ensures Flight() && (state == Running <==> old(state) == Running)
      ensures if stopped || !visible || old(state) == BlockedByAuth || old(state) == Running
              then state == old(state) && debounceTimer == old(debounceTimer) && armed == old(armed) &&
                pendingReason == old(pendingReason)
              else state == Debouncing && Armed(reason, DelayFor(reason))
      ensures if !stopped && visible && old(state) == Running then rerunRequested && rerunReason == Some(reason)
              else rerunRequested == old(rerunRequested) && rerunReason == old(rerunReason)
    {
      if stopped || !visible || state == BlockedByAuth { return; }
      if state == Running {
        rerunRequested, rerunReason := true, Some(reason);
        return;
      }
      pendingReason := Some(reason);
      ScheduleDebounce(DelayFor(reason));
    }

    /** The Gateway announces a generation; only one that advances the cursor is passed on. */
    method Announce(generation: nat, changes: seq<Change>)
      requires Valid() && generation <= published
      modifies this`highestAnnounced, this`pendingRemoteChanges, this`rerunRequested, this`rerunReason,
        this`pendingReason, this`state,
        this`debounceTimer, this`armed, this`nextHandle
      ensures Valid() && Later(old(Now()), Now()) && (state == Running <==> old(state) == Running)
      ensures generation > old(highestAnnounced) ==> Now() == Queued(old(Now()), generation, changes)
      ensures generation <= old(highestAnnounced) ==> Now() == old(Now()) && state == old(state) && armed == old(armed)
      ensures generation <= old(highestAnnounced) ==>
        pendingReason == old(pendingReason) && rerunRequested == old(rerunRequested) && rerunReason == old(rerunReason)
    {
      hide Armed, Sane, Later, Alarms, Flight;
      LaterRefl(Now());
      if generation > highestAnnounced {
        RequestRemoteChange(generation, changes);
        RequestReconcile(RemoteChange);
      }
    }

    /** The queue half of an announcement. A generation above every announced one cannot be queued already. */
    method RequestRemoteChange(generation: nat, changes: seq<Change>)
      requires Sane(Now()) && highestAnnounced < generation <= published
      modifies this`highestAnnounced, this`pendingRemoteChanges
      ensures Sane(Now()) && Later(old(Now()), Now()) && Now() == Queued(old(Now()), generation, changes)
    {
      hide Sane, Later;
      QueuedIsLater(Now(), generation, changes);
      highestAnnounced := generation;
      pendingRemoteChanges := pendingRemoteChanges + if changes == [] then [] else [Delta(generation, changes)];
    }

    /** `keys` are the relevant canonical paths of the event. */
    method MarkLocalPaths(keys: set<Key>, reason: Reason) returns (marked: bool)
      requires Valid()
      modifies this`syncDirtyVersion, this`dirty, this`marks, this`rerunRequested, this`rerunReason, this`pendingReason,
        this`state,
        this`debounceTimer, this`armed, this`nextHandle
      ensures Valid() && Later(old(Now()), Now()) && (state == Running <==> old(state) == Running)
      ensures marked <==> keys != {}
      ensures marked ==>
        syncDirtyVersion == old(syncDirtyVersion) + 1 && dirty == MarkAll(old(dirty), keys, syncDirtyVersion)
    {
      hide Armed, Sane, Later, Alarms, Flight, MarkAll, Now;
      LaterRefl(Now());
      marked := keys != {};
      if marked {
        RecordMarks(keys);
        RequestReconcile(reason);
      }
    }

    method RecordMarks(keys: set<Key>)
      requires Sane(Now())
      modifies this`syncDirtyVersion, this`dirty, this`marks
      ensures Sane(Now()) && Later(old(Now()), Now())
      ensures syncDirtyVersion == old(syncDirtyVersion) + 1 && dirty == MarkAll(old(dirty), keys, syncDirtyVersion)
    {
      hide Sane, Later;
      MarkedIsLater(Now(), keys);
      ghost var was := Now();
      syncDirtyVersion := syncDirtyVersion + 1;
      dirty := MarkAll(dirty, keys, syncDirtyVersion);
      marks := Marked(was, keys).marks;
    }

    method ConfigChanged()
      requires Valid()
      modifies this`configGeneration, this`retryTimer, this`retryDelay, this`rerunRequested, this`rerunReason,
        this`pendingReason, this`state,
        this`debounceTimer, this`armed, this`nextHandle
      ensures Valid() && configGeneration == old(configGeneration) + 1 && (state == Running <==> old(state) == Running)
      ensures old(state) != Running && !stopped && visible ==> Armed(ConfigChange, CONFIG_DEBOUNCE)
      ensures state != BlockedByAuth
    {
      hide Armed, Sane, Later, Alarms, Flight, Now;
      Reconfigure();
      if !stopped && visible { RequestReconcile(ConfigChange); }
    }

    method Reconfigure()
      requires Flight()
      modifies this`configGeneration, this`retryTimer, this`retryDelay, this`state, this`debounceTimer, this`armed
      ensures Flight() && debounceTimer.None? && configGeneration == old(configGeneration) + 1 &&
        retryDelay == RETRY_INITIAL
      ensures state == if old(state) == BlockedByAuth then Idle else old(state)
    {
      hide Alarms;
      configGeneration := configGeneration + 1;
      if state == BlockedByAuth { state := Idle; }
      ClearTimers();
      retryDelay := RETRY_INITIAL;
    }

    method VisibilityChanged(nowVisible: bool)
      requires Valid()
      modifies this`incrementalStateTrusted, this`retryTimer, this`rerunRequested, this`rerunReason, this`pendingReason,
        this`state,
        this`debounceTimer, this`armed, this`nextHandle
      ensures Valid() && (state == Running <==> old(state) == Running)
      ensures !nowVisible ==> !incrementalStateTrusted && debounceTimer.None?
      ensures nowVisible && !stopped && visible && old(state) != Running && old(state) != BlockedByAuth ==>
        Armed(ForegroundResume, 0)
    {
      hide Armed, Sane, Later, Alarms, Flight, Now;
      if !nowVisible {
        Disarm();
      } else if state != BlockedByAuth {
        RequestReconcile(ForegroundResume);
      }
    }

    /** A hidden app arms nothing and no longer trusts its incremental state. */
    method Disarm()
      requires Flight()
      modifies this`incrementalStateTrusted, this`retryTimer, this`state, this`debounceTimer, this`armed
      ensures Flight() && !incrementalStateTrusted && debounceTimer.None? &&
        (state == Running <==> old(state) == Running)
    {
      hide Alarms;
      incrementalStateTrusted := false;
      ClearTimers();
      if state == Debouncing { state := Idle; }
    }

    method Stop()
      requires Valid()
      modifies this`stopped, this`retryTimer, this`state, this`debounceTimer, this`armed
      ensures Valid() && stopped && (state == Running <==> old(state) == Running) && debounceTimer.None?
    {
      hide Sane, Later, Alarms, Now;
      stopped := true;
      ClearTimers();
      if state != Running { state := Idle; }
    }

    method FireRetry(h: nat)
      requires Valid() && h in armed && armed[h].Retries?
      modifies this`retryTimer, this`rerunRequested, this`rerunReason, this`pendingReason, this`state,
        this`debounceTimer, this`armed, this`nextHandle
      ensures Valid() && (state == Running <==> old(state) == Running)
    {
      hide Armed, Sane, Later, Alarms, Now;
      Expire(h);
      RequestReconcile(Retry);
    }

    /** One event, other than the cycle timer firing. */
    method Event()
      requires Valid()
      modifies this
      ensures Valid() && Later(old(Now()), Now()) && (state == Running <==> old(state) == Running)
      ensures active == old(active) && wedged == old(wedged) && cycles == old(cycles)
    {
      hide Sane, Alarms, Later, Flight, Armed, Now, Queued;
      LaterRefl(Now());
      var pick: int := *;
      var reason: Reason := *;
      var keys: set<Key> := *;
      if pick == 0 {
        RequestReconcile(reason);
      } else if pick == 1 {
        var marked := MarkLocalPaths(keys, reason);
      } else if pick == 2 {
        ConfigChanged();
      } else if pick == 3 {
        Stop();
      } else {
        OutsideEvent();
      }
    }

    /** The application, a retry timer, the Gateway or another device. */
    method OutsideEvent()
      requires Valid()
      modifies this
      ensures Valid() && Later(old(Now()), Now()) && (state == Running <==> old(state) == Running)
      ensures active == old(active) && wedged == old(wedged) && cycles == old(cycles)
    {
      hide Sane, Alarms, Later, Flight, Armed, Now, Queued;
      LaterRefl(Now());
      var pick: int := *;
      var changes: seq<Change> := *;
      var number: nat := *;
      var flag: bool := *;
      var key: Key := *;
      var stamp: Stamp := *;
      if pick == 0 {
        VisibilityChanged(flag);
      } else if pick == 5 && (key, stamp) !in used {
        Save(key, stamp);
      } else if pick == 6 {
        Remove(key);
      } else if pick == 1 {
        visible := flag;
      } else if pick == 2 && number in armed && armed[number].Retries? {
        FireRetry(number);
      } else if pick == 3 && number <= published {
        Announce(number, changes);
      } else if pick == 4 {
        LandOne(number);
      } else {
        PublishNext();
      }
    }

    /** A file is saved, by the user or by the executor; its event comes later, if at all. */
    method Save(key: Key, stamp: Stamp)
      requires Valid() && (key, stamp) !in used
      modifies this`files, this`used
      ensures Valid() && Later(old(Now()), Now()) && Now() == Saved(old(Now()), key, stamp)
    {
      hide Sane, Later, Alarms;
      SavedIsLater(Now(), key, stamp);
      files, used := files[key := stamp], used + {(key, stamp)};
    }

    method Remove(key: Key)
      requires Valid()
      modifies this`files
      ensures Valid() && Later(old(Now()), Now())
    {
      hide Sane, Later, Alarms;
      RemovedIsLater(Now(), key);
      files := files - {key};
    }

    ghost method LandOne(number: nat)
      requires Valid()
      modifies this`landed
      ensures Valid() && Later(old(Now()), Now())
    {
      landed := landed + {number};
    }

    /** The next generation is published once its write has landed. */
    method PublishNext()
      requires Valid()
      modifies this`published, this`landed
      ensures Valid() && Later(old(Now()), Now())
    {
      landed := landed + {published + 1};
      published := published + 1;
    }

    /** Whatever happens during an await. */
    method Await()
      requires Valid()
      modifies this
      ensures Valid() && Later(old(Now()), Now()) && (state == Running <==> old(state) == Running)
      ensures active == old(active) && wedged == old(wedged) && cycles == old(cycles)
    {
      hide Sane, Alarms, Later;
      LaterRefl(Now());
      var events: int := *;
      while events > 0
        invariant Valid() && Later(old(Now()), Now()) && (state == Running <==> old(state) == Running)
        invariant active == old(active) && wedged == old(wedged) && cycles == old(cycles)
      {
        ghost var was := Now();
        Event();
        LaterTrans(old(Now()), was, Now());
        events := events - 1;
      }
    }

    // ---- one cycle ----

    predicate ShouldStop(generation: nat)
      reads this
    {
      stopped || !visible || configGeneration != generation
    }

    /** Something that may go either way. */
    method Perhaps() returns (b: bool) {
      b := *;
    }

    /** A cycle starts: the reason is consumed, and a trusted cursor takes the next delta off the queue. */
    method Begin() returns (c: Cycle)
      requires Valid() && state != Running && debounceTimer.None?
      modifies this`pendingReason, this`rerunRequested, this`rerunReason, this`state, this`active, this`cycles,
        this`pendingRemoteChanges, this`held
      ensures Valid() && active && cycles == old(cycles) + 1 && c.startVersion == syncDirtyVersion
      ensures held == (if c.useRemote then c.incremental else None)
      ensures c.useRemote ==> c.incremental.Some? && c.incremental.value.generation == lastReconciled + 1
      ensures c.reason == (if old(pendingReason).Some? then old(pendingReason).value else LocalEvent) &&
        c.generation == configGeneration
      ensures pendingReason.None? && !rerunRequested && rerunReason.None?
      ensures c.localKeys == if c.reason == LocalEvent || c.reason == EditorChange then dirty.Keys else {}
    {
      hide Sane, Alarms;
      var reason := if pendingReason.Some? then pendingReason.value else LocalEvent;
      Enter();
      var incremental, useRemote := TakeDelta(reason == RemoteChange && incrementalStateTrusted);
      var localKeys := if reason == LocalEvent || reason == EditorChange then dirty.Keys else {};
      c := Cycle(reason, syncDirtyVersion, configGeneration, incremental, useRemote, localKeys);
    }

    method Enter()
      requires Flight() && state != Running && debounceTimer.None?
      modifies this`pendingReason, this`rerunRequested, this`rerunReason, this`state, this`active, this`cycles
      ensures Flight() && active && cycles == old(cycles) + 1 && pendingReason.None? && !rerunRequested &&
        rerunReason.None?
    {
      hide Alarms;
      pendingReason, rerunRequested, rerunReason, state := None, false, None, Running;
      active, cycles := true, cycles + 1;
    }

    /** `canApplyIncrementally`: the delta is used only as the exact next generation after the confirmed one. */
    method TakeDelta(trusted: bool) returns (incremental: Option<Delta>, useRemote: bool)
      requires Sane(Now()) && held.None?
      modifies this`pendingRemoteChanges, this`held
      ensures Sane(Now()) && held == (if useRemote then incremental else None)
      ensures useRemote ==> incremental.Some? && incremental.value.generation == lastReconciled + 1
      ensures incremental.Some? <==> trusted && old(pendingRemoteChanges) != []
      ensures old(pendingRemoteChanges) == (if incremental.Some? then [incremental.value] else [])
        + pendingRemoteChanges
    {
      hide Sane;
      var reachable := Perhaps();
      incremental := if trusted && pendingRemoteChanges != [] then Some(pendingRemoteChanges[0]) else None;
      useRemote := incremental.Some? && reachable && incremental.value.generation == lastReconciled + 1;
      TakeIsSane(Now(), incremental.Some?, useRemote);
      if incremental.Some? {
        held := if useRemote then incremental else None;
        pendingRemoteChanges := pendingRemoteChanges[1..];
      }
    }

    /** Opening boundary and observations; `seen` is what the remote listing found, `observed` that nothing threw. */
    method Observe(c: Cycle) returns (h: Handshake, t: Tally, ghost seen: set<nat>, ghost observed: bool)
      requires Valid() && active
      modifies this
      ensures Valid() && active && !wedged && cycles == old(cycles) && Later(old(Now()), Now())
      ensures t.(failure := None) in {NO_TALLY, NO_TALLY.(halted := true), NO_TALLY.(thrown := true)} &&
        (observed <==> !t.thrown)
      ensures t.failure.Some? <==> t.thrown
      ensures h.start.Some? ==> !c.useRemote && !c.UseLocal() && h.start.value <= published
      ensures h.start.Some? && observed ==> t.halted || forall g :: 1 <= g <= h.start.value ==> g in seen
    {
      hide Sane, Alarms, Later;
      h, t, seen, observed := Handshake(None, false), NO_TALLY, {}, true;
      ghost var was := Now();
      LaterRefl(was);
      if ShouldStop(c.generation) {
        t := t.(halted := true);
      } else {
        if !c.useRemote && !c.UseLocal() { h, seen := OpenWindow(c); } else { Await(); }
        var thrown := Perhaps();
        var failure: FailureClass := *;
        if thrown {
          t, observed := t.(thrown := true, failure := Some(failure)), false;
        } else if ShouldStop(c.generation) {
          t := t.(halted := true);
        }
      }
    }

    /** The opening read comes before the listing, so the listing finds every write it announces. */
    method OpenWindow(c: Cycle) returns (h: Handshake, ghost seen: set<nat>)
      requires Valid() && active
      modifies this
      ensures Valid() && active && !wedged && cycles == old(cycles) && Later(old(Now()), Now())
      ensures h.start.Some? ==> h.start.value <= published && forall g :: 1 <= g <= h.start.value ==> g in seen
      ensures h == Handshake(None, false) <==> c.reason != RemoteChange && old(highestAnnounced) <= old(lastReconciled)
    {
      hide Alarms, Later;
      h := Handshake(None, false);
      ghost var was := Now();
      LaterRefl(was);
      if c.reason == RemoteChange || highestAnnounced > lastReconciled {
        Await();
        var answered := Perhaps();
        h := if answered then Handshake(Some(published), false) else Handshake(None, true);
      }
      ghost var atOpening := Now();
      LandedAnnounced(atOpening);
      Await();
      LaterTrans(was, atOpening, Now());
      SeesLanded(atOpening, Now());
      ghost var listed := Now();
      seen := landed;
      Await();
      LaterTrans(was, listed, Now());
      SeesLanded(listed, Now());
    }

    /** The operation loop: every result is counted once, in order; an exception ends it uncounted. */
    method Operate(c: Cycle) returns (t: Tally, writes: map<Key, OwnWrite>, ghost results: seq<Result>)
      requires Valid() && active
      modifies this
      ensures Valid() && active && !wedged && cycles == old(cycles) && Later(old(Now()), Now())
      ensures IsRemoteObservationComplete(t) <==> !t.halted && IsRemoteObservationComplete(TallyOf(results))
      ensures t.counts == TallyOf(results).counts && t.stale == TallyOf(results).stale &&
        (TallyOf(results).halted ==> t.halted)
      ensures t.thrown <==> SomeRaised(results)
      ensures OwnMarks(Now(), writes)
    {
      hide Sane, Alarms, Later, Absorb, OwnMarks, SomeRaised, Agree;
      t, writes, results := NO_TALLY, map[], [];
      ghost var was := Now();
      LaterRefl(was);
      NothingYet(was);
      NothingRaisedYet();
      var operations: int := *;
      while operations > 0 && !t.halted && !t.thrown
        invariant Valid() && active && !wedged && cycles == old(cycles) && Later(was, Now()) && OwnMarks(Now(), writes)
        invariant Agree(t, results) && (t.thrown <==> SomeRaised(results))
      {
        operations := operations - 1;
        if ShouldStop(c.generation) {
          HaltingAgrees(t, results, Stable);
          t := t.(halted := true);
        } else {
          ghost var earlier := Now();
          var result;
          result, writes := ApplyOne(writes);
          LaterTrans(was, earlier, Now());
          t, results := CountResult(t, results, result, c.generation);
        }
      }
      AgreesOnCompleteness(t, results);
      AgreeMeans(t, results);
    }

    method CountResult(before: Tally, ghost counted: seq<Result>, result: Result, generation: nat)
        returns (t: Tally, ghost results: seq<Result>)
      requires Agree(before, counted) && !before.thrown && !SomeRaised(counted)
      ensures results == counted + [result] && Agree(t, results) && (t.thrown <==> SomeRaised(results))
      ensures t == (if result.Raised? then before.(thrown := true, failure := t.failure)
                    else if ShouldStop(generation) then Absorb(before, result).(halted := true)
                      else Absorb(before, result))
    {
      hide Agree, SomeRaised;
      results := counted + [result];
      RaisedSoFar(counted, result);
      AgreeOnOneMore(before, counted, result);
      if result.Raised? {
        var failure: FailureClass := *;
        HaltingAgrees(before, results, failure);
        t := before.(thrown := true, failure := Some(failure));
      } else {
        t := Absorb(before, result);
        HaltingAgrees(t, results, Stable);
        if ShouldStop(generation) { t := t.(halted := true); }
      }
    }

    /** One operation; what it writes to the Vault it writes under a version of its own. */
    method ApplyOne(before: map<Key, OwnWrite>) returns (result: Result, writes: map<Key, OwnWrite>)
      requires Valid() && active && OwnMarks(Now(), before)
      modifies this
      ensures Valid() && active && !wedged && cycles == old(cycles) && Later(old(Now()), Now()) &&
        OwnMarks(Now(), writes)
    {
      hide Sane, Alarms, Later, OwnMarks;
      ghost var was := Now();
      writes := before;
      Await();
      OwnMarksLast(was, Now(), writes);
      result := *;
      var key: Key := *;
      var written: Stamp := *;
      if result.Applied? && result.localWrite.Some? && (key, written) !in used {
        ghost var earlier := Now();
        writes := WriteFile(writes, key, written);
        LaterTrans(was, earlier, Now());
        result := result.(localWrite := Some(writes[key].stamp));
      } else if result.Applied? {
        result := result.(localWrite := None);
      }
      ghost var earlier := Now();
      Await();
      OwnMarksLast(earlier, Now(), writes);
      LaterTrans(was, earlier, Now());
    }

    /** The executor's own write, and the stamp it reports: what it wrote, or what it reads back a moment later. */
    method WriteFile(before: map<Key, OwnWrite>, key: Key, written: Stamp) returns (writes: map<Key, OwnWrite>)
      requires Valid() && active && OwnMarks(Now(), before) && (key, written) !in used
      modifies this
      ensures Valid() && active && !wedged && cycles == old(cycles) && Later(old(Now()), Now()) &&
        OwnMarks(Now(), writes)
      ensures key in writes && writes[key].written == written
      ensures writes == before[key := writes[key]]
    {
      hide Sane, Alarms, Later, OwnMarks;
      OwnWriteIsNoted(Now(), before, key, written);
      ghost var earlier := Now();
      Save(key, written);
      writes := before[key := OwnWrite(written, written, syncDirtyVersion)];
      ghost var saved := Now();
      Await();
      LaterTrans(earlier, saved, Now());
      OwnMarksLast(saved, Now(), writes);
      var readsBack := Perhaps();
      if readsBack && key in files {
        ReportedStampIsNoted(Now(), writes, key);
        writes := writes[key := writes[key].(stamp := files[key])];
      }
    }

    /** `confirmReconciled`: the cursor moves, then the move is stored. */
    method ConfirmReconciled(generation: nat, ghost proof: Proof)
      requires Valid() && active && Sane(Reconciled(Now(), generation, proof))
      modifies this
      ensures Valid() && active && !wedged && cycles == old(cycles) && Onward(old(Now()), Now())
      ensures proofs == old(proofs) + [proof] && lastReconciled >= generation
    {
      hide Sane, Alarms, Later;
      ghost var was := Now();
      if generation > lastReconciled { lastReconciled := generation; }
      proofs := proofs + [proof];
      ghost var moved := Now();
      Await();
      LaterKeeps(moved, Now());
      OnwardFrom(was, moved, Now());
    }

    /** The exit boundary: a delta confirms its own generation, a full window the one it opened with. */
    method Conclude(c: Cycle, h: Handshake, t: Tally, ghost seen: set<nat>, ghost work: Work) returns (outcome: Outcome)
      requires Valid() && active &&
        (c.useRemote ==>
        c.incremental.Some? && held == c.incremental && c.incremental.value.generation == lastReconciled + 1)
      requires h.start.Some? ==> !c.useRemote && h.start.value <= published
      requires IsRemoteObservationComplete(t) ==> IsRemoteObservationComplete(TallyOf(work.results))
      requires h.start.Some? && work.observed && !t.halted ==> forall g :: 1 <= g <= h.start.value ==> g in seen
      modifies this
      ensures Valid() && active && !wedged && cycles == old(cycles) && Onward(old(Now()), Now())
      // A delta is confirmed exactly on a complete tally, whatever raised; a window only with equal boundaries.
      ensures c.useRemote ==> (outcome.Reconfirmed? <==> IsRemoteObservationComplete(t))
      ensures outcome.Reconfirmed? && c.useRemote ==>
        c.incremental == Some(Delta(outcome.generation, c.incremental.value.changes))
      ensures outcome.Reconfirmed? && c.useRemote ==>
        proofs == old(proofs) + [ByDelta(outcome.generation, old(lastReconciled), c.incremental.value.changes, work)]
      ensures outcome.Reconfirmed? && !c.useRemote ==>
        IsRemoteObservationComplete(t) && h.start == Some(outcome.generation)
      ensures outcome.Reconfirmed? && !c.useRemote ==> outcome.generation == old(published)
      ensures outcome.Reconfirmed? && !c.useRemote ==>
        proofs == old(proofs) + [ByWindow(outcome.generation, outcome.generation, seen, work)]
      ensures !outcome.Reconfirmed? ==> proofs == old(proofs) && lastReconciled == old(lastReconciled)
    {
      hide Sane, Alarms, Later;
      ghost var was := Now();
      LaterRefl(was);
      OnwardRefl(was, was);
      if c.useRemote {
        outcome := ObservationIncomplete;
        if IsRemoteObservationComplete(t) {
          HeldIsPublished(Now());
          DeltaCovers(Now(), c.incremental.value.generation, c.incremental.value.changes, work);
          ConfirmReconciled(c.incremental.value.generation,
            ByDelta(c.incremental.value.generation, lastReconciled, c.incremental.value.changes, work));
          outcome := Reconfirmed(c.incremental.value.generation);
        }
      } else {
        outcome := ConfirmGeneration(h, t, seen, work);
        ghost var confirmed := Now();
        // Best-effort notification of the other devices.
        Await();
        LaterKeeps(confirmed, Now());
        OnwardThen(was, confirmed, Now());
      }
    }

    method ConfirmGeneration(h: Handshake, t: Tally, ghost seen: set<nat>, ghost work: Work) returns (outcome: Outcome)
      requires Valid() && active
      requires h.start.Some? ==> h.start.value <= published
      requires IsRemoteObservationComplete(t) ==> IsRemoteObservationComplete(TallyOf(work.results))
      requires h.start.Some? && work.observed && !t.halted ==> forall g :: 1 <= g <= h.start.value ==> g in seen
      modifies this
      ensures Valid() && active && !wedged && cycles == old(cycles) && Onward(old(Now()), Now())
      // The recorded window closed with the generation it opened with.
      ensures outcome.Reconfirmed? ==> IsRemoteObservationComplete(t) && h.start == Some(outcome.generation)
      ensures outcome.Reconfirmed? ==>
        proofs == old(proofs) + [ByWindow(outcome.generation, outcome.generation, seen, work)]
      // The closing read is at least as late: nothing was published from the opening read until here.
      ensures outcome.Reconfirmed? ==> outcome.generation == old(published)
      ensures outcome.Mismatch? ==> h.start == Some(outcome.opening) && outcome.closing > outcome.opening
      ensures !outcome.Reconfirmed? ==> proofs == old(proofs) && lastReconciled == old(lastReconciled)
    {
      hide Sane, Alarms, Later;
      ghost var was := Now();
      LaterRefl(was);
      OnwardRefl(was, was);
      if h.start.None? {
        outcome := if h.startFailed then StartUnavailable else NotRequested;
      } else if !IsRemoteObservationComplete(t) {
        outcome := ObservationIncomplete;
      } else {
        Await();
        ghost var read := Now();
        LaterKeeps(was, read);
        OnwardRefl(was, read);
        var answered := Perhaps();
        var closing := published;
        if !answered {
          outcome := NotifyFailed;
        } else if closing != h.start.value {
          outcome := Mismatch(h.start.value, closing);
        } else {
          WindowCovers(Now(), h.start.value, seen, work);
          ConfirmReconciled(h.start.value, ByWindow(h.start.value, closing, seen, work));
          OnwardTrans(was, read, Now());
          outcome := Reconfirmed(h.start.value);
        }
      }
    }

    /** A full confirmation makes the queue obsolete; an unconfirmed delta goes back to its head. */
    method SettleQueue(c: Cycle, outcome: Outcome)
      requires Sane(Now()) && held == (if c.useRemote then c.incremental else None) &&
        (c.useRemote ==> c.incremental.Some?)
      modifies this`incrementalStateTrusted, this`pendingRemoteChanges, this`held
      ensures Sane(Now()) && held.None?
      ensures c.useRemote && !outcome.Reconfirmed? ==>
        pendingRemoteChanges == [c.incremental.value] + old(pendingRemoteChanges)
      ensures !c.useRemote && outcome.Reconfirmed? ==> pendingRemoteChanges == [] && incrementalStateTrusted
      ensures c.useRemote == outcome.Reconfirmed? ==> pendingRemoteChanges == old(pendingRemoteChanges)
    {
      hide Sane;
      PutBackIsSane(Now(), !c.useRemote && outcome.Reconfirmed?, c.useRemote && !outcome.Reconfirmed?);
      if !c.useRemote && outcome.Reconfirmed? {
        incrementalStateTrusted := true;
        pendingRemoteChanges := [];
      }
      if c.useRemote && !outcome.Reconfirmed? { pendingRemoteChanges := [c.incremental.value] + pendingRemoteChanges; }
      held := None;
    }

    /**
     * An event caused by the executor's own write is dropped after its exact version was checked. The check
     * is a `stat` that may throw, and nothing catches it; and the mark is not looked at again after it.
     * `raised` is the key whose check threw.
     */
    method DropOwnEvents(c: Cycle, writes: map<Key, OwnWrite>) returns (raised: Option<Key>)
      requires Valid() && active && c.startVersion <= syncDirtyVersion && OwnMarks(Now(), writes)
      modifies this
      ensures Valid() && active && cycles == old(cycles) && syncDirtyVersion >= old(syncDirtyVersion)
      ensures lastReconciled == old(lastReconciled) && proofs == old(proofs) && finished == old(finished) &&
        held == old(held)
      // Only an own write whose file was marked after the start is checked at all.
      ensures raised.Some? ==> raised.value in writes && MarkedSince(dirty, raised.value, c.startVersion)
      ensures DroppedOnlyOwn(old(excused), excused, old(lost), lost, writes, old(syncDirtyVersion))
    {
      hide Sane, Alarms, Later, OwnMarks, DroppedOnlyOwn;
      raised := None;
      var rest := writes.Keys;
      NothingDropped(excused, lost, writes, syncDirtyVersion);
      while rest != {} && raised.None?
        invariant Valid() && active && cycles == old(cycles) && syncDirtyVersion >= old(syncDirtyVersion) &&
          OwnMarks(Now(), writes)
        invariant lastReconciled == old(lastReconciled) && proofs == old(proofs) && finished == old(finished) &&
          held == old(held)
        invariant rest <= writes.Keys
        invariant raised.Some? ==> raised.value in writes && MarkedSince(dirty, raised.value, c.startVersion)
        invariant DroppedOnlyOwn(old(excused), excused, old(lost), lost, writes, old(syncDirtyVersion))
        decreases |rest|
      {
        var key :| key in rest;
        rest := rest - {key};
        if MarkedSince(dirty, key, c.startVersion) {
          ghost var was := (excused, lost);
          var thrown;
          ghost var found;
          thrown, found := CheckOwnWrite(key, writes, c.startVersion);
          if thrown { raised := Some(key); }
          DropsAdd(old(excused), was.0, excused, old(lost), was.1, lost, writes, old(syncDirtyVersion), key);
        }
      }
    }

    /**
     * The `stat` reads the file as in `found`; its answer arrives later, and more marks may have been made in
     * between. The key leaves exactly if the version read is the one reported.
     */
    method CheckOwnWrite(key: Key, writes: map<Key, OwnWrite>, start: nat) returns (thrown: bool, ghost found: View)
      requires Valid() && active && key in writes && OwnMarks(Now(), writes) && MarkedSince(dirty, key, start)
      modifies this
      ensures Valid() && active && cycles == old(cycles) && syncDirtyVersion >= old(syncDirtyVersion) &&
        OwnMarks(Now(), writes)
      ensures lastReconciled == old(lastReconciled) && proofs == old(proofs) && finished == old(finished) &&
        held == old(held)
      ensures Later(old(Now()), found) && (thrown ==> MarkedSince(dirty, key, start))
      ensures if !thrown && Lookup(found.files, key) == Some(writes[key].stamp)
        then key !in dirty && lost == old(lost) + Swallowed(marks, key, writes[key], found.version)
        else Later(found, Now())
      ensures forall m :: m in excused && m !in old(excused) ==> Answered(m, key, writes[key])
      ensures forall m :: m in lost && m !in old(lost) ==>
        Pending(m, key, writes[key], old(syncDirtyVersion)) || TakenForOwn(m, key, writes[key])
    {
      hide Sane, Alarms, Later, OwnMarks, MarkedSince;
      ghost var was := Now();
      Await();
      LaterKeeps(was, Now());
      MarkStays(was, Now(), key, start);
      OwnMarksLast(was, Now(), writes);
      thrown := Perhaps();
      var matches := Lookup(files, key) == Some(writes[key].stamp);
      found := Now();
      Await();
      LaterKeeps(found, Now());
      MarkStays(found, Now(), key, start);
      OwnMarksLast(found, Now(), writes);
      if matches && !thrown { Drop(key, writes, found); }
    }

    /** Exactly the marks that stand neither for the write nor for what it replaced are lost. */
    method Drop(key: Key, writes: map<Key, OwnWrite>, ghost sampled: View)
      requires Sane(Now()) && Later(sampled, Now()) && OwnMarks(sampled, writes) && OwnMarks(Now(), writes)
      requires key in writes && Lookup(sampled.files, key) == Some(writes[key].stamp)
      modifies this`dirty, this`excused, this`lost
      ensures Sane(Now()) && OwnMarks(Now(), writes) && key !in dirty && dirty == old(dirty) - {key}
      ensures lost == old(lost) + Swallowed(marks, key, writes[key], sampled.version)
      ensures excused == old(excused) + set m | m in marks && Answered(m, key, writes[key])
      ensures forall m :: m in marks && m.key == key ==>
        (Answered(m, key, writes[key]) <==> m !in Swallowed(marks, key, writes[key], sampled.version))
    {
      hide Sane, Later;
      DropLosesIff(sampled, Now(), writes, key);
      ghost var next := Dropped(Now(), key, writes[key], sampled.version);
      dirty := dirty - {key};
      excused, lost := next.excused, next.lost;
    }

    /** Marks older than the cycle's start are settled, whatever the cycle looked at. */
    method Prune(start: nat)
      requires Sane(Now()) && finished <= start <= syncDirtyVersion
      modifies this`dirty, this`finished
      ensures Sane(Now()) && finished == start && forall k :: k in dirty ==> dirty[k] > start
    {
      hide Sane;
      PruneKeepsMarks(Now(), start);
      dirty := map k | k in dirty && dirty[k] > start :: dirty[k];
      finished := start;
    }

    method ArmRetry()
      requires Alarms() && RETRY_INITIAL <= retryDelay <= RETRY_MAX
      modifies this`retryDelay, this`retryTimer, this`armed, this`nextHandle
      ensures Alarms() && RETRY_INITIAL <= retryDelay <= RETRY_MAX && retryTimer.Some?
      ensures armed == old(armed)[retryTimer.value := Retries(old(retryDelay))] && retryTimer.value !in old(armed)
      ensures retryDelay == if old(retryDelay) * 2 < RETRY_MAX then old(retryDelay) * 2 else RETRY_MAX
    {
      armed, retryTimer, nextHandle := armed[nextHandle := Retries(retryDelay)], Some(nextHandle), nextHandle + 1;
      retryDelay := if retryDelay * 2 < RETRY_MAX then retryDelay * 2 else RETRY_MAX;
    }

    /** What follows a cycle of a scheduler that may go on. */
    method FinishCycle(generation: nat, failure: Option<FailureClass>, stale: bool, localDirty: bool,
        rerun: Option<Reason>)
      requires Alarms() && state == Running && debounceTimer.None? && RETRY_INITIAL <= retryDelay <= RETRY_MAX
      requires !active && !wedged && held.None?
      modifies this`state, this`debounceTimer, this`retryTimer, this`retryDelay, this`armed, this`nextHandle,
        this`pendingReason,
        this`rerunRequested, this`rerunReason
      ensures Flight() && state != Running
      ensures stopped || (!visible && (configGeneration != generation || failure != Some(Auth))) ==>
        state == Idle && debounceTimer.None?
      ensures !stopped && visible && configGeneration != generation ==> Armed(ConfigChange, CONFIG_DEBOUNCE)
      ensures !stopped && configGeneration == generation && failure == Some(Auth) ==>
        state == BlockedByAuth && debounceTimer.None? && retryTimer.None?
      ensures !stopped && visible && configGeneration == generation && failure != Some(Auth) ==>
        match NextAfter(failure, stale, localDirty, rerun, pendingRemoteChanges != [])
        case Runs(reason, delay) => Armed(reason, delay)
        case BacksOff => state == Idle && retryTimer.Some? && retryTimer.value in armed &&
          armed[retryTimer.value] == Retries(old(retryDelay))
        case Sleeps => state == Idle && debounceTimer.None? && retryDelay == RETRY_INITIAL
    {
      hide Alarms;
      if stopped {
        state := Idle;
      } else if configGeneration != generation {
        state := Idle;
        RequestReconcile(ConfigChange);
      } else if failure == Some(Auth) {
        ClearTimers();
        state := BlockedByAuth;
      } else if !visible {
        state := Idle;
      } else {
        Proceed(failure, stale, localDirty, rerun);
      }
    }

    method Proceed(failure: Option<FailureClass>, stale: bool, localDirty: bool, rerun: Option<Reason>)
      requires Alarms() && state == Running && debounceTimer.None? && RETRY_INITIAL <= retryDelay <= RETRY_MAX
      requires !active && !wedged && held.None? && failure != Some(Auth)
      modifies this`state, this`debounceTimer, this`retryTimer, this`retryDelay, this`armed, this`nextHandle,
        this`pendingReason
      ensures Flight() && state != Running && state != BlockedByAuth
      ensures match NextAfter(failure, stale, localDirty, rerun, pendingRemoteChanges != [])
        case Runs(reason, delay) => Armed(reason, delay)
        case BacksOff => state == Idle && retryTimer.Some? && retryTimer.value in armed &&
          armed[retryTimer.value] == Retries(old(retryDelay))
        case Sleeps => state == Idle && debounceTimer.None? && retryDelay == RETRY_INITIAL
    {
      hide Alarms;
      if rerun == Some(ForegroundResume) {
        pendingReason := rerun;
        ScheduleDebounce(0);
      } else if pendingRemoteChanges != [] && failure != Some(Retryable) {
        pendingReason := Some(RemoteChange);
        ScheduleDebounce(0);
      } else if localDirty {
        retryDelay, pendingReason := RETRY_INITIAL, Some(LocalEvent);
        ScheduleRerun();
      } else if rerun.Some? {
        pendingReason := rerun;
        ScheduleDebounce(DelayFor(rerun.value));
      } else if failure == Some(Retryable) {
        state := Idle;
        ArmRetry();
      } else {
        retryDelay := RETRY_INITIAL;
        state := Idle;
        if stale {
          pendingReason := Some(AfterStale);
          ScheduleDebounce(0);
        }
      }
    }

    /** The observed and executed part of a cycle. */
    method Act(c: Cycle)
      returns (h: Handshake, t: Tally, writes: map<Key, OwnWrite>, ghost seen: set<nat>, ghost work: Work,
        ghost reached: bool)
      requires Valid() && active
      modifies this
      ensures Valid() && active && !wedged && cycles == old(cycles) && Later(old(Now()), Now()) &&
        OwnMarks(Now(), writes)
      ensures IsRemoteObservationComplete(t) ==> IsRemoteObservationComplete(TallyOf(work.results))
      ensures h.start.Some? ==> !c.useRemote && h.start.value <= published
      ensures h.start.Some? && work.observed && !t.halted ==> forall g :: 1 <= g <= h.start.value ==> g in seen
      ensures (reached ==> work.observed) && (!reached ==> work.results == [] && writes == map[])
    {
      hide Sane, Alarms, Later, OwnMarks;
      ghost var was := Now();
      ghost var observed, results := true, [];
      h, t, seen, observed := Observe(c);
      writes := map[];
      NothingYet(Now());
      reached := t == NO_TALLY;
      if t == NO_TALLY {
        ghost var atPlan := Now();
        t, writes, results := Operate(c);
        LaterKeeps(atPlan, Now());
        LaterTrans(was, atPlan, Now());
      }
      work := Work(observed, results);
    }

    /** A cycle up to its confirmed or retained cursor. */
    method DoWork(c: Cycle)
        returns (t: Tally, outcome: Outcome, writes: map<Key, OwnWrite>, ghost work: Work, ghost reached: bool)
      requires Valid() && active && held == (if c.useRemote then c.incremental else None)
      requires c.useRemote ==> c.incremental.Some? && c.incremental.value.generation == lastReconciled + 1
      modifies this
      ensures Valid() && active && cycles == old(cycles) && held.None? && OwnMarks(Now(), writes)
      ensures syncDirtyVersion >= old(syncDirtyVersion) && finished == old(finished) && excused == old(excused) &&
        lost == old(lost)
      ensures lastReconciled == old(lastReconciled) ||
        (lastReconciled > old(lastReconciled) && MovedBy(old(proofs), proofs, work))
      ensures (reached ==> work.observed) && (!reached ==> work.results == [] && writes == map[])
    {
      hide Sane, Alarms, Later, Onward, OwnMarks, ProofOk, MovedBy;
      ghost var was := Now();
      var h;
      ghost var seen;
      h, t, writes, seen, work, reached := Act(c);
      ghost var acted := Now();
      LaterKeeps(was, acted);
      outcome := Conclude(c, h, t, seen, work);
      OnwardKeeps(acted, Now());
      OwnMarksOnward(acted, Now(), writes);
      LastProof(Now(), acted, work);
      ghost var concluded := Now();
      SettleQueue(c, outcome);
      OwnMarksElsewhere(concluded, Now(), writes);
    }

    /** The end of a cycle, once its boundary is final. */
    method Close(c: Cycle, t: Tally, outcome: Outcome, writes: map<Key, OwnWrite>) returns (ghost raised: Option<Key>)
      requires Valid() && active && held.None? && finished <= c.startVersion <= syncDirtyVersion &&
        OwnMarks(Now(), writes)
      modifies this
      ensures Valid() && !active && lastReconciled == old(lastReconciled) && proofs == old(proofs) &&
        cycles == old(cycles)
      // The cycle dies exactly if a check threw, and only an own write marked since the start is checked.
      ensures wedged <==> raised.Some?
      ensures wedged ==> finished == old(finished)
      ensures wedged ==> raised.value in writes && MarkedSince(dirty, raised.value, c.startVersion)
      ensures !wedged ==> finished == c.startVersion && forall k :: k in dirty ==> dirty[k] > c.startVersion
      ensures !wedged && dirty != map[] && Free() ==> debounceTimer.Some?
      ensures !wedged && pendingRemoteChanges != [] && Free() ==> debounceTimer.Some? || retryTimer.Some?
      ensures DroppedOnlyOwn(old(excused), excused, old(lost), lost, writes, old(syncDirtyVersion))
    {
      hide Sane, Alarms, Later, OwnMarks, DroppedOnlyOwn;
      // Reporting to the journal and conflict coordination.
      ghost var settled := Now();
      Await();
      LaterKeeps(settled, Now());
      OwnMarksLast(settled, Now(), writes);
      ghost var closing := syncDirtyVersion;
      var thrown := DropOwnEvents(c, writes);
      raised := thrown;
      DropsSince(old(excused), excused, old(lost), lost, writes, closing, old(syncDirtyVersion));
      if thrown.Some? { active, wedged := false, true; } else { End(c, t, outcome); }
    }

    method End(c: Cycle, t: Tally, outcome: Outcome)
      requires Valid() && active && held.None? && finished <= c.startVersion <= syncDirtyVersion
      modifies this`dirty, this`finished, this`active, this`state, this`debounceTimer, this`retryTimer, this`retryDelay,
        this`armed,
        this`nextHandle, this`pendingReason, this`rerunRequested, this`rerunReason
      ensures Valid() && !active && finished == c.startVersion && forall k :: k in dirty ==> dirty[k] > c.startVersion
      ensures dirty != map[] && Free() ==> debounceTimer.Some?
      ensures pendingRemoteChanges != [] && Free() ==> debounceTimer.Some? || retryTimer.Some?
    {
      hide Sane, Alarms, Now, ApplyConfirmationFailure, RerunFor;
      Prune(c.startVersion);
      active := false;
      var failure, rerun := ApplyConfirmationFailure(outcome, t.failure),
        RerunFor(rerunRequested, rerunReason, outcome);
      SleepsWithoutWork(failure, t.stale, dirty != map[], rerun, pendingRemoteChanges != []);
      FinishCycle(c.generation, failure, t.stale, dirty != map[], rerun);
    }

    /** Nothing forbids another cycle. */
    predicate Free()
      reads this
    {
      !stopped && visible && state != BlockedByAuth
    }

    /** One cycle, from the firing of its timer to the decision about the next one. */
    method RunCycle() returns (ran: bool, ghost report: Report)
      requires Valid() && state != Running && debounceTimer.None?
      modifies this
      ensures Valid() && !active && lastReconciled >= old(lastReconciled)
      ensures if ran then cycles == old(cycles) + 1 else cycles == old(cycles) && Now() == old(Now()) && !wedged
      // The cursor moves by a proof of this cycle's own work, which has no shortfall but may have thrown.
      ensures lastReconciled > old(lastReconciled) ==> MovedBy(old(proofs), proofs, report.work)
      // A cycle that started at a version settles exactly the marks up to it, whatever it looked at.
      ensures ran && !wedged ==> finished == old(syncDirtyVersion) && forall k :: k in dirty ==>
        dirty[k] > old(syncDirtyVersion)
      // A mark is settled unseen exactly in a delta cycle that does not name its key, or in an unfinished one.
      ensures ran ==> report.cycle.Some? && SettlesUnseen(report.cycle.value, report.reached, old(dirty))
      ensures ran && !wedged && dirty != map[] && Free() ==> debounceTimer.Some?
      ensures ran && !wedged && pendingRemoteChanges != [] && Free() ==> debounceTimer.Some? || retryTimer.Some?
      // Later marks are dropped only with own writes, and lost only while an own write is being checked.
      ensures DroppedOnlyOwn(old(excused), excused, old(lost), lost, report.own, old(syncDirtyVersion))
      // It dies exactly if the check of an own write threw; where no own write was marked since the start, it cannot.
      ensures wedged <==> report.raised.Some?
      ensures wedged ==> finished == old(finished)
      ensures wedged ==>
        report.raised.value in report.own && MarkedSince(dirty, report.raised.value, old(syncDirtyVersion))
    {
      hide Sane, Alarms, Later, Onward, OwnMarks, DroppedOnlyOwn, MovedBy, SettlesUnseen;
      FinishedBound(Now());
      NothingDropped(excused, lost, map[], syncDirtyVersion);
      report := Report(map[], Work(true, []), None, false, None);
      ran := Free();
      if ran {
        ghost var before := (excused, lost);
        var c := Begin();
        UnseenIs(c, dirty);
        var t, outcome, writes;
        ghost var work, reached;
        t, outcome, writes, work, reached := DoWork(c);
        ghost var version := syncDirtyVersion;
        ghost var raised;
        raised := Close(c, t, outcome, writes);
        report := Report(writes, work, Some(c), reached, raised);
        DropsSince(before.0, excused, before.1, lost, writes, version, old(syncDirtyVersion));
      }
    }

    /** The cycle timer fires. */
    method FireCycleTimer(h: nat) returns (ran: bool, ghost report: Report)
      requires Valid() && h in armed && armed[h].RunsCycle?
      modifies this
      ensures Valid() && !active && lastReconciled >= old(lastReconciled)
      ensures if ran then cycles == old(cycles) + 1 else cycles == old(cycles) && !wedged
      ensures !old(wedged)
    {
      hide Sane;
      armed := armed - {h};
      debounceTimer := None;
      ran, report := RunCycle();
    }

    /**
     * A whole life of the scheduler. `Valid` holds throughout, so at most one cycle timer is ever armed, no
     * two cycles overlap, every mark is settled, waiting, excused or lost with a dropped key, and every
     * confirmed generation has a proof that covers it unless its cycle threw. Once a cycle has died, nothing
     * that can happen starts another one.
     */
    method Lifetime(events: nat)
      requires Valid() && !active
      modifies this
      ensures Valid() && !active && lastReconciled >= old(lastReconciled)
      ensures old(wedged) ==> wedged && cycles == old(cycles)
    {
      hide Sane, Later;
      for i := 0 to events
        invariant Valid() && !active && lastReconciled >= old(lastReconciled)
        invariant old(wedged) ==> wedged && cycles == old(cycles)
      {
        var h: nat := *;
        if h in armed && armed[h].RunsCycle? {
          var ran;
          ghost var report;
          ran, report := FireCycleTimer(h);
        } else {
          ghost var was := Now();
          Event();
          LaterKeeps(was, Now());
        }
      }
    }
  }
}
