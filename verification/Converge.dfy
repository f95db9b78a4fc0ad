/** What undisturbed cycles achieve: one cycle reaches a fixed point, and two devices meet after three. */
module Converge {
  import opened Types
  import opened Worlds
  import Planner

  /** The decision an undisturbed cycle takes. */
  function Planned(w: World, there: Option<RemoteEntry>, intent: Option<Intent>): Option<Operation> {
    Planner.PlanKey(w.local, there, w.baseline, intent)
  }

  /** The world after the decision was carried out; see the `quiet` clauses of `SafeExecutor.Cycle`. */
  ghost function Settle(physical: bool, w: World, op: Option<Operation>): World
    requires w.Ok()
  {
    if op.Some? then Quiet(physical, w, op.value) else w
  }

  function LocalContent(w: World): Option<Content> {
    if w.local.Some? && w.local.value in w.history then Some(w.history[w.local.value]) else None
  }

  function RemoteContent(w: World): Option<Content> {
    if w.remote.Some? then Some(w.remote.value.content) else None
  }

  predicate IsConflict(op: Option<Operation>) {
    op.Some? && op.value.Conflict?
  }

  predicate AtRest(op: Option<Operation>) {
    op.None? || op.value.Noop? || op.value.Conflict?
  }

  /**
   * The local deletion of a note that was deleted before and written again with the same content. Its
   * tombstone already exists and is older than the object, so writing it once more hides nothing.
   */
  predicate DeletesRevived(physical: bool, w: World, op: Option<Operation>) {
    !physical && op.Some? && match op.value
      case DeleteRemote(etag) => etag.Some? && etag.value in w.tombs
      case ResolveAcceptLocalDelete(_, accepted) => accepted in w.tombs
      case _ => false
  }

  lemma TwoDeeds(w: World, first: Deed, second: Deed)
    requires w.Ok()
    ensures Since(w, After(w, first)) && Since(w, After(After(w, first), second))
  {
    DeedIsSince(w, first);
    DeedIsSince(After(w, first), second);
    SinceTrans(w, After(w, first), After(After(w, first), second));
  }

  // ---- one device ----

  /** The file and a live object carry the same content, and the baseline says exactly that. */
  ghost predicate InSync(w: World) {
    && w.local.Some? && w.remote.Some? && !w.Hidden()
    && w.Held(w.local.value, w.remote.value.content)
    && w.BaselineLocal() == w.local && w.baseline.value.remote.Some?
    && w.baseline.value.remote.value.etag == Some(ETag(w.remote.value.content)) &&
      w.baseline.value.remote.value.size == |w.remote.value.content|
  }

  /** There is nothing here, and nothing to download. */
  predicate Gone(w: World) {
    w.local.None? && w.baseline.None? && (w.remote.None? || w.Hidden())
  }

  lemma InSyncRests(w: World, there: Option<RemoteEntry>)
    requires InSync(w) && Shows(w, there)
    ensures Planned(w, there, None) == Some(Noop) && LocalContent(w) == RemoteContent(w) && LocalContent(w).Some?
  {
  }

  lemma GoneRests(w: World, there: Option<RemoteEntry>)
    requires Gone(w) && Shows(w, there)
    ensures Planned(w, there, None) == None
  {
  }

  /** A landed PUT is newer than every tombstone, so what was sent is live. */
  lemma SendSyncs(w: World, here: Stamp, expected: ExpectedRemote)
    requires w.Ok() && w.local == Some(here) && Allows(w.remote, expected)
    ensures InSync(QuietUpload(w, here, expected))
  {
  }

  lemma DownloadSyncs(w: World, version: RemoteVersion)
    requires w.Ok() && w.remote.Some? && !w.Hidden() && version.etag == Some(ETag(w.remote.value.content)) &&
      version.size == |w.remote.value.content|
    ensures InSync(QuietDownload(w, w.local, version))
  {
  }

  lemma MergeSyncs(w: World, here: Stamp, etag: Option<ETag>, merged: Content)
    requires w.Ok() && w.local == Some(here) && Allows(w.remote, Exactly(etag))
    ensures InSync(QuietMerge(w, here, etag, merged))
  {
  }

  lemma TrashGoes(w: World, here: Stamp)
    requires w.local == Some(here) && (w.remote.None? || w.Hidden())
    ensures Gone(QuietTrash(w, here))
  {
  }

  /** A new tombstone hides the object; an older one leaves the object alive without its baseline. */
  lemma RemoteDeleteGoes(physical: bool, w: World, etag: ETag)
    requires w.Ok() && w.local.None? && w.Stores(etag) && !w.Hidden()
    ensures var z := QuietRemoteDelete(physical, w, Some(etag));
      if physical || etag !in w.tombs then Gone(z) else z == After(w, Forgot)
  {
  }

  lemma ResolutionSettles(physical: bool, w: World, there: Option<RemoteEntry>, intent: Option<Intent>)
    requires w.Ok() && Shows(w, there) && Planned(w, there, intent).Some? &&
      Planned(w, there, intent).value.IsResolution()
    ensures var op := Planned(w, there, intent); var z := Settle(physical, w, op);
      if DeletesRevived(physical, w, op) then z == After(w, Forgot) && w.local.None? && w.remote.Some? && !w.Hidden()
      else InSync(z) || Gone(z)
  {
    hide QuietUpload, QuietDownload, QuietMerge, QuietTrash, QuietRemoteDelete;
    match Planned(w, there, intent).value
    case ResolveKeepLocal(_, here, etag, expectAbsent) => SendSyncs(w, here, if expectAbsent then Absent
      else Exactly(etag));
    case ResolveKeepRemote(_, _, etag) => DownloadSyncs(w, KeptRemote(etag));
    case ResolveMerged(_, here, etag, merged) => MergeSyncs(w, here, etag, merged);
    case ResolveAcceptRemoteDelete(_, here, _) => TrashGoes(w, here);
    case ResolveAcceptLocalDelete(_, accepted) => RemoteDeleteGoes(physical, w, accepted);
  }

  /** Every decision of an undisturbed cycle does what it says; only deleting a revived note does not. */
  lemma CycleSettles(physical: bool, w: World, there: Option<RemoteEntry>, intent: Option<Intent>)
    requires w.Ok() && Truth(w) && Shows(w, there)
    ensures var op := Planned(w, there, intent); var z := Settle(physical, w, op);
      if op.None? then z == w && w.local.None? && (w.remote.None? || w.Hidden())
      else if op.value.Conflict? then z == w
      else if DeletesRevived(physical, w, op) then
        z == After(w, Forgot) && w.local.None? && w.remote.Some? && !w.Hidden()
      else InSync(z) || Gone(z)
  {
    hide QuietUpload, QuietDownload, QuietMerge, QuietTrash, QuietRemoteDelete;
    var op := Planned(w, there, intent);
    if op.Some? && op.value.IsResolution() {
      ResolutionSettles(physical, w, there, intent);
    } else if op.Some? {
      match op.value
      case Noop => assert InSync(w);
      case Upload(here, expected) => SendSyncs(w, here, expected);
      case Download(_, entry) => DownloadSyncs(w, VersionFrom(entry));
      case DeleteLocal(here) => TrashGoes(w, here);
      case DeleteRemote(etag) => RemoteDeleteGoes(physical, w, etag.value);
      case _ =>
    }
  }

  /**
   * The fixed point: planning again after an undisturbed cycle yields nothing to do, or the same standing
   * conflict, and a noop means equal contents. It fails exactly for the deletion of a revived note.
   */
  lemma FixedPoint(physical: bool, w: World, there: Option<RemoteEntry>, intent: Option<Intent>,
      again: Option<RemoteEntry>)
    requires w.Ok() && Truth(w) && Shows(w, there) && Shows(Settle(physical, w, Planned(w, there, intent)), again)
    ensures var op := Planned(w, there, intent); var z := Settle(physical, w, op); var next := Planned(z, again, None);
      && (AtRest(next) <==> !DeletesRevived(physical, w, op))
      && (next == Some(Noop) ==> LocalContent(z) == RemoteContent(z) && LocalContent(z).Some?)
      && (IsConflict(next) <==> IsConflict(op))
  {
    var op := Planned(w, there, intent);
    var z := Settle(physical, w, op);
    CycleSettles(physical, w, there, intent);
    if op.None? {
      assert Planned(z, again, None) == None;
    } else if op.value.Conflict? {
      ConflictStands(w, there, intent, again);
    } else if DeletesRevived(physical, w, op) {
      assert Planned(z, again, None).value.Download?;
    } else if InSync(z) {
      InSyncRests(z, again);
    } else {
      GoneRests(z, again);
    }
  }

  /** The exception can arise: deleted, written again with the same content, and now deleted locally once more. */
  lemma RevivedDeletionComesBack(content: Content) returns (w: World, again: Option<RemoteEntry>)
    ensures w.Ok() && Truth(w) && w.remote.Some? && Shows(w, Some(LiveEntry(w.remote.value)))
    ensures var op := Planned(w, Some(LiveEntry(w.remote.value)), None); var z := Settle(false, w, op);
      && op == Some(DeleteRemote(Some(ETag(content)))) && DeletesRevived(false, w, op)
      && Shows(z, again) && Planned(z, again, None) == Some(Download(None, LiveEntry(w.remote.value)))
  {
    var s := Stamp(|content|, 7);
    w := World(map[s := content], None, None, Some(R2Object(content, 6)), map[ETag(content) := 5], {ETag(content)}, 8,
      Some(Pair(s, content)));
    again := Some(LiveEntry(w.remote.value));
  }

  lemma ConflictStands(w: World, there: Option<RemoteEntry>, intent: Option<Intent>, again: Option<RemoteEntry>)
    requires Shows(w, there) && Shows(w, again) && IsConflict(Planned(w, there, intent))
    ensures IsConflict(Planned(w, again, None))
  {
  }

  // ---- a whole plan ----

  /** The observations are those of these worlds. */
  ghost predicate ObservedIn(o: Planner.Observations, worlds: map<Key, World>) {
    o.Keys() <= worlds.Keys && forall k :: k in worlds ==>
      SeenAs(worlds[k], Lookup(o.local, k), Lookup(o.remote, k), Lookup(o.previous, k))
  }

  ghost predicate SeenAs(w: World, here: Option<Stamp>, there: Option<RemoteEntry>, before: Option<PreviousEntry>) {
    here == w.local && before == w.baseline && Shows(w, there)
  }

  ghost predicate AllOk(worlds: map<Key, World>) {
    forall k :: k in worlds ==> worlds[k].Ok()
  }

  /** Carries out a plan step by step, each step on its own key. */
  ghost function RunPlan(physical: bool, worlds: map<Key, World>, plan: seq<Planner.Step>): map<Key, World>
    requires AllOk(worlds)
  {
    if plan == [] then worlds
    else if plan[0].key !in worlds then RunPlan(physical, worlds, plan[1..])
    else
      var w := worlds[plan[0].key];
      QuietIsOk(physical, w, plan[0].operation);
      RunPlan(physical, worlds[plan[0].key := Quiet(physical, w, plan[0].operation)], plan[1..])
  }

  lemma {:induction false} RunPlanKeys(physical: bool, worlds: map<Key, World>, plan: seq<Planner.Step>)
    requires AllOk(worlds)
    ensures RunPlan(physical, worlds, plan).Keys == worlds.Keys
  {
    if plan != [] {
      var next := worlds;
      if plan[0].key in worlds {
        QuietIsOk(physical, worlds[plan[0].key], plan[0].operation);
        next := worlds[plan[0].key := Quiet(physical, worlds[plan[0].key], plan[0].operation)];
      }
      RunPlanKeys(physical, next, plan[1..]);
    }
  }

  lemma QuietIsOk(physical: bool, w: World, op: Operation)
    requires w.Ok()
    ensures Quiet(physical, w, op).Ok()
  {
    match op
    case Upload(here, _) => SendIsOk(w, here, if w.local == Some(here) then w.history[here] else []);
    case ResolveKeepLocal(_, here, _, _) => SendIsOk(w, here, if w.local == Some(here) then w.history[here] else []);
    case Download(_, there) => WriteIsOk(w, VersionFrom(there));
    case ResolveKeepRemote(_, _, etag) => WriteIsOk(w, KeptRemote(etag));
    case ResolveMerged(_, _, _, merged) => MergeIsOk(w, merged);
    case DeleteLocal(_) => TwoDeeds(w, Trashed, Forgot);
    case ResolveAcceptRemoteDelete(_, _, _) => TwoDeeds(w, Trashed, Forgot);
    case DeleteRemote(etag) => if etag.Some? { TwoDeeds(w, Entombed(etag.value), Forgot); }
    case ResolveAcceptLocalDelete(_, accepted) => TwoDeeds(w, Entombed(accepted), Forgot);
    case _ =>
  }

  lemma SendIsOk(w: World, here: Stamp, content: Content)
    requires w.Ok()
    ensures After(After(w, Put(content)), Recorded(Pair(here, content))).Ok()
  {
    TwoDeeds(w, Put(content), Recorded(Pair(here, content)));
  }

  lemma WriteIsOk(w: World, version: RemoteVersion)
    requires w.Ok()
    ensures w.remote.Some? ==> var bytes := w.remote.value.content;
      After(After(w, Wrote(bytes)), Recorded(PreviousEntry(Some(NextStamp(w, bytes)), Some(version)))).Ok()
  {
    if w.remote.Some? {
      var bytes := w.remote.value.content;
      TwoDeeds(w, Wrote(bytes), Recorded(PreviousEntry(Some(NextStamp(w, bytes)), Some(version))));
    }
  }

  lemma MergeIsOk(w: World, merged: Content)
    requires w.Ok()
    ensures var stored := After(w, Put(merged));
      After(After(stored, Wrote(merged)), Recorded(Pair(NextStamp(stored, merged), merged))).Ok()
  {
    DeedIsSince(w, Put(merged));
    TwoDeeds(After(w, Put(merged)), Wrote(merged), Recorded(Pair(NextStamp(After(w, Put(merged)), merged), merged)));
  }

  ghost predicate Distinct(keys: seq<Key>) {
    forall i, j :: 0 <= i < j < |keys| ==> keys[i] != keys[j]
  }

  lemma {:induction false} PlanKeys(keys: seq<Key>, o: Planner.Observations)
    ensures forall s :: s in Planner.PlanOver(keys, o) ==> s.key in keys && o.Decide(s.key) == Some(s.operation)
  {
    if keys != [] { PlanKeys(keys[1..], o); }
  }

  /** Running a plan settles every planned key once and touches no other. */
  lemma {:induction false} RunPlanSettles(physical: bool, worlds: map<Key, World>, keys: seq<Key>,
      o: Planner.Observations, k: Key)
    requires AllOk(worlds) && Distinct(keys) && k in worlds
    ensures var z := RunPlan(physical, worlds, Planner.PlanOver(keys, o));
      z.Keys == worlds.Keys && z[k] == if k in keys then Settle(physical, worlds[k], o.Decide(k)) else worlds[k]
  {
    if keys != [] {
      var first, rest := keys[0], keys[1..];
      var op := o.Decide(first);
      assert first !in rest;
      if op.Some? {
        assert Planner.PlanOver(keys, o)[0] == Planner.Step(first, op.value);
        assert Planner.PlanOver(keys, o)[1..] == Planner.PlanOver(rest, o);
        var next := worlds;
        if first in worlds {
          QuietIsOk(physical, worlds[first], op.value);
          next := worlds[first := Quiet(physical, worlds[first], op.value)];
        }
        RunPlanSettles(physical, next, rest, o, k);
      } else {
        assert Planner.PlanOver(keys, o) == Planner.PlanOver(rest, o);
        RunPlanSettles(physical, worlds, rest, o, k);
      }
    }
  }

  lemma PlanSettles(rank: Key -> real, physical: bool, worlds: map<Key, World>, o: Planner.Observations,
      plan: seq<Planner.Step>, k: Key)
    requires AllOk(worlds) && ObservedIn(o, worlds) && Planner.IsPlan(rank, o, plan) && k in worlds
    ensures var z := RunPlan(physical, worlds, plan);
      z.Keys == worlds.Keys && z[k] == Settle(physical, worlds[k], o.Decide(k))
  {
    var keys :| Planner.Ascending(rank, keys) && Planner.Lists(keys, o.Keys()) && plan == Planner.PlanOver(keys, o);
    RunPlanSettles(physical, worlds, keys, o, k);
  }

  /**
   * One undisturbed cycle over all keys reaches a fixed point: the next plan contains only noops, whose two
   * sides carry the same content, and conflicts.
   */
  lemma WholePlanFixedPoint(rank: Key -> real, physical: bool, worlds: map<Key, World>,
                            o: Planner.Observations, plan: seq<Planner.Step>, next: Planner.Observations,
                              nextPlan: seq<Planner.Step>)
    requires AllOk(worlds) && (forall k :: k in worlds ==> Truth(worlds[k]))
    requires ObservedIn(o, worlds) && Planner.IsPlan(rank, o, plan)
    requires forall k :: k in worlds ==> !DeletesRevived(physical, worlds[k], o.Decide(k))
    requires ObservedIn(next, RunPlan(physical, worlds, plan)) && next.intents == map[] &&
      Planner.IsPlan(rank, next, nextPlan)
    ensures forall s :: s in nextPlan ==> s.operation.Noop? || s.operation.Conflict?
    ensures var z := RunPlan(physical, worlds, plan);
      forall s :: s in nextPlan && s.operation.Noop? ==>
        s.key in z && LocalContent(z[s.key]) == RemoteContent(z[s.key]) && LocalContent(z[s.key]).Some?
  {
    var z := RunPlan(physical, worlds, plan);
    RunPlanKeys(physical, worlds, plan);
    var keys :| Planner.Ascending(rank, keys) && Planner.Lists(keys, next.Keys()) &&
      nextPlan == Planner.PlanOver(keys, next);
    PlanKeys(keys, next);
    forall s | s in nextPlan
      ensures s.operation.Noop? || s.operation.Conflict?
      ensures s.operation.Noop? ==>
        s.key in z && LocalContent(z[s.key]) == RemoteContent(z[s.key]) && LocalContent(z[s.key]).Some?
    {
      var k := s.key;
      assert k in next.Keys() && k in z;
      PlanSettles(rank, physical, worlds, o, plan, k);
      FixedPoint(physical, worlds[k], Lookup(o.remote, k), Lookup(o.intents, k), Lookup(next.remote, k));
    }
  }

  // ---- two devices, one bucket, physical deletes ----

  /** One undisturbed cycle that plans no conflict. */
  ghost predicate Turn(w: World, z: World) {
    w.Ok() && exists there ::
      Shows(w, there) && !IsConflict(Planned(w, there, None)) && z == Settle(true, w, Planned(w, there, None))
  }

  /** A device, after the other one had its turn. */
  function Facing(w: World, other: World): World {
    w.(remote := other.remote, clock := if w.clock < other.clock then other.clock else w.clock)
  }

  /** What the effective view offers for download. */
  function LiveContent(w: World): Option<Content> {
    if w.Hidden() then None else RemoteContent(w)
  }

  ghost predicate Agreed(w: World) {
    InSync(w) || (w.local.None? && (w.remote.None? || w.Hidden()))
  }

  lemma InventsNothing(w: World, op: Option<Operation>)
    requires w.Ok() && (op.Some? ==> !op.value.ResolveMerged?)
    ensures var z := Settle(true, w, op);
      z.tombs == w.tombs && (z.remote.None? || z.remote == w.remote || RemoteContent(z) == LocalContent(w))
  {
  }

  lemma TurnAgrees(w: World, z: World)
    requires Truth(w) && Turn(w, z)
    ensures Agreed(z) && z.Ok() && z.tombs == w.tombs && LocalContent(z) == LiveContent(z)
    ensures LiveContent(z) in {None, LiveContent(w), LocalContent(w)}
    ensures z.local.None? && z.baseline.Some? <==> LeavesBaseline(w)
    ensures LeavesBaseline(w) ==> z == w
  {
    hide Planned, Quiet;
    var there :| Shows(w, there) && !IsConflict(Planned(w, there, None)) &&
      z == Settle(true, w, Planned(w, there, None));
    var op := Planned(w, there, None);
    CycleSettles(true, w, there, None);
    NoIntentNoResolution(w, there);
    InventsNothing(w, op);
    if op.Some? { QuietIsOk(true, w, op.value); }
  }

  /** A baseline for a note that is gone here and logically deleted there; no operation is planned for it. */
  predicate LeavesBaseline(w: World) {
    w.local.None? && w.baseline.Some? && (w.Hidden() || (w.remote.None? && w.tombs != map[]))
  }

  lemma NoIntentNoResolution(w: World, there: Option<RemoteEntry>)
    ensures var op := Planned(w, there, None); op.Some? ==> !op.value.IsResolution()
    ensures Shows(w, there) ==> (LeavesBaseline(w) <==> Planned(w, there, None) == None && w.baseline.Some?)
  {
  }

  /** A device whose own side has not changed since its baseline only follows. */
  lemma FollowerKeepsRemote(w: World, z: World)
    requires w.BaselineLocal() == w.local && (w.baseline.Some? ==> w.local.Some?) && Turn(w, z)
    ensures z.remote == w.remote
  {
  }

  /** A baseline left behind makes the device delete exactly the note that carries the recorded content again. */
  lemma LeftBaselineDeletes(w: World, z: World)
    requires Truth(w) && w.local.None? && w.baseline.Some? && Turn(w, z)
    ensures if LiveContent(w).Some? then w.BaselineETag() == Some(ETag(LiveContent(w).value)) && z.remote.None?
      else z.remote == w.remote
  {
  }

  lemma AgreedSees(w: World, other: World)
    requires Agreed(w) && w.Ok() && Truth(w) && other.Ok()
    ensures Facing(w, other).Ok() && Truth(Facing(w, other))
    ensures w.local.Some? || w.baseline.None? ==> Facing(w, other).BaselineLocal() == w.local
  {
    assert Since(w, Facing(w, other));
    TruthLasts(w, Facing(w, other));
  }

  lemma TurnKeepsTruth(w: World, z: World)
    requires Truth(w) && Turn(w, z)
    ensures Truth(z)
  {
    TurnAgrees(w, z);
    assert InSync(z) || z.baseline.None? || z == w;
  }

  /**
   * From true baselines, with whatever records are left over, the turns A, B, A leave both files and the live
   * object with the same content, which was already somebody's. The only exception: the first device still has
   * a baseline for a logically deleted note, and the second one has a file without a baseline. That file is
   * uploaded, and it has exactly the content the first device recorded, or the third turn would be a conflict.
   */
  lemma TwoDevicesConverge(a: World, b: World, a1: World, b1: World, a2: World)
    requires a.Ok() && b.Ok() && Truth(a) && Truth(b) && a.tombs == b.tombs && a.remote == b.remote
    requires Turn(a, a1) && Turn(Facing(b, a1), b1) && Turn(Facing(a1, b1), a2)
    ensures LocalContent(a2) == LiveContent(a2) &&
      LiveContent(a2) in {None, LiveContent(a), LocalContent(a), LocalContent(b)}
    ensures a2.remote == b1.remote && LocalContent(b1) == LiveContent(a2) <==>
      !(LeavesBaseline(a) && b.local.Some? && b.baseline.None?)
    ensures LeavesBaseline(a) && b.local.Some? && b.baseline.None? ==>
      LocalContent(b1) == LocalContent(b) && a.BaselineETag() == Some(ETag(LocalContent(b).value)) && a2.remote.None?
  {
    hide Turn, InSync;
    TurnAgrees(a, a1);
    TurnKeepsTruth(a, a1);
    assert Since(b, Facing(b, a1));
    TruthLasts(b, Facing(b, a1));
    TurnAgrees(Facing(b, a1), b1);
    AgreedSees(a1, b1);
    TurnAgrees(Facing(a1, b1), a2);
    if LeavesBaseline(a) {
      LeftBaselineDeletes(Facing(a1, b1), a2);
      OnlyNewFilesComeBack(Facing(b, a1), b1);
    } else { FollowerKeepsRemote(Facing(a1, b1), a2); }
  }

  /** Where a note is logically deleted, a turn leaves a file exactly if it is new, and then unchanged. */
  lemma OnlyNewFilesComeBack(w: World, z: World)
    requires Truth(w) && Turn(w, z) && (w.Hidden() || (w.remote.None? && w.tombs != map[]))
    ensures LocalContent(z).Some? <==> w.local.Some? && w.baseline.None?
    ensures LocalContent(z).Some? ==> LocalContent(z) == LocalContent(w)
  {
  }

  /**
   * The exception is reachable: the first device missed the deletion and still has its baseline, the second one
   * holds the file without one. After the turns A, B, A the second device has the file and nobody else has it.
   */
  lemma BroughtBackIsDeleted(content: Content) returns (a: World, b: World, a1: World, b1: World, a2: World)
    ensures a.Ok() && b.Ok() && Truth(a) && Truth(b) && a.tombs == b.tombs && a.remote == b.remote
    ensures Turn(a, a1) && Turn(Facing(b, a1), b1) && Turn(Facing(a1, b1), a2)
    ensures LocalContent(b1) == Some(content) && a2.remote.None? && a2.local.None?
  {
    hide Turn, Settle;
    var s := Stamp(|content|, 3);
    a := World(map[s := content], None, None, None, map[ETag(content) := 5], {ETag(content)}, 8,
      Some(Pair(s, content)));
    b := a.(local := Some(s), baseline := None);
    a1 := MissesDeletion(a, content);
    b1 := BringsBack(Facing(b, a1), s, content);
    a2 := DeletesAgain(Facing(a1, b1), s, content);
  }

  lemma TurnBy(w: World, there: Option<RemoteEntry>)
    requires w.Ok() && Shows(w, there) && !IsConflict(Planned(w, there, None))
    ensures Turn(w, Settle(true, w, Planned(w, there, None)))
  {
  }

  lemma MissesDeletion(w: World, content: Content) returns (z: World)
    requires w.Ok() && w.remote.None? && ETag(content) in w.tombs && w.local.None?
    ensures Turn(w, z) && z == w
  {
    var recorded := RemoteEntry(0, None, 0, Some(Deletion(Some(ETag(content)), false)));
    assert w.tombs != map[] by { assert ETag(content) in w.tombs; }
    assert Shows(w, Some(recorded));
    TurnBy(w, Some(recorded));
    z := w;
  }

  lemma BringsBack(w: World, s: Stamp, content: Content) returns (z: World)
    requires w.Ok() && w.remote.None? && ETag(content) in w.tombs && w.local == Some(s) &&
      w.history == map[s := content]
    requires w.baseline.None?
    ensures Turn(w, z) && LocalContent(z) == Some(content) && z.remote == Some(R2Object(content, w.clock)) &&
      w.clock < z.clock
  {
    var recorded := RemoteEntry(0, None, 0, Some(Deletion(Some(ETag(content)), false)));
    assert w.tombs != map[] by { assert ETag(content) in w.tombs; }
    assert Shows(w, Some(recorded));
    assert Planned(w, Some(recorded), None) == Some(Upload(s, Absent));
    TurnBy(w, Some(recorded));
    z := Settle(true, w, Some(Upload(s, Absent)));
  }

  lemma DeletesAgain(w: World, s: Stamp, content: Content) returns (z: World)
    requires w.Ok() && w.remote.Some? && w.remote.value.content == content && !w.Hidden()
    requires w.local.None? && w.baseline == Some(Pair(s, content))
    ensures Turn(w, z) && z.remote.None? && z.local.None?
  {
    assert Planned(w, Some(LiveEntry(w.remote.value)), None) == Some(DeleteRemote(Some(ETag(content))));
    TurnBy(w, Some(LiveEntry(w.remote.value)));
    z := Settle(true, w, Some(DeleteRemote(Some(ETag(content)))));
  }

  /** An edit on one device alone reaches the other device in two turns. */
  lemma EditPropagates(a: World, b: World, a1: World, b1: World)
    requires a.Ok() && b.Ok() && Truth(a) && a.tombs == b.tombs && a.remote == b.remote && InSync(b)
    requires a.local.Some? && a.baseline.Some? && a.BaselineETag() == Some(ETag(b.remote.value.content))
    requires Turn(a, a1) && Turn(Facing(b, a1), b1)
    ensures LocalContent(b1) == RemoteContent(b1) == LocalContent(a)
  {
    TurnAgrees(a, a1);
    EditIsSent(a, a1);
    assert Truth(b);
    AgreedSees(b, a1);
    TurnAgrees(Facing(b, a1), b1);
    FollowerKeepsRemote(Facing(b, a1), b1);
  }

  lemma EditIsSent(a: World, a1: World)
    requires a.Ok() && Truth(a) && a.local.Some? && a.remote.Some? && !a.Hidden() && Turn(a, a1)
    requires a.BaselineETag() == Some(ETag(a.remote.value.content))
    ensures RemoteContent(a1) == LocalContent(a) && !a1.Hidden()
  {
  }
}
