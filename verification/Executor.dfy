/** src/sync/executor.ts, src/local/read-local.ts: one operation at a time, everybody acting between its steps. */
module Executor {
  import opened Types
  import opened Worlds
  import Planner

  /** One thing the device did, with the world it was done to. */
  datatype Effect = Effect(op: Operation, before: World, deed: Deed)

  /** The remote version a resolution was shown to the user against. */
  predicate NamesRemote(op: Operation, e: ETag) {
    match op
    case ResolveKeepLocal(_, _, etag, expectAbsent) => !expectAbsent && etag == Some(e)
    case ResolveMerged(_, _, etag, _) => etag == Some(e)
    case ResolveAcceptLocalDelete(_, accepted) => accepted == e
    case _ => false
  }

  predicate NamesLocal(op: Operation, s: Stamp) {
    match op
    case ResolveKeepRemote(_, expectedHere, _) => expectedHere == Some(s)
    case ResolveMerged(_, here, _, _) => here == s
    case ResolveAcceptRemoteDelete(_, here, _) => here == s
    case _ => false
  }

  /** A remote version may go if the user named it, the baseline records it as equal, or it was logically deleted. */
  predicate MayReplaceRemote(op: Operation, w: World, e: ETag) {
    if op.IsResolution() then NamesRemote(op, e) else w.BaselineETag() == Some(e) || e in w.named
  }

  predicate MayReplaceLocal(op: Operation, w: World, s: Stamp) {
    if op.IsResolution() then NamesLocal(op, s) else w.BaselineLocal() == Some(s)
  }

  /** No version this device did not account for is overwritten or removed. */
  predicate Justified(e: Effect) {
    match e.deed
    case Put(_) => e.before.remote.Some? ==> MayReplaceRemote(e.op, e.before, ETag(e.before.remote.value.content))
    case Removed => e.before.remote.Some? ==> MayReplaceRemote(e.op, e.before, ETag(e.before.remote.value.content))
    case Entombed(version) => MayReplaceRemote(e.op, e.before, version)
    case Wrote(_) => e.before.local.Some? ==> MayReplaceLocal(e.op, e.before, e.before.local.value)
    case Trashed => e.before.local.Some? ==> MayReplaceLocal(e.op, e.before, e.before.local.value)
    case Recorded(_) => true
    case Forgot => true
  }

  /**
   * An upload over a version nobody accounted for: there is no baseline, no record ever named the version, and the
   * upload names it because a deletion was announced before it was written.
   */
  predicate Blind(e: Effect) {
    && e.deed.Put? && e.op.Upload? && e.before.remote.Some? && e.before.baseline.None?
    && var theirs := ETag(e.before.remote.value.content);
       e.op.expected == Exactly(Some(theirs)) && theirs !in e.before.named
  }

  /** With events that are true when they are read, every effect is justified. */
  predicate Sound(current: bool, e: Effect) {
    Justified(e) || (!current && Blind(e))
  }

  /** A resolution recorded, for the bytes it wrote, the stamp of a later save with other content. */
  ghost predicate Misread(e: Effect) {
    && (e.op.ResolveKeepRemote? || e.op.ResolveMerged?) && e.deed.Recorded?
    && Untruthful(e.before, e.deed.entry)
  }

  /** An entry whose operation may record it: a true one, or a misread one of a resolution. */
  ghost predicate Recordable(op: Operation, w: World, entry: PreviousEntry) {
    Truthful(w, entry) || Misread(Effect(op, w, Recorded(entry)))
  }

  /**
   * The log tells the whole story from `start` to `w`: between two effects there is interference only, no
   * effect loses anything, and every recorded baseline is true unless its own resolution misread it.
   */
  ghost predicate History(current: bool, solo: bool, start: World, effects: seq<Effect>, w: World) {
    if effects == [] then Rely(solo, start, w)
    else
      var e := effects[|effects| - 1];
      && Rely(solo, After(e.before, e.deed), w) && e.before.Ok() && Sound(current, e)
      && (e.deed.Recorded? ==> Recordable(e.op, e.before, e.deed.entry))
      && History(current, solo, start, effects[..|effects| - 1], e.before)
  }

  /** The baseline in force was recorded by a misread resolution. */
  ghost predicate Suspect(effects: seq<Effect>) {
    effects != [] &&
    var e := effects[|effects| - 1];
    if e.deed.Recorded? then Misread(e) else e.deed != Forgot && Suspect(effects[..|effects| - 1])
  }

  lemma HistoryGrows(current: bool, solo: bool, start: World, effects: seq<Effect>, a: World, b: World)
    requires History(current, solo, start, effects, a) && Rely(solo, a, b)
    ensures History(current, solo, start, effects, b)
  {
    var from := if effects == [] then start else After(effects[|effects| - 1].before, effects[|effects| - 1].deed);
    SinceTrans(from, a, b);
  }

  lemma HistoryRecords(current: bool, solo: bool, start: World, effects: seq<Effect>, w: World, e: Effect)
    requires History(current, solo, start, effects, w) && e.before == w && w.Ok() && Sound(current, e)
    requires e.deed.Recorded? ==> Recordable(e.op, w, e.deed.entry)
    ensures History(current, solo, start, effects + [e], After(w, e.deed))
  {
    DeedIsSince(w, e.deed);
    SinceRefl(After(w, e.deed));
    assert (effects + [e])[..|effects|] == effects;
  }

  lemma PairIsRecordable(op: Operation, a: World, b: World, s: Stamp, bytes: Content)
    requires Since(a, b) && a.Held(s, bytes)
    ensures Recordable(op, b, Pair(s, bytes))
  {
  }

  lemma RecordableLasts(op: Operation, a: World, b: World, entry: PreviousEntry)
    requires Since(a, b) && Recordable(op, a, entry)
    ensures Recordable(op, b, entry)
  {
    if Truthful(a, entry) { TruthfulLasts(a, b, entry); }
  }

  /** A verdict on the baseline: it is there or not, true or untrue, and never in between. */
  ghost predicate Judged(w: World, suspect: bool) {
    && (Truth(w) <==> !suspect)
    && (w.baseline.Some? ==> Truthful(w, w.baseline.value) || Untruthful(w, w.baseline.value))
  }

  lemma JudgementLasts(a: World, b: World, suspect: bool)
    requires Since(a, b) && b.baseline == a.baseline && Judged(a, suspect)
    ensures Judged(b, suspect)
  {
    if a.baseline.Some? { VerdictLasts(a, b, a.baseline.value); }
  }

  lemma DeedIsJudged(e: Effect, suspect: bool)
    requires e.before.Ok() && Judged(e.before, suspect) &&
      (e.deed.Recorded? ==> Recordable(e.op, e.before, e.deed.entry))
    ensures Judged(After(e.before, e.deed), if e.deed.Recorded? then Misread(e) else e.deed != Forgot && suspect)
  {
    DeedIsSince(e.before, e.deed);
    if e.deed.Recorded? {
      VerdictLasts(e.before, After(e.before, e.deed), e.deed.entry);
      VerdictLasts(e.before, e.before, e.deed.entry) by { SinceRefl(e.before); }
    } else if e.deed != Forgot {
      JudgementLasts(e.before, After(e.before, e.deed), suspect);
    }
  }

  /** The baseline is true at every moment of a run, exactly but for a misread baseline still in force. */
  lemma {:induction false} BaselineTruth(current: bool, solo: bool, start: World, effects: seq<Effect>, w: World)
    requires Truth(start) && History(current, solo, start, effects, w)
    ensures Judged(w, Suspect(effects))
    decreases |effects|
  {
    hide Judged;
    if effects == [] {
      StartIsJudged(start);
      JudgementLasts(start, w, false);
    } else {
      var e := effects[|effects| - 1];
      BaselineTruth(current, solo, start, effects[..|effects| - 1], e.before);
      DeedIsJudged(e, Suspect(effects[..|effects| - 1]));
      JudgementLasts(After(e.before, e.deed), w, Suspect(effects));
    }
  }

  lemma StartIsJudged(start: World)
    requires Truth(start)
    ensures Judged(start, false)
  {
  }

  /** The world before effect `i`, as the effects before it left it. */
  function LeftBy(start: World, effects: seq<Effect>, i: nat): World
    requires i <= |effects|
  {
    if i == 0 then start else After(effects[i - 1].before, effects[i - 1].deed)
  }

  /**
   * A whole run, effect by effect: nothing but interference lies between two effects, nothing unaccounted
   * for is replaced, every recorded pair is true unless its own resolution misread it, and the baseline is
   * true at every moment but while such a misread pair is in force.
   */
  ghost predicate SoundRun(current: bool, solo: bool, start: World, effects: seq<Effect>, w: World) {
    && Rely(solo, LeftBy(start, effects, |effects|), w) && (Truth(w) <==> !Suspect(effects))
    && forall i :: 0 <= i < |effects| ==> SoundStep(current, solo, start, effects, i)
  }

  ghost predicate SoundStep(current: bool, solo: bool, start: World, effects: seq<Effect>, i: nat)
    requires i < |effects|
  {
    var e := effects[i];
    && Rely(solo, LeftBy(start, effects, i), e.before)
    && (Justified(e) <==> !Blind(e)) && (current ==> Justified(e))
    && (e.deed.Recorded? ==> Truthful(e.before, e.deed.entry) || Misread(e))
    && (Truth(e.before) <==> !Suspect(effects[..i]))
  }

  lemma {:induction false} HistoryUnfolds(current: bool, solo: bool, start: World, effects: seq<Effect>, w: World)
    requires Truth(start) && History(current, solo, start, effects, w)
    ensures SoundRun(current, solo, start, effects, w)
  {
    hide History, SoundStep, Rely, Truth, Suspect, LeftBy;
    BaselineTruth(current, solo, start, effects, w);
    LastIsSound(current, solo, start, effects, w);
    if effects != [] {
      var n := |effects| - 1;
      HistoryUnfolds(current, solo, start, effects[..n], effects[n].before);
      forall i | 0 <= i < |effects| ensures SoundStep(current, solo, start, effects, i) {
        if i < n { StepStays(current, solo, start, effects, n, i); }
      }
    }
  }

  lemma StepStays(current: bool, solo: bool, start: World, effects: seq<Effect>, n: nat, i: nat)
    requires i < n <= |effects| && SoundStep(current, solo, start, effects[..n], i)
    ensures SoundStep(current, solo, start, effects, i)
  {
    assert effects[..n][..i] == effects[..i];
  }

  /** The last link of the log, and what comes after it. */
  lemma LastIsSound(current: bool, solo: bool, start: World, effects: seq<Effect>, w: World)
    requires Truth(start) && History(current, solo, start, effects, w)
    ensures Rely(solo, LeftBy(start, effects, |effects|), w) && (Truth(w) <==> !Suspect(effects))
    ensures effects != [] ==>
      var n := |effects| - 1;
      SoundStep(current, solo, start, effects, n) && History(current, solo, start, effects[..n], effects[n].before)
  {
    hide Rely, Truth, Suspect, Justified;
    BaselineTruth(current, solo, start, effects, w);
    if effects != [] {
      var n := |effects| - 1;
      BaselineTruth(current, solo, start, effects[..n], effects[n].before);
      PreviousLink(current, solo, start, effects[..n], effects[n].before);
      BlindIsUnjustified(effects[n]);
      assert LeftBy(start, effects[..n], n) == LeftBy(start, effects, n);
    }
  }

  lemma PreviousLink(current: bool, solo: bool, start: World, effects: seq<Effect>, w: World)
    requires History(current, solo, start, effects, w)
    ensures Rely(solo, LeftBy(start, effects, |effects|), w)
  {
  }

  lemma BlindIsUnjustified(e: Effect)
    ensures Blind(e) ==> !Justified(e)
  {
  }

  /** What a plan grants the operation it contains. */
  predicate Licensed(current: bool, op: Operation, w: World) {
    match op
    case Upload(_, expected) => RemoteLicence(current, op, w, expected)
    case Download(expectedHere, _) => expectedHere.Some? ==> MayReplaceLocal(op, w, expectedHere.value)
    case DeleteLocal(here) => MayReplaceLocal(op, w, here)
    case DeleteRemote(etag) => etag.Some? ==> MayReplaceRemote(op, w, etag.value)
    case _ => true
  }

  predicate RemoteLicence(current: bool, op: Operation, w: World, expected: ExpectedRemote) {
    expected.Exactly? && expected.etag.Some? ==> MayPut(current, op, w, expected.etag.value)
  }

  /** As `MayReplaceRemote`, and over a version an announced deletion named wrongly. */
  predicate MayPut(current: bool, op: Operation, w: World, e: ETag) {
    MayReplaceRemote(op, w, e) || (!current && op.Upload? && op.expected == Exactly(Some(e)) && w.baseline.None?)
  }

  /** What an observation must be for a plan from it to be licensed. */
  predicate Plannable(current: bool, w: World, here: Option<Stamp>, there: Option<RemoteEntry>) {
    there.Some? ==>
      match there.value.deleted
      case None => DescribesBytes(there.value)
      case Some(deletion) =>
        current && here.Some? && deletion.objectPresent && deletion.version.Some? ==> deletion.version.value in w.named
  }

  lemma SeesPlannable(mode: Mode, current: bool, w: World, here: Option<Stamp>, there: Option<RemoteEntry>)
    requires w.Ok() && Sees(mode, current, w, here, there)
    ensures Plannable(current, w, here, there)
  {
  }

  /** What is seen with a true event is seen with any. */
  lemma SeesLess(mode: Mode, truthful: bool, current: bool, w: World, here: Option<Stamp>, there: Option<RemoteEntry>)
    requires Sees(mode, truthful, w, here, there) && (truthful || !current)
    ensures Sees(mode, current, w, here, there)
  {
  }

  lemma EventIsSeen(current: bool, w: World, event: Event, modified: int)
    requires Readable(w, event) && (current ==> StillTrue(w, event))
    ensures Sees(RemoteDelta, current, w, w.local, EventEntry(w, event, modified))
  {
  }

  lemma PlannableLasts(current: bool, solo: bool, a: World, b: World, here: Option<Stamp>, there: Option<RemoteEntry>)
    requires Plannable(current, a, here, there) && Rely(solo, a, b)
    ensures Plannable(current, b, here, there)
  {
  }

  lemma PlannableIsLicensed(current: bool, w: World, here: Option<Stamp>, there: Option<RemoteEntry>,
      intent: Option<Intent>)
    requires Plannable(current, w, here, there)
    ensures var op := Planner.PlanKey(here, there, w.baseline, intent);
      op.Some? ==> Licensed(current, op.value, w) && (op.value.Download? ==> DescribesBytes(op.value.there))
  {
  }

  /** Planning from the current baseline and what any mode observes grants exactly what execution needs. */
  lemma PlanLicenses(mode: Mode, current: bool, w: World, here: Option<Stamp>, there: Option<RemoteEntry>,
      intent: Option<Intent>)
    requires w.Ok() && Sees(mode, current, w, here, there)
    ensures var op := Planner.PlanKey(here, there, w.baseline, intent);
      op.Some? ==> Licensed(current, op.value, w) && (op.value.Download? ==> DescribesBytes(op.value.there))
  {
    SeesPlannable(mode, current, w, here, there);
    PlannableIsLicensed(current, w, here, there, intent);
  }

  /**
   * An observation leads to a plan over an unaccounted version exactly if it is an event's deletion of an object that
   * is there, its version was never named by a record, there is a file, and no baseline.
   */
  lemma PlanLicensedIff(mode: Mode, w: World, here: Option<Stamp>, there: Option<RemoteEntry>, intent: Option<Intent>)
    requires w.Ok() && Sees(mode, false, w, here, there)
    ensures var op := Planner.PlanKey(here, there, w.baseline, intent);
      (op.Some? ==> Licensed(true, op.value, w)) <==>
        !(mode.RemoteDelta? && there.Some? && there.value.deleted.Some? && here.Some? && w.baseline.None? &&
          w.remote.Some?
          && ETag(w.remote.value.content) !in w.named)
  {
  }

  /**
   * Every such world is one: the upload names the version, lands, and that version is gone, although a full scan
   * reports a conflict.
   */
  lemma RewrittenNoteIsOverwritten(w: World, there: Option<RemoteEntry>, intent: Option<Intent>)
    requires w.Ok() && w.local.Some? && w.baseline.None? && w.remote.Some? && ETag(w.remote.value.content) !in w.named
    requires there == EventEntry(w, DeletedThere, 0)
    ensures var mine, theirs := w.local.value, ETag(w.remote.value.content);
      var op := Upload(mine, Exactly(Some(theirs))); var put := Effect(op, w, Put(w.history[mine]));
      && Sees(RemoteDelta, false, w, w.local, there) && Planner.PlanKey(w.local, there, w.baseline, intent) == Some(op)
      && Allows(w.remote, op.expected) && Blind(put) && !Justified(put)
      && After(w, put.deed).remote.value.content == w.history[mine]
      && forall view :: Shows(w, view) ==>
        Planner.PlanKey(w.local, view, w.baseline, intent) == Some(Conflict(BothCreatedDifferent))
  {
    assert Readable(w, DeletedThere);
  }

  lemma LicenceLasts(current: bool, op: Operation, a: World, b: World, solo: bool)
    requires Licensed(current, op, a) && Rely(solo, a, b)
    ensures Licensed(current, op, b)
  {
  }

  lemma ReplacementLasts(op: Operation, a: World, b: World, e: ETag, solo: bool)
    requires Rely(solo, a, b)
    ensures MayReplaceRemote(op, a, e) ==> MayReplaceRemote(op, b, e)
  {
  }

  /** Exactly one thing was done, after some interference. */
  ghost predicate DidOne(solo: bool, was: World, now: World, own: seq<Effect>, op: Operation, deed: Deed) {
    |own| == 1 && own[0].op == op && own[0].deed == deed && Rely(solo, was, own[0].before) &&
      now == After(own[0].before, deed)
  }

  ghost predicate DidNothing(solo: bool, was: World, now: World, own: seq<Effect>) {
    own == [] && Rely(solo, was, now)
  }

  /** The last PUT among the effects, as the response to it described it. */
  function LastPut(own: seq<Effect>): Option<RemoteVersion> {
    if own == [] then None
    else
      var last := own[|own| - 1];
      if last.deed.Put? then Some(Version(last.deed.content)) else LastPut(own[..|own| - 1])
  }

  /** The last thing done brought the baseline up to date. */
  predicate EndsRecorded(own: seq<Effect>) {
    own != [] && (own[|own| - 1].deed.Recorded? || own[|own| - 1].deed == Forgot)
  }

  /** The file was trashed, and somebody created it again before the result was decided. */
  predicate TrashedThenRecreated(own: seq<Effect>, now: World) {
    |own| == 1 && own[0].deed == Trashed && now.local.Some? && now.local.value !in own[0].before.history
  }

  /**
   * A result that promises nothing happened keeps the promise, with one exception; a revision on a result
   * is the last one this operation wrote; `applied` means that the baseline was brought up to date; a
   * half-applied result that wakes other devices did write the remote half; and a landed PUT is admitted.
   */
  ghost predicate Honest(r: Result, own: seq<Effect>, now: World) {
    && (r.Stale? || r.Blocked? ==> own == [])
    && (r.Failed? ==> own == [] || TrashedThenRecreated(own, now))
    && (r.Remote().Some? ==> LastPut(own) == r.Remote())
    && (r.Applied? ==> EndsRecorded(own))
    && (r.Partial? && r.why.RemoteAppliedLocalChanged? ==> LastPut(own).Some?)
    && (LastPut(own).Some? ==> AdmitsPut(r, LastPut(own)))
  }

  /** After a landed PUT the result is `applied` with its revision, half-applied, unresolved, or an exception. */
  predicate AdmitsPut(r: Result, put: Option<RemoteVersion>) {
    || (r.Applied? && r.remote == put)
    || (r.Partial? && r.why.RemoteAppliedLocalChanged?)
    || r.Unresolved? || r.Raised?
  }

  /** What follows a landed and recorded PUT: no promise that nothing happened, and no made-up revision. */
  predicate FollowsLanding(r: Result, own: seq<Effect>, landed: RemoteVersion) {
    && (r.Applied? || r.Unresolved? || r.Partial?)
    && (r.Remote().Some? ==> r.Remote() == if LastPut(own).Some? then LastPut(own) else Some(landed))
    && (r.Applied? ==> r.remote.Some? && (own == [] || EndsRecorded(own)))
    && (r.Partial? ==> r.why.RemoteAppliedLocalChanged?)
  }

  /** The baseline, if there is one, describes the live object. */
  ghost predicate Stands(w: World) {
    w.baseline.Some? ==>
      w.remote.Some? && !w.Hidden() && !Planner.RemoteChanged(LiveEntry(w.remote.value), w.baseline.value)
  }

  /** The live object is the recorded one: without a baseline there is none, though a hidden one may be left. */
  ghost predicate OwnsRemote(w: World) {
    Stands(w) && (w.baseline.None? ==> w.remote.None? || w.Hidden())
  }

  /** The deletion finds a record of an earlier one, which stays as it is. */
  predicate Revives(physical: bool, op: Operation, w: World) {
    !physical && op.DeleteRemote? && op.etag.Some? && op.etag.value in w.tombs
  }

  /** What an operation of a sole, reliable writer leaves standing. */
  ghost predicate KeepsOwn(physical: bool, op: Operation, a: World, b: World) {
    var sends := op.Upload? || op.ResolveKeepLocal? || op.Noop? || op.Conflict?;
    && (sends || op.DeleteRemote? || (op.Download? && !a.Hidden()) ==> Stands(a) ==> Stands(b))
    && (sends || (op.DeleteRemote? && !Revives(physical, op, a)) ==> OwnsRemote(a) ==> OwnsRemote(b))
  }

  /** Both claims carry over. */
  ghost predicate CarriesOver(a: World, b: World) {
    (Stands(a) ==> Stands(b)) && (OwnsRemote(a) ==> OwnsRemote(b))
  }

  lemma IdleCarriesOver(solo: bool, was: World, now: World)
    ensures solo && Rely(solo, was, now) ==>
      CarriesOver(was, now) && now.remote == was.remote && now.tombs == was.tombs && now.Hidden() == was.Hidden()
  {
  }

  /** A deletion leaves the baseline standing or gone, and no live object unless an old record was found. */
  ghost predicate DeletionCarriesOver(unrecorded: bool, a: World, b: World) {
    (Stands(a) ==> Stands(b)) && (unrecorded && OwnsRemote(a) ==> OwnsRemote(b))
  }

  lemma EntombCarriesOver(solo: bool, op: Operation, was: World, mid: World, now: World, put: seq<Effect>,
      rest: seq<Effect>, etag: ETag)
    requires DidNothing(solo, was, mid, put) || DidOne(solo, was, mid, put, op, Entombed(etag))
    requires put != [] || etag in mid.tombs
    ensures solo && was.Stores(etag) && DidOne(solo, mid, now, rest, op, Forgot) ==>
      DeletionCarriesOver(etag !in was.tombs, was, now)
  {
  }

  lemma RemovalCarriesOver(solo: bool, op: Operation, was: World, now: World, rest: seq<Effect>)
    requires was.remote.None?
    ensures solo && DidOne(solo, was, now, rest, op, Forgot) ==> Stands(now) && OwnsRemote(now)
  {
  }

  /** The version to download is the live object. */
  predicate DownloadsLive(w: World, op: Operation) {
    op.Download? && op.there.etag.Some? && w.Stores(op.there.etag.value) && !w.Hidden() && DescribesBytes(op.there)
  }

  lemma IdleDownload(solo: bool, op: Operation, was: World, now: World)
    ensures solo && Rely(solo, was, now) && DownloadsLive(was, op) ==> DownloadsLive(now, op)
  {
  }

  lemma PlacingCarriesOver(solo: bool, op: Operation, was: World, now: World, own: seq<Effect>, bytes: Content)
    requires DidNothing(solo, was, now, own) || DidOne(solo, was, now, own, op, Wrote(bytes))
    ensures solo ==> (Stands(was) ==> Stands(now)) && (DownloadsLive(was, op) ==> DownloadsLive(now, op))
  {
  }

  lemma RecordingStands(solo: bool, op: Operation, was: World, now: World, own: seq<Effect>, version: Stamp)
    requires op.Download? &&
      DidOne(solo, was, now, own, op, Recorded(PreviousEntry(Some(version), Some(VersionFrom(op.there)))))
    ensures solo && DownloadsLive(was, op) ==> Stands(now)
  {
  }

  lemma SendCarriesOver(solo: bool, op: Operation, was: World, mid: World, now: World, put: seq<Effect>,
      rec: seq<Effect>, s: Stamp, bytes: Content)
    ensures
      var sent := DidOne(solo, was, mid, put, op, Put(bytes)) &&
        DidOne(solo, mid, now, rec, op, Recorded(Pair(s, bytes)));
      solo && sent ==> CarriesOver(was, now)
  {
  }

  lemma QuietSendIs(was: World, mid: World, now: World, s: Stamp, bytes: Content, expected: ExpectedRemote)
    ensures
      var sent := mid == After(was, Put(bytes)) && now == After(mid, Recorded(Pair(s, bytes)));
      sent && Allows(was.remote, expected) ==> now == QuietSend(was, s, bytes, expected)
    ensures !Allows(was.remote, expected) ==> was == QuietSend(was, s, bytes, expected)
  {
  }

  datatype Answer = Landed | Refused | Status(code: int) | Silent

  predicate ProvesNothingLanded(a: Answer) {
    a.Refused? || (a.Status? && a.code < 500 && a.code != 429)
  }

  function UploadFailure(a: Answer): Result
    requires !a.Landed?
  {
    match a
    case Refused => Stale
    case Status(code) => if code < 500 && code != 429 then Failed(Some(code))
      else Unresolved(AmbiguousPut, None, None, false)
    case Silent => Unresolved(AmbiguousPut, None, None, false)
  }

  datatype Sent = NotSent(answer: Answer) | Uncommitted | Settled

  datatype Written = NotWritten(failure: Result) | Unrecorded | RecordedAs(stamp: Stamp)

  datatype Read = Bytes(content: Content) | Changed | Fault
  datatype Fetch = Fetched(bytes: Content) | Moved | NoBytes(httpStatus: Option<int>)
  datatype Verified = Matched(version: Stamp) | Unavailable | Mismatch

  class SafeExecutor {
    /** Nobody else acts and nothing fails. */
    const quiet: bool
    /** Nobody else writes to the bucket. */
    const solo: bool
    /** Every write or deletion that lands is answered, and every baseline commit succeeds. */
    const reliable: bool
    /** Remote deletion removes the object instead of writing a tombstone. */
    const physical: bool
    /** The events a delta cycle reads still say what is there. */
    const current: bool

    var w: World
    ghost var effects: seq<Effect>
    ghost const start: World

    /** The log accounts for everything since the start. */
    ghost predicate Valid()
      reads this
    {
      w.Ok() && Truth(start) && History(current, solo, start, effects, w)
    }

    constructor (initial: World, quiet: bool, solo: bool, reliable: bool, physical: bool, current: bool)
      requires initial.Ok() && Truth(initial)
      ensures Valid() && w == initial && start == initial && effects == []
      ensures this.quiet == quiet && this.solo == solo && this.reliable == reliable && this.physical == physical
      ensures this.current == current
    {
      this.quiet, this.solo, this.reliable, this.physical, this.current := quiet, solo, reliable, physical, current;
      w, start, effects := initial, initial, [];
    }

    // ---- the others ----

    /** One act of the editor, of another device, or of tombstone retention. */
    method SomebodyActs()
      requires Valid()
      modifies this`w
      ensures Valid() && Rely(solo, old(w), w)
    {
      hide History, Rely;
      ghost var was := w;
      RelyRefl(solo, w);
      var here: bool := *;
      if here || solo { w := ActHere(w); } else { w := ActElsewhere(w); }
      HistoryGrows(current, solo, start, effects, was, w);
    }

    /** The editor saves or deletes, the index catches up, or time passes. */
    static method ActHere(w: World) returns (z: World)
      requires w.Ok()
      ensures z.Ok() && Rely(true, w, z) && Rely(false, w, z)
    {
      var pick: int := *;
      var bytes: Content := *;
      var time: int := *;
      var later := if time < w.clock then w.clock + 1 else time + 1;
      var saved := Stamp(|bytes|, time);
      if pick == 0 && saved !in w.history {
        z := w.(history := w.history[saved := bytes], local := Some(saved), clock := later);
      } else if pick == 1 {
        z := w.(local := None);
      } else if pick == 2 {
        z := w.(index := None);
      } else {
        z := w.(clock := later);
      }
    }

    /** Another device or retention writes to the bucket. */
    static method ActElsewhere(w: World) returns (z: World)
      requires w.Ok()
      ensures z.Ok() && Rely(false, w, z)
    {
      var pick: int := *;
      var bytes: Content := *;
      var time: int := *;
      var later := if time < w.clock then w.clock + 1 else time + 1;
      if pick == 0 {
        z := w.(remote := Some(R2Object(bytes, time)), clock := later);
      } else if pick == 1 {
        z := w.(remote := None);
      } else if pick == 2 {
        z := w.(tombs := w.tombs[ETag(bytes) := time], named := w.named + {ETag(bytes)}, clock := later);
      } else {
        z := w.(tombs := w.tombs - {ETag(bytes)});
      }
    }

    /** What may happen during an await. */
    method Interfere()
      requires Valid()
      modifies this`w
      ensures Valid() && Rely(solo, old(w), w) && (quiet ==> w == old(w))
    {
      hide History;
      var acts: int := *;
      if quiet { return; }
      while acts > 0
        invariant Valid() && Rely(solo, old(w), w)
      {
        ghost var was := w;
        SomebodyActs();
        SinceTrans(old(w), was, w);
        acts := acts - 1;
      }
    }

    /** Something that may go wrong. */
    method Trouble() returns (b: bool)
      ensures quiet ==> !b
    {
      b := *;
      b := b && !quiet;
    }

    method Do(op: Operation, deed: Deed) returns (ghost own: seq<Effect>)
      requires Valid() && Sound(current, Effect(op, w, deed))
      requires deed.Recorded? ==> Recordable(op, w, deed.entry)
      modifies this`w, this`effects
      ensures Valid() && w == After(old(w), deed) && Since(old(w), w)
      ensures own == [Effect(op, old(w), deed)] && effects == old(effects) + own
    {
      own := [Effect(op, w, deed)];
      HistoryRecords(current, solo, start, effects, w, own[0]);
      DeedIsSince(w, deed);
      effects := effects + own;
      w := After(w, deed);
    }

    // ---- single requests ----

    /** A conditional PUT, with its backup request before it. */
    method PutWithBackup(op: Operation, bytes: Content, expected: ExpectedRemote)
        returns (answer: Answer, ghost own: seq<Effect>)
      requires Valid() && RemoteLicence(current, op, w, expected) && expected != Exactly(None)
      modifies this`w, this`effects
      ensures Valid() && effects == old(effects) + own && Since(old(w), w)
      ensures DidNothing(solo, old(w), w, own) ||
        (DidOne(solo, old(w), w, own, op, Put(bytes)) && Allows(own[0].before.remote, expected))
      ensures answer.Landed? ==> own != []
      ensures ProvesNothingLanded(answer) || (reliable && !answer.Landed?) ==> own == []
      ensures quiet ==> answer == (if Allows(old(w).remote, expected) then Landed else Refused)
      ensures quiet ==> w == if answer.Landed? then After(old(w), Put(bytes)) else old(w)
    {
      hide History;
      own := [];
      Interfere();
      var trouble := Trouble();
      if trouble {
        var code: int := *;
        var answered: bool := *;
        var lands: bool := *;
        answer := if answered then Status(code) else Silent;
        if lands && !reliable && !ProvesNothingLanded(answer) && Allows(w.remote, expected) {
          own := Do(op, Put(bytes));
        }
      } else if Allows(w.remote, expected) {
        answer := Landed;
        own := Do(op, Put(bytes));
      } else {
        answer := Refused;
      }
    }

    method GetObject(etag: ETag) returns (f: Fetch)
      requires Valid()
      modifies this`w
      ensures Valid() && Rely(solo, old(w), w) && (f.Fetched? ==> ETag(f.bytes) == etag && w.Stores(etag))
      ensures quiet ==>
        w == old(w) && f == if w.remote.None? then NoBytes(Some(404)) else if !w.Stores(etag) then Moved
        else Fetched(w.remote.value.content)
    {
      hide History;
      Interfere();
      var trouble := Trouble();
      if trouble {
        var status: Option<int> := *;
        f := NoBytes(status);
      } else if w.remote.None? {
        f := NoBytes(Some(404));
      } else if ETag(w.remote.value.content) != etag {
        f := Moved;
      } else {
        f := Fetched(w.remote.value.content);
      }
    }

    /** The conditional HEAD; `Landed` stands for a 2xx. */
    method VerifyObjectVersion(etag: Option<ETag>) returns (answer: Answer)
      requires Valid()
      modifies this`w
      ensures Valid() && Rely(solo, old(w), w) && (answer.Landed? ==> Allows(w.remote, Exactly(etag)))
      ensures quiet ==>
        w == old(w) && answer == if w.remote.None? then Status(404) else if Allows(w.remote, Exactly(etag)) then Landed
        else Refused
    {
      hide History;
      Interfere();
      var trouble := Trouble();
      if trouble {
        var code: int := *;
        var answered: bool := *;
        answer := if answered then Status(code) else Silent;
      } else if w.remote.None? {
        answer := Status(404);
      } else {
        answer := if etag == Some(ETag(w.remote.value.content)) then Landed else Refused;
      }
    }

    method Commit(op: Operation, entry: PreviousEntry) returns (ok: bool, ghost own: seq<Effect>)
      requires Valid() && Recordable(op, w, entry)
      modifies this`w, this`effects
      ensures Valid() && effects == old(effects) + own && Since(old(w), w)
      ensures ok ==> DidOne(solo, old(w), w, own, op, Recorded(entry))
      ensures !ok ==> DidNothing(solo, old(w), w, own)
      ensures (reliable ==> ok) && (quiet ==> ok && w == After(old(w), Recorded(entry)))
    {
      hide History;
      ok, own := true, [];
      Interfere();
      var trouble := Trouble();
      if trouble && !reliable {
        ok := false;
      } else {
        RecordableLasts(op, old(w), w, entry);
        own := Do(op, Recorded(entry));
      }
    }

    method PruneResult(op: Operation, retired: Option<ETag>, physicalDeleted: bool)
        returns (r: Result, ghost own: seq<Effect>)
      requires Valid()
      modifies this`w, this`effects
      ensures Valid() && effects == old(effects) + own && Since(old(w), w)
      ensures r == Applied(None, None, retired, physicalDeleted) ||
        r == Unresolved(StateCommitFailed, None, retired, physicalDeleted)
      ensures if r.Applied? then DidOne(solo, old(w), w, own, op, Forgot) else DidNothing(solo, old(w), w, own)
      ensures LastPut(own).None? && (own != [] ==> Since(old(w), own[0].before))
      ensures (reliable ==> r.Applied?) && (quiet ==> r.Applied? && w == After(old(w), Forgot))
    {
      hide History;
      r, own := Applied(None, None, retired, physicalDeleted), [];
      Interfere();
      var trouble := Trouble();
      if trouble && !reliable {
        r := Unresolved(StateCommitFailed, None, retired, physicalDeleted);
      } else {
        own := Do(op, Forgot);
      }
    }

    // ---- src/local/read-local.ts ----

    /** The bytes are those of exactly the expected version, whatever the editor did meanwhile. */
    method ReadStable(expected: Stamp) returns (read: Read)
      requires Valid()
      modifies this`w
      ensures Valid() && Rely(solo, old(w), w) && (read.Bytes? ==> w.Held(expected, read.content))
      ensures quiet ==> w == old(w) && read == if w.local == Some(expected) then Bytes(w.history[expected]) else Changed
    {
      hide History;
      Interfere();
      var trouble := Trouble();
      if trouble { return Fault; }
      if w.local != Some(expected) { return Changed; }
      ghost var first := w;
      Interfere();
      trouble := Trouble();
      if trouble || w.local.None? { return Fault; }
      var bytes := w.history[w.local.value];
      ghost var second := w;
      Interfere();
      SinceTrans(first, second, w);
      trouble := Trouble();
      if trouble { return Fault; }
      if w.local != Some(expected) { return Changed; }
      StampsDoNotReturn(first, second, w, expected);
      return Bytes(bytes);
    }

    /** The newest complete version; every failure is the same to the caller. */
    method ReadCurrentStable() returns (ok: bool, version: Stamp, bytes: Content)
      requires Valid()
      modifies this`w
      ensures Valid() && Rely(solo, old(w), w) && (ok ==> w.Held(version, bytes))
      ensures quiet ==> w == old(w) && (ok <==> w.local.Some?) && (ok ==> w.local == Some(version))
    {
      hide History;
      ok, version, bytes := false, Stamp(0, 0), [];
      Interfere();
      var trouble := Trouble();
      if trouble || w.local.None? { return; }
      version := w.local.value;
      ghost var first := w;
      Interfere();
      trouble := Trouble();
      if trouble || w.local.None? { return; }
      bytes := w.history[w.local.value];
      ghost var second := w;
      Interfere();
      SinceTrans(first, second, w);
      trouble := Trouble();
      if trouble || w.local != Some(version) { return; }
      StampsDoNotReturn(first, second, w, version);
      ok := true;
    }

    // ---- transfers ----

    /**
     * A conditional PUT of the bytes of version `s`, and the baseline that records the pair once it landed.
     * The baseline is the floor: it is committed before anything else can fail.
     */
    method Send(op: Operation, s: Stamp, bytes: Content, expected: ExpectedRemote)
        returns (sent: Sent, ghost own: seq<Effect>)
      requires Valid() && RemoteLicence(current, op, w, expected) && expected != Exactly(None) && w.Held(s, bytes)
      modifies this`w, this`effects
      ensures Valid() && effects == old(effects) + own && Since(old(w), w)
      ensures sent.NotSent? ==> !sent.answer.Landed? && (ProvesNothingLanded(sent.answer) ==> own == [])
      ensures !sent.NotSent? ==> LastPut(own) == Some(Version(bytes))
      ensures sent.Settled? ==> EndsRecorded(own) && w.baseline == Some(Pair(s, bytes))
      ensures own != [] ==> Allows(own[0].before.remote, expected)
      ensures quiet ==>
        w == QuietSend(old(w), s, bytes, expected) && sent == if Allows(old(w).remote, expected) then Settled
        else NotSent(Refused)
      ensures solo && reliable ==> CarriesOver(old(w), w)
    {
      hide History, Truth, Since, OwnsRemote, QuietSend, LastPut, Recordable, Allows, RemoteLicence, Rely, Stands;
      var answer;
      answer, own := PutWithBackup(op, bytes, expected);
      sent := NotSent(answer);
      IdleCarriesOver(solo, old(w), w);
      QuietSendIs(old(w), w, w, s, bytes, expected);
      if answer.Landed? {
        ghost var landed, put := w, own;
        ghost var rec;
        var floor;
        PairIsRecordable(op, old(w), landed, s, bytes);
        floor, rec := CommitLanding(op, s, bytes, put);
        own := put + rec;
        SinceTrans(old(w), landed, w);
        sent := if floor then Settled else Uncommitted;
        SendCarriesOver(solo, op, old(w), landed, w, put, rec, s, bytes);
        QuietSendIs(old(w), landed, w, s, bytes, expected);
      }
    }

    method CommitLanding(op: Operation, s: Stamp, bytes: Content, ghost put: seq<Effect>)
        returns (floor: bool, ghost rec: seq<Effect>)
      requires Valid() && Recordable(op, w, Pair(s, bytes)) && |put| == 1 && put[0].deed == Put(bytes)
      modifies this`w, this`effects
      ensures Valid() && effects == old(effects) + rec && Since(old(w), w) && LastPut(put + rec) == Some(Version(bytes))
      ensures floor ==> EndsRecorded(put + rec) && w.baseline == Some(Pair(s, bytes))
      ensures floor ==> DidOne(solo, old(w), w, rec, op, Recorded(Pair(s, bytes)))
      ensures (reliable ==> floor) && (quiet ==> floor && w == After(old(w), Recorded(Pair(s, bytes))))
    {
      hide History, Truth, Since, LastPut, Recordable;
      floor, rec := Commit(op, Pair(s, bytes));
      PutThenRecord(put, rec, bytes);
    }

    /** The catch-up after a landed upload: one more conditional PUT, accepted only over the ETag just received. */
    method CatchUpLatestLocalUpload(op: Operation, landed: RemoteVersion) returns (r: Result, ghost own: seq<Effect>)
      requires Valid() && !op.IsResolution() && landed.etag.Some? && w.BaselineETag() == landed.etag
      modifies this`w, this`effects
      ensures Valid() && effects == old(effects) + own && Since(old(w), w)
      ensures FollowsLanding(r, own, landed)
      ensures own != [] ==> own[0].before.Stores(landed.etag.value)
      ensures quiet && old(w).local.Some? ==>
        w == QuietSend(old(w), old(w).local.value, old(w).history[old(w).local.value], Exactly(landed.etag))
      ensures solo && reliable ==> CarriesOver(old(w), w)
    {
      hide History;
      r, own := Partial(RemoteAppliedLocalChanged, Some(landed)), [];
      var ok, version, bytes := ReadCurrentStable();
      if ok {
        ghost var read := w;
        var sent;
        sent, own := Send(op, version, bytes, Exactly(landed.etag));
        SinceTrans(old(w), read, w);
        if sent.NotSent? {
          r := Partial(RemoteAppliedLocalChanged, if sent.answer.Refused? then Some(landed) else None);
        } else if sent.Uncommitted? {
          r := Unresolved(StateCommitFailed, Some(Version(bytes)), None, false);
        } else {
          var confirmed, thrown := StillMatches(version);
          r := if thrown then Partial(RemoteAppliedLocalChanged, None)
               else if confirmed then Applied(None, Some(Version(bytes)), None, false)
               else Partial(RemoteAppliedLocalChanged, Some(Version(bytes)));
        }
      }
    }

    /** One `stat`, which may throw. */
    method StillMatches(s: Stamp) returns (matches: bool, thrown: bool)
      requires Valid()
      modifies this`w
      ensures Valid() && Rely(solo, old(w), w) && (quiet ==> w == old(w) && !thrown) &&
        (matches <==> w.local == Some(s))
    {
      hide History;
      Interfere();
      thrown := Trouble();
      matches := w.local == Some(s);
    }

    method Upload(op: Operation) returns (r: Result, ghost own: seq<Effect>)
      requires Valid() && op.Upload? && Licensed(current, op, w)
      modifies this`w, this`effects
      ensures Valid() && effects == old(effects) + own && Since(old(w), w) && Honest(r, own, w)
      ensures quiet ==>
        w == QuietUpload(old(w), op.here, op.expected) && r == UploadReport(old(w), op.here, op.expected)
      ensures solo && reliable ==> CarriesOver(old(w), w)
    {
      hide History;
      r, own := Blocked, [];
      if op.expected != Exactly(None) {
        var read := ReadStable(op.here);
        r := if read.Changed? then Stale else Failed(None);
        if read.Bytes? {
          ghost var was := w;
          r, own := SendThenCatchUp(op, read.content);
          SinceTrans(old(w), was, w);
        }
      }
    }

    method SendThenCatchUp(op: Operation, bytes: Content) returns (r: Result, ghost own: seq<Effect>)
      requires Valid() && op.Upload? && op.expected != Exactly(None) && Licensed(current, op, w) &&
        w.Held(op.here, bytes)
      modifies this`w, this`effects
      ensures Valid() && effects == old(effects) + own && Since(old(w), w) && Honest(r, own, w)
      ensures quiet && old(w).local == Some(op.here) ==>
        w == QuietSend(old(w), op.here, bytes, op.expected) && r == if Allows(old(w).remote, op.expected) then
          Done(None, Some(Version(bytes))) else Stale
      ensures solo && reliable ==> CarriesOver(old(w), w)
    {
      hide History, Truth, Since;
      var sent;
      sent, own := Send(op, op.here, bytes, op.expected);
      if sent.NotSent? {
        r := UploadFailure(sent.answer);
      } else if sent.Uncommitted? {
        r := Unresolved(StateCommitFailed, Some(Version(bytes)), None, false);
      } else {
        ghost var settled, more := w, [];
        ghost var first := own;
        r, more := AccountForLatest(op, op.here, Version(bytes));
        SinceTrans(old(w), settled, w);
        LastPutAppend(first, more);
        own := first + more;
      }
    }

    /** The floor is committed; a version saved meanwhile goes to the catch-up. */
    method AccountForLatest(op: Operation, sent: Stamp, landed: RemoteVersion)
        returns (r: Result, ghost own: seq<Effect>)
      requires Valid() && !op.IsResolution() && landed.etag.Some? && w.BaselineETag() == landed.etag
      modifies this`w, this`effects
      ensures Valid() && effects == old(effects) + own && Since(old(w), w)
      ensures FollowsLanding(r, own, landed)
      ensures quiet && old(w).local == Some(sent) ==> w == old(w) && r == Done(None, Some(landed))
      ensures solo && reliable ==> CarriesOver(old(w), w)
    {
      hide History;
      own := [];
      var matches, thrown := StillMatches(sent);
      if thrown {
        // A throwing stat is answered like a throwing PUT, although the PUT landed.
        r := UploadFailure(Silent);
      } else if matches {
        r := Applied(None, Some(landed), None, false);
      } else {
        ghost var moved := w;
        r, own := CatchUpLatestLocalUpload(op, landed);
        SinceTrans(old(w), moved, w);
      }
    }

    /** A Vault write; it may throw, with or without having landed. Its version is not returned. */
    method WriteVault(op: Operation, bytes: Content) returns (ok: bool, ghost written: Stamp, ghost own: seq<Effect>)
      requires Valid() && Justified(Effect(op, w, Wrote(bytes)))
      modifies this`w, this`effects
      ensures Valid() && effects == old(effects) + own && Since(old(w), w) && (quiet ==> ok)
      ensures (own == [] && w == old(w)) ||
        (own == [Effect(op, old(w), Wrote(bytes))] && w == After(old(w), Wrote(bytes)))
      ensures ok ==>
        own != [] && written == NextStamp(old(w), bytes) && w.Held(written, bytes) && w.index == Some(written)
    {
      hide History;
      own, written := [], NextStamp(w, bytes);
      var thrown := Trouble();
      ok := !thrown;
      var lands: bool := *;
      if ok || lands { own := Do(op, Wrote(bytes)); }
    }

    /**
     * The adapter's version of the file, or else the version the TFile carried before. It is the write's own
     * version, or was the file's version at the moment `seen`.
     */
    method VersionOf(ghost written: Stamp) returns (version: Option<Stamp>, ghost seen: World)
      requires Valid() && (w.index == Some(written) || w.index.None?)
      modifies this`w
      ensures Valid() && Rely(solo, old(w), w) && Rely(solo, old(w), seen) && Rely(solo, seen, w)
      ensures version.Some? ==> version == Some(written) || version == seen.local
      ensures quiet ==> w == old(w) && (w.local == Some(written) ==> version == w.local)
    {
      hide History;
      Interfere();
      var direct := w.FileStat();
      seen := w;
      var unreadable := Trouble();
      if unreadable { direct := None; }
      Interfere();
      SinceTrans(old(w), seen, w);
      var thrown := Trouble();
      version := direct;
      if !thrown && w.local.Some? {
        version, seen := w.local, w;
        SinceRefl(w);
      }
    }

    method VerifyWrittenContent(expected: Content, ghost written: Stamp) returns (v: Verified)
      requires Valid() && w.Held(written, expected) && (w.index == Some(written) || w.index.None?)
      modifies this`w
      ensures Valid() && Rely(solo, old(w), w) && (v.Matched? ==> w.Held(v.version, expected))
      ensures quiet && old(w).local == Some(written) ==> w == old(w) && v == Matched(written)
    {
      hide History;
      v := Unavailable;
      var before, seenBefore := VersionOf(written);
      if before.Some? {
        ghost var first := w;
        Interfere();
        SinceTrans(old(w), first, w);
        SinceTrans(seenBefore, first, w);
        var thrown := Trouble();
        if !thrown && w.local.Some? {
          var actual := w.history[w.local.value];
          ghost var read := w;
          var after, seenAfter := VersionOf(written);
          SinceTrans(old(w), read, w);
          v := if after != before || actual != expected then Mismatch else Matched(before.value);
          if v.Matched? { ReadBetween(seenBefore, read, seenAfter, w, before.value, written, expected); }
        }
      }
    }

    /** The file is still the expected version, before and after the conditional GET. */
    method FetchIfUnchanged(expectedHere: Option<Stamp>, etag: ETag) returns (early: Option<Result>, bytes: Content)
      requires Valid()
      modifies this`w
      ensures Valid() && Rely(solo, old(w), w)
      ensures early.Some? ==> early.value.Stale? || early.value.Failed? || early.value.Raised?
      ensures early.None? ==> ETag(bytes) == etag && w.local == expectedHere && (solo ==> w.Stores(etag))
      ensures quiet ==> w == old(w) && (early.None? <==> w.local == expectedHere && w.Stores(etag))
      ensures quiet && early.Some? ==> early.value == DownloadReport(w, expectedHere, Some(etag))
    {
      hide History;
      bytes := [];
      Interfere();
      var thrown := Trouble();
      if thrown && expectedHere.Some? { return Some(Raised), []; }
      if w.local != expectedHere { return Some(Stale), []; }
      ghost var checked := w;
      var fetched := GetObject(etag);
      SinceTrans(old(w), checked, w);
      if !fetched.Fetched? { return Some(if fetched.Moved? then Stale else Failed(fetched.httpStatus)), []; }
      checked := w;
      Interfere();
      SinceTrans(old(w), checked, w);
      thrown := Trouble();
      if thrown && expectedHere.Some? { return Some(Raised), []; }
      if w.local != expectedHere { return Some(Stale), []; }
      return None, fetched.bytes;
    }

    /** Before a file is created: its folders are made, and it must still be absent. */
    method PrepareFolders() returns (early: Option<Result>)
      requires Valid()
      modifies this`w
      ensures Valid() && Rely(solo, old(w), w)
      ensures early.Some? ==> early.value.Stale? || early.value.Failed?
      ensures early.None? ==> w.local.None?
      ensures quiet ==> w == old(w) && (w.local.None? ==> early.None?)
    {
      hide History;
      var folder := Trouble();
      Interfere();
      var noParent := Trouble();
      early := if folder || noParent then Some(Failed(None)) else if w.local.Some? then Some(Stale) else None;
    }

    /** Writes over the version just checked, or creates the file. */
    method Place(op: Operation, bytes: Content)
        returns (early: Option<Result>, ghost written: Stamp, ghost own: seq<Effect>)
      requires Valid() && (w.local.Some? ==> MayReplaceLocal(op, w, w.local.value))
      modifies this`w, this`effects
      ensures Valid() && effects == old(effects) + own && Since(old(w), w)
      ensures early.Some? ==>
        early.value == Partial(RemoteWriteLandingUnknown, None) ||
        (own == [] && (early.value.Stale? || early.value.Failed?))
      ensures early.None? ==>
        own != [] && w.Held(written, bytes) && w.local == Some(written) && w.index == Some(written)
      ensures DidNothing(solo, old(w), w, own) || DidOne(solo, old(w), w, own, op, Wrote(bytes))
      ensures quiet ==> early.None? && w == After(old(w), Wrote(bytes)) && written == NextStamp(old(w), bytes)
    {
      hide History;
      early, written, own := None, Stamp(0, 0), [];
      if w.local.None? { early := PrepareFolders(); }
      if early.None? {
        var ok;
        ok, written, own := WriteVault(op, bytes);
        early := if ok then None else Some(Partial(RemoteWriteLandingUnknown, None));
      }
    }

    method Download(op: Operation) returns (r: Result, ghost own: seq<Effect>)
      requires Valid() && op.Download? && Licensed(current, op, w) && DescribesBytes(op.there)
      modifies this`w, this`effects
      ensures Valid() && effects == old(effects) + own && Since(old(w), w) && Honest(r, own, w)
      ensures quiet ==>
        w == QuietDownload(old(w), op.expectedHere, VersionFrom(op.there)) &&
        r == DownloadReport(old(w), op.expectedHere, op.there.etag)
      ensures solo && Stands(old(w)) && !old(w).Hidden() ==> Stands(w)
    {
      hide History, Stands, OwnsRemote;
      r, own := Blocked, [];
      if op.there.etag.Some? {
        var early, bytes := FetchIfUnchanged(op.expectedHere, op.there.etag.value);
        IdleCarriesOver(solo, old(w), w);
        if early.Some? {
          r := early.value;
        } else {
          ghost var fetched := w;
          r, own := PlaceAndVerify(op, bytes);
          SinceTrans(old(w), fetched, w);
        }
      }
    }

    /** Overwrites the file, and records the version the read-back bytes belong to. */
    method PlaceAndVerify(op: Operation, bytes: Content) returns (r: Result, ghost own: seq<Effect>)
      requires Valid() && op.Download? && Licensed(current, op, w) && DescribesBytes(op.there)
      requires op.there.etag == Some(ETag(bytes)) && w.local == op.expectedHere
      modifies this`w, this`effects
      ensures Valid() && effects == old(effects) + own && Since(old(w), w) && Honest(r, own, w)
      ensures quiet ==>
        w == After(After(old(w), Wrote(bytes)),
        Recorded(PreviousEntry(Some(NextStamp(old(w), bytes)), Some(VersionFrom(op.there)))))
      ensures quiet ==> r == Done(Some(NextStamp(old(w), bytes)), None)
      ensures solo && Stands(old(w)) && DownloadsLive(old(w), op) ==> Stands(w)
    {
      hide History, Truth, Since, LastPut, Stands, OwnsRemote, DownloadsLive;
      var early;
      ghost var written;
      early, written, own := Place(op, bytes);
      PlacingCarriesOver(solo, op, old(w), w, own, bytes);
      if early.Some? {
        r := early.value;
        NoPut(own);
      } else {
        ghost var placed, rec := w, [];
        r, rec := VerifyAndRecord(op, bytes, written);
        SinceTrans(old(w), placed, w);
        own := own + rec;
        NoPut(own);
      }
    }

    method VerifyAndRecord(op: Operation, bytes: Content, ghost written: Stamp)
        returns (r: Result, ghost own: seq<Effect>)
      requires Valid() && op.Download? && DescribesBytes(op.there) && op.there.etag == Some(ETag(bytes))
      requires w.Held(written, bytes) && (w.index == Some(written) || w.index.None?)
      modifies this`w, this`effects
      ensures Valid() && effects == old(effects) + own && Since(old(w), w)
      ensures (r.Partial? || r.Unresolved? || r.Applied?) && r.Remote().None? && (r.Applied? ==> EndsRecorded(own))
      ensures r.Partial? ==> !r.why.RemoteAppliedLocalChanged?
      ensures forall e :: e in own ==> e.deed.Recorded?
      ensures quiet && old(w).local == Some(written) ==>
        w == After(old(w), Recorded(PreviousEntry(Some(written), Some(VersionFrom(op.there))))) &&
          r == Done(Some(written), None)
      ensures solo && Stands(old(w)) && DownloadsLive(old(w), op) ==> Stands(w)
    {
      hide History, Stands, OwnsRemote, DownloadsLive;
      own := [];
      var verified := VerifyWrittenContent(bytes, written);
      IdleCarriesOver(solo, old(w), w);
      IdleDownload(solo, op, old(w), w);
      if verified.Matched? {
        ghost var checked := w;
        var committed;
        committed, own := Commit(op, PreviousEntry(Some(verified.version), Some(VersionFrom(op.there))));
        SinceTrans(old(w), checked, w);
        if committed { RecordingStands(solo, op, checked, w, own, verified.version); }
        IdleCarriesOver(solo, checked, w);
        r := if committed then Applied(Some(verified.version), None, None, false)
          else Unresolved(StateCommitFailed, None, None, false);
      } else {
        r := Partial(if verified.Unavailable? then RemoteWriteLandingUnknown else RacedWithLocalEdit, None);
      }
    }

    // ---- deletions ----

    /** Propagates a remote deletion: the checked version is trashed, never unlinked. */
    method DeleteLocal(op: Operation, here: Stamp) returns (r: Result, ghost own: seq<Effect>)
      requires Valid() && MayReplaceLocal(op, w, here)
      modifies this`w, this`effects
      ensures Valid() && effects == old(effects) + own && Since(old(w), w) && Honest(r, own, w)
      ensures own != [] ==> Since(old(w), own[0].before)
      ensures quiet ==> w == QuietTrash(old(w), here) && r == TrashReport(old(w), here)
    {
      hide History, Truth, Since, LastPut;
      own := [];
      NoPut(own);
      var matches, thrown := StillMatches(here);
      var noRemover := Trouble();
      if thrown {
        r := Raised;
      } else if w.local.None? {
        ghost var checked := w;
        r, own := ForgetGone(op);
        SinceTrans(old(w), checked, w);
        if own != [] { SinceTrans(old(w), checked, own[0].before); }
      } else if !matches {
        r := Stale;
      } else if noRemover {
        r := Failed(None);
      } else {
        ghost var checked := w;
        r, own := TrashThenPrune(op, here);
        SinceTrans(old(w), checked, w);
        if own != [] { SinceTrans(old(w), checked, own[0].before); }
      }
    }

    /** The file is gone already, so only the baseline goes. */
    method ForgetGone(op: Operation) returns (r: Result, ghost own: seq<Effect>)
      requires Valid()
      modifies this`w, this`effects
      ensures Valid() && effects == old(effects) + own && Since(old(w), w) && Honest(r, own, w)
      ensures own != [] ==> Since(old(w), own[0].before)
      ensures quiet ==> w == After(old(w), Forgot) && r == Done(None, None)
    {
      hide History, Truth, Since, LastPut;
      r, own := PruneResult(op, None, false);
    }

    method TrashThenPrune(op: Operation, here: Stamp) returns (r: Result, ghost own: seq<Effect>)
      requires Valid() && MayReplaceLocal(op, w, here) && w.local == Some(here)
      modifies this`w, this`effects
      ensures Valid() && effects == old(effects) + own && Since(old(w), w) && Honest(r, own, w)
      ensures own != [] ==> Since(old(w), own[0].before)
      ensures quiet ==> w == After(After(old(w), Trashed), Forgot) && r == Done(None, None)
    {
      hide History, Truth, Since, LastPut;
      var undecided;
      SinceRefl(w);
      undecided, own := TrashFile(op, here);
      if undecided.Some? {
        r := undecided.value;
      } else {
        ghost var trashed, rest := w, [];
        r, rest := PruneResult(op, None, false);
        SinceTrans(old(w), trashed, w);
        if own == [] && rest != [] { SinceTrans(old(w), trashed, rest[0].before); }
        own := own + rest;
      }
      NoPut(own);
    }

    /** The trash call may throw or do nothing; what decides is whether the file is there afterwards. */
    method TrashFile(op: Operation, here: Stamp) returns (undecided: Option<Result>, ghost own: seq<Effect>)
      requires Valid() && MayReplaceLocal(op, w, here) && w.local == Some(here)
      modifies this`w, this`effects
      ensures Valid() && effects == old(effects) + own && Since(old(w), w)
      ensures own == [] || own == [Effect(op, old(w), Trashed)]
      ensures undecided.Some? ==> undecided.value == Partial(LocalDeleteLandingUnknown, None) || undecided.value.Failed?
      // The promise that nothing happened is broken exactly when the trashed file was created again.
      ensures own != [] ==>
        (undecided == Some(Failed(None)) <==> TrashedThenRecreated(own, w)) &&
        (w.local.Some? ==> TrashedThenRecreated(own, w))
      ensures undecided.Some? && undecided.value.Failed? ==> undecided == Some(Failed(None))
      ensures quiet ==> undecided.None? && w == After(old(w), Trashed)
    {
      hide History;
      own := [];
      var thrown := Trouble();
      var idle := Trouble();
      if !idle { own := Do(op, Trashed); }
      ghost var acted := w;
      Interfere();
      SinceTrans(old(w), acted, w);
      undecided := AfterTrash(w.local.Some?, thrown);
    }

    /** `putTombstone`: an existing record for the version counts as success and is left as it is. */
    method PutTombstone(op: Operation, etag: ETag) returns (answer: Answer, ghost own: seq<Effect>)
      requires Valid() && MayReplaceRemote(op, w, etag)
      modifies this`w, this`effects
      ensures Valid() && effects == old(effects) + own && Since(old(w), w)
      ensures DidNothing(solo, old(w), w, own) || DidOne(solo, old(w), w, own, op, Entombed(etag))
      ensures answer.Landed? ==> own != [] || etag in w.tombs
      ensures !answer.Refused? && (ProvesNothingLanded(answer) || (reliable && !answer.Landed?) ==> own == [])
      ensures quiet ==> answer.Landed? && w == if etag in old(w).tombs then old(w) else After(old(w), Entombed(etag))
    {
      hide History;
      own := [];
      Interfere();
      var trouble := Trouble();
      if trouble {
        var code: int := *;
        var answered: bool := *;
        var lands: bool := *;
        answer := if answered then Status(code) else Silent;
        if lands && !reliable && !ProvesNothingLanded(answer) && etag !in w.tombs { own := Do(op, Entombed(etag)); }
      } else {
        answer := Landed;
        if etag !in w.tombs { own := Do(op, Entombed(etag)); }
      }
    }

    /** Propagates a local deletion of exactly the version the plan saw. */
    method DeleteRemote(op: Operation, etag: Option<ETag>) returns (r: Result, ghost own: seq<Effect>)
      requires Valid() && (etag.Some? ==> MayReplaceRemote(op, w, etag.value))
      modifies this`w, this`effects
      ensures Valid() && effects == old(effects) + own && Since(old(w), w) && (!physical ==> Honest(r, own, w))
      ensures quiet ==>
        w == QuietRemoteDelete(physical, old(w), etag) && r == RemoteDeleteReport(physical, old(w), etag)
      ensures solo && reliable ==>
        DeletionCarriesOver(physical || (etag.Some? ==> etag.value !in old(w).tombs), old(w), w)
    {
      hide History, Stands, OwnsRemote;
      r, own := Blocked, [];
      if etag.Some? {
        if physical { r, own := DeletePhysically(op, etag.value); } else { r, own := DeleteLogically(op, etag.value); }
      }
    }

    method DeleteLogically(op: Operation, etag: ETag) returns (r: Result, ghost own: seq<Effect>)
      requires Valid() && MayReplaceRemote(op, w, etag)
      modifies this`w, this`effects
      ensures Valid() && effects == old(effects) + own && Since(old(w), w) && Honest(r, own, w)
      ensures quiet ==>
        w == QuietRemoteDelete(false, old(w), Some(etag)) && r == RemoteDeleteReport(false, old(w), Some(etag))
      ensures solo && reliable ==> DeletionCarriesOver(etag !in old(w).tombs, old(w), w)
    {
      hide History, Truth, Since, Stands, OwnsRemote;
      own := [];
      var head := VerifyObjectVersion(Some(etag));
      ReplacementLasts(op, old(w), w, etag, solo);
      ghost var proven := w;
      IdleCarriesOver(solo, old(w), w);
      if head.Landed? {
        r, own := TombstoneThenPrune(op, etag);
        SinceTrans(old(w), proven, w);
      } else {
        r := RefusedRead(head);
      }
    }

    method TombstoneThenPrune(op: Operation, etag: ETag) returns (r: Result, ghost own: seq<Effect>)
      requires Valid() && MayReplaceRemote(op, w, etag)
      modifies this`w, this`effects
      ensures Valid() && effects == old(effects) + own && Since(old(w), w) && Honest(r, own, w)
      ensures quiet ==> w == QuietEntomb(old(w), etag) && r == Applied(None, None, Some(etag), false)
      ensures solo && reliable && old(w).Stores(etag) ==> DeletionCarriesOver(etag !in old(w).tombs, old(w), w)
    {
      hide History, Truth, Since, LastPut, Stands, OwnsRemote;
      var answer;
      answer, own := PutTombstone(op, etag);
      IdleCarriesOver(solo, old(w), w);
      if answer.Landed? {
        ghost var put := own;
        ghost var rest;
        r, rest := PruneEntombed(op, etag, old(w), put);
        own := put + rest;
      } else {
        r := UploadFailure(answer);
      }
      NoPut(own);
    }

    /** The record is there; the baseline goes. */
    method PruneEntombed(op: Operation, etag: ETag, ghost was: World, ghost put: seq<Effect>)
        returns (r: Result, ghost rest: seq<Effect>)
      requires Valid() && Since(was, w) && (put != [] || etag in w.tombs)
      requires DidNothing(solo, was, w, put) || DidOne(solo, was, w, put, op, Entombed(etag))
      modifies this`w, this`effects
      ensures Valid() && effects == old(effects) + rest && Since(was, w)
      ensures (r == Applied(None, None, Some(etag), false) && |rest| == 1 && rest[0].deed == Forgot) ||
        (r == Unresolved(StateCommitFailed, None, Some(etag), false) && rest == [])
      ensures quiet ==> r.Applied? && w == After(old(w), Forgot)
      ensures solo && reliable && was.Stores(etag) ==> DeletionCarriesOver(etag !in was.tombs, was, w)
    {
      hide History, Truth, Since, LastPut, Stands, OwnsRemote;
      r, rest := PruneResult(op, Some(etag), false);
      SinceTrans(was, old(w), w);
      EntombCarriesOver(solo, op, was, old(w), w, put, rest, etag);
    }

    /** The recovery store's conditional delete: the object goes only if it is still this version. */
    method DeletePhysically(op: Operation, etag: ETag) returns (r: Result, ghost own: seq<Effect>)
      requires Valid() && MayReplaceRemote(op, w, etag)
      modifies this`w, this`effects
      ensures Valid() && effects == old(effects) + own && Since(old(w), w)
      ensures quiet ==>
        w == QuietRemoteDelete(true, old(w), Some(etag)) && r == RemoteDeleteReport(true, old(w), Some(etag))
      ensures solo && reliable ==> DeletionCarriesOver(true, old(w), w)
    {
      hide History, Truth, Since, Stands, OwnsRemote;
      own := [];
      Interfere();
      IdleCarriesOver(solo, old(w), w);
      var declined := Trouble();
      var trouble := Trouble();
      var lands: bool := *;
      if declined {
        r := Blocked;
      } else if !w.Stores(etag) {
        r := Stale;
      } else {
        ghost var proven, rest := w, [];
        ReplacementLasts(op, old(w), w, etag, solo);
        if (lands && !reliable) || !trouble { own := Do(op, Removed); }
        SinceTrans(old(w), proven, w);
        if trouble {
          var known: bool := *;
          r := if known then Failed(None) else Partial(PhysicalDeletePending, None);
        } else {
          proven := w;
          r, rest := PruneResult(op, None, true);
          SinceTrans(old(w), proven, w);
          RemovalCarriesOver(solo, op, proven, w, rest);
          own := own + rest;
        }
      }
    }

    // ---- resolutions ----

    method ResolveKeepLocal(op: Operation) returns (r: Result, ghost own: seq<Effect>)
      requires Valid() && op.ResolveKeepLocal?
      modifies this`w, this`effects
      ensures Valid() && effects == old(effects) + own && Since(old(w), w) && Honest(r, own, w)
      ensures quiet ==>
        w == QuietUpload(old(w), op.here, KeepLocalOver(op)) && r == UploadReport(old(w), op.here, KeepLocalOver(op))
      ensures solo && reliable ==> CarriesOver(old(w), w)
    {
      hide History;
      r, own := Blocked, [];
      if KeepLocalOver(op) != Exactly(None) {
        var matches, thrown := StillMatches(op.here);
        if thrown || !matches {
          r := if thrown then Raised else Stale;
        } else {
          ghost var checked := w;
          var read := ReadStable(op.here);
          SinceTrans(old(w), checked, w);
          r := if read.Changed? then Stale else Failed(None);
          if read.Bytes? {
            checked := w;
            r, own := SendThenConfirm(op, read.content);
            SinceTrans(old(w), checked, w);
          }
        }
      }
    }

    method SendThenConfirm(op: Operation, bytes: Content) returns (r: Result, ghost own: seq<Effect>)
      requires Valid() && op.ResolveKeepLocal? && KeepLocalOver(op) != Exactly(None) && w.Held(op.here, bytes)
      modifies this`w, this`effects
      ensures Valid() && effects == old(effects) + own && Since(old(w), w) && Honest(r, own, w)
      ensures quiet && old(w).local == Some(op.here) ==>
        w == QuietSend(old(w), op.here, bytes, KeepLocalOver(op)) &&
          r == if Allows(old(w).remote, KeepLocalOver(op)) then Done(None, Some(Version(bytes))) else Stale
      ensures solo && reliable ==> CarriesOver(old(w), w)
    {
      hide History, Truth, Since;
      var sent;
      sent, own := Send(op, op.here, bytes, KeepLocalOver(op));
      if sent.NotSent? {
        r := UploadFailure(sent.answer);
      } else if sent.Uncommitted? {
        r := Unresolved(StateCommitFailed, Some(Version(bytes)), None, false);
      } else {
        ghost var settled := w;
        var matches, thrown := StillMatches(op.here);
        SinceTrans(old(w), settled, w);
        IdleCarriesOver(solo, settled, w);
        r := if thrown then Raised
             else if matches then Applied(None, Some(Version(bytes)), None, false)
             else Partial(RemoteAppliedLocalChanged, Some(Version(bytes)));
      }
    }

    method ResolveKeepRemote(op: Operation) returns (r: Result, ghost own: seq<Effect>)
      requires Valid() && op.ResolveKeepRemote?
      modifies this`w, this`effects
      ensures Valid() && effects == old(effects) + own && Since(old(w), w) && Honest(r, own, w)
      ensures quiet ==>
        w == QuietDownload(old(w), op.expectedHere, KeptRemote(op.etag)) &&
        r == DownloadReport(old(w), op.expectedHere, op.etag)
    {
      hide History, Truth, Since;
      r, own := Blocked, [];
      SinceRefl(w);
      if op.etag.Some? {
        var early, bytes := FetchIfUnchanged(op.expectedHere, op.etag.value);
        if early.Some? {
          r := early.value;
        } else {
          ghost var fetched := w;
          var written;
          written, own := WriteAndRecord(op, bytes, KeptRemote(op.etag));
          SinceTrans(old(w), fetched, w);
          r := match written
               case NotWritten(failure) => failure
               case Unrecorded => Unresolved(StateCommitFailed, None, None, false)
               case RecordedAs(stamp) => Applied(Some(stamp), None, None, false);
        }
      }
    }

    /** A resolution's local half: the write over the version the user saw, and the baseline for it. */
    method WriteAndRecord(op: Operation, bytes: Content, remote: RemoteVersion)
        returns (written: Written, ghost own: seq<Effect>)
      requires Valid() && (op.ResolveKeepRemote? || op.ResolveMerged?) &&
        (w.local.Some? ==> MayReplaceLocal(op, w, w.local.value))
      requires remote.etag == Some(ETag(bytes)) && remote.size == |bytes|
      modifies this`w, this`effects
      ensures Valid() && effects == old(effects) + own && Since(old(w), w)
      ensures LastPut(own).None? && (written.RecordedAs? ==> EndsRecorded(own))
      ensures written.NotWritten? ==>
        written.failure == Partial(RemoteWriteLandingUnknown, None) ||
          (own == [] && (written.failure.Stale? || written.failure.Failed?))
      ensures quiet ==> written == RecordedAs(NextStamp(old(w), bytes))
      ensures quiet ==>
        w == After(After(old(w), Wrote(bytes)), Recorded(PreviousEntry(Some(NextStamp(old(w), bytes)), Some(remote))))
    {
      hide History, Truth, Since, LastPut;
      var early, stamp;
      early, stamp, own := WriteLocal(op, bytes);
      if early.Some? {
        written := NotWritten(early.value);
      } else {
        ghost var placed, rec := w, [];
        var committed;
        committed, rec := Commit(op, PreviousEntry(Some(stamp), Some(remote)));
        SinceTrans(old(w), placed, w);
        own := own + rec;
        written := if committed then RecordedAs(stamp) else Unrecorded;
      }
      NoPut(own);
    }

    /** A resolution's write. The stamp is read after the write, and may already be that of a later save. */
    method WriteLocal(op: Operation, bytes: Content)
        returns (early: Option<Result>, stamp: Stamp, ghost own: seq<Effect>)
      requires Valid() && (w.local.Some? ==> MayReplaceLocal(op, w, w.local.value))
      modifies this`w, this`effects
      ensures Valid() && effects == old(effects) + own && Since(old(w), w)
      ensures own == [] || (|own| == 1 && own[0].deed == Wrote(bytes))
      ensures early.Some? ==>
        early.value == Partial(RemoteWriteLandingUnknown, None) ||
        (own == [] && (early.value.Stale? || early.value.Failed?))
      ensures early.None? ==> stamp in w.history
      ensures quiet ==> early.None? && w == After(old(w), Wrote(bytes)) && stamp == NextStamp(old(w), bytes)
    {
      hide History, Truth, Since;
      ghost var written;
      early, written, own := Place(op, bytes);
      stamp := Stamp(0, 0);
      if early.None? {
        ghost var placed := w;
        var current := ReadStampBack(bytes, written);
        SinceTrans(old(w), placed, w);
        if current.Some? { stamp := current.value; } else { early := Some(Partial(RemoteWriteLandingUnknown, None)); }
      }
    }

    /** `file.stat` after the write: the write's own version, or the current file once the index caught up. */
    method ReadStampBack(bytes: Content, ghost written: Stamp) returns (stamp: Option<Stamp>)
      requires Valid() && w.Held(written, bytes) && w.local == Some(written) && w.index == Some(written)
      modifies this`w
      ensures Valid() && Rely(solo, old(w), w)
      ensures stamp.Some? ==> stamp.value in w.history
      // A stamp that does not stand for the written bytes is that of a later save with other content.
      ensures stamp.Some? && !w.Held(stamp.value, bytes) ==> stamp == w.local && stamp.value !in old(w).history
      ensures quiet ==> w == old(w) && stamp == Some(written)
    {
      hide History;
      Interfere();
      var noStat := Trouble();
      stamp := if noStat then None else w.FileStat();
    }

    method ResolveMerged(op: Operation) returns (r: Result, ghost own: seq<Effect>)
      requires Valid() && op.ResolveMerged?
      modifies this`w, this`effects
      ensures Valid() && effects == old(effects) + own && Since(old(w), w) && Honest(r, own, w)
      ensures quiet ==>
        w == QuietMerge(old(w), op.here, op.etag, op.merged) && r == MergeReport(old(w), op.here, op.etag, op.merged)
    {
      hide History, Truth, Since, LastPut;
      r, own := Blocked, [];
      NoPut(own);
      SinceRefl(w);
      if op.etag.Some? {
        var matches, thrown := StillMatches(op.here);
        if thrown || !matches {
          r := if thrown then Raised else Stale;
        } else {
          ghost var checked := w;
          var answer;
          answer, own := PutWithBackup(op, op.merged, Exactly(op.etag));
          SinceTrans(old(w), checked, w);
          if !answer.Landed? {
            r := UploadFailure(answer);
          } else {
            ghost var landed, rest := w, [];
            r, rest := ApplyMergedLocally(op);
            SinceTrans(old(w), landed, w);
            OnePut(own, op.merged);
            LastPutAppend(own, rest);
            own := own + rest;
          }
        }
      }
    }

    /** The remote holds the merge and keeps it; the local half is applied only over the version the user saw. */
    method ApplyMergedLocally(op: Operation) returns (r: Result, ghost own: seq<Effect>)
      requires Valid() && op.ResolveMerged?
      modifies this`w, this`effects
      ensures Valid() && effects == old(effects) + own && Since(old(w), w)
      ensures LastPut(own).None? && (r.Applied? ==> EndsRecorded(own))
      ensures r.Raised? || r.Partial? || r.Unresolved? || r.Applied?
      ensures r.Remote().Some? ==> r.Remote() == Some(Version(op.merged))
      ensures (r.Applied? ==> r.remote.Some?) && (r.Partial? ==> r.why.RemoteAppliedLocalChanged?)
      ensures quiet && old(w).local == Some(op.here) ==>
        w == After(After(old(w), Wrote(op.merged)), Recorded(Pair(NextStamp(old(w), op.merged), op.merged)))
      ensures quiet && old(w).local == Some(op.here) ==>
        r == Done(Some(NextStamp(old(w), op.merged)), Some(Version(op.merged)))
    {
      hide History, Truth, Since;
      own := [];
      var remote := Version(op.merged);
      var matches, thrown := StillMatches(op.here);
      if thrown {
        r := Raised;
      } else if !matches {
        r := Partial(RemoteAppliedLocalChanged, None);
      } else {
        ghost var checked := w;
        var written;
        written, own := WriteAndRecord(op, op.merged, remote);
        SinceTrans(old(w), checked, w);
        r := match written
             case NotWritten(_) => Partial(RemoteAppliedLocalChanged, Some(remote))
             case Unrecorded => Unresolved(StateCommitFailed, Some(remote), None, false)
             case RecordedAs(stamp) => Applied(Some(stamp), Some(remote), None, false);
      }
    }

    /** The object is confirmed to be the deleted version before the file is trashed. */
    method AcceptRemoteDelete(op: Operation) returns (r: Result, ghost own: seq<Effect>, ghost confirmed: World)
      requires Valid() && op.ResolveAcceptRemoteDelete?
      modifies this`w, this`effects
      ensures Valid() && effects == old(effects) + own && Since(old(w), w) && Honest(r, own, w)
      ensures own != [] && op.deletion.objectPresent ==>
        Rely(solo, old(w), confirmed) && Allows(confirmed.remote, Exactly(op.deletion.version)) &&
          Since(confirmed, own[0].before)
      ensures quiet ==> w == Quiet(physical, old(w), op) && r == QuietReport(physical, old(w), op)
    {
      hide History;
      own := [];
      var head := Landed;
      if op.deletion.objectPresent { head := VerifyObjectVersion(op.deletion.version); }
      confirmed := w;
      if head.Landed? {
        r, own := DeleteLocal(op, op.here);
        SinceTrans(old(w), confirmed, w);
      } else {
        r := RefusedRead(head);
      }
    }

    // ---- one operation, one cycle, one session ----

    method Execute(op: Operation) returns (r: Result, ghost own: seq<Effect>)
      requires Valid() && Licensed(current, op, w) && (op.Download? ==> DescribesBytes(op.there))
      modifies this`w, this`effects
      ensures Valid() && effects == old(effects) + own && Since(old(w), w)
      ensures Honest(r, own, w) || (physical && (op.DeleteRemote? || op.ResolveAcceptLocalDelete?))
      ensures quiet ==> w == Quiet(physical, old(w), op) && r == QuietReport(physical, old(w), op)
      ensures solo && reliable ==> KeepsOwn(physical, op, old(w), w)
    {
      hide History, Truth, Since, Stands, OwnsRemote, QuietSend, QuietDownload, QuietMerge, QuietTrash,
        QuietRemoteDelete;
      SinceRefl(w);
      match op
      case Upload(_, _) => r, own := Upload(op);
      case Download(_, _) => r, own := Download(op);
      case DeleteLocal(here) => r, own := DeleteLocal(op, here);
      case DeleteRemote(etag) => r, own := DeleteRemote(op, etag);
      case PruneBaseline => r, own := PruneResult(op, None, false);
      case ResolveKeepLocal(_, _, _, _) => r, own := ResolveKeepLocal(op);
      case ResolveKeepRemote(_, _, _) => r, own := ResolveKeepRemote(op);
      case ResolveMerged(_, _, _, _) => r, own := ResolveMerged(op);
      case ResolveAcceptRemoteDelete(_, _, _) =>
        ghost var confirmed;
        r, own, confirmed := AcceptRemoteDelete(op);
      case ResolveAcceptLocalDelete(_, accepted) => r, own := DeleteRemote(op, Some(accepted));
      case Noop => r, own := Failed(None), [];
      case Conflict(_) => r, own := Failed(None), [];
    }

    /** What the effective remote view says about the key right now. */
    method Scan() returns (there: Option<RemoteEntry>)
      requires Valid()
      ensures Shows(w, there)
    {
      var created: int := *;
      if w.remote.Some? {
        there := Some(if w.Hidden() then
          RemoteEntry(0, None, created, Some(Deletion(Some(ETag(w.remote.value.content)), true)))
                      else LiveEntry(w.remote.value));
      } else if w.tombs.Keys == {} {
        assert w.tombs == map[];
        there := None;
      } else {
        var version :| version in w.tombs;
        there := Some(RemoteEntry(0, None, created, Some(Deletion(Some(version), false))));
      }
    }

    /** One event about the key; an event that cannot be read ends the observation. */
    method ReadEvent() returns (ok: bool, there: Option<RemoteEntry>, ghost truthful: bool)
      requires Valid()
      ensures (ok ==> Sees(RemoteDelta, truthful, w, w.local, there)) && (current && ok ==> truthful)
    {
      var event: Event := *;
      var modified: int := *;
      ok := Readable(w, event) && (current ==> StillTrue(w, event));
      truthful := StillTrue(w, event);
      there := EventEntry(w, event, modified);
      if ok { EventIsSeen(truthful, w, event, modified); }
    }

    /** The observation in one of the three modes, `here` being the local half; `None` is an observation that raised. */
    method Observe(mode: Mode, here: Option<Stamp>) returns (seen: Option<Option<RemoteEntry>>, ghost truthful: bool)
      requires Valid()
      ensures seen.Some? ==> Sees(mode, truthful, w, here, seen.value)
      ensures truthful || (!current && mode.RemoteDelta?)
    {
      truthful := true;
      match mode
      case FullScan =>
        var there := Scan();
        seen := Some(there);
      case LocalDelta =>
        seen := Some(if w.remote.None? then None
          else if here.None? && w.baseline.None? && ETag(w.remote.value.content) in w.tombs then
            Some(DeletedObject(w.remote.value))
          else Some(LiveEntry(w.remote.value)));
      case RemoteDelta =>
        var ok, there;
        ghost var told;
        ok, there, told := ReadEvent();
        seen := if ok then Some(there) else None;
        truthful := told || !ok;
    }

    /** Local half, remote half and plan, in any mode; everybody may act in between and afterwards. */
    method Plan(intent: Option<Intent>) returns (ghost how: Planning, op: Option<Operation>)
      requires Valid()
      modifies this`w
      ensures Valid() && Rely(solo, old(w), how.at) && Rely(solo, how.at, w) && Rely(solo, old(w), w)
      ensures Made(current, how, intent, op)
      ensures op.Some? ==> Licensed(current, op.value, w) && (op.value.Download? ==> DescribesBytes(op.value.there))
      ensures quiet ==> w == old(w) == how.at && how.here == w.local
    {
      hide History, Truth, Since, Licensed, Planner.PlanKey, Sees, Plannable;
      Interfere();
      var here := w.local;
      ghost var scanned := w;
      Interfere();
      SinceTrans(old(w), scanned, w);
      var pick: Mode := *;
      var found;
      ghost var truthful;
      found, truthful := Observe(pick, here);
      op := if found.Some? then Planner.PlanKey(here, found.value, w.baseline, intent) else None;
      how := Planning(pick, truthful, here, w, found);
      Interfere();
      SinceTrans(old(w), how.at, w);
      if found.Some? {
        SeesLess(pick, truthful, current, how.at, here, found.value);
        SeesPlannable(pick, current, how.at, here, found.value);
        PlannableIsLicensed(current, how.at, here, found.value, intent);
        if op.Some? { LicenceLasts(current, op.value, how.at, w, solo); }
      }
    }

    /** `apply`: a decision that needs no action is not handed to the executor. */
    method Apply(op: Operation) returns (r: Result, ghost own: seq<Effect>)
      requires Valid() && Licensed(current, op, w) && (op.Download? ==> DescribesBytes(op.there))
      modifies this`w, this`effects
      ensures Valid() && effects == old(effects) + own && Since(old(w), w)
      ensures Honest(r, own, w) || (physical && (op.DeleteRemote? || op.ResolveAcceptLocalDelete?))
      ensures quiet ==>
        w == Quiet(physical, old(w), op) && (op.Noop? || op.Conflict? || r == QuietReport(physical, old(w), op))
      ensures (op.Noop? ==> r == NoAction) && (op.Conflict? ==> r == ConflictResult)
      ensures solo && reliable ==> KeepsOwn(physical, op, old(w), w)
    {
      hide History, Truth, Since, Stands, OwnsRemote;
      SinceRefl(w);
      if op.Noop? {
        r, own := NoAction, [];
      } else if op.Conflict? {
        r, own := ConflictResult, [];
      } else {
        r, own := Execute(op);
      }
    }

    method Cycle(intent: Option<Intent>)
        returns (ghost how: Planning, op: Option<Operation>, r: Result, ghost own: seq<Effect>)
      requires Valid()
      modifies this`w, this`effects
      ensures Valid() && effects == old(effects) + own && Since(old(w), w)
      ensures Rely(solo, old(w), how.at) && how.at.Ok() && Made(current, how, intent, op)
      ensures quiet ==> how.at == old(w) && how.here == old(w).local
      ensures quiet ==> w == (if op.Some? then Quiet(physical, old(w), op.value) else old(w))
      // Of a sole writer whose responses and commits get through, the baseline goes on describing the object.
      ensures solo && reliable && how.truthful && Stands(old(w)) ==> Stands(how.at) && Stands(w)
      ensures solo && reliable && how.truthful && OwnsRemote(old(w)) ==>
        OwnsRemote(how.at) && (OwnsRemote(w) || (op.Some? && Revives(physical, op.value, how.at)))
    {
      hide History, Truth, Since, Stands, OwnsRemote, Quiet, Sees, Planner.PlanKey, Rely;
      how, op := Plan(intent);
      RelyIsSince(solo, old(w), how.at);
      IdleCarriesOver(solo, old(w), how.at);
      IdleCarriesOver(solo, how.at, w);
      RelyIsSince(solo, old(w), w);
      if how.seen.Some? && how.truthful { PeaceIff(how.mode, how.at, how.here, how.seen.value, intent); }
      r, own := NoAction, [];
      if op.Some? {
        ghost var planned := w;
        r, own := Apply(op.value);
        SinceTrans(old(w), planned, w);
      }
    }

    /** Any number of cycles, with any decisions of the user, and everybody acting between and during them. */
    method Session(cycles: nat)
      requires Valid()
      modifies this`w, this`effects
      ensures Valid() && old(effects) <= effects && Since(old(w), w)
      ensures SoundRun(current, solo, start, effects, w)
    {
      SinceRefl(w);
      for i := 0 to cycles
        invariant Valid() && old(effects) <= effects && Since(old(w), w)
      {
        ghost var was := w;
        Interfere();
        SinceTrans(old(w), was, w);
        was := w;
        var intent: Option<Intent> := *;
        var op, r;
        ghost var how, own;
        how, op, r, own := Cycle(intent);
        SinceTrans(old(w), was, w);
      }
      HistoryUnfolds(current, solo, start, effects, w);
    }

    /**
     * Any mix of editor saves and removals, cycles in any mode and keep-local decisions of a sole writer, from a
     * baseline that describes the object: until an event that is not true any more is read (`misled`), a plan is
     * one's own write, nothing, or the user's own deletion exactly if `Peaceful` says so. While nobody has deleted
     * a note that had been deleted before in this very version (`revived`), that is always, but for a local delta
     * that finds a file without a baseline over the object of the user's own deletion.
     */
    method EditingSession(cycles: nat)
        returns (planned: seq<Operation>, ghost log: seq<(Planning, Option<Operation>)>, ghost misled: bool,
          ghost revived: bool)
      requires Valid() && solo && reliable && Stands(w)
      modifies this`w, this`effects
      ensures Valid() && (!misled ==> Stands(w)) && (OwnsRemote(old(w)) && !misled && !revived ==> OwnsRemote(w))
      ensures planned == OperationsOf(log)
      ensures misled <==> exists entry :: entry in log && !entry.0.truthful
      ensures revived <==> exists entry :: entry in log && entry.1.Some? && Revives(physical, entry.1.value, entry.0.at)
      ensures current ==> !misled
      ensures !misled ==> forall entry :: entry in log ==> KeepsPeaceIff(entry.0, entry.1)
      ensures OwnsRemote(old(w)) && !misled && !revived ==> forall entry :: entry in log ==> OwnsRemote(entry.0.at)
    {
      hide History, Truth, Since, Stands, OwnsRemote, Rely, Made, KeepsPeaceIff, Revives;
      planned, log, misled, revived := [], [], false, false;
      for i := 0 to cycles
        invariant Valid() && (!misled ==> Stands(w)) && (OwnsRemote(old(w)) && !misled && !revived ==> OwnsRemote(w))
        invariant planned == OperationsOf(log)
        invariant misled <==> exists entry :: entry in log && !entry.0.truthful
        invariant revived <==>
          exists entry :: entry in log && entry.1.Some? && Revives(physical, entry.1.value, entry.0.at)
        invariant current ==> !misled
        invariant !misled ==> forall entry :: entry in log ==> KeepsPeaceIff(entry.0, entry.1)
        invariant OwnsRemote(old(w)) && !misled && !revived ==> forall entry :: entry in log ==> OwnsRemote(entry.0.at)
      {
        ghost var was := w;
        Interfere();
        IdleCarriesOver(solo, was, w);
        var intent: Option<Intent> := *;
        var keep: Operation := *;
        var r;
        ghost var own;
        if keep.ResolveKeepLocal? {
          r, own := Apply(keep);
        } else {
          ghost var how, before := Planning(FullScan, true, None, w, None), log;
          var op;
          how, op, r, own := Cycle(intent);
          MadeTruthfully(current, how, intent, op);
          if how.truthful { PlanKeepsPeace(current, how, intent, op); }
          log := log + [(how, op)];
          misled := misled || !how.truthful;
          revived := revived || (op.Some? && Revives(physical, op.value, how.at));
          if op.Some? { planned := planned + [op.value]; }
          LogGrows(before, how, op);
        }
      }
    }
  }

  /** How a plan was made: the world its remote half and baseline were read in, and the local half read before. */
  datatype Planning = Planning(
    mode: Mode, truthful: bool, here: Option<Stamp>, at: World, seen: Option<Option<RemoteEntry>>)

  /** The plan is the decision on what was seen; only an event can be untrue. */
  ghost predicate Made(current: bool, how: Planning, intent: Option<Intent>, op: Option<Operation>) {
    && (how.truthful || (!current && how.mode.RemoteDelta?))
    && (how.seen.Some? ==> Sees(how.mode, how.truthful, how.at, how.here, how.seen.value))
    && op == if how.seen.None? then None else Planner.PlanKey(how.here, how.seen.value, how.at.baseline, intent)
  }

  lemma MadeTruthfully(current: bool, how: Planning, intent: Option<Intent>, op: Option<Operation>)
    requires Made(current, how, intent, op)
    ensures current ==> how.truthful
  {
  }

  lemma RelyIsSince(solo: bool, a: World, b: World)
    requires Rely(solo, a, b)
    ensures Since(a, b) && b.Ok()
  {
  }

  function OperationsOf(log: seq<(Planning, Option<Operation>)>): seq<Operation> {
    if log == [] then []
    else
      var last := log[|log| - 1].1;
      OperationsOf(log[..|log| - 1]) + if last.Some? then [last.value] else []
  }

  lemma LogGrows(log: seq<(Planning, Option<Operation>)>, how: Planning, op: Option<Operation>)
    ensures OperationsOf(log + [(how, op)]) == OperationsOf(log) + if op.Some? then [op.value] else []
    ensures forall entry :: entry in log + [(how, op)] <==> entry in log || entry == (how, op)
  {
    assert (log + [(how, op)])[..|log|] == log;
  }

  /** The object being this device's own write, the plan is an upload, nothing to do, or the user's own deletion. */
  predicate PlannedFromOwnWrites(op: Operation) {
    op.Upload? || op.Noop? || op.DeleteRemote?
  }

  /**
   * When a sole writer's plan does not turn against its own writes: with a baseline or without an object always; over
   * an object it deleted itself, unless a local delta finds a file; over a live object without a baseline never, unless
   * a local delta finds neither a file nor that the object is live again.
   */
  predicate Peaceful(mode: Mode, here: Option<Stamp>, w: World) {
    || w.baseline.Some? || w.remote.None?
    || (if w.Hidden() then !(mode.LocalDelta? && here.Some?)
        else mode.LocalDelta? && here.None? && ETag(w.remote.value.content) in w.tombs)
  }

  /**
   * No self-conflict, exactly. Otherwise the plan is a conflict with the device's own object, which no decision of the
   * user resolves, or a download of it.
   */
  lemma PeaceIff(mode: Mode, w: World, here: Option<Stamp>, there: Option<RemoteEntry>, intent: Option<Intent>)
    requires w.Ok() && Sees(mode, true, w, here, there)
    ensures OwnsRemote(w) ==> Stands(w)
    ensures Stands(w) ==>
      var op := Planner.PlanKey(here, there, w.baseline, intent);
      && ((op.Some? ==> PlannedFromOwnWrites(op.value)) <==> Peaceful(mode, here, w))
      && (!Peaceful(mode, here, w) ==>
        op == Some(if here.Some? then Conflict(BothCreatedDifferent) else Download(None, LiveEntry(w.remote.value))))
      && (op.Some? && op.value.Download? ==> !w.Hidden() && !OwnsRemote(w))
  {
  }

  ghost predicate KeepsPeaceIff(how: Planning, op: Option<Operation>) {
    Stands(how.at) &&
      (how.seen.Some? ==> ((op.Some? ==> PlannedFromOwnWrites(op.value)) <==> Peaceful(how.mode, how.here, how.at)))
  }

  lemma PlanKeepsPeace(current: bool, how: Planning, intent: Option<Intent>, op: Option<Operation>)
    requires how.at.Ok() && how.truthful && Made(current, how, intent, op)
    ensures Stands(how.at) ==> KeepsPeaceIff(how, op)
  {
    if how.seen.Some? { PeaceIff(how.mode, how.at, how.here, how.seen.value, intent); }
  }

  /** Where the live object is the recorded one, only one observation leads to a conflict with oneself. */
  lemma OwnWritesConflictIff(mode: Mode, w: World, here: Option<Stamp>, there: Option<RemoteEntry>,
      intent: Option<Intent>)
    requires w.Ok() && Sees(mode, true, w, here, there) && OwnsRemote(w)
    ensures var op := Planner.PlanKey(here, there, w.baseline, intent);
      && ((op.Some? ==> PlannedFromOwnWrites(op.value)) <==>
        !(mode.LocalDelta? && here.Some? && w.baseline.None? && w.remote.Some?))
      && (op.Some? && !PlannedFromOwnWrites(op.value) ==> op == Some(Conflict(BothCreatedDifferent)))
  {
    PeaceIff(mode, w, here, there, intent);
  }

  /**
   * The exception is reached by one device alone: it uploads a note, the user deletes it and creates it again, and the
   * save is looked at by a local delta. No decision of the user helps; a full scan plans the upload.
   */
  lemma RecreatedNoteConflicts(w: World, again: Content)
      returns (sent: World, removed: World, deleted: World, back: World)
    requires w.Ok() && w.local.Some? && w.remote.None? && w.baseline.None? && w.tombs == map[]
    ensures var theirs := ETag(w.history[w.local.value]);
      && sent == Quiet(false, w, Upload(w.local.value, Absent)) && OwnsRemote(sent)
      && removed == sent.(local := None) && Rely(true, sent, removed) && removed.remote.Some?
      && Planner.PlanKey(None, Some(LiveEntry(removed.remote.value)), removed.baseline, None)
        == Some(DeleteRemote(Some(theirs)))
      && deleted == Quiet(false, removed, DeleteRemote(Some(theirs))) && OwnsRemote(deleted)
      && back == Saved(deleted, again) && Rely(true, deleted, back) && OwnsRemote(back) && back.local.Some?
      && OnlyDeltaConflicts(back, theirs)
  {
    hide Stands, OwnsRemote, Rely, Quiet, OnlyDeltaConflicts;
    var s, first := w.local.value, w.history[w.local.value];
    sent := After(After(w, Put(first)), Recorded(Pair(s, first)));
    removed := sent.(local := None);
    deleted := After(After(removed, Entombed(ETag(first))), Forgot);
    back := Saved(deleted, again);
    SentIsOwned(w);
    RemovedByHand(sent);
    DeletedIsOwned(removed, ETag(first));
    SavedAgain(deleted, again);
    AgainConflicts(back, ETag(first));
  }

  /** Whatever was decided, a local delta sees a conflict where a full scan uploads over the deleted version. */
  ghost predicate OnlyDeltaConflicts(w: World, etag: ETag)
    requires w.local.Some?
  {
    && (forall there, intent :: LocallyShows(w, w.local, there) ==>
      Planner.PlanKey(w.local, there, w.baseline, intent) == Some(Conflict(BothCreatedDifferent)))
    && (forall there, intent :: Shows(w, there) ==>
      Planner.PlanKey(w.local, there, w.baseline, intent) == Some(Upload(w.local.value, Exactly(Some(etag)))))
  }

  lemma SentIsOwned(w: World)
    requires w.Ok() && w.local.Some? && w.remote.None?
    ensures var content := w.history[w.local.value];
      var z := After(After(w, Put(content)), Recorded(Pair(w.local.value, content)));
      z.Ok() && OwnsRemote(z) && z == Quiet(false, w, Upload(w.local.value, Absent))
  {
  }

  lemma RemovedByHand(w: World)
    requires w.Ok()
    ensures Rely(true, w, w.(local := None)) && w.(local := None).Ok()
  {
  }

  lemma DeletedIsOwned(w: World, etag: ETag)
    requires w.Ok() && w.Stores(etag) && etag !in w.tombs
    ensures var z := After(After(w, Entombed(etag)), Forgot);
      z.Ok() && OwnsRemote(z) && z.Hidden() && z == Quiet(false, w, DeleteRemote(Some(etag)))
  {
  }

  lemma SavedAgain(w: World, bytes: Content)
    requires w.Ok() && OwnsRemote(w)
    ensures var z := Saved(w, bytes);
      Rely(true, w, z) && z.Ok() && OwnsRemote(z) && z.local.Some? && z.Hidden() == w.Hidden()
  {
  }

  lemma AgainConflicts(w: World, etag: ETag)
    requires w.Ok() && w.local.Some? && w.baseline.None? && w.Stores(etag) && w.Hidden()
    ensures OnlyDeltaConflicts(w, etag)
  {
  }

  /**
   * An event about an older write of this device is another matter: what is planned from it is one's own write
   * exactly if the event names the recorded version.
   */
  lemma OwnEventKeepsPeaceIff(w: World, here: Option<Stamp>, stated: RemoteEntry, intent: Option<Intent>)
    requires stated.deleted.None?
    ensures var op := Planner.PlanKey(here, Some(stated), w.baseline, intent);
      op.Some? && (PlannedFromOwnWrites(op.value) <==>
        w.baseline.Some? && !Planner.RemoteChanged(stated, w.baseline.value))
  {
  }

  /** The editor saves `bytes` now. */
  function Saved(w: World, bytes: Content): World {
    After(w, Wrote(bytes)).(index := None)
  }

  /** What a removal reports before the baseline is pruned, from the file's presence and the call's outcome. */
  function AfterTrash(present: bool, threw: bool): Option<Result> {
    if present then Some(Failed(None)) else if threw then Some(Partial(LocalDeleteLandingUnknown, None)) else None
  }

  /**
   * Whatever happens after a landed removal, its result is an untrue `failed` exactly when the file is there
   * again; and from every world the editor can bring that about.
   */
  lemma FailedThoughTrashed(op: Operation, solo: bool, w: World, now: World, threw: bool, again: Content)
    requires w.Ok() && w.local.Some? && Rely(solo, After(w, Trashed), now)
    ensures AfterTrash(now.local.Some?, threw) == Some(Failed(None)) <==>
      TrashedThenRecreated([Effect(op, w, Trashed)], now)
    ensures var back := Saved(After(w, Trashed), again);
      Rely(true, After(w, Trashed), back) && AfterTrash(back.local.Some?, threw) == Some(Failed(None)) &&
        TrashedThenRecreated([Effect(op, w, Trashed)], back)
  {
    DeedIsSince(After(w, Trashed), Wrote(again));
  }

  /**
   * A stamp read back too late makes the record untrue exactly when the later save changed the content, and
   * such a save is always possible. Either way the next plan has nothing to do.
   */
  lemma LateStampUntrueIff(w: World, bytes: Content, later: Content)
    requires w.Ok()
    ensures var placed := After(w, Wrote(bytes)); var now := Saved(placed, later);
      var entry := PreviousEntry(now.local, Some(Version(bytes)));
      Rely(true, placed, now) && (Truthful(now, entry) <==> later == bytes) &&
        forall modified ::
          Planner.PlanKey(now.local, Some(LiveEntry(R2Object(bytes, modified))), Some(entry), None) == Some(Noop)
  {
    DeedIsSince(w, Wrote(bytes));
    DeedIsSince(After(w, Wrote(bytes)), Wrote(later));
  }

  /** A refused or failed conditional HEAD; nothing was done. */
  function RefusedRead(head: Answer): Result
    requires !head.Landed?
  {
    match head
    case Refused => Stale
    case Status(code) => Failed(Some(code))
    case Silent => Failed(None)
  }

  /** The remote state a keep-local resolution replaces. */
  function KeepLocalOver(op: Operation): ExpectedRemote
    requires op.ResolveKeepLocal?
  {
    if op.expectAbsent then Absent else Exactly(op.etag)
  }

  /** Bytes read between two sightings of one version are that version's. */
  lemma ReadBetween(before: World, read: World, after: World, now: World, s: Stamp, written: Stamp, bytes: Content)
    requires before.Ok() && Since(before, read) && Since(read, after) && Since(after, now) && now.Held(written, bytes)
    requires read.local.Some? && read.history[read.local.value] == bytes
    requires s == written || (before.local == Some(s) && after.local == Some(s))
    ensures now.Held(s, bytes)
  {
    if s != written { StampsDoNotReturn(before, read, after, s); }
  }

  lemma OnePut(put: seq<Effect>, bytes: Content)
    requires |put| == 1 && put[0].deed == Put(bytes)
    ensures LastPut(put) == Some(Version(bytes))
  {
  }

  lemma PutThenRecord(put: seq<Effect>, rec: seq<Effect>, bytes: Content)
    requires |put| == 1 && put[0].deed == Put(bytes) && |rec| <= 1 && (rec == [] || !rec[0].deed.Put?)
    ensures LastPut(put + rec) == Some(Version(bytes))
  {
    OnePut(put, bytes);
    NoPut(rec);
    LastPutAppend(put, rec);
  }

  lemma {:induction false} NoPut(own: seq<Effect>)
    requires forall i :: 0 <= i < |own| ==> !own[i].deed.Put?
    ensures LastPut(own).None?
  {
    if own != [] { NoPut(own[..|own| - 1]); }
  }

  lemma {:induction false} LastPutAppend(a: seq<Effect>, b: seq<Effect>)
    ensures LastPut(a + b) == if LastPut(b).Some? then LastPut(b) else LastPut(a)
  {
    if b == [] {
      assert a + b == a;
    } else {
      assert (a + b)[..|a + b| - 1] == a + b[..|b| - 1];
      LastPutAppend(a, b[..|b| - 1]);
    }
  }
}
