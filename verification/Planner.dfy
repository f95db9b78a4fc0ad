/** src/sync/planner.ts and src/sync/fingerprint.ts: three observations in, a list of operations out. */
module Planner {
  import opened Types

  predicate LocalChanged(here: Stamp, before: PreviousEntry) {
    before.local != Some(here)
  }

  predicate RemoteChanged(there: RemoteEntry, before: PreviousEntry) {
    match before.remote
    case None => true
    case Some(prior) =>
      if there.size != prior.size then true
      else if there.etag.Some? || prior.etag.Some? then there.etag != prior.etag
      else prior.lastModified != Some(there.lastModified)
  }

  function ResolveBothModified(intent: Option<Intent>, here: Stamp, there: RemoteEntry): Option<Operation> {
    match intent
    case None => None
    case Some(i) =>
      match i.kind
      case KeepLocal => Some(ResolveKeepLocal(i.conflictId, here, there.etag, false))
      case KeepRemote => Some(ResolveKeepRemote(i.conflictId, Some(here), there.etag))
      case _ => if i.merged.None? then None else Some(ResolveMerged(i.conflictId, here, there.etag, i.merged.value))
  }

  function ResolveDeletedRemote(intent: Option<Intent>, here: Stamp, deletion: Deletion): Option<Operation> {
    match intent
    case None => None
    case Some(i) =>
      match i.kind
      case KeepLocal =>
        if deletion.objectPresent then Some(ResolveKeepLocal(i.conflictId, here, deletion.version, false))
        else Some(ResolveKeepLocal(i.conflictId, here, None, true))
      case AcceptRemoteDelete => Some(ResolveAcceptRemoteDelete(i.conflictId, here, deletion))
      case _ => None
  }

  function ResolveDeletedLocal(intent: Option<Intent>, there: RemoteEntry): Option<Operation> {
    if intent.None? || there.etag.None? then None
    else
      match intent.value.kind
      case KeepRemote => Some(ResolveKeepRemote(intent.value.conflictId, None, there.etag))
      case AcceptLocalDelete => Some(ResolveAcceptLocalDelete(intent.value.conflictId, there.etag.value))
      case _ => None
  }

  function OrConflict(resolution: Option<Operation>, kind: ConflictKind): Operation {
    if resolution.Some? then resolution.value else Conflict(kind)
  }

  /** The decision for one key; `None` is a key that gets no operation at all. */
  function PlanKey(here: Option<Stamp>, there: Option<RemoteEntry>, before: Option<PreviousEntry>,
      intent: Option<Intent>): Option<Operation> {
    if there.Some? && there.value.deleted.Some? then
      var deletion := there.value.deleted.value;
      if here.None? then None
      else if before.None? then
        Some(Upload(here.value, if deletion.objectPresent then Exactly(deletion.version) else Absent))
      else if LocalChanged(here.value, before.value) then
        Some(OrConflict(ResolveDeletedRemote(intent, here.value, deletion), LocalModifiedRemoteDeleted))
      else Some(DeleteLocal(here.value))
    else if before.None? then
      if here.Some? && there.None? then Some(Upload(here.value, Absent))
      else if here.None? && there.Some? then Some(Download(None, there.value))
      else if here.Some? then Some(Conflict(BothCreatedDifferent))
      else None
    else if here.Some? && there.Some? then
      var changedLocal, changedRemote := LocalChanged(here.value, before.value),
        RemoteChanged(there.value, before.value);
      if !changedLocal && !changedRemote then Some(Noop)
      else if !changedRemote then Some(Upload(here.value, Exactly(there.value.etag)))
      else if !changedLocal then Some(Download(here, there.value))
      else Some(OrConflict(ResolveBothModified(intent, here.value, there.value), BothModified))
    else if here.None? && there.None? then Some(PruneBaseline)
    else if here.None? then
      if RemoteChanged(there.value, before.value) then
        Some(OrConflict(ResolveDeletedLocal(intent, there.value), LocalDeletedRemoteModified))
      else Some(DeleteRemote(there.value.etag))
    else
      if LocalChanged(here.value, before.value) then
        Some(OrConflict(ResolveDeletedRemote(intent, here.value, Deletion(None, false)), LocalModifiedRemoteDeleted))
      else Some(DeleteLocal(here.value))
  }

  /** The operation does what the intent says, to exactly the versions observed now. */
  predicate Carries(op: Operation, i: Intent, here: Option<Stamp>, there: Option<RemoteEntry>) {
    var live := there.Some? && there.value.deleted.None?;
    var held := there.Some? && there.value.deleted.Some? && there.value.deleted.value.objectPresent;
    match op
    case ResolveKeepLocal(id, h, etag, absent) =>
      && id == i.conflictId && i.kind == KeepLocal && here == Some(h)
      && (live ==> !absent && etag == there.value.etag)
      && (held ==> !absent && etag == there.value.deleted.value.version)
      && (!live && !held ==> absent)
    case ResolveKeepRemote(id, expectedHere, etag) =>
      id == i.conflictId && i.kind == KeepRemote && expectedHere == here && live && etag == there.value.etag
    case ResolveMerged(id, h, etag, merged) =>
      id == i.conflictId && i.merged == Some(merged) && here == Some(h) && live && etag == there.value.etag
    case ResolveAcceptRemoteDelete(id, h, deletion) =>
      id == i.conflictId && i.kind == AcceptRemoteDelete && here == Some(h) && !live &&
        (there.Some? ==> there.value.deleted == Some(deletion))
    case ResolveAcceptLocalDelete(id, accepted) =>
      id == i.conflictId && i.kind == AcceptLocalDelete && here.None? && live && there.value.etag == Some(accepted)
    case _ => false
  }

  /** A decision of the user only ever replaces a conflict, and is carried out as decided on what is observed now. */
  lemma IntentsOnlyResolve(here: Option<Stamp>, there: Option<RemoteEntry>, before: Option<PreviousEntry>,
      intent: Option<Intent>)
    ensures var with, without := PlanKey(here, there, before, intent), PlanKey(here, there, before, None);
      && (without.Some? ==> !without.value.IsResolution())
      && (with != without ==>
        intent.Some? && without.Some? && without.value.Conflict? && with.Some? &&
        Carries(with.value, intent.value, here, there))
      && (without == Some(Conflict(BothCreatedDifferent)) ==> with == without)
  {
  }

  /** Everything one plan is computed from. */
  datatype Observations = Observations(local: map<Key, Stamp>, remote: map<Key, RemoteEntry>,
    previous: map<Key, PreviousEntry>, intents: map<Key, Intent>)
  {
    function Keys(): set<Key> { local.Keys + remote.Keys + previous.Keys }

    function Decide(key: Key): Option<Operation> {
      PlanKey(Lookup(local, key), Lookup(remote, key), Lookup(previous, key), Lookup(intents, key))
    }
  }

  datatype Step = Step(key: Key, operation: Operation)

  /**
   * The fixed order the keys are visited in: `localeCompare` is any injective ranking of keys. Every
   * countable linear order embeds in the reals, so nothing is lost by ranking with reals.
   */
  ghost predicate Ranking(rank: Key -> real) {
    forall a, b :: rank(a) == rank(b) ==> a == b
  }

  ghost predicate Ascending(rank: Key -> real, keys: seq<Key>) {
    forall i, j :: 0 <= i < j < |keys| ==> rank(keys[i]) < rank(keys[j])
  }

  ghost predicate Lists(keys: seq<Key>, all: set<Key>) {
    forall k :: k in keys <==> k in all
  }

  /** The plan, as a function of the visiting order. */
  function PlanOver(keys: seq<Key>, o: Observations): (steps: seq<Step>) {
    if keys == [] then []
    else
      var decision := o.Decide(keys[0]);
      (if decision.Some? then [Step(keys[0], decision.value)] else []) + PlanOver(keys[1..], o)
  }

  lemma {:induction false} PlanOverAppend(keys: seq<Key>, key: Key, o: Observations)
    ensures PlanOver(keys + [key], o) == PlanOver(keys, o) + PlanOver([key], o)
  {
    if keys == [] {
      assert [] + [key] == [key];
    } else {
      assert (keys + [key])[1..] == keys[1..] + [key];
      PlanOverAppend(keys[1..], key, o);
    }
  }

  /** Sorts a key set by repeatedly taking the lowest-ranked remaining key. */
  method SortKeys(rank: Key -> real, all: set<Key>) returns (sorted: seq<Key>)
    requires Ranking(rank)
    ensures Ascending(rank, sorted) && Lists(sorted, all)
  {
    sorted := [];
    var rest := all;
    while rest != {}
      invariant Ascending(rank, sorted)
      invariant forall k :: k in all <==> k in sorted || k in rest
      invariant forall k, r :: k in sorted && r in rest ==> rank(k) < rank(r)
      decreases |rest|
    {
      var lowest :| lowest in rest;
      var unseen := rest - {lowest};
      while unseen != {}
        invariant unseen <= rest && lowest in rest
        invariant forall k :: k in rest - unseen ==> rank(lowest) <= rank(k)
        decreases |unseen|
      {
        var k :| k in unseen;
        if rank(k) < rank(lowest) { lowest := k; }
        unseen := unseen - {k};
      }
      sorted, rest := sorted + [lowest], rest - {lowest};
    }
  }

  /** The first key of an ascending listing is the lowest; the others are listed by the tail. */
  lemma AscendingHead(rank: Key -> real, a: seq<Key>, all: set<Key>)
    requires Ascending(rank, a) && Lists(a, all) && a != []
    ensures Ascending(rank, a[1..]) && Lists(a[1..], all - {a[0]}) && a[0] in all
    ensures forall k :: k in all && k != a[0] ==> rank(a[0]) < rank(k)
  {
    assert a[0] in a;
    forall k ensures k in a[1..] <==> k in all - {a[0]} {
      if k in a[1..] {
        var m :| 0 <= m < |a| - 1 && a[1..][m] == k; assert a[m + 1] == k && rank(a[0]) < rank(a[m + 1]);
      }
      if k in all - {a[0]} { var m :| 0 <= m < |a| && a[m] == k; assert k == a[1..][m - 1]; }
    }
    forall k | k in all && k != a[0] ensures rank(a[0]) < rank(k) {
      var m :| 0 <= m < |a| && a[m] == k;
    }
  }

  /** Two ascending listings of the same keys are the same sequence. */
  lemma {:induction false} AscendingUnique(rank: Key -> real, a: seq<Key>, b: seq<Key>, all: set<Key>)
    requires Ascending(rank, a) && Ascending(rank, b) && Lists(a, all) && Lists(b, all)
    ensures a == b
  {
    if a == [] {
      if b != [] { AscendingHead(rank, b, all); }
    } else {
      AscendingHead(rank, a, all);
      assert b != [] by { assert a[0] in b; }
      AscendingHead(rank, b, all);
      assert a[0] == b[0];
      AscendingUnique(rank, a[1..], b[1..], all - {a[0]});
      assert a == [a[0]] + a[1..] && b == [b[0]] + b[1..];
    }
  }

  /** `plan` is the plan for `o`: the decisions of every observed key, in rank order. */
  ghost predicate IsPlan(rank: Key -> real, o: Observations, plan: seq<Step>) {
    exists keys :: Ascending(rank, keys) && Lists(keys, o.Keys()) && plan == PlanOver(keys, o)
  }

  method BuildSyncPlan(rank: Key -> real, o: Observations) returns (operations: seq<Step>)
    requires Ranking(rank)
    ensures IsPlan(rank, o, operations)
  {
    var keys := SortKeys(rank, o.Keys());
    operations := [];
    for i := 0 to |keys|
      invariant operations == PlanOver(keys[..i], o)
    {
      var decision := o.Decide(keys[i]);
      if decision.Some? { operations := operations + [Step(keys[i], decision.value)]; }
      PlanOverAppend(keys[..i], keys[i], o);
      assert keys[..i + 1] == keys[..i] + [keys[i]];
      assert [keys[i]][1..] == [];
    }
    assert keys[..|keys|] == keys;
  }

  // ---- what a plan is, independently of how it was computed ----

  function Only(plan: seq<Step>, keys: set<Key>): seq<Step> {
    if plan == [] then []
    else (if plan[0].key in keys then [plan[0]] else []) + Only(plan[1..], keys)
  }

  function OnlyKeys(all: seq<Key>, keys: set<Key>): (r: seq<Key>)
    ensures forall k :: k in r <==> k in all && k in keys
  {
    if all == [] then [] else (if all[0] in keys then [all[0]] else []) + OnlyKeys(all[1..], keys)
  }

  lemma {:induction false} OnlyAppend(a: seq<Step>, b: seq<Step>, keys: set<Key>)
    ensures Only(a + b, keys) == Only(a, keys) + Only(b, keys)
  {
    if a == [] {
      assert a + b == b;
    } else {
      var rest := a[1..];
      var first := if a[0].key in keys then [a[0]] else [];
      OnlyAppend(rest, b, keys);
      assert (a + b)[0] == a[0] && (a + b)[1..] == rest + b;
      assert first + (Only(rest, keys) + Only(b, keys)) == (first + Only(rest, keys)) + Only(b, keys);
    }
  }

  lemma {:induction false} OnlyKeysAscending(rank: Key -> real, all: seq<Key>, keys: set<Key>)
    requires Ascending(rank, all)
    ensures Ascending(rank, OnlyKeys(all, keys))
  {
    if all != [] {
      OnlyKeysAscending(rank, all[1..], keys);
      forall k | k in all[1..] ensures rank(all[0]) < rank(k) {}
    }
  }

  /** Filtering a plan is planning the filtered keys. */
  lemma {:induction false} OnlyPlanOver(all: seq<Key>, o: Observations, keys: set<Key>)
    ensures Only(PlanOver(all, o), keys) == PlanOver(OnlyKeys(all, keys), o)
  {
    if all != [] {
      var decision := o.Decide(all[0]);
      var head := if decision.Some? then [Step(all[0], decision.value)] else [];
      OnlyAppend(head, PlanOver(all[1..], o), keys);
      OnlyPlanOver(all[1..], o, keys);
      assert head != [] ==> head[1..] == [];
      if all[0] in keys {
        assert OnlyKeys(all, keys)[1..] == OnlyKeys(all[1..], keys);
      } else {
        assert OnlyKeys(all, keys) == OnlyKeys(all[1..], keys);
      }
    }
  }

  lemma {:induction false} PlanOverAgree(keys: seq<Key>, o: Observations, p: Observations)
    requires forall k :: k in keys ==> o.Decide(k) == p.Decide(k)
    ensures PlanOver(keys, o) == PlanOver(keys, p)
  {
    if keys != [] {
      PlanOverAgree(keys[1..], o, p);
    }
  }

  /** Visiting extra keys that get no operation changes nothing. */
  lemma {:induction false} PlanOverSkips(keys: seq<Key>, kept: set<Key>, o: Observations)
    requires forall k :: k in keys && k !in kept ==> o.Decide(k) == None
    ensures PlanOver(keys, o) == PlanOver(OnlyKeys(keys, kept), o)
  {
    if keys != [] {
      PlanOverSkips(keys[1..], kept, o);
      if keys[0] in kept {
        assert OnlyKeys(keys, kept)[1..] == OnlyKeys(keys[1..], kept);
      } else {
        assert OnlyKeys(keys, kept) == OnlyKeys(keys[1..], kept);
      }
    }
  }

  /**
   * Planner locality. If a second set of observations decides the keys in `scope` the way the first
   * does and decides nothing for any other key, its plan is exactly the first plan restricted to `scope`.
   */
  lemma PlannerLocality(rank: Key -> real, full: Observations, fullPlan: seq<Step>, part: Observations,
      partPlan: seq<Step>, scope: set<Key>)
    requires IsPlan(rank, full, fullPlan) && IsPlan(rank, part, partPlan)
    requires forall k :: k in scope ==> part.Decide(k) == full.Decide(k)
    requires forall k :: k in part.Keys() && k !in scope ==> part.Decide(k) == None
    ensures partPlan == Only(fullPlan, scope)
  {
    var fullKeys :| Ascending(rank, fullKeys) && Lists(fullKeys, full.Keys()) && fullPlan == PlanOver(fullKeys, full);
    var partKeys :| Ascending(rank, partKeys) && Lists(partKeys, part.Keys()) && partPlan == PlanOver(partKeys, part);
    var inScope, both := OnlyKeys(fullKeys, scope), part.Keys() * full.Keys() * scope;
    OnlyPlanOver(fullKeys, full, scope);
    PlanOverAgree(inScope, part, full);
    NothingElseDecided(full, part, scope);
    PlanOverSkips(inScope, both, part);
    PlanOverSkips(partKeys, both, part);
    SameListing(rank, fullKeys, partKeys, full.Keys(), part.Keys(), scope);
  }

  lemma {:induction false} PlanOverDecides(keys: seq<Key>, o: Observations, step: Step)
    ensures step in PlanOver(keys, o) <==> step.key in keys && o.Decide(step.key) == Some(step.operation)
  {
    if keys != [] {
      PlanOverDecides(keys[1..], o, step);
      var decision := o.Decide(keys[0]);
      var head := if decision.Some? then [Step(keys[0], decision.value)] else [];
      assert step in PlanOver(keys, o) <==> step in head || step in PlanOver(keys[1..], o);
      assert keys == [keys[0]] + keys[1..];
    }
  }

  /** A plan holds exactly the decisions. */
  lemma PlanDecides(rank: Key -> real, o: Observations, plan: seq<Step>, step: Step)
    requires IsPlan(rank, o, plan)
    ensures step in plan <==> o.Decide(step.key) == Some(step.operation)
  {
    var keys :| Ascending(rank, keys) && Lists(keys, o.Keys()) && plan == PlanOver(keys, o);
    PlanOverDecides(keys, o, step);
    if o.Decide(step.key) == Some(step.operation) { assert step.key in o.Keys(); }
  }

  lemma {:induction false} OnlyMembers(plan: seq<Step>, scope: set<Key>, step: Step)
    ensures step in Only(plan, scope) <==> step in plan && step.key in scope
  {
    if plan != [] {
      OnlyMembers(plan[1..], scope, step);
      assert plan == [plan[0]] + plan[1..];
    }
  }

  /** Only such observations have that plan. */
  lemma PlannerLocalityIff(rank: Key -> real, full: Observations, fullPlan: seq<Step>, part: Observations,
      partPlan: seq<Step>, scope: set<Key>)
    requires IsPlan(rank, full, fullPlan) && IsPlan(rank, part, partPlan)
    ensures partPlan == Only(fullPlan, scope) <==>
      (forall k :: k in scope ==> part.Decide(k) == full.Decide(k)) &&
        (forall k :: k in part.Keys() && k !in scope ==> part.Decide(k) == None)
  {
    if partPlan == Only(fullPlan, scope) {
      forall k ensures if k in scope then part.Decide(k) == full.Decide(k) else part.Decide(k) == None {
        SameDecision(rank, full, fullPlan, part, partPlan, scope, k, part.Decide(k));
        SameDecision(rank, full, fullPlan, part, partPlan, scope, k, full.Decide(k));
      }
    } else if (forall k :: k in scope ==> part.Decide(k) == full.Decide(k)) &&
      (forall k :: k in part.Keys() && k !in scope ==> part.Decide(k) == None) {
      PlannerLocality(rank, full, fullPlan, part, partPlan, scope);
    }
  }

  lemma SameDecision(rank: Key -> real, full: Observations, fullPlan: seq<Step>, part: Observations,
      partPlan: seq<Step>, scope: set<Key>, k: Key, decision: Option<Operation>)
    requires IsPlan(rank, full, fullPlan) && IsPlan(rank, part, partPlan) && partPlan == Only(fullPlan, scope)
    ensures decision.Some? ==> (part.Decide(k) == decision <==> full.Decide(k) == decision && k in scope)
  {
    if decision.Some? {
      var step := Step(k, decision.value);
      PlanDecides(rank, full, fullPlan, step);
      PlanDecides(rank, part, partPlan, step);
      OnlyMembers(fullPlan, scope, step);
    }
  }

  lemma NothingElseDecided(full: Observations, part: Observations, scope: set<Key>)
    requires forall k :: k in scope ==> part.Decide(k) == full.Decide(k)
    requires forall k :: k in part.Keys() && k !in scope ==> part.Decide(k) == None
    ensures forall k :: k !in part.Keys() * full.Keys() * scope && (k in scope || k in part.Keys()) ==>
      part.Decide(k) == None
  {
    forall k | k !in part.Keys() * full.Keys() * scope && (k in scope || k in part.Keys())
      ensures part.Decide(k) == None {
      if k in scope && k !in full.Keys() { assert full.Decide(k) == None; }
    }
  }

  lemma SameListing(rank: Key -> real, fullKeys: seq<Key>, partKeys: seq<Key>, all: set<Key>, some: set<Key>,
      scope: set<Key>)
    requires Ascending(rank, fullKeys) && Lists(fullKeys, all) && Ascending(rank, partKeys) && Lists(partKeys, some)
    ensures OnlyKeys(OnlyKeys(fullKeys, scope), some * all * scope) == OnlyKeys(partKeys, some * all * scope)
  {
    var both := some * all * scope;
    OnlyKeysAscending(rank, fullKeys, scope);
    OnlyKeysAscending(rank, OnlyKeys(fullKeys, scope), both);
    OnlyKeysAscending(rank, partKeys, both);
    AscendingUnique(rank, OnlyKeys(OnlyKeys(fullKeys, scope), both), OnlyKeys(partKeys, both), both);
  }
}
