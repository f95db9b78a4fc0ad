/** src/gateway/mutation-ingress.ts: the retry queue that reports landed writes to the mutation journal. */
module Reporter {
  import opened Types

  /** A landed write. A size is `None` when it is not a finite number. */
  datatype LandedWrite =
    | PutWrite(path: Key, etag: string, size: Option<int>)
    | LogicalDelete(path: Key, etag: string)
    | PhysicalDelete(path: Key)

  datatype Operation = Put | Delete

  /** Ids are fresh for every fact; the model numbers them in minting order. */
  datatype Mutation = Mutation(id: nat, committedAt: int, op: Operation, path: Key, etag: Option<string>,
    size: Option<int>)

  /** An unverifiable write becomes nothing. */
  function MutationForWrite(write: LandedWrite, id: nat, committedAt: int): Option<Mutation> {
    match write
    case PhysicalDelete(path) => Some(Mutation(id, committedAt, Delete, path, None, None))
    case LogicalDelete(path, etag) =>
      if etag == "" || |etag| > 256 then None else Some(Mutation(id, committedAt, Delete, path, Some(etag), None))
    case PutWrite(path, etag, size) =>
      if etag == "" || |etag| > 256 || size.None? || size.value < 0 then None
      else Some(Mutation(id, committedAt, Put, path, Some(etag), size))
  }

  datatype Verdict = Recorded | NotAMutation | StateMismatch | Permanent | Retryable

  /** A fact is kept exactly for a rate limit and for an answer that is neither a success nor a refusal. */
  function ClassifyIngressStatus(status: int): (v: Verdict)
    ensures v == Retryable <==> status == 429 || !(200 <= status < 300 || 400 <= status < 500)
    ensures v == Recorded || v == NotAMutation <==> 200 <= status < 300
    ensures v == NotAMutation <==> status == 204
    ensures v == StateMismatch || v == Permanent <==> 400 <= status < 500 && status != 429
    ensures v == StateMismatch <==> status == 409
  {
    if status == 204 then NotAMutation
    else if 200 <= status < 300 then Recorded
    else if status == 409 then StateMismatch
    else if status == 429 then Retryable
    else if 400 <= status < 500 then Permanent
    else Retryable
  }

  const MAX_PENDING_MUTATIONS := 64
  const WAVE := 4

  datatype Settings = Settings(enabled: bool, endpointSet: bool, tokenSet: bool, channelSet: bool)
  {
    predicate Keeps() { enabled && endpointSet && tokenSet }
  }

  /** The facts a report mints, in order, numbered from `next`. */
  function Facts(writes: seq<LandedWrite>, next: nat, now: int): seq<Mutation> {
    if writes == [] then []
    else
      var fact := MutationForWrite(writes[0], next, now);
      if fact.None? then Facts(writes[1..], next, now) else [fact.value] + Facts(writes[1..], next + 1, now)
  }

  datatype Fate = Waits | Settled | Evicted

  /** The facts still waiting, oldest first. */
  function Waiting(minted: seq<Mutation>, fate: seq<Fate>): seq<Mutation>
    requires |fate| == |minted|
  {
    if minted == [] then []
    else
      var n := |minted| - 1;
      Waiting(minted[..n], fate[..n]) + if fate[n] == Waits then [minted[n]] else []
  }

  function Without(pending: seq<Mutation>, id: nat): seq<Mutation> {
    if pending == [] then []
    else
      var n := |pending| - 1;
      Without(pending[..n], id) + if pending[n].id == id then [] else [pending[n]]
  }

  ghost predicate Numbered(minted: seq<Mutation>) {
    forall i :: 0 <= i < |minted| ==> minted[i].id == i
  }

  ghost predicate Older(pending: seq<Mutation>) {
    forall i, j :: 0 <= i < j < |pending| ==> pending[i].id < pending[j].id
  }

  lemma {:induction false} WaitingIs(minted: seq<Mutation>, fate: seq<Fate>)
    requires |fate| == |minted| && Numbered(minted)
    ensures Older(Waiting(minted, fate))
    ensures forall m :: m in Waiting(minted, fate) <==> m.id < |minted| && minted[m.id] == m && fate[m.id] == Waits
  {
    if minted != [] {
      var n := |minted| - 1;
      WaitingIs(minted[..n], fate[..n]);
      var rest := Waiting(minted[..n], fate[..n]);
      forall i | 0 <= i < |rest| ensures rest[i].id < n { assert rest[i] in rest; }
      forall m ensures m in Waiting(minted, fate) <==> m.id < |minted| && minted[m.id] == m && fate[m.id] == Waits {
        assert m in Waiting(minted, fate) <==> m in rest || (fate[n] == Waits && m == minted[n]);
        if m.id < n { assert minted[..n][m.id] == minted[m.id] && fate[..n][m.id] == fate[m.id]; }
      }
    }
  }

  lemma {:induction false} WithoutAbsent(pending: seq<Mutation>, id: nat)
    requires forall m :: m in pending ==> m.id != id
    ensures Without(pending, id) == pending
  {
    if pending != [] { WithoutAbsent(pending[..|pending| - 1], id); }
  }

  lemma {:induction false} WithoutAppend(a: seq<Mutation>, b: seq<Mutation>, id: nat)
    ensures Without(a + b, id) == Without(a, id) + Without(b, id)
  {
    if b == [] {
      assert a + b == a;
    } else {
      var n := |b| - 1;
      assert (a + b)[..|a| + n] == a + b[..n];
      WithoutAppend(a, b[..n], id);
    }
  }

  lemma WaitingLast(minted: seq<Mutation>, fate: seq<Fate>)
    requires |fate| == |minted| > 0
    ensures var n := |minted| - 1;
      Waiting(minted, fate) == Waiting(minted[..n], fate[..n]) + if fate[n] == Waits then [minted[n]] else []
  {
  }

  lemma WithoutOnly(m: Mutation, tail: seq<Mutation>)
    requires tail == [] || tail == [m]
    ensures Without(tail, m.id) == []
  {
    if tail == [m] { assert tail[..0] == []; }
  }

  /** Deciding one fact's fate takes exactly that fact out of the queue. */
  lemma {:induction false} DecideOne(minted: seq<Mutation>, fate: seq<Fate>, id: nat, outcome: Fate)
    requires |fate| == |minted| && Numbered(minted) && id < |minted| && outcome != Waits
    ensures Waiting(minted, fate[id := outcome]) == Without(Waiting(minted, fate), id)
  {
    hide Waiting, Without;
    var n := |minted| - 1;
    var older := Waiting(minted[..n], fate[..n]);
    var tail := if fate[n] == Waits then [minted[n]] else [];
    WaitingLast(minted, fate);
    WaitingLast(minted, fate[id := outcome]);
    WithoutAppend(older, tail, id);
    if id == n {
      assert fate[id := outcome][..n] == fate[..n];
      WaitingIs(minted[..n], fate[..n]);
      WithoutAbsent(older, id);
      WithoutOnly(minted[n], tail);
    } else {
      assert fate[id := outcome][..n] == fate[..n][id := outcome];
      DecideOne(minted[..n], fate[..n], id, outcome);
      WithoutAbsent(tail, id);
    }
  }

  /** One concurrent batch of requests, with the queue it was taken from. */
  datatype Wave = Wave(batch: seq<Mutation>, waiting: seq<Mutation>)

  /** No fact is sent while an older one for its path waits, and a wave has at most four requests. */
  ghost predicate Orderly(w: Wave) {
    && 0 < |w.batch| <= WAVE && w.batch <= w.waiting
    && forall m, p :: m in w.batch && p in w.waiting && p.id < m.id ==> p.path != m.path
  }

  ghost predicate DistinctPaths(batch: seq<Mutation>) {
    forall i, j :: 0 <= i < j < |batch| ==> batch[i].path != batch[j].path
  }

  lemma PrefixIsOrderly(w: Wave)
    requires 0 < |w.batch| <= WAVE && w.batch <= w.waiting && Older(w.waiting) && DistinctPaths(w.batch)
    ensures Orderly(w)
  {
    forall m, p | m in w.batch && p in w.waiting && p.id < m.id ensures p.path != m.path {
      var j :| 0 <= j < |w.batch| && w.batch[j] == m;
      var i :| 0 <= i < |w.waiting| && w.waiting[i] == p;
      assert w.waiting[j] == m;
      assert i < j;
    }
  }

  /** Every fact ever minted, with its one fate. */
  datatype Ledger = Ledger(minted: seq<Mutation>, fate: seq<Fate>)
  {
    ghost predicate Ok() { |fate| == |minted| && Numbered(minted) }

    ghost function Queue(): seq<Mutation>
      requires Ok()
    {
      Waiting(minted, fate)
    }

    ghost function Decide(m: Mutation, outcome: Fate): Ledger
      requires m.id < |fate|
    {
      this.(fate := fate[m.id := outcome])
    }

    ghost predicate Has(m: Mutation, outcome: Fate) {
      m.id < |fate| && m.id < |minted| && minted[m.id] == m && fate[m.id] == outcome
    }

    /** Facts are only added, and a decided fate stays decided. */
    ghost predicate GrowsInto(later: Ledger)
      requires Ok() && later.Ok()
    {
      minted <= later.minted && forall i :: 0 <= i < |fate| && fate[i] != Waits ==> later.fate[i] == fate[i]
    }
  }

  /** The only fates that changed are those of facts in `batch`, which waited and now have `outcome`. */
  ghost predicate Only(was: Ledger, now: Ledger, batch: seq<Mutation>, outcome: Fate)
    requires was.Ok() && now.Ok()
  {
    && now.minted == was.minted
    && forall i :: 0 <= i < |was.fate| && now.fate[i] != was.fate[i] ==>
      was.fate[i] == Waits && now.fate[i] == outcome && was.minted[i] in batch
  }

  lemma OnlyGrows(was: Ledger, now: Ledger, batch: seq<Mutation>, outcome: Fate)
    requires was.Ok() && now.Ok() && Only(was, now, batch, outcome)
    ensures was.GrowsInto(now)
  {
  }

  lemma GrowsOn(a: Ledger, b: Ledger, c: Ledger)
    requires a.Ok() && b.Ok() && c.Ok() && a.GrowsInto(b) && b.GrowsInto(c)
    ensures a.GrowsInto(c)
  {
    forall i | 0 <= i < |a.fate| && a.fate[i] != Waits ensures c.fate[i] == a.fate[i] { assert b.fate[i] == a.fate[i]; }
  }

  lemma QueueHolds(l: Ledger)
    requires l.Ok()
    ensures Older(l.Queue()) && forall m :: m in l.Queue() <==> l.Has(m, Waits)
  {
    WaitingIs(l.minted, l.fate);
  }

  lemma DecideQueued(l: Ledger, m: Mutation, outcome: Fate)
    requires l.Ok() && l.Has(m, Waits) && outcome != Waits
    ensures l.Decide(m, outcome).Ok() && l.Decide(m, outcome).Has(m, outcome) &&
      Only(l, l.Decide(m, outcome), [m], outcome)
    ensures l.Decide(m, outcome).Queue() == Without(l.Queue(), m.id)
    ensures forall p :: p in l.Decide(m, outcome).Queue() <==> p in l.Queue() && p != m
  {
    DecideOne(l.minted, l.fate, m.id, outcome);
    QueueHolds(l);
    QueueHolds(l.Decide(m, outcome));
  }

  /** Only a retryable answer leaves a fact waiting. */
  function FateAfter(v: Verdict): Fate {
    if v == Retryable then Waits else Settled
  }

  predicate Clean(verdicts: seq<Verdict>, n: nat)
    requires n <= |verdicts|
  {
    forall j :: 0 <= j < n ==> verdicts[j] != Retryable
  }

  /** The first `item` verdicts of a wave have been applied, and nothing else happened. */
  ghost predicate Answered(was: Ledger, now: Ledger, batch: seq<Mutation>, verdicts: seq<Verdict>, item: nat)
    requires was.Ok() && now.Ok() && item <= |batch| == |verdicts|
  {
    && Only(was, now, batch, Settled)
    && (forall j :: 0 <= j < |batch| ==> now.Has(batch[j], if j < item then FateAfter(verdicts[j]) else Waits))
    && (Clean(verdicts, item) ==> item <= |was.Queue()| && now.Queue() == was.Queue()[item..])
  }

  lemma SettleNext(was: Ledger, now: Ledger, batch: seq<Mutation>, verdicts: seq<Verdict>, item: nat)
    requires was.Ok() && now.Ok() && item < |batch| == |verdicts| && batch <= was.Queue() &&
      Answered(was, now, batch, verdicts, item)
    requires verdicts[item] != Retryable
    ensures now.Has(batch[item], Waits)
    ensures now.Decide(batch[item], Settled).Ok() &&
      Answered(was, now.Decide(batch[item], Settled), batch, verdicts, item + 1)
    ensures now.Decide(batch[item], Settled).Queue() == Without(now.Queue(), batch[item].id)
  {
    var m, queue := batch[item], was.Queue();
    DecideQueued(now, m, Settled);
    QueueHolds(was);
    assert batch[item] == queue[item];
    forall j | 0 <= j < |batch| && j != item ensures batch[j].id != m.id { assert batch[j] == queue[j]; }
    if Clean(verdicts, item) { OldestGoes(queue, item); }
  }

  lemma DeferNext(was: Ledger, now: Ledger, batch: seq<Mutation>, verdicts: seq<Verdict>, item: nat)
    requires was.Ok() && now.Ok() && item < |batch| == |verdicts| && Answered(was, now, batch, verdicts, item)
    requires verdicts[item] == Retryable
    ensures Answered(was, now, batch, verdicts, item + 1)
  {
  }

  lemma CleanNext(verdicts: seq<Verdict>, n: nat)
    requires n < |verdicts|
    ensures Clean(verdicts, n + 1) <==> Clean(verdicts, n) && verdicts[n] != Retryable
  {
  }

  lemma WaveStarts(l: Ledger, batch: seq<Mutation>, verdicts: seq<Verdict>)
    requires l.Ok() && batch <= l.Queue() && |batch| == |verdicts|
    ensures Answered(l, l, batch, verdicts, 0) && Clean(verdicts, 0)
  {
    QueueHolds(l);
    forall j | 0 <= j < |batch| ensures l.Has(batch[j], Waits) { assert batch[j] == l.Queue()[j]; }
  }

  /** The oldest `n` facts of a queue have been evicted. */
  ghost predicate Shed(was: Ledger, now: Ledger, n: nat)
    requires was.Ok() && now.Ok()
  {
    n <= |was.Queue()| && Only(was, now, was.Queue()[..n], Evicted) && now.Queue() == was.Queue()[n..]
  }

  lemma ShedNext(was: Ledger, now: Ledger, n: nat)
    requires was.Ok() && now.Ok() && Shed(was, now, n) && n < |was.Queue()|
    ensures var m := was.Queue()[n];
      now.Has(m, Waits) && now.Decide(m, Evicted).Ok() && Shed(was, now.Decide(m, Evicted), n + 1)
  {
    var queue := was.Queue();
    QueueHolds(was);
    QueueHolds(now);
    assert queue[n..][0] == queue[n] && queue[n] in now.Queue();
    DecideQueued(now, queue[n], Evicted);
    OldestGoes(queue, n);
  }

  /** Every wave from number `first` up to `last` was settled completely. */
  ghost predicate AllSettled(ledger: Ledger, waves: seq<Wave>, first: nat, last: int) {
    forall k, m :: first <= k < last && k < |waves| && m in waves[k].batch ==> ledger.Has(m, Settled)
  }

  lemma SettledStays(was: Ledger, now: Ledger, waves: seq<Wave>, first: nat, last: int)
    requires was.Ok() && now.Ok() && was.GrowsInto(now) && AllSettled(was, waves, first, last)
    ensures AllSettled(now, waves, first, last)
  {
    forall k, m | first <= k < last && k < |waves| && m in waves[k].batch ensures now.Has(m, Settled) {
      assert was.Has(m, Settled);
    }
  }

  lemma Minted(l: Ledger, m: Mutation)
    requires l.Ok() && m.id == |l.minted|
    ensures var n := Ledger(l.minted + [m], l.fate + [Waits]); n.Ok() && n.Queue() == l.Queue() + [m] && l.GrowsInto(n)
  {
    assert (l.minted + [m])[..|l.minted|] == l.minted && (l.fate + [Waits])[..|l.fate|] == l.fate;
  }

  class MutationReporter {
    /** Facts whose report has not been answered yet, oldest first. */
    var pending: seq<Mutation>
    var nextId: nat
    ghost var ledger: Ledger
    ghost var waves: seq<Wave>

    /** Every minted fact has exactly one fate, and the queue is exactly the facts that wait. */
    ghost predicate Valid()
      reads this
    {
      ledger.Ok() && |ledger.minted| == nextId && pending == ledger.Queue() && forall w :: w in waves ==> Orderly(w)
    }

    constructor ()
      ensures Valid() && pending == [] && ledger == Ledger([], []) && waves == []
    {
      pending, nextId := [], 0;
      ledger, waves := Ledger([], []), [];
    }

    method Mint(writes: seq<LandedWrite>, now: int) returns (unreportable: nat)
      requires Valid()
      modifies this
      ensures Valid() && waves == old(waves) && old(ledger).GrowsInto(ledger)
      ensures ledger.minted == old(ledger).minted + Facts(writes, old(nextId), now)
    {
      unreportable := 0;
      for i := 0 to |writes|
        invariant Valid() && waves == old(waves) && old(ledger).GrowsInto(ledger)
        invariant ledger.minted + Facts(writes[i..], nextId, now) == old(ledger).minted
          + Facts(writes, old(nextId), now)
      {
        assert writes[i..][1..] == writes[i + 1..];
        var fact := MutationForWrite(writes[i], nextId, now);
        if fact.None? {
          unreportable := unreportable + 1;
        } else {
          ghost var was := ledger;
          pending, nextId := pending + [fact.value], nextId + 1;
          ledger := Ledger(was.minted + [fact.value], was.fate + [Waits]);
          Minted(was, fact.value);
          GrowsOn(old(ledger), was, ledger);
        }
      }
      assert writes[|writes|..] == [];
    }

    /** A request is answered with some status, or never completes. */
    method Send(mutation: Mutation) returns (verdict: Verdict) {
      var answered: bool := *;
      var status: int := *;
      verdict := if answered then ClassifyIngressStatus(status) else Retryable;
    }

    method SendAll(batch: seq<Mutation>) returns (verdicts: seq<Verdict>)
      ensures |verdicts| == |batch|
    {
      verdicts := [];
      for i := 0 to |batch|
        invariant |verdicts| == i
      {
        var verdict := Send(batch[i]);
        verdicts := verdicts + [verdict];
      }
    }

    method Settle(m: Mutation)
      requires Valid() && ledger.Has(m, Waits)
      modifies this`pending, this`ledger
      ensures Valid() && ledger == old(ledger).Decide(m, Settled)
    {
      DecideQueued(ledger, m, Settled);
      pending := Without(pending, m.id);
      ledger := ledger.Decide(m, Settled);
    }

    /** Sends one batch, the head of the queue, and settles what was answered for good. */
    method SendWave(batch: seq<Mutation>) returns (deferred: nat, ghost verdicts: seq<Verdict>)
      requires Valid() && 0 < |batch| <= WAVE && batch <= pending && DistinctPaths(batch)
      modifies this
      ensures Valid() && waves == old(waves) + [Wave(batch, old(pending))]
      ensures |verdicts| == |batch| && Answered(old(ledger), ledger, batch, verdicts, |batch|)
      ensures deferred <= |batch| && (deferred == 0 <==> Clean(verdicts, |batch|))
    {
      hide Answered, Clean, Orderly, DistinctPaths;
      QueueHolds(ledger);
      PrefixIsOrderly(Wave(batch, pending));
      waves := waves + [Wave(batch, pending)];
      var answers := SendAll(batch);
      verdicts, deferred := answers, 0;
      WaveStarts(ledger, batch, answers);
      ghost var was := ledger;
      for item := 0 to |batch|
        invariant Valid() && waves == old(waves) + [Wave(batch, old(pending))]
        invariant deferred <= item && (deferred == 0 <==> Clean(answers, item)) &&
          Answered(was, ledger, batch, answers, item)
      {
        var mutation, verdict := batch[item], answers[item];
        CleanNext(answers, item);
        if verdict == Retryable {
          DeferNext(was, ledger, batch, answers, item);
          deferred := deferred + 1;
        } else {
          SettleNext(was, ledger, batch, answers, item);
          Settle(mutation);
        }
      }
    }

    /** Drops the oldest facts until the bound holds. */
    method Evict()
      requires Valid()
      modifies this`pending, this`ledger
      ensures Valid() && |pending| <= MAX_PENDING_MUTATIONS
      ensures Shed(old(ledger), ledger, if |old(pending)| <= MAX_PENDING_MUTATIONS then 0
        else |old(pending)| - MAX_PENDING_MUTATIONS)
    {
      ghost var was, n := ledger, 0;
      assert pending[0..] == pending;
      while |pending| > MAX_PENDING_MUTATIONS
        invariant Valid() && Shed(was, ledger, n) && |pending| == |was.Queue()| - n
        invariant n == 0 || |pending| >= MAX_PENDING_MUTATIONS
        decreases |pending|
      {
        ShedNext(was, ledger, n);
        assert pending[0] == was.Queue()[n] && pending[1..] == was.Queue()[n + 1..];
        ledger := ledger.Decide(pending[0], Evicted);
        pending := pending[1..];
        n := n + 1;
      }
    }

    /** Collects the next batch: at most four facts with four different paths. */
    method NextBatch(queued: seq<Mutation>, index: nat) returns (batch: seq<Mutation>)
      requires index < |queued|
      ensures 0 < |batch| <= WAVE && batch <= queued[index..] && DistinctPaths(batch)
      ensures |batch| == WAVE || index + |batch| == |queued| || Repeats(batch, queued[index + |batch|].path)
    {
      batch := [queued[index]];
      while |batch| < WAVE && index + |batch| < |queued| && !Repeats(batch, queued[index + |batch|].path)
        invariant 0 < |batch| <= WAVE && batch <= queued[index..] && DistinctPaths(batch)
      {
        batch := batch + [queued[index + |batch|]];
      }
    }

    method Report(settings: Settings, writes: seq<LandedWrite>, now: int) returns (ghost deferrals: nat)
      requires Valid()
      modifies this
      ensures Valid()
      // Conservation: facts are minted once, keep their number, and a decided fate stays decided.
      ensures ledger.minted == old(ledger).minted + (if settings.Keeps() then Facts(writes, old(nextId), now) else [])
      ensures old(ledger).GrowsInto(ledger) && old(waves) <= waves
      // Every wave of this report but the last was settled completely, so at most four facts were deferred.
      ensures AllSettled(ledger, waves, |old(waves)|, |waves| - 1) && deferrals <= WAVE
      ensures settings.Keeps() && settings.channelSet && deferrals == 0 ==> pending == []
      ensures settings.Keeps() && settings.channelSet ==> |pending| <= MAX_PENDING_MUTATIONS
      ensures !(settings.Keeps() && settings.channelSet) ==> waves == old(waves)
      ensures !settings.Keeps() ==> pending == old(pending)
    {
      deferrals := 0;
      if !settings.Keeps() { return; }
      var unreportable := Mint(writes, now);
      if !settings.channelSet { return; }
      var queued := pending;
      var index := 0;
      var deferred: nat := 0;
      while index < |queued| && deferred == 0
        invariant Valid() && ledger.minted == old(ledger).minted + Facts(writes, old(nextId), now) &&
          old(ledger).GrowsInto(ledger)
        invariant index <= |queued| && deferred <= WAVE && (deferred == 0 ==> pending == queued[index..])
        invariant old(waves) <= waves &&
          AllSettled(ledger, waves, |old(waves)|, |waves| - (if deferred == 0 then 0 else 1))
      {
        ghost var was, earlier := ledger, waves;
        var batch := NextBatch(queued, index);
        ghost var verdicts;
        deferred, verdicts := SendWave(batch);
        index := index + |batch|;
        OnlyGrows(was, ledger, batch, Settled);
        GrowsOn(old(ledger), was, ledger);
        SettledStays(was, ledger, earlier, |old(waves)|, |earlier|);
        if deferred == 0 { assert queued[index - |batch|..][|batch|..] == queued[index..]; }
      }
      deferrals := deferred;
      ghost var sent := ledger;
      Evict();
      OnlyGrows(sent, ledger,
        sent.Queue()[..if |sent.Queue()| <= MAX_PENDING_MUTATIONS then 0 else |sent.Queue()| - MAX_PENDING_MUTATIONS],
        Evicted);
      GrowsOn(old(ledger), sent, ledger);
      SettledStays(sent, ledger, waves, |old(waves)|, |waves| - 1);
    }
  }

  predicate Repeats(batch: seq<Mutation>, path: Key) {
    exists m :: m in batch && m.path == path
  }

  lemma RemoveFirst(pending: seq<Mutation>, first: Mutation, rest: seq<Mutation>)
    requires pending == [first] + rest && Older(pending)
    ensures Without(pending, first.id) == rest
  {
    WithoutAppend([first], rest, first.id);
    assert [first][..0] == [];
    forall m | m in rest ensures m.id != first.id {
      var i :| 0 <= i < |rest| && rest[i] == m;
      assert pending[0].id < pending[i + 1].id;
    }
    WithoutAbsent(rest, first.id);
  }

  lemma OldestGoes(was: seq<Mutation>, n: nat)
    requires n < |was| && Older(was)
    ensures Without(was[n..], was[n].id) == was[n + 1..] && was[..n + 1] == was[..n] + [was[n]]
  {
    assert was[n..] == [was[n]] + was[n + 1..];
    RemoveFirst(was[n..], was[n], was[n + 1..]);
  }
}
