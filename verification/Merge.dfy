/** src/sync/merge.ts: ranges, pieces, the cursor-driven interleave and the conflict region. */
module Merge {
  import opened Types

  type Lines = seq<string>

  /** One side's replacement of `base[start, start + length)`. */
  datatype Range = Range(start: nat, length: nat, replacement: Lines)

  function EndOf(range: Range): nat { range.start + range.length }

  function Max(a: int, b: int): int { if a < b then b else a }
  function Min(a: int, b: int): int { if a < b then a else b }

  /** Field-wise equality of start, length and every replacement line is equality of ranges. */
  predicate Collides(left: Range, right: Range) {
    var overlaps := Max(left.start, right.start) < Min(EndOf(left), EndOf(right));
    var bothInsertAtSamePoint := left.length == 0 && right.length == 0 && left.start == right.start;
    (overlaps || bothInsertAtSamePoint) && left != right
  }

  /** `s.slice(from, to)` for non-negative bounds. */
  function Slice<T>(s: seq<T>, from: nat, to: nat): seq<T> {
    var hi := Min(to, |s|);
    if from < hi then s[from..hi] else []
  }

  datatype Piece = Piece(start: nat, end: nat, lines: Lines)

  /** The pieces one side's ranges fold into, from a cursor on. */
  function PiecesFrom(baseLength: nat, ranges: seq<Range>, cursor: nat): seq<Piece> {
    if ranges == [] then if cursor < baseLength then [Piece(cursor, baseLength, [])] else []
    else
      var range := ranges[0];
      if range.start > baseLength || range.start < cursor then PiecesFrom(baseLength, ranges[1..], cursor)
      else
        (if range.start > cursor then [Piece(cursor, range.start, [])] else [])
        + [Piece(range.start, EndOf(range), range.replacement)]
        + PiecesFrom(baseLength, ranges[1..], EndOf(range))
  }

  method PiecesOf(baseLength: nat, ranges: seq<Range>) returns (pieces: seq<Piece>)
    ensures pieces == PiecesFrom(baseLength, ranges, 0)
  {
    pieces := [];
    var cursor: nat := 0;
    for i := 0 to |ranges|
      invariant pieces + PiecesFrom(baseLength, ranges[i..], cursor) == PiecesFrom(baseLength, ranges, 0)
    {
      var range := ranges[i];
      assert ranges[i..][1..] == ranges[i + 1..];
      if !(range.start > baseLength) && !(range.start < cursor) {
        if range.start > cursor { pieces := pieces + [Piece(cursor, range.start, [])]; }
        pieces := pieces + [Piece(range.start, EndOf(range), range.replacement)];
        cursor := EndOf(range);
      }
    }
    if cursor < baseLength { pieces := pieces + [Piece(cursor, baseLength, [])]; }
  }

  // ---- ordering the events ----

  predicate Before(left: Piece, right: Piece) {
    left.start < right.start || (left.start == right.start && left.end >= right.end)
  }

  function InsertStable(piece: Piece, sorted: seq<Piece>): seq<Piece> {
    if sorted == [] || Before(piece, sorted[0]) then [piece] + sorted
    else [sorted[0]] + InsertStable(piece, sorted[1..])
  }

  /** The stable library sort, by start and then by descending end. */
  function Sorted(events: seq<Piece>): seq<Piece> {
    if events == [] then [] else InsertStable(events[0], Sorted(events[1..]))
  }

  ghost predicate InOrder(events: seq<Piece>) {
    forall i, j :: 0 <= i < j < |events| ==> Before(events[i], events[j])
  }

  lemma {:induction false} InsertMembers(piece: Piece, sorted: seq<Piece>)
    ensures multiset(InsertStable(piece, sorted)) == multiset(sorted) + multiset{piece}
    ensures forall p :: p in InsertStable(piece, sorted) ==> p in sorted || p == piece
  {
    if sorted != [] && !Before(piece, sorted[0]) {
      InsertMembers(piece, sorted[1..]);
      assert sorted == [sorted[0]] + sorted[1..];
    }
  }

  lemma {:induction false} InsertInOrder(piece: Piece, sorted: seq<Piece>)
    requires InOrder(sorted)
    ensures InOrder(InsertStable(piece, sorted))
  {
    if sorted != [] && !Before(piece, sorted[0]) {
      InsertInOrder(piece, sorted[1..]);
      InsertMembers(piece, sorted[1..]);
      var rest := InsertStable(piece, sorted[1..]);
      forall k | 0 <= k < |rest| ensures Before(sorted[0], rest[k]) {
        assert rest[k] in sorted[1..] || rest[k] == piece;
      }
    }
  }

  lemma {:induction false} SortedInOrder(events: seq<Piece>)
    ensures InOrder(Sorted(events)) && multiset(Sorted(events)) == multiset(events)
  {
    if events != [] {
      SortedInOrder(events[1..]);
      InsertInOrder(events[0], Sorted(events[1..]));
      InsertMembers(events[0], Sorted(events[1..]));
      assert events == [events[0]] + events[1..];
    }
  }

  // ---- the interleave ----

  datatype Last = Nothing | Emitted(start: nat, end: nat)

  predicate Skips(piece: Piece, cursor: nat, last: Last) {
    last == Emitted(piece.start, piece.end) || piece.end <= cursor || piece.lines == []
  }

  function Weave(base: Lines, events: seq<Piece>, cursor: nat, last: Last): Lines {
    if events == [] then Slice(base, cursor, |base|)
    else
      var piece := events[0];
      if Skips(piece, cursor, last) then Weave(base, events[1..], cursor, last)
      else
        Slice(base, cursor, piece.start) + piece.lines
        + Weave(base, events[1..], piece.end, Emitted(piece.start, piece.end))
  }

  function Interleaved(base: Lines, local: seq<Piece>, remote: seq<Piece>): Lines {
    Weave(base, Sorted(local + remote), 0, Nothing)
  }

  method Interleave(base: Lines, local: seq<Piece>, remote: seq<Piece>) returns (output: Lines)
    ensures output == Interleaved(base, local, remote)
  {
    var events := Sorted(local + remote);
    output := [];
    var cursor: nat := 0;
    var last := Nothing;
    for i := 0 to |events|
      invariant output + Weave(base, events[i..], cursor, last) == Interleaved(base, local, remote)
    {
      hide Weave, Sorted, Interleaved, Slice;
      var piece := events[i];
      assert events[i..] == [piece] + events[i + 1..];
      WeaveCons(base, piece, events[i + 1..], cursor, last);
      if last.Emitted? && piece.start == last.start && piece.end == last.end { continue; }
      if piece.end <= cursor { continue; }
      if piece.lines == [] { continue; }
      ghost var gap, rest := Slice(base, cursor, piece.start),
        Weave(base, events[i + 1..], piece.end, Emitted(piece.start, piece.end));
      assert output + (gap + piece.lines + rest) == output + gap + piece.lines + rest;
      output := output + Slice(base, cursor, piece.start);
      output := output + piece.lines;
      cursor, last := piece.end, Emitted(piece.start, piece.end);
    }
    if cursor < |base| { output := output + Slice(base, cursor, |base|); }
  }

  // ---- what a merge is for: applying both sides' edits to the base ----

  /** Applying ranges in order, with the base copied between them: simultaneous patching. */
  function Patch(base: Lines, ranges: seq<Range>, from: nat): Lines {
    if ranges == [] then Slice(base, from, |base|)
    else Slice(base, from, ranges[0].start) + ranges[0].replacement + Patch(base, ranges[1..], EndOf(ranges[0]))
  }

  /** Ascending, disjoint, non-adjacent ranges inside the base: what a line diff reports. */
  ghost predicate Hunks(baseLength: nat, ranges: seq<Range>) {
    && (forall i, j :: 0 <= i < j < |ranges| ==> EndOf(ranges[i]) < ranges[j].start)
    && (forall r :: r in ranges ==> EndOf(r) <= baseLength)
  }

  predicate Conflicting(local: seq<Range>, remote: seq<Range>) {
    exists l, r :: l in local && r in remote && Collides(l, r)
  }

  /** Applied in this order, no range reaches back over an earlier one. */
  ghost predicate AppliesInOrder(ranges: seq<Range>) {
    forall i, j :: 0 <= i < j < |ranges| ==> EndOf(ranges[i]) <= ranges[j].start && ranges[i].start < ranges[j].start
  }

  /**
   * The ranges a merge applies. A pure deletion is not among them, nor is an insertion at the very start
   * or in the closed span of a replacement that is applied.
   */
  ghost predicate Survives(r: Range, all: set<Range>) {
    && r.replacement != []
    && (r.length == 0 ==> r.start > 0 && forall o :: o in all && o.length > 0 && o.replacement != [] ==>
      !(o.start <= r.start <= EndOf(o)))
  }

  function RangeSet(ranges: seq<Range>): set<Range> { set r | r in ranges }

  function AsPiece(r: Range): Piece { Piece(r.start, EndOf(r), r.replacement) }

  function AsRange(p: Piece): Range
    requires p.start <= p.end
  {
    Range(p.start, p.end - p.start, p.lines)
  }

  /** The pieces of well-formed hunks that carry lines are exactly the hunks that carry lines. */
  lemma {:induction false} PiecesWithLines(baseLength: nat, ranges: seq<Range>, cursor: nat)
    requires Hunks(baseLength, ranges) && (ranges != [] ==> cursor <= ranges[0].start)
    ensures forall p :: p in PiecesFrom(baseLength, ranges, cursor) && p.lines != [] ==>
      p.start <= p.end && AsRange(p) in ranges
  {
    if ranges != [] {
      HunksTail(baseLength, ranges);
      PiecesWithLines(baseLength, ranges[1..], EndOf(ranges[0]));
      assert AsRange(AsPiece(ranges[0])) == ranges[0];
    }
  }

  lemma {:induction false} HunkHasPiece(baseLength: nat, ranges: seq<Range>, cursor: nat, r: Range)
    requires Hunks(baseLength, ranges) && (ranges != [] ==> cursor <= ranges[0].start) && r in ranges
    ensures AsPiece(r) in PiecesFrom(baseLength, ranges, cursor)
  {
    HunksTail(baseLength, ranges);
    if r != ranges[0] {
      assert ranges == [ranges[0]] + ranges[1..];
      HunkHasPiece(baseLength, ranges[1..], EndOf(ranges[0]), r);
    }
  }

  lemma HunksTail(baseLength: nat, ranges: seq<Range>)
    requires Hunks(baseLength, ranges) && ranges != []
    ensures Hunks(baseLength, ranges[1..]) && ranges[0].start <= baseLength
    ensures |ranges| > 1 ==> EndOf(ranges[0]) <= ranges[1].start
  {
    assert ranges[0] in ranges;
    forall r | r in ranges[1..] ensures r in ranges {}
  }

  /** The ranges the weave emits, in emission order. */
  function Emissions(events: seq<Piece>, cursor: nat, last: Last): seq<Range> {
    if events == [] then []
    else
      var piece := events[0];
      if Skips(piece, cursor, last) || piece.start > piece.end then Emissions(events[1..], cursor, last)
      else [AsRange(piece)] + Emissions(events[1..], piece.end, Emitted(piece.start, piece.end))
  }

  lemma PatchNone(base: Lines, cursor: nat)
    ensures Patch(base, [], cursor) == Slice(base, cursor, |base|)
  {
  }

  lemma PatchCons(base: Lines, first: Range, rest: seq<Range>, cursor: nat)
    ensures Patch(base, [first] + rest, cursor) == Slice(base, cursor, first.start) + first.replacement
      + Patch(base, rest, EndOf(first))
  {
    assert ([first] + rest)[1..] == rest;
  }

  lemma {:induction false} WeaveIsPatch(base: Lines, events: seq<Piece>, cursor: nat, last: Last)
    requires forall p :: p in events && p.lines != [] ==> p.start <= p.end
    ensures Weave(base, events, cursor, last) == Patch(base, Emissions(events, cursor, last), cursor)
  {
    hide Patch, Slice;
    PatchNone(base, cursor);
    if events != [] {
      var piece := events[0];
      if Skips(piece, cursor, last) {
        WeaveIsPatch(base, events[1..], cursor, last);
      } else {
        var rest := Emissions(events[1..], piece.end, Emitted(piece.start, piece.end));
        WeaveIsPatch(base, events[1..], piece.end, Emitted(piece.start, piece.end));
        assert Emissions(events, cursor, last) == [AsRange(piece)] + rest;
        PatchCons(base, AsRange(piece), rest, cursor);
      }
    }
  }

  ghost predicate NoneCollide(all: set<Range>) {
    forall a, b :: a in all && b in all ==> !Collides(a, b)
  }

  /** The pieces still to come are in order, stand after the ranges already seen, and with them make up `all`. */
  ghost predicate Remaining(seen: set<Range>, rest: seq<Piece>, all: set<Range>) {
    && InOrder(rest)
    && (forall p :: p in rest && p.lines != [] ==> p.start <= p.end && AsRange(p) in all)
    && (forall r :: r in all && r.replacement != [] ==> r in seen || AsPiece(r) in rest)
    && (forall r, p :: r in seen && p in rest ==> Before(AsPiece(r), p))
  }

  /** Where the weave stands: what it has emitted is what survives among the ranges it has seen. */
  ghost predicate WeaveState(seen: set<Range>, all: set<Range>, cursor: nat, last: Last, emitted: seq<Range>) {
    && (last.Emitted? ==> last.end == cursor)
    && AppliesInOrder(emitted)
    && cursor == (if emitted == [] then 0 else EndOf(emitted[|emitted| - 1]))
    && (forall r :: r in emitted <==> r in seen && Survives(r, all))
    && seen <= all
  }

  lemma EmittedBehindCursor(seen: set<Range>, all: set<Range>, cursor: nat, last: Last, emitted: seq<Range>)
    requires WeaveState(seen, all, cursor, last, emitted)
    ensures forall r :: r in emitted ==> EndOf(r) <= cursor
  {
    forall r | r in emitted ensures EndOf(r) <= cursor {
      var i :| 0 <= i < |emitted| && emitted[i] == r;
      assert i < |emitted| - 1 ==> EndOf(emitted[i]) <= emitted[|emitted| - 1].start;
    }
  }

  /** A surviving range that was not emitted yet lies past the cursor. */
  lemma SurvivorIsAhead(seen: set<Range>, r: Range, all: set<Range>, cursor: nat, last: Last, emitted: seq<Range>)
    requires NoneCollide(all) && r in all && WeaveState(seen, all, cursor, last, emitted)
    requires forall o :: o in seen ==> Before(AsPiece(o), AsPiece(r))
    requires Survives(r, all) && r !in emitted
    ensures cursor < EndOf(r) && cursor <= r.start
    ensures emitted != [] ==> emitted[|emitted| - 1].start < r.start
  {
    if emitted != [] {
      var o := emitted[|emitted| - 1];
      assert o in emitted && o in seen && !Collides(o, r);
      assert Before(AsPiece(o), AsPiece(r));
    }
  }

  /** A range past the cursor survives. */
  lemma AheadSurvives(seen: set<Range>, r: Range, rest: seq<Piece>, all: set<Range>, cursor: nat, last: Last,
      emitted: seq<Range>)
    requires r in all && r.replacement != [] && WeaveState(seen, all, cursor, last, emitted)
    requires Remaining(seen, [AsPiece(r)] + rest, all)
    requires cursor < EndOf(r)
    ensures Survives(r, all) && r !in emitted
  {
    EmittedBehindCursor(seen, all, cursor, last, emitted);
    if r.length == 0 {
      var events := [AsPiece(r)] + rest;
      assert forall i :: 0 < i < |events| ==> Before(events[0], events[i]);
      assert forall p :: p in events ==> p == events[0] || Before(events[0], p);
      forall o | o in all && o.length > 0 && o.replacement != [] ensures !(o.start <= r.start <= EndOf(o)) {
        assert o.start <= r.start <= EndOf(o) ==> o in seen;
        assert o in seen && o.start <= r.start <= EndOf(o) ==> o in emitted;
      }
    }
  }

  /** The list holds every surviving range once, each applied after the ones before it. */
  ghost predicate AppliesExactly(applied: seq<Range>, all: set<Range>) {
    AppliesInOrder(applied) && forall r :: r in applied <==> r in all && Survives(r, all)
  }

  lemma AllSeen(seen: set<Range>, all: set<Range>, cursor: nat, last: Last, emitted: seq<Range>)
    requires Remaining(seen, [], all) && WeaveState(seen, all, cursor, last, emitted)
    ensures AppliesExactly(emitted, all)
  {}

  lemma {:induction false} EmissionsSurvive(seen: set<Range>, rest: seq<Piece>, all: set<Range>, cursor: nat,
      last: Last, emitted: seq<Range>)
    requires NoneCollide(all) && Remaining(seen, rest, all) && WeaveState(seen, all, cursor, last, emitted)
    ensures AppliesExactly(emitted + Emissions(rest, cursor, last), all)
    decreases |rest|
  {
    if rest == [] {
      AllSeen(seen, all, cursor, last, emitted);
      assert emitted + Emissions(rest, cursor, last) == emitted;
    } else if rest[0].lines == [] {
      EmptyPieceIsNoRange(seen, rest, all);
      EmissionsSurvive(seen, rest[1..], all, cursor, last, emitted);
    } else {
      OneEmission(seen, rest, all, cursor, last, emitted);
      var r := AsRange(rest[0]);
      if Skips(rest[0], cursor, last) {
        EmissionsSurvive(seen + {r}, rest[1..], all, cursor, last, emitted);
      } else {
        EmissionsSurvive(seen + {r}, rest[1..], all, EndOf(r), Emitted(r.start, EndOf(r)), emitted + [r]);
        EmissionsStep(rest, cursor, last, emitted);
      }
    }
  }

  lemma EmissionsStep(rest: seq<Piece>, cursor: nat, last: Last, emitted: seq<Range>)
    requires rest != [] && rest[0].start <= rest[0].end && !Skips(rest[0], cursor, last)
    ensures var r := AsRange(rest[0]);
      emitted + Emissions(rest, cursor, last) == (emitted + [r])
        + Emissions(rest[1..], EndOf(r), Emitted(r.start, EndOf(r)))
  {}

  lemma EmptyPieceIsNoRange(seen: set<Range>, rest: seq<Piece>, all: set<Range>)
    requires Remaining(seen, rest, all) && rest != [] && rest[0].lines == []
    ensures Remaining(seen, rest[1..], all)
  {
    assert rest == [rest[0]] + rest[1..];
    assert forall p :: p in rest[1..] ==> p in rest;
  }

  lemma OneSeen(seen: set<Range>, rest: seq<Piece>, all: set<Range>)
    requires Remaining(seen, rest, all) && rest != [] && rest[0].lines != []
    ensures rest[0].start <= rest[0].end && AsRange(rest[0]) in all
    ensures Remaining(seen + {AsRange(rest[0])}, rest[1..], all)
  {
    assert rest[0] in rest;
    var r := AsRange(rest[0]);
    assert rest == [AsPiece(r)] + rest[1..];
    forall o, p | o in seen + {r} && p in rest[1..] ensures Before(AsPiece(o), p) {
      var i :| 0 <= i < |rest[1..]| && rest[1..][i] == p;
      assert p == rest[i + 1] && p in rest;
    }
  }

  lemma OneEmission(seen: set<Range>, rest: seq<Piece>, all: set<Range>, cursor: nat, last: Last, emitted: seq<Range>)
    requires NoneCollide(all) && Remaining(seen, rest, all) && WeaveState(seen, all, cursor, last, emitted)
    requires rest != [] && rest[0].lines != []
    ensures rest[0].start <= rest[0].end && Remaining(seen + {AsRange(rest[0])}, rest[1..], all)
    ensures var r := AsRange(rest[0]);
      if Skips(rest[0], cursor, last) then WeaveState(seen + {r}, all, cursor, last, emitted)
      else WeaveState(seen + {r}, all, EndOf(r), Emitted(r.start, EndOf(r)), emitted + [r])
  {
    OneSeen(seen, rest, all);
    var r := AsRange(rest[0]);
    assert rest == [AsPiece(r)] + rest[1..];
    if cursor < EndOf(r) { AheadSurvives(seen, r, rest[1..], all, cursor, last, emitted); }
    if Survives(r, all) && r !in emitted {
      assert forall o :: o in seen ==> Before(AsPiece(o), rest[0]);
      SurvivorIsAhead(seen, r, all, cursor, last, emitted);
    }
    NextState(seen, r, all, cursor, last, emitted);
  }

  lemma NextState(seen: set<Range>, r: Range, all: set<Range>, cursor: nat, last: Last, emitted: seq<Range>)
    requires WeaveState(seen, all, cursor, last, emitted) && r in all
    requires cursor < EndOf(r) <==> Survives(r, all) && r !in emitted
    requires cursor < EndOf(r) ==> cursor <= r.start && (emitted != [] ==> emitted[|emitted| - 1].start < r.start)
    ensures if EndOf(r) <= cursor then WeaveState(seen + {r}, all, cursor, last, emitted)
      else WeaveState(seen + {r}, all, EndOf(r), Emitted(r.start, EndOf(r)), emitted + [r])
  {
    if cursor < EndOf(r) { AppendInOrder(emitted, r); }
  }

  lemma AppendInOrder(emitted: seq<Range>, r: Range)
    requires AppliesInOrder(emitted)
    requires emitted != [] ==> EndOf(emitted[|emitted| - 1]) <= r.start && emitted[|emitted| - 1].start < r.start
    ensures AppliesInOrder(emitted + [r])
  {}

  /** The events of two non-conflicting hunk lists, once sorted, are the events of all their ranges. */
  lemma MergeEvents(baseLength: nat, local: seq<Range>, remote: seq<Range>)
    requires Hunks(baseLength, local) && Hunks(baseLength, remote) && !Conflicting(local, remote)
    ensures Remaining({}, Sorted(PiecesFrom(baseLength, local, 0) + PiecesFrom(baseLength, remote, 0)), RangeSet(local)
      + RangeSet(remote))
    ensures NoneCollide(RangeSet(local) + RangeSet(remote))
  {
    var l, r := PiecesFrom(baseLength, local, 0), PiecesFrom(baseLength, remote, 0);
    var all := RangeSet(local) + RangeSet(remote);
    PiecesAreHunks(baseLength, local);
    PiecesAreHunks(baseLength, remote);
    SortedInOrder(l + r);
    SortedMembers(l + r);
    forall p | p in Sorted(l + r) && p.lines != [] ensures p.start <= p.end && AsRange(p) in all {
      assert p in l || p in r;
    }
    forall x | x in all ensures AsPiece(x) in Sorted(l + r) {
      assert AsPiece(x) in l || AsPiece(x) in r;
    }
    NoneOfBothCollide(baseLength, local, remote);
  }

  lemma PiecesAreHunks(baseLength: nat, ranges: seq<Range>)
    requires Hunks(baseLength, ranges)
    ensures forall p :: p in PiecesFrom(baseLength, ranges, 0) && p.lines != [] ==>
      p.start <= p.end && AsRange(p) in ranges
    ensures forall r :: r in ranges ==> AsPiece(r) in PiecesFrom(baseLength, ranges, 0)
  {
    PiecesWithLines(baseLength, ranges, 0);
    forall r | r in ranges ensures AsPiece(r) in PiecesFrom(baseLength, ranges, 0) {
      HunkHasPiece(baseLength, ranges, 0, r);
    }
  }

  lemma SortedMembers(events: seq<Piece>)
    ensures forall p :: p in Sorted(events) <==> p in events
  {
    SortedInOrder(events);
    forall p ensures p in Sorted(events) <==> p in events {
      assert p in Sorted(events) <==> p in multiset(Sorted(events));
      assert p in events <==> p in multiset(events);
    }
  }

  lemma NoneOfBothCollide(baseLength: nat, local: seq<Range>, remote: seq<Range>)
    requires Hunks(baseLength, local) && Hunks(baseLength, remote) && !Conflicting(local, remote)
    ensures NoneCollide(RangeSet(local) + RangeSet(remote))
  {
    HunksApart(baseLength, local);
    HunksApart(baseLength, remote);
    forall a, b | a in RangeSet(local) + RangeSet(remote) && b in RangeSet(local) + RangeSet(remote)
      ensures !Collides(a, b) {
      assert Collides(a, b) ==> Collides(b, a);
    }
  }

  lemma HunksApart(baseLength: nat, ranges: seq<Range>)
    requires Hunks(baseLength, ranges)
    ensures forall a, b :: a in ranges && b in ranges ==> !Collides(a, b)
  {
    forall a, b | a in ranges && b in ranges ensures !Collides(a, b) {
      var i :| 0 <= i < |ranges| && ranges[i] == a;
      var j :| 0 <= j < |ranges| && ranges[j] == b;
      assert i < j ==> EndOf(ranges[i]) < ranges[j].start;
      assert j < i ==> EndOf(ranges[j]) < ranges[i].start;
    }
  }

  /** The ranges a clean merge applies, in the order it applies them. */
  function Applied(baseLength: nat, local: seq<Range>, remote: seq<Range>): seq<Range> {
    Emissions(Sorted(PiecesFrom(baseLength, local, 0) + PiecesFrom(baseLength, remote, 0)), 0, Nothing)
  }

  function MergedLines(base: Lines, local: seq<Range>, remote: seq<Range>): Lines {
    Interleaved(base, PiecesFrom(|base|, local, 0), PiecesFrom(|base|, remote, 0))
  }

  /**
   * A clean merge is simultaneous patching: it applies in order, to the base, exactly the surviving
   * ranges of both sides, an edit both sides made once, and adds no other line.
   */
  lemma CleanMergeIsPatching(base: Lines, local: seq<Range>, remote: seq<Range>)
    requires Hunks(|base|, local) && Hunks(|base|, remote) && !Conflicting(local, remote)
    ensures var applied := Applied(|base|, local, remote);
      && MergedLines(base, local, remote) == Patch(base, applied, 0)
      && AppliesExactly(applied, RangeSet(local) + RangeSet(remote))
  {
    AppliedExactly(|base|, local, remote);
    WeaveIsPatch(base, Sorted(PiecesFrom(|base|, local, 0) + PiecesFrom(|base|, remote, 0)), 0, Nothing);
  }

  lemma AppliedExactly(baseLength: nat, local: seq<Range>, remote: seq<Range>)
    requires Hunks(baseLength, local) && Hunks(baseLength, remote) && !Conflicting(local, remote)
    ensures AppliesExactly(Applied(baseLength, local, remote), RangeSet(local) + RangeSet(remote))
    ensures forall p ::
      p in Sorted(PiecesFrom(baseLength, local, 0) + PiecesFrom(baseLength, remote, 0)) && p.lines != [] ==>
      p.start <= p.end
  {
    var all := RangeSet(local) + RangeSet(remote);
    MergeEvents(baseLength, local, remote);
    EmissionsSurvive({}, Sorted(PiecesFrom(baseLength, local, 0) + PiecesFrom(baseLength, remote, 0)), all, 0, Nothing,
      []);
    assert [] + Applied(baseLength, local, remote) == Applied(baseLength, local, remote);
  }

  /** Nothing is dropped exactly when no range is a deletion and every insertion stands clear. */
  lemma EverythingApplied(base: Lines, local: seq<Range>, remote: seq<Range>)
    requires Hunks(|base|, local) && Hunks(|base|, remote) && !Conflicting(local, remote)
    ensures (forall r :: r in local || r in remote ==> r in Applied(|base|, local, remote)) <==>
      forall r :: r in local || r in remote ==>
        r.replacement != [] &&
          (r.length == 0 ==> r.start > 0 && forall o :: (o in local || o in remote) && o != r ==>
          !(o.start <= r.start <= EndOf(o)))
  {
    CleanMergeIsPatching(base, local, remote);
    NoneOfBothCollide(|base|, local, remote);
    var all := RangeSet(local) + RangeSet(remote);
    assert forall r :: r in all <==> r in local || r in remote;
    forall r | r in all && r.replacement != [] && r.length == 0 && forall o :: o in all ==> Survives(o, all)
      ensures forall o :: o in all && o != r ==> !(o.start <= r.start <= EndOf(o))
    {
      forall o | o in all && o != r ensures !(o.start <= r.start <= EndOf(o)) {
        assert !Collides(o, r) && Survives(r, all) && Survives(o, all);
      }
    }
  }

  // ---- observer independence of the merged text ----

  lemma FirstApplied(a: seq<Range>, b: seq<Range>)
    requires AppliesInOrder(a) && AppliesInOrder(b) && a != [] && b != []
    requires forall r :: r in a <==> r in b
    ensures a[0] == b[0]
  {
    assert a[0] in b && b[0] in a;
    var i :| 0 <= i < |a| && a[i] == b[0];
    var j :| 0 <= j < |b| && b[j] == a[0];
    assert i > 0 ==> a[0].start < a[i].start;
    assert j > 0 ==> b[0].start < b[j].start;
  }

  lemma RestApplied(a: seq<Range>)
    requires AppliesInOrder(a) && a != []
    ensures AppliesInOrder(a[1..]) && forall r :: r in a[1..] <==> r in a && r != a[0]
  {
    forall r ensures r in a[1..] <==> r in a && r != a[0] {
      if r in a[1..] {
        var k :| 0 <= k < |a[1..]| && a[1..][k] == r; assert a[k + 1] == r && a[0].start < a[k + 1].start;
      }
      if r in a && r != a[0] { var k :| 0 <= k < |a| && a[k] == r; assert a[1..][k - 1] == r; }
    }
  }

  lemma {:induction false} AppliedUnique(a: seq<Range>, b: seq<Range>)
    requires AppliesInOrder(a) && AppliesInOrder(b) && forall r :: r in a <==> r in b
    ensures a == b
  {
    hide AppliesInOrder;
    assert a != [] ==> a[0] in b;
    assert b != [] ==> b[0] in a;
    if a != [] && b != [] {
      FirstApplied(a, b);
      RestApplied(a);
      RestApplied(b);
      AppliedUnique(a[1..], b[1..]);
      assert a == [a[0]] + a[1..] && b == [b[0]] + b[1..];
    }
  }

  lemma ConflictingIsSymmetric(local: seq<Range>, remote: seq<Range>)
    ensures Conflicting(local, remote) <==> Conflicting(remote, local)
  {
    if l, r :| l in local && r in remote && Collides(l, r) { assert Collides(r, l); }
    if l, r :| l in remote && r in local && Collides(l, r) { assert Collides(r, l); }
  }

  /** Both devices merge to the same lines. */
  lemma MergedLinesSwap(base: Lines, local: seq<Range>, remote: seq<Range>)
    requires Hunks(|base|, local) && Hunks(|base|, remote) && !Conflicting(local, remote)
    ensures MergedLines(base, local, remote) == MergedLines(base, remote, local)
  {
    ConflictingIsSymmetric(local, remote);
    CleanMergeIsPatching(base, local, remote);
    CleanMergeIsPatching(base, remote, local);
    assert RangeSet(local) + RangeSet(remote) == RangeSet(remote) + RangeSet(local);
    AppliedUnique(Applied(|base|, local, remote), Applied(|base|, remote, local));
  }

  /** A side with no deletion and no insertion at the very start survives a merge with an untouched side. */
  lemma OneSidedEditIsKept(base: Lines, local: seq<Range>)
    requires Hunks(|base|, local)
    requires forall r :: r in local ==> r.replacement != [] && (r.length == 0 ==> r.start > 0)
    ensures MergedLines(base, local, []) == Patch(base, local, 0)
  {
    CleanMergeIsPatching(base, local, []);
    assert RangeSet(local) + RangeSet([]) == RangeSet(local);
    forall r, o | r in local && o in local && o.length > 0 && r.length == 0 ensures !(o.start <= r.start <= EndOf(o)) {
      var i :| 0 <= i < |local| && local[i] == r;
      var j :| 0 <= j < |local| && local[j] == o;
      assert i < j ==> EndOf(local[i]) < local[j].start;
      assert j < i ==> EndOf(local[j]) < local[i].start;
    }
    assert AppliesInOrder(local);
    AppliedUnique(Applied(|base|, local, []), local);
  }

  /** Deletions are never applied: sides that only delete merge back to the base. */
  lemma DeletionsAreDropped(base: Lines, local: seq<Range>, remote: seq<Range>)
    requires Hunks(|base|, local) && Hunks(|base|, remote) && !Conflicting(local, remote)
    requires forall r :: r in local || r in remote ==> r.replacement == []
    ensures MergedLines(base, local, remote) == base
  {
    CleanMergeIsPatching(base, local, remote);
    var applied := Applied(|base|, local, remote);
    assert forall i :: 0 <= i < |applied| ==> applied[i] in applied;
  }

  // ---- the conflict region ----

  function CollidingAmong(ranges: seq<Range>, all: seq<Range>): (r: seq<Range>)
    ensures forall x :: x in r <==> x in ranges && exists o :: o in all && Collides(x, o)
  {
    if ranges == [] then []
    else (if exists o :: o in all && Collides(ranges[0], o) then [ranges[0]] else []) + CollidingAmong(ranges[1..], all)
  }

  function LeastStart(ranges: seq<Range>): (least: nat)
    requires ranges != []
    ensures exists r :: r in ranges && r.start == least
    ensures forall r :: r in ranges ==> least <= r.start
  {
    if |ranges| == 1 then ranges[0].start else
      assert ranges == [ranges[0]] + ranges[1..];
      Min(ranges[0].start, LeastStart(ranges[1..]))
  }

  function GreatestEnd(ranges: seq<Range>, limit: nat): (greatest: nat)
    requires ranges != []
    ensures exists r :: r in ranges && Min(limit, EndOf(r)) == greatest
    ensures forall r :: r in ranges ==> Min(limit, EndOf(r)) <= greatest
  {
    if |ranges| == 1 then Min(limit, EndOf(ranges[0])) else
      assert ranges == [ranges[0]] + ranges[1..];
      Max(Min(limit, EndOf(ranges[0])), GreatestEnd(ranges[1..], limit))
  }

  function Colliding(local: seq<Range>, remote: seq<Range>): seq<Range> {
    CollidingAmong(local + remote, local + remote)
  }

  lemma SomethingCollides(local: seq<Range>, remote: seq<Range>)
    requires Conflicting(local, remote)
    ensures Colliding(local, remote) != []
  {
    var l, r :| l in local && r in remote && Collides(l, r);
    assert l in local + remote && r in local + remote;
    assert l in Colliding(local, remote);
  }

  /** `s` counted from its end. */
  function FromEnd<T>(s: seq<T>, i: nat): T
    requires i < |s|
  {
    s[|s| - 1 - i]
  }

  function HeadFrom<T(==)>(a: seq<T>, b: seq<T>, limit: nat, n: nat): nat
    requires limit <= |b|
    decreases limit - n
  {
    if n < |a| && n < limit && a[n] == b[n] then HeadFrom(a, b, limit, n + 1) else n
  }

  function TailFrom<T(==)>(a: seq<T>, b: seq<T>, limit: nat, n: nat): nat
    requires limit <= |b|
    decreases limit - n
  {
    if n < |a| && n < limit && FromEnd(a, n) == FromEnd(b, n) then TailFrom(a, b, limit, n + 1) else n
  }

  lemma {:induction false} HeadFromIs<T>(a: seq<T>, b: seq<T>, limit: nat, n: nat)
    requires limit <= |b| && n <= limit && n <= |a|
    ensures var m := HeadFrom(a, b, limit, n);
      n <= m <= limit && m <= |a| && (forall i :: n <= i < m ==> a[i] == b[i]) &&
        (m < limit && m < |a| ==> a[m] != b[m])
    decreases limit - n
  {
    if n < |a| && n < limit && a[n] == b[n] { HeadFromIs(a, b, limit, n + 1); }
  }

  lemma {:induction false} TailFromIs<T>(a: seq<T>, b: seq<T>, limit: nat, n: nat)
    requires limit <= |b| && n <= limit && n <= |a|
    ensures var m := TailFrom(a, b, limit, n);
      n <= m <= limit && m <= |a| && (forall i :: n <= i < m ==> FromEnd(a, i) == FromEnd(b, i)) &&
        (m < limit && m < |a| ==> FromEnd(a, m) != FromEnd(b, m))
    decreases limit - n
  {
    if n < |a| && n < limit && FromEnd(a, n) == FromEnd(b, n) { TailFromIs(a, b, limit, n + 1); }
  }

  /** The length of the common head, looking at no more than `limit` elements. */
  function SharedHead<T(==)>(a: seq<T>, b: seq<T>, limit: nat): (n: nat)
    requires limit <= |b|
    ensures n <= limit && n <= |a|
  {
    HeadFromIs(a, b, limit, 0);
    HeadFrom(a, b, limit, 0)
  }

  /** The length of the common tail, looking at no more than `limit` elements. */
  function SharedTail<T(==)>(a: seq<T>, b: seq<T>, limit: nat): (n: nat)
    requires limit <= |b|
    ensures n <= limit && n <= |a|
  {
    TailFromIs(a, b, limit, 0);
    TailFrom(a, b, limit, 0)
  }

  /** The shared head is the longest one. */
  lemma HeadIsLongest<T>(a: seq<T>, b: seq<T>, limit: nat, n: nat)
    requires limit <= |b|
    ensures n == SharedHead(a, b, limit) <==>
      n <= limit && n <= |a| && a[..n] == b[..n] && (n < limit && n < |a| ==> a[n] != b[n])
  {
    HeadFromIs(a, b, limit, 0);
    if n <= limit && n <= |a| && a[..n] == b[..n] {
      forall i | 0 <= i < n ensures a[i] == b[i] { assert a[..n][i] == b[..n][i]; }
    }
  }

  /** The shared tail is the longest one. */
  lemma TailIsLongest<T>(a: seq<T>, b: seq<T>, limit: nat, n: nat)
    requires limit <= |b|
    ensures n == SharedTail(a, b, limit) <==>
      n <= limit && n <= |a| && a[|a| - n..] == b[|b| - n..] &&
        (n < limit && n < |a| ==> FromEnd(a, n) != FromEnd(b, n))
  {
    TailFromIs(a, b, limit, 0);
    if n <= limit && n <= |a| { EqualTails(a, b, n); }
  }

  lemma EqualTails<T>(a: seq<T>, b: seq<T>, n: nat)
    requires n <= |a| && n <= |b|
    ensures a[|a| - n..] == b[|b| - n..] <==> forall i :: 0 <= i < n ==> FromEnd(a, i) == FromEnd(b, i)
  {
    var x, y := a[|a| - n..], b[|b| - n..];
    if x == y {
      forall i | 0 <= i < n ensures FromEnd(a, i) == FromEnd(b, i) { assert x[n - 1 - i] == y[n - 1 - i]; }
    }
    if forall i :: 0 <= i < n ==> FromEnd(a, i) == FromEnd(b, i) {
      forall k | 0 <= k < n ensures x[k] == y[k] { assert FromEnd(a, n - 1 - k) == FromEnd(b, n - 1 - k); }
    }
  }

  /** Trimming stops at the region's own bounds, so it never eats into the disagreement. */
  function Trimmed(base: Lines, rendered: Lines, start: nat, end: nat): Lines
    requires start <= end <= |base|
  {
    var prefix := SharedHead(rendered, base, start);
    var suffix := SharedTail(rendered[prefix..], base, |base| - end);
    rendered[prefix..|rendered| - suffix]
  }

  method HeadLength<T(==)>(a: seq<T>, b: seq<T>, limit: nat) returns (n: nat)
    requires limit <= |b|
    ensures n == SharedHead(a, b, limit)
  {
    n := 0;
    while n < |a| && n < limit && a[n] == b[n]
      invariant n <= |a| && n <= limit && HeadFrom(a, b, limit, n) == SharedHead(a, b, limit)
    {
      n := n + 1;
    }
  }

  method TailLength<T(==)>(a: seq<T>, b: seq<T>, limit: nat) returns (n: nat)
    requires limit <= |b|
    ensures n == SharedTail(a, b, limit)
  {
    n := 0;
    while n < |a| && n < limit && FromEnd(a, n) == FromEnd(b, n)
      invariant n <= |a| && n <= limit && TailFrom(a, b, limit, n) == SharedTail(a, b, limit)
    {
      n := n + 1;
    }
  }

  method TrimShared(base: Lines, rendered: Lines, start: nat, end: nat) returns (side: Lines)
    requires start <= end <= |base|
    ensures side == Trimmed(base, rendered, start, end)
  {
    var prefix := HeadLength(rendered, base, start);
    var suffix := TailLength(rendered[prefix..], base, |base| - end);
    side := rendered[prefix..|rendered| - suffix];
  }

  /** One side's share of the region: the file re-rendered around the region, minus the shared context. */
  function SideOf(base: Lines, ranges: seq<Range>, start: nat, end: nat): Lines
    requires start <= end <= |base|
  {
    Trimmed(base, Interleaved(base, PiecesFrom(|base|, ranges, 0), [Piece(start, end, Slice(base, start, end))]), start,
      end)
  }

  datatype Region = Region(start: nat, end: nat, base: Lines, local: Lines, remote: Lines)

  function RegionOf(base: Lines, local: seq<Range>, remote: seq<Range>): (r: Region)
    requires Hunks(|base|, local) && Hunks(|base|, remote) && Conflicting(local, remote)
    ensures r.start <= r.end <= |base|
  {
    SomethingCollides(local, remote);
    var colliding := Colliding(local, remote);
    var start, end := LeastStart(colliding), GreatestEnd(colliding, |base|);
    Region(start, end, base[start..end], SideOf(base, local, start, end), SideOf(base, remote, start, end))
  }

  method ConflictRegion(base: Lines, local: seq<Range>, remote: seq<Range>) returns (region: Region)
    requires Hunks(|base|, local) && Hunks(|base|, remote) && Conflicting(local, remote)
    ensures region == RegionOf(base, local, remote)
  {
    SomethingCollides(local, remote);
    var colliding := Colliding(local, remote);
    var start, end := LeastStart(colliding), GreatestEnd(colliding, |base|);
    ghost var bounds := RegionOf(base, local, remote);
    var whole := [Piece(start, end, Slice(base, start, end))];
    var pieces := PiecesOf(|base|, local);
    var rendered := Interleave(base, pieces, whole);
    var localSide := TrimShared(base, rendered, start, end);
    pieces := PiecesOf(|base|, remote);
    rendered := Interleave(base, pieces, whole);
    var remoteSide := TrimShared(base, rendered, start, end);
    region := Region(start, end, base[start..end], localSide, remoteSide);
  }

  /** Seen from the other device the region is the same, with the two sides exchanged. */
  lemma RegionSwap(base: Lines, local: seq<Range>, remote: seq<Range>)
    requires Hunks(|base|, local) && Hunks(|base|, remote) && Conflicting(local, remote)
    ensures Conflicting(remote, local)
    ensures var r, s := RegionOf(base, local, remote), RegionOf(base, remote, local);
      s == Region(r.start, r.end, r.base, r.remote, r.local)
  {
    ConflictingIsSymmetric(local, remote);
    SomethingCollides(local, remote);
    SomethingCollides(remote, local);
    assert forall r :: r in local + remote <==> r in remote + local;
    SameBounds(Colliding(local, remote), Colliding(remote, local), |base|);
  }

  lemma SameBounds(a: seq<Range>, b: seq<Range>, limit: nat)
    requires a != [] && b != [] && forall r :: r in a <==> r in b
    ensures LeastStart(a) == LeastStart(b) && GreatestEnd(a, limit) == GreatestEnd(b, limit)
  {
    var least, greatest := LeastStart(a), GreatestEnd(a, limit);
    var r :| r in a && r.start == least;
    var t :| t in a && Min(limit, EndOf(t)) == greatest;
    least, greatest := LeastStart(b), GreatestEnd(b, limit);
    r :| r in b && r.start == least;
    t :| t in b && Min(limit, EndOf(t)) == greatest;
  }

  // ---- which edits reach the conflict ----

  predicate Inside(r: Range, start: nat, end: nat) { start <= r.start && EndOf(r) <= end }

  predicate Spans(r: Range, start: nat, end: nat) { r.start == start && EndOf(r) == end }

  /** The ranges that are not smaller than the region they lie in. */
  function Telling(ranges: seq<Range>, start: nat, end: nat): seq<Range> {
    if ranges == [] then []
    else
      var narrow := Inside(ranges[0], start, end) && !Spans(ranges[0], start, end);
      (if narrow then [] else [ranges[0]]) + Telling(ranges[1..], start, end)
  }

  predicate Tells(p: Piece, start: nat, end: nat) {
    p.lines != [] && !(start <= p.start && p.end <= end && !(p.start == start && p.end == end))
  }

  function Filtered(events: seq<Piece>, start: nat, end: nat): seq<Piece> {
    if events == [] then []
    else (if Tells(events[0], start, end) then [events[0]] else []) + Filtered(events[1..], start, end)
  }

  lemma {:induction false} FilteredMembers(events: seq<Piece>, start: nat, end: nat)
    ensures forall p :: p in Filtered(events, start, end) ==> p in events && Tells(p, start, end)
  {
    if events != [] { FilteredMembers(events[1..], start, end); }
  }

  lemma FilteredNone(start: nat, end: nat)
    ensures Filtered([], start, end) == []
  {
  }

  lemma FilteredCons(e: Piece, rest: seq<Piece>, start: nat, end: nat)
    ensures Filtered([e] + rest, start, end) == (if Tells(e, start, end) then [e] else []) + Filtered(rest, start, end)
  {
    assert ([e] + rest)[1..] == rest;
  }

  lemma {:induction false} FilteredConcat(a: seq<Piece>, b: seq<Piece>, start: nat, end: nat)
    ensures Filtered(a + b, start, end) == Filtered(a, start, end) + Filtered(b, start, end)
  {
    hide Tells, Filtered;
    if a == [] {
      FilteredNone(start, end);
      assert a + b == b;
    } else {
      var e, rest := a[0], a[1..];
      assert a == [e] + rest && a + b == [e] + (rest + b);
      FilteredConcat(rest, b, start, end);
      FilteredCons(e, rest, start, end);
      FilteredCons(e, rest + b, start, end);
    }
  }

  lemma InsertCons(p: Piece, e: Piece, rest: seq<Piece>)
    ensures InsertStable(p, [e] + rest) == if Before(p, e) then [p, e] + rest else [e] + InsertStable(p, rest)
  {
    assert ([e] + rest)[1..] == rest;
  }

  lemma OrderedFrom(sorted: seq<Piece>)
    requires InOrder(sorted) && sorted != []
    ensures InOrder(sorted[1..]) && sorted == [sorted[0]] + sorted[1..] && forall p :: p in sorted[1..] ==>
      Before(sorted[0], p)
  {
  }

  lemma InsertFirst(p: Piece, sorted: seq<Piece>)
    requires sorted == [] || Before(p, sorted[0])
    ensures InsertStable(p, sorted) == [p] + sorted
  {
  }

  lemma {:induction false} FilteredInsert(p: Piece, sorted: seq<Piece>, start: nat, end: nat)
    requires InOrder(sorted)
    ensures Filtered(InsertStable(p, sorted), start, end) ==
      if Tells(p, start, end) then InsertStable(p, Filtered(sorted, start, end)) else Filtered(sorted, start, end)
  {
    hide InOrder, Tells, InsertStable, Filtered;
    var kept := Filtered(sorted, start, end);
    FilteredMembers(sorted, start, end);
    if sorted != [] { OrderedFrom(sorted); }
    if sorted == [] || Before(p, sorted[0]) {
      FilteredCons(p, sorted, start, end);
      InsertFirst(p, sorted);
      if kept != [] { assert kept[0] in sorted; }
      InsertFirst(p, kept);
    } else {
      var e, rest := sorted[0], sorted[1..];
      FilteredInsert(p, rest, start, end);
      InsertCons(p, e, rest);
      FilteredCons(e, rest, start, end);
      FilteredCons(e, InsertStable(p, rest), start, end);
      InsertCons(p, e, Filtered(rest, start, end));
      assert [] + Filtered(rest, start, end) == Filtered(rest, start, end);
    }
  }

  lemma {:induction false} FilteredSorted(events: seq<Piece>, start: nat, end: nat)
    ensures Filtered(Sorted(events), start, end) == Sorted(Filtered(events, start, end))
  {
    hide InOrder, Tells, InsertStable, Filtered;
    if events == [] {
      FilteredNone(start, end);
    } else {
      var e, rest := events[0], events[1..];
      assert events == [e] + rest;
      FilteredSorted(rest, start, end);
      SortedInOrder(rest);
      FilteredInsert(e, Sorted(rest), start, end);
      FilteredCons(e, rest, start, end);
      var kept := Filtered(rest, start, end);
      assert ([e] + kept)[1..] == kept && [] + kept == kept;
    }
  }

  lemma WeaveCons(base: Lines, e: Piece, rest: seq<Piece>, cursor: nat, last: Last)
    ensures Weave(base, [e] + rest, cursor, last) ==
      if Skips(e, cursor, last) then Weave(base, rest, cursor, last)
      else Slice(base, cursor, e.start) + e.lines + Weave(base, rest, e.end, Emitted(e.start, e.end))
  {
    assert ([e] + rest)[1..] == rest;
  }

  /** An event that tells nothing is skipped: without lines, or with the whole region behind it. */
  lemma SkipsTheRest(e: Piece, rest: seq<Piece>, whole: Piece, cursor: nat, last: Last)
    requires InOrder([e] + rest) && !Tells(e, whole.start, whole.end) && whole.lines != []
    requires whole in [e] + rest || whole.end <= cursor
    ensures Skips(e, cursor, last) && (whole in rest || whole.end <= cursor)
  {
    OrderedFrom([e] + rest);
    assert ([e] + rest)[1..] == rest;
  }

  /** Once the whole region has had its turn, nothing inside it can be emitted any more. */
  lemma {:induction false} WeaveFiltered(base: Lines, events: seq<Piece>, whole: Piece, cursor: nat, last: Last)
    requires InOrder(events) && whole.lines != [] && (whole in events || whole.end <= cursor)
    requires last.Emitted? ==> last.end == cursor
    ensures Weave(base, events, cursor, last) == Weave(base, Filtered(events, whole.start, whole.end), cursor, last)
  {
    hide InOrder, Tells, Weave, Filtered;
    if events == [] {
      FilteredNone(whole.start, whole.end);
    } else {
      var e, rest := events[0], events[1..];
      OrderedFrom(events);
      FilteredCons(e, rest, whole.start, whole.end);
      var kept := Filtered(rest, whole.start, whole.end);
      assert [] + kept == kept;
      WeaveCons(base, e, rest, cursor, last);
      WeaveCons(base, e, kept, cursor, last);
      if !Tells(e, whole.start, whole.end) { SkipsTheRest(e, rest, whole, cursor, last); }
      if Skips(e, cursor, last) {
        WeaveFiltered(base, rest, whole, cursor, last);
      } else {
        WeaveFiltered(base, rest, whole, e.end, Emitted(e.start, e.end));
      }
    }
  }

  /** The events a side's ranges contribute to its share of the region. */
  function Kept(ranges: seq<Range>, start: nat, end: nat): seq<Piece> {
    if ranges == [] then []
    else (if Tells(AsPiece(ranges[0]), start, end) then [AsPiece(ranges[0])] else []) + Kept(ranges[1..], start, end)
  }

  lemma {:induction false} PiecesFiltered(baseLength: nat, ranges: seq<Range>, cursor: nat, start: nat, end: nat)
    requires Hunks(baseLength, ranges) && (ranges != [] ==> cursor <= ranges[0].start)
    ensures Filtered(PiecesFrom(baseLength, ranges, cursor), start, end) == Kept(ranges, start, end)
  {
    if ranges == [] {
      FilteredNone(start, end);
    } else {
      HunksTail(baseLength, ranges);
      PiecesFiltered(baseLength, ranges[1..], EndOf(ranges[0]), start, end);
      GapFiltered(cursor, AsPiece(ranges[0]), PiecesFrom(baseLength, ranges[1..], EndOf(ranges[0])), start, end);
    }
  }

  lemma GapFiltered(cursor: nat, p: Piece, rest: seq<Piece>, start: nat, end: nat)
    ensures Filtered((if p.start > cursor then [Piece(cursor, p.start, [])] else []) + [p] + rest, start, end)
      == (if Tells(p, start, end) then [p] else []) + Filtered(rest, start, end)
  {
    hide Filtered;
    FilteredCons(p, rest, start, end);
    var gap := Piece(cursor, p.start, []);
    FilteredCons(gap, [p] + rest, start, end);
    assert [gap] + [p] + rest == [gap] + ([p] + rest) && [] + [p] + rest == [p] + rest;
    assert [] + Filtered([p] + rest, start, end) == Filtered([p] + rest, start, end);
  }

  function WholeOf(base: Lines, start: nat, end: nat): Piece { Piece(start, end, Slice(base, start, end)) }

  lemma HunksAtZero(baseLength: nat, ranges: seq<Range>, start: nat, end: nat)
    requires Hunks(baseLength, ranges)
    ensures Filtered(PiecesFrom(baseLength, ranges, 0), start, end) == Kept(ranges, start, end)
  {
    PiecesFiltered(baseLength, ranges, 0, start, end);
  }

  /** What a side's share is cut from depends on the telling ranges alone. */
  lemma RenderedByKept(base: Lines, ranges: seq<Range>, start: nat, end: nat)
    requires Hunks(|base|, ranges) && start < end <= |base|
    ensures Interleaved(base, PiecesFrom(|base|, ranges, 0), [WholeOf(base, start, end)])
      == Weave(base, Sorted(Kept(ranges, start, end) + [WholeOf(base, start, end)]), 0, Nothing)
  {
    hide Hunks, Kept, Filtered, Weave, Sorted, InOrder, PiecesFrom;
    var whole := WholeOf(base, start, end);
    var events := PiecesFrom(|base|, ranges, 0) + [whole];
    SortedInOrder(events);
    SortedMembers(events);
    WeaveFiltered(base, Sorted(events), whole, 0, Nothing);
    FilteredSorted(events, start, end);
    FilteredConcat(PiecesFrom(|base|, ranges, 0), [whole], start, end);
    HunksAtZero(|base|, ranges, start, end);
    FilteredCons(whole, [], start, end);
    FilteredNone(start, end);
    assert [whole] + [] == [whole];
  }

  lemma {:induction false} TellingMembers(ranges: seq<Range>, start: nat, end: nat)
    ensures forall r :: r in Telling(ranges, start, end) ==> r in ranges
  {
    if ranges != [] { TellingMembers(ranges[1..], start, end); }
  }

  lemma HunksCons(baseLength: nat, first: Range, rest: seq<Range>)
    requires Hunks(baseLength, rest) && EndOf(first) <= baseLength && forall r :: r in rest ==> EndOf(first) < r.start
    ensures Hunks(baseLength, [first] + rest)
  {
  }

  lemma HunksAhead(baseLength: nat, ranges: seq<Range>)
    requires Hunks(baseLength, ranges) && ranges != []
    ensures Hunks(baseLength, ranges[1..]) && ranges[0] in ranges && forall r :: r in ranges[1..] ==>
      EndOf(ranges[0]) < r.start
  {
    HunksTail(baseLength, ranges);
  }

  lemma {:induction false} TellingHunks(baseLength: nat, ranges: seq<Range>, start: nat, end: nat)
    requires Hunks(baseLength, ranges)
    ensures Hunks(baseLength, Telling(ranges, start, end))
  {
    hide Hunks;
    if ranges == [] {
      assert Telling(ranges, start, end) == ranges;
    } else {
      var first, rest := ranges[0], Telling(ranges[1..], start, end);
      HunksAhead(baseLength, ranges);
      TellingHunks(baseLength, ranges[1..], start, end);
      TellingMembers(ranges[1..], start, end);
      HunkEnds(baseLength, ranges);
      HunksCons(baseLength, first, rest);
      assert [] + rest == rest;
    }
  }

  lemma HunkEnds(baseLength: nat, ranges: seq<Range>)
    requires Hunks(baseLength, ranges)
    ensures forall r :: r in ranges ==> EndOf(r) <= baseLength
  {
  }

  lemma KeptCons(first: Range, rest: seq<Range>, start: nat, end: nat)
    ensures Kept([first] + rest, start, end) == (if Tells(AsPiece(first), start, end) then [AsPiece(first)] else [])
      + Kept(rest, start, end)
  {
    assert ([first] + rest)[1..] == rest;
  }

  lemma {:induction false} TellingKept(ranges: seq<Range>, start: nat, end: nat)
    ensures Kept(Telling(ranges, start, end), start, end) == Kept(ranges, start, end)
  {
    if ranges != [] {
      var first, rest := ranges[0], Telling(ranges[1..], start, end);
      TellingKept(ranges[1..], start, end);
      KeptCons(first, rest, start, end);
      assert [] + rest == rest && [] + Kept(rest, start, end) == Kept(rest, start, end);
    }
  }

  /** An edit inside the region, and smaller than it, has no influence on the conflict: the base text wins. */
  lemma NarrowEditsDoNotMatter(base: Lines, ranges: seq<Range>, start: nat, end: nat)
    requires Hunks(|base|, ranges) && start < end <= |base|
    ensures Hunks(|base|, Telling(ranges, start, end))
    ensures SideOf(base, ranges, start, end) == SideOf(base, Telling(ranges, start, end), start, end)
  {
    hide Hunks, Telling, Kept;
    TellingHunks(|base|, ranges, start, end);
    TellingKept(ranges, start, end);
    RenderedByKept(base, ranges, start, end);
    RenderedByKept(base, Telling(ranges, start, end), start, end);
  }

  /**
   * A side that edits nothing outside the region loses its edits there, and its share of the conflict is the
   * base text, exactly when none of its ranges replaces the region as a whole by other lines. Such a range
   * is the side's only one, and its lines are the share. The region may be a point, but not the very start.
   */
  lemma NarrowEditsVanish(base: Lines, ranges: seq<Range>, start: nat, end: nat)
    requires Hunks(|base|, ranges) && start <= end <= |base| && 0 < end
    requires forall r :: r in ranges ==> Inside(r, start, end)
    ensures SideOf(base, ranges, start, end) == base[start..end] <==>
      forall r :: r in ranges && Spans(r, start, end) ==> r.replacement == [] || r.replacement == base[start..end]
    ensures forall r :: r in ranges && Spans(r, start, end) && r.replacement != [] ==>
      ranges == [r] && SideOf(base, ranges, start, end) == r.replacement
  {
    hide Hunks, Kept, Weave, Sorted, Trimmed, Interleaved, PiecesFrom;
    if r :| r in ranges && Spans(r, start, end) {
      OnlyRange(|base|, ranges, r, start, end);
      if start < end {
        RenderedByKept(base, ranges, start, end);
        SpanRendered(base, r);
      } else {
        PointRendered(base, ranges, start);
      }
      TrimmedAround(base, r.replacement, start, end);
    } else if start < end {
      RenderedByKept(base, ranges, start, end);
      NothingKept(ranges, start, end);
      WholeRendered(base, start, end);
    } else {
      assert ranges == [] by { if ranges != [] { AtPointSpans(ranges, start); } }
      PointRendered(base, ranges, start);
    }
    TrimmedAround(base, base[start..end], start, end);
  }

  lemma AtPointSpans(ranges: seq<Range>, point: nat)
    requires ranges != [] && forall r :: r in ranges ==> Inside(r, point, point)
    ensures exists r :: r in ranges && Spans(r, point, point)
  {
    var r := ranges[0];
    assert r in ranges && Spans(r, point, point);
  }

  /** Pieces without lines never count. */
  lemma EmptyPiecesDoNotMatter(base: Lines, ranges: seq<Range>, empty: Piece)
    requires Hunks(|base|, ranges) && empty.lines == []
    ensures Interleaved(base, PiecesFrom(|base|, ranges, 0), [empty])
      == Weave(base, Sorted(Kept(ranges, 0, 0)), 0, Nothing)
  {
    hide Hunks, Kept, Filtered, Weave, Sorted, InOrder, PiecesFrom;
    var pieces := PiecesFrom(|base|, ranges, 0);
    SortedInOrder(pieces + [empty]);
    WeaveFiltered(base, Sorted(pieces + [empty]), Piece(0, 0, [""]), 0, Nothing);
    FilteredSorted(pieces + [empty], 0, 0);
    FilteredConcat(pieces, [empty], 0, 0);
    HunksAtZero(|base|, ranges, 0, 0);
    FilteredCons(empty, [], 0, 0);
    FilteredNone(0, 0);
    assert [empty] + [] == [empty] && Kept(ranges, 0, 0) + ([] + []) == Kept(ranges, 0, 0);
  }

  lemma PointRendered(base: Lines, ranges: seq<Range>, point: nat)
    requires Hunks(|base|, ranges) && 0 < point <= |base|
    requires ranges == [] || (ranges == [ranges[0]] && Spans(ranges[0], point, point))
    ensures Interleaved(base, PiecesFrom(|base|, ranges, 0), [WholeOf(base, point, point)])
      == base[..point] + (if ranges == [] then [] else ranges[0].replacement) + base[point..]
  {
    hide Hunks, Kept, Weave, Sorted, PiecesFrom, Slice;
    SliceEnds(base, point);
    assert base[..point] + [] + base[point..] == base;
    EmptyPiecesDoNotMatter(base, ranges, WholeOf(base, point, point)) by { EmptySlice(base, point); }
    if ranges == [] || ranges[0].replacement == [] {
      NothingCarried(ranges);
      SortedNone();
      WeaveNone(base, 0, Nothing);
      WholeSlice(base);
    } else {
      OneCarried(ranges[0]);
      OneSorted(AsPiece(ranges[0]));
      OneEmitted(base, AsPiece(ranges[0]));
    }
  }

  lemma EmptySlice(base: Lines, point: nat)
    ensures Slice(base, point, point) == []
  {
  }

  lemma WholeSlice(base: Lines)
    ensures Slice(base, 0, |base|) == base
  {
  }

  lemma SortedNone()
    ensures Sorted([]) == []
  {
  }

  lemma NothingCarried(ranges: seq<Range>)
    requires ranges == [] || (|ranges| == 1 && ranges[0].replacement == [])
    ensures Kept(ranges, 0, 0) == []
  {
    if ranges != [] { assert ranges[1..] == []; }
  }

  lemma OneCarried(r: Range)
    requires r.replacement != []
    ensures Kept([r], 0, 0) == [AsPiece(r)]
  {
    assert [r][1..] == [];
  }

  lemma WholeRendered(base: Lines, start: nat, end: nat)
    requires start < end <= |base|
    ensures Weave(base, Sorted([] + [WholeOf(base, start, end)]), 0, Nothing) == base[..start] + base[start..end]
      + base[end..]
  {
    hide Weave, Sorted, Slice;
    var whole := WholeOf(base, start, end);
    assert [] + [whole] == [whole];
    OneSorted(whole);
    assert whole.lines == base[start..end] && whole.lines != [] by { SliceInside(base, start, end); }
    OneEmitted(base, whole);
  }

  lemma SliceInside(base: Lines, start: nat, end: nat)
    requires start < end <= |base|
    ensures Slice(base, start, end) == base[start..end] != []
  {
  }

  lemma OneEmitted(base: Lines, a: Piece)
    requires a.start <= a.end <= |base| && 0 < a.end && a.lines != []
    ensures Weave(base, [a], 0, Nothing) == base[..a.start] + a.lines + base[a.end..]
  {
    hide Weave, Slice;
    assert [a] == [a] + [];
    WeaveCons(base, a, [], 0, Nothing);
    WeaveNone(base, a.end, Emitted(a.start, a.end));
    SliceEnds(base, a.start);
    SliceEnds(base, a.end);
  }

  lemma SpanRendered(base: Lines, r: Range)
    requires r.start < EndOf(r) <= |base|
    ensures Weave(base, Sorted(Kept([r], r.start, EndOf(r)) + [WholeOf(base, r.start, EndOf(r))]), 0, Nothing)
      == base[..r.start] + (if r.replacement != [] then r.replacement else base[r.start..EndOf(r)]) + base[EndOf(r)..]
  {
    hide Weave, Sorted, Kept;
    var whole := WholeOf(base, r.start, EndOf(r));
    KeptOne(r);
    if r.replacement == [] {
      WholeRendered(base, r.start, EndOf(r));
    } else {
      TwoSorted(AsPiece(r), whole);
      FirstOfTwo(base, AsPiece(r), whole);
    }
  }

  lemma WeaveNone(base: Lines, cursor: nat, last: Last)
    ensures Weave(base, [], cursor, last) == Slice(base, cursor, |base|)
  {
  }

  lemma KeptOne(r: Range)
    ensures Kept([r], r.start, EndOf(r)) == if r.replacement == [] then [] else [AsPiece(r)]
  {
    KeptCons(r, [], r.start, EndOf(r));
    assert [r] + [] == [r];
  }

  lemma SliceEnds(base: Lines, n: nat)
    requires n <= |base|
    ensures Slice(base, 0, n) == base[..n] && Slice(base, n, |base|) == base[n..]
  {
  }

  lemma OneSorted(a: Piece)
    ensures Sorted([a]) == [a]
  {
  }

  lemma TwoSorted(a: Piece, b: Piece)
    requires a.start == b.start && a.end == b.end
    ensures Sorted([a] + [b]) == [a] + ([b] + [])
  {
    assert ([a] + [b])[1..] == [b] && Sorted([b]) == [b];
  }

  /** Of two pieces for the same span the first is emitted and the second skipped. */
  lemma FirstOfTwo(base: Lines, a: Piece, b: Piece)
    requires a.start == b.start < a.end == b.end <= |base| && a.lines != []
    ensures Weave(base, [a] + ([b] + []), 0, Nothing) == base[..a.start] + a.lines + base[a.end..]
  {
    hide Weave, Slice;
    WeaveCons(base, a, [b] + [], 0, Nothing);
    WeaveCons(base, b, [], a.end, Emitted(a.start, a.end));
    WeaveNone(base, a.end, Emitted(a.start, a.end));
    SliceEnds(base, a.start);
    SliceEnds(base, a.end);
  }

  lemma OnlyRange(baseLength: nat, ranges: seq<Range>, r: Range, start: nat, end: nat)
    requires Hunks(baseLength, ranges) && r in ranges && Spans(r, start, end) && forall o :: o in ranges ==>
      Inside(o, start, end)
    ensures ranges == [r]
  {
    var k :| 0 <= k < |ranges| && ranges[k] == r;
    if |ranges| > 1 {
      SameIndex(baseLength, ranges, k, 0, start, end);
      SameIndex(baseLength, ranges, k, 1, start, end);
    }
  }

  lemma SameIndex(baseLength: nat, ranges: seq<Range>, k: nat, i: nat, start: nat, end: nat)
    requires Hunks(baseLength, ranges) && k < |ranges| && i < |ranges|
    requires Spans(ranges[k], start, end) && Inside(ranges[i], start, end)
    ensures i == k
  {
  }

  lemma {:induction false} NothingKept(ranges: seq<Range>, start: nat, end: nat)
    requires forall r :: r in ranges ==> Inside(r, start, end) && !Spans(r, start, end)
    ensures Kept(ranges, start, end) == []
  {
    if ranges != [] {
      assert ranges[0] in ranges;
      NothingKept(ranges[1..], start, end);
    }
  }

  /** Around the region the base is trimmed away again. */
  lemma TrimmedAround(base: Lines, middle: Lines, start: nat, end: nat)
    requires start <= end <= |base|
    ensures Trimmed(base, base[..start] + middle + base[end..], start, end) == middle
  {
    var rendered := base[..start] + middle + base[end..];
    HeadIsLongest(rendered, base, start, start);
    assert rendered[start..] == middle + base[end..];
    TailIsLongest(rendered[start..], base, |base| - end, |base| - end);
  }
}
