/** src/conflict/handoff.ts:108-135: what the split does with two additions at one place. */
module Insertions {
  import opened Types
  import opened Text
  import opened Merge
  import opened Handoff

  /** Two additions at one place: head, the ancestor's region with one addition each, and tail. */
  datatype Additions = Additions(head: string, region: string, here: string, there: string, tail: string)
  {
    function Base(): string { head + (region + tail) }
    function Local(): string { head + (region + here + tail) }
    function Remote(): string { head + (region + there + tail) }
    function Hunk(): Hunk { Handoff.Hunk(region + here, region, region + there) }

    /** How far the three texts after the head agree, as far as the tail is long. */
    function Drift(): (k: nat)
      ensures k <= |tail|
    {
      Min(SharedHead(region + here + tail, region + tail, |tail|),
        SharedHead(region + there + tail, region + tail, |tail|))
    }

    /** The text that the split takes into the shared head although it belongs behind it. */
    function Shifted(): string { (region + tail)[..Drift()] }

    predicate Of(input: Input) { input.base == Some(Base()) && input.local == Local() && input.remote == Remote() }
  }

  lemma {:induction false} SharedUpTo(a: string, b: string, limit: nat, k: nat)
    requires limit <= |b| && limit <= |a| && k <= limit
    ensures k <= SharedHead(a, b, limit) <==> a[..k] == b[..k]
  {
    var n := SharedHead(a, b, limit);
    HeadIsLongest(a, b, limit, n);
    if k <= n { assert a[..k] == a[..n][..k] && b[..k] == b[..n][..k]; }
    forall i | 0 <= i < k && a[..k] == b[..k] ensures a[i] == b[i] { assert a[..k][i] == b[..k][i]; }
  }

  lemma HeadOf(head: string, rest: string, k: nat)
    requires k <= |rest|
    ensures Slice(head + rest, 0, |head| + k) == head + rest[..k]
  {
  }

  lemma TailOf(head: string, middle: string, tail: string, k: nat)
    requires k <= |tail|
    ensures Tail(head + (middle + tail), |head| + k + |middle|) == tail[k..]
  {
  }

  lemma SameAfterHead(head: string, x: string, y: string)
    ensures head + x == head + y <==> x == y
  {
    if head + x == head + y { assert x == (head + x)[|head|..] && y == (head + y)[|head|..]; }
  }

  /** Behind the head, the split fits exactly as far as the texts agree. */
  lemma FitsUpToDrift(a: Additions, k: nat)
    requires k <= |a.tail|
    ensures FitsAt(a.Base(), a.Local(), a.Remote(), a.Hunk(), |a.head| + k) <==> k <= a.Drift()
  {
    hide SharedHead, Slice, Tail;
    HeadOf(a.head, a.region + a.tail, k);
    HeadOf(a.head, a.region + a.here + a.tail, k);
    HeadOf(a.head, a.region + a.there + a.tail, k);
    TailOf(a.head, a.region, a.tail, k);
    TailOf(a.head, a.region + a.here, a.tail, k);
    TailOf(a.head, a.region + a.there, a.tail, k);
    SharedUpTo(a.region + a.here + a.tail, a.region + a.tail, |a.tail|, k);
    SharedUpTo(a.region + a.there + a.tail, a.region + a.tail, |a.tail|, k);
    SameAfterHead(a.head, (a.region + a.here + a.tail)[..k], (a.region + a.tail)[..k]);
    SameAfterHead(a.head, (a.region + a.there + a.tail)[..k], (a.region + a.tail)[..k]);
    SameAfterHead(a.head, (a.region + a.there + a.tail)[..k], (a.region + a.here + a.tail)[..k]);
  }

  lemma {:induction false} LongestFitIs(a: Additions, k: nat)
    requires a.Drift() <= k <= |a.tail|
    ensures LongestFit(a.Base(), a.Local(), a.Remote(), a.Hunk(), |a.head| + k) == Some(|a.head| + a.Drift())
    decreases k
  {
    hide FitsAt;
    FitsUpToDrift(a, k);
    if k > a.Drift() { LongestFitIs(a, k - 1); }
  }

  lemma LongestHeadIs(a: Additions)
    ensures var n := LongestHead(a.Base(), a.Local(), a.Remote(), a.Hunk());
      |a.head| + a.Drift() <= n <= |a.head| + |a.tail|
  {
    hide SharedHead, FitsAt;
    var k := a.Drift();
    var b, l, r := a.region + a.tail, a.region + a.here + a.tail, a.region + a.there + a.tail;
    SharedUpTo(l, b, |a.tail|, k);
    SharedUpTo(r, b, |a.tail|, k);
    var limit := Min(|a.Local()|, |a.Remote()|);
    PrefixOf(a.head, l, k);
    PrefixOf(a.head, r, k);
    CommonAtLeast(a.Local(), a.Remote(), |a.head| + k);
  }

  lemma PrefixOf(head: string, rest: string, k: nat)
    requires k <= |rest|
    ensures (head + rest)[..|head| + k] == head + rest[..k]
  {
  }

  lemma CommonAtLeast(left: string, right: string, n: nat)
    requires n <= |left| && n <= |right| && left[..n] == right[..n]
    ensures n <= CommonPrefixLength(left, right)
  {
    var m := CommonPrefixLength(left, right);
    HeadIsLongest(left, right, Min(|left|, |right|), m);
    forall i | 0 <= i < n ensures left[i] == right[i] { assert left[..n][i] == right[..n][i]; }
  }

  /** The split the code finds: it has drifted into the tail as far as the texts agree. */
  lemma SplitDrifts(a: Additions)
    ensures SplitOf(a.Base(), a.Local(), a.Remote(), a.Hunk())
      == Some(RegionSplit(a.head + a.Shifted(), a.tail[a.Drift()..], a.here, a.there))
  {
    hide LongestFit, FitsAt, Slice, Tail, SharedHead;
    var k, n := a.Drift(), LongestHead(a.Base(), a.Local(), a.Remote(), a.Hunk());
    LongestHeadIs(a);
    LongestFitIs(a, n - |a.head|);
    HeadOf(a.head, a.region + a.here + a.tail, k);
    TailOf(a.head, a.region + a.here, a.tail, k);
    SharedUpTo(a.region + a.here + a.tail, a.region + a.tail, |a.tail|, k);
    assert (a.region + a.here)[|a.region|..] == a.here && (a.region + a.there)[|a.region|..] == a.there;
  }

  /**
   * The split stays at the place of the additions exactly if nothing follows it, or the region is empty and
   * the two additions and the following text do not all start with one character.
   */
  lemma StaysIff(a: Additions)
    requires a.here != "" && a.there != ""
    ensures a.Drift() == 0 <==>
      a.tail == "" || (a.region == "" && !(a.here[0] == a.there[0] == a.tail[0]))
  {
    if a.tail != "" {
      var b, l, r := a.region + a.tail, a.region + a.here + a.tail, a.region + a.there + a.tail;
      SharedUpTo(l, b, |a.tail|, 1);
      SharedUpTo(r, b, |a.tail|, 1);
      assert l[..1] == [l[0]] && r[..1] == [r[0]] && b[..1] == [b[0]];
    }
  }

  /** `x` reads the same with `z` before it and with `front` behind it. */
  predicate Slides(x: string, z: string, front: string) { x + front == z + x }

  /** A hunk that starts with the shift matches exactly if it is its own rotation by it. */
  lemma RotationIff(x: string, z: string)
    requires z <= x
    ensures Slides(x, z, z) <==> x == x[|z|..] + x[..|z|]
  {
    assert x == z + x[|z|..] && x[..|z|] == z;
    assert z + x[|z|..] + z == z + (x[|z|..] + z);
    SameAfterHead(z, x[|z|..] + z, x);
  }

  /**
   * The middles, which the code does not compare, match exactly if the side's hunk reads the same with the shifted
   * text before it and the start of the tail behind it.
   */
  lemma MiddleMatchesIff(a: Additions, own: string)
    ensures var split := RegionSplit(a.head + a.Shifted(), a.tail[a.Drift()..], a.here, a.there);
      var hunk := a.region + own;
      a.head + (a.region + own + a.tail) == split.prefix + hunk + split.suffix <==>
        Slides(hunk, a.Shifted(), a.tail[..a.Drift()])
  {
    MiddlesMatchIff(a.head, a.region + own, a.Shifted(), a.tail[..a.Drift()], a.tail[a.Drift()..]);
    assert a.tail == a.tail[..a.Drift()] + a.tail[a.Drift()..];
    assert a.region + own + a.tail == a.region + own + a.tail[..a.Drift()] + a.tail[a.Drift()..];
  }

  lemma MiddlesMatchIff(head: string, x: string, z: string, front: string, rest: string)
    requires |z| == |front|
    ensures head + (x + front + rest) == head + z + x + rest <==> x + front == z + x
  {
    assert head + z + x + rest == head + (z + x) + rest && head + (x + front + rest) == head + (x + front) + rest;
    MiddleDetermined(head, x + front, z + x, rest);
  }

  /** For an insertion the middle matches exactly if the insertion is its own rotation by the shift. */
  lemma InsertionMatchesIff(a: Additions, own: string)
    requires a.region == "" && (own == a.here || own == a.there) && a.Drift() <= |own|
    ensures var k := a.Drift();
      a.head + (own + a.tail) == a.head + a.Shifted() + own + a.tail[k..] <==> own == own[k..] + own[..k]
  {
    hide SharedHead;
    var k := a.Drift();
    assert a.region + own + a.tail == own + a.tail && a.region + a.tail == a.tail;
    SharedUpTo(own + a.tail, a.tail, |a.tail|, k);
    StartOf(own, a.tail, k);
    ShiftedInsertion(a.head, own, a.tail, k);
  }

  lemma StartOf(own: string, tail: string, k: nat)
    requires k <= |own|
    ensures (own + tail)[..k] == own[..k]
  {
  }

  lemma ShiftedInsertion(head: string, own: string, tail: string, k: nat)
    requires k <= |own| && k <= |tail| && own[..k] == tail[..k]
    ensures head + (own + tail) == head + tail[..k] + own + tail[k..] <==> own == own[k..] + own[..k]
  {
    var z, rest := tail[..k], tail[k..];
    assert own + tail == own + z + rest;
    MiddlesMatchIff(head, own, z, z, rest);
    RotationIff(own, z);
  }

  /** The additions in the order the handoff writes them. */
  function Ordered(a: Additions): string {
    var (first, second) := OrderExtras(RegionSplit("", "", a.here, a.there));
    first + second
  }

  /**
   * What a handoff of two additions writes, exactly; it is the ancestor with both additions at their place exactly
   * if what they form together commutes with the shifted text.
   */
  lemma HandoffWrites(normal: NormalForm, input: Input, a: Additions)
    requires a.Of(input) && ClassifyHunk(normal, input, a.Hunk()).verdict == Handoff
    ensures ClassifyHunk(normal, input, a.Hunk()).mergedText
      == Some(a.head + a.Shifted() + a.region + Ordered(a) + a.tail[a.Drift()..])
    ensures ClassifyHunk(normal, input, a.Hunk()).mergedText == Some(a.head + (a.region + Ordered(a) + a.tail)) <==>
      Slides(a.region + Ordered(a), a.Shifted(), a.tail[..a.Drift()])
  {
    hide LongestFit, SharedHead, SplitOf;
    SplitDrifts(a);
    var z, s := a.Shifted(), a.tail[a.Drift()..];
    var (f, g) := OrderExtras(RegionSplit("", "", a.here, a.there));
    assert a.head + z + a.region + f + g + s == a.head + z + a.region + (f + g) + s;
    assert a.head + z + a.region + (f + g) + s == a.head + z + (a.region + (f + g)) + s;
    MiddleMatchesIff(a, f + g);
  }

  /** Both additions survive whenever both middles match, in particular whenever the split stays in place. */
  lemma BothKeptIfMatched(normal: NormalForm, input: Input, a: Additions, text: string)
    requires a.Of(input) && ClassifyHunk(normal, input, a.Hunk()).verdict == Handoff
    requires ClassifyHunk(normal, input, a.Hunk()).mergedText == Some(text)
    requires Slides(a.region + a.here, a.Shifted(), a.tail[..a.Drift()]) || a.Drift() == 0
    requires Slides(a.region + a.there, a.Shifted(), a.tail[..a.Drift()]) || a.Drift() == 0
    ensures Subsequence(input.local, text) && Subsequence(input.remote, text)
  {
    hide SplitOf, Subsequence, ClassifyHunk;
    SplitDrifts(a);
    MiddleMatchesIff(a, a.here);
    MiddleMatchesIff(a, a.there);
    NoShift(a.region + a.here);
    NoShift(a.region + a.there);
    HandoffKeepsBothSides(normal, input, a.Hunk(), SplitIn(input, a.Hunk()).value, text);
  }

  lemma NoShift(x: string)
    ensures Slides(x, "", "")
  {
  }

  /** Only the addition written second is at risk: the first survives a shift no longer than the second. */
  lemma FirstIsKept(head: string, first: string, second: string, tail: string, k: nat)
    requires k <= |tail| && k <= |second| && second[..k] == tail[..k]
    ensures Subsequence(head + (first + tail), head + tail[..k] + first + second + tail[k..])
  {
    hide Subsequence;
    var z, y, s := tail[..k], second[k..], tail[k..];
    KeepsFirst(head, first, z, y, s);
    assert tail == z + s && second == z + y;
    Regroup(head, first, z, y, s);
  }

  lemma Regroup(h: string, x: string, z: string, y: string, s: string)
    ensures h + (x + z + s) == h + (x + (z + s)) && h + (z + (x + z + (y + s))) == h + z + x + (z + y) + s
  {
  }

  lemma KeepsFirst(h: string, x: string, z: string, y: string, s: string)
    ensures Subsequence(h + (x + z + s), h + (z + (x + z + (y + s))))
  {
    hide Subsequence;
    SubsequenceRefl(h);
    SubsequenceRefl(x + z);
    SubsequenceRefl(s);
    SubsequenceSkip(s, y, s);
    SubsequenceAppend(x + z, x + z, s, y + s);
    SubsequenceSkip(x + z + s, z, x + z + (y + s));
    SubsequenceAppend(h, h, x + z + s, z + (x + z + (y + s)));
  }

  // ---- from the line diff to the split ----

  lemma {:induction false} FromLinesConcat(a: Lines, b: Lines)
    ensures FromLines(a + b) == FromLines(a) + FromLines(b)
  {
    if a == [] {
      assert a + b == b;
    } else {
      assert (a + b)[1..] == a[1..] + b;
      FromLinesConcat(a[1..], b);
    }
  }

  function Insertion(point: nat, lines: Lines): seq<Range> { [Range(point, 0, lines)] }

  lemma InsertionPatch(base: Lines, point: nat, lines: Lines)
    requires point <= |base|
    ensures Patch(base, Insertion(point, lines), 0) == base[..point] + lines + base[point..]
  {
    OnePatch(base, Range(point, 0, lines));
  }

  lemma PointRegion(base: Lines, point: nat, here: Lines, there: Lines)
    requires 0 < point <= |base| && here != there
    ensures Hunks(|base|, Insertion(point, here)) && Hunks(|base|, Insertion(point, there))
    ensures Conflicting(Insertion(point, here), Insertion(point, there))
    ensures RegionOf(base, Insertion(point, here), Insertion(point, there)) == Region(point, point, [], here, there)
  {
    hide SideOf, Colliding, LeastStart, GreatestEnd, Conflicting;
    var l, r := Insertion(point, here), Insertion(point, there);
    IsColliding(l, r, l[0], r[0]);
    CollidingHere(l, r, point);
    PointBounds(Colliding(l, r), point, |base|);
    PointShare(base, point, here);
    PointShare(base, point, there);
  }

  lemma CollidingHere(l: seq<Range>, r: seq<Range>, point: nat)
    requires forall x :: x in l || x in r ==> x.start == point && x.length == 0
    ensures forall x :: x in Colliding(l, r) ==> x.start == point && x.length == 0
  {
    hide CollidingAmong;
    forall x | x in l + r ensures x in l || x in r {}
  }

  lemma PointBounds(ranges: seq<Range>, point: nat, limit: nat)
    requires ranges != [] && point <= limit && forall x :: x in ranges ==> x.start == point && x.length == 0
    ensures LeastStart(ranges) == point && GreatestEnd(ranges, limit) == point
  {
    hide LeastStart, GreatestEnd;
    var least, greatest := LeastStart(ranges), GreatestEnd(ranges, limit);
    var a :| a in ranges && a.start == least;
    var b :| b in ranges && Min(limit, EndOf(b)) == greatest;
  }

  lemma PointShare(base: Lines, point: nat, lines: Lines)
    requires 0 < point <= |base|
    ensures SideOf(base, Insertion(point, lines), point, point) == lines
  {
    var r := Insertion(point, lines);
    assert Hunks(|base|, r) && Spans(r[0], point, point);
    NarrowEditsVanish(base, r, point, point);
    assert r[0] in r;
  }

  /** Both devices inserted different lines before line `point` of the ancestor. */
  ghost predicate InsertAt(diff: Diff, input: Input, point: nat, here: Lines, there: Lines) {
    && DiffContract(diff) && input.base.Some? && here != there
    && var b := SplitLines(input.base.value);
    && point <= |b| && diff(b, SplitLines(input.local)) == Insertion(point, here)
    && diff(b, SplitLines(input.remote)) == Insertion(point, there)
  }

  function AdditionsAt(base: string, point: nat, here: Lines, there: Lines): Additions
    requires point <= |SplitLines(base)|
  {
    var b := SplitLines(base);
    Additions(FromLines(b[..point]), "", FromLines(here), FromLines(there), FromLines(b[point..]))
  }

  lemma InsertedText(base: string, side: string, point: nat, lines: Lines)
    requires point <= |SplitLines(base)| && Patch(SplitLines(base), Insertion(point, lines), 0) == SplitLines(side)
    ensures var b := SplitLines(base);
      base == FromLines(b[..point]) + FromLines(b[point..]) &&
      side == FromLines(b[..point]) + (FromLines(lines) + FromLines(b[point..]))
  {
    hide FromLines, SplitLines, Patch;
    var b := SplitLines(base);
    InsertionPatch(b, point, lines);
    LinesRoundTrip(base);
    LinesRoundTrip(side);
    assert b == b[..point] + b[point..];
    FromLinesConcat(b[..point], b[point..]);
    FromLinesConcat(b[..point] + lines, b[point..]);
    FromLinesConcat(b[..point], lines);
  }

  /** Insertions at one point behind the first line are judged as the two additions they are. */
  lemma InsertionsAreJudged(normal: NormalForm, diff: Diff, input: Input, point: nat, here: Lines, there: Lines)
    requires InsertAt(diff, input, point, here, there) && 0 < point && normal(input.local) != normal(input.remote)
    ensures var a := AdditionsAt(input.base.value, point, here, there);
      a.Of(input) && ClassifyWith(normal, diff, input) == ClassifyHunk(normal, input, a.Hunk())
  {
    hide Hunks, Conflicting, RegionOf, Patch, SplitLines, FromLines, ThreeWay, ClassifyHunk, ClassifyWith;
    var b := SplitLines(input.base.value);
    InsertedText(input.base.value, input.local, point, here);
    InsertedText(input.base.value, input.remote, point, there);
    PointRegion(b, point, here, there);
    ConflictHunk(diff, input.base.value, input.local, input.remote);
    JudgedByHunk(normal, diff, input);
    NothingJoined();
    assert "" + FromLines(here) == FromLines(here) && "" + FromLines(there) == FromLines(there);
    assert "" + FromLines(b[point..]) == FromLines(b[point..]);
  }

  /**
   * Two insertions at one point, behind the first line, are both kept in place by a handoff when nothing follows
   * them, or when the two and the following text do not all start with one character.
   */
  lemma InsertionsSurvive(normal: NormalForm, diff: Diff, input: Input, point: nat, here: Lines, there: Lines)
    requires InsertAt(diff, input, point, here, there) && 0 < point && normal(input.local) != normal(input.remote)
    requires ClassifyWith(normal, diff, input).verdict == Handoff
    ensures var a, text := AdditionsAt(input.base.value, point, here, there),
      ClassifyWith(normal, diff, input).mergedText;
      a.here != "" && a.there != "" && (a.tail == "" || !(a.here[0] == a.there[0] == a.tail[0])) ==>
        text == Some(a.head + (Ordered(a) + a.tail)) &&
          Subsequence(input.local, text.value) && Subsequence(input.remote, text.value)
  {
    hide DiffContract, SplitLines, ClassifyHunk, ClassifyWith, Subsequence, SplitOf, Ordered, FromLines;
    var a := AdditionsAt(input.base.value, point, here, there);
    InsertionsAreJudged(normal, diff, input, point, here, there);
    if a.here != "" && a.there != "" && (a.tail == "" || !(a.here[0] == a.there[0] == a.tail[0])) {
      StaysIff(a);
      NoShift(a.region + Ordered(a));
      HandoffWrites(normal, input, a);
      assert a.region + Ordered(a) == Ordered(a);
      BothKeptIfMatched(normal, input, a, ClassifyHunk(normal, input, a.Hunk()).mergedText.value);
    }
  }

  lemma StartShare(base: Lines, lines: Lines)
    ensures SideOf(base, Insertion(0, lines), 0, 0) == []
  {
    hide Weave, Sorted, Kept, PiecesFrom, Trimmed, Interleaved;
    EmptyPiecesDoNotMatter(base, Insertion(0, lines), WholeOf(base, 0, 0)) by { EmptySlice(base, 0); }
    if lines == [] {
      NothingCarried(Insertion(0, lines));
      SortedNone();
    } else {
      OneCarried(Range(0, 0, lines));
      OneSorted(Piece(0, 0, lines));
      assert [Piece(0, 0, lines)] == [Piece(0, 0, lines)] + [];
      WeaveCons(base, Piece(0, 0, lines), [], 0, Nothing);
    }
    WeaveNone(base, 0, Nothing);
    WholeSlice(base);
    TrimmedAround(base, [], 0, 0);
    assert base[..0] + [] + base[0..] == base;
  }

  lemma StartRegion(base: Lines, here: Lines, there: Lines)
    requires here != there
    ensures Hunks(|base|, Insertion(0, here)) && Hunks(|base|, Insertion(0, there))
    ensures Conflicting(Insertion(0, here), Insertion(0, there))
    ensures RegionOf(base, Insertion(0, here), Insertion(0, there)) == Region(0, 0, [], [], [])
  {
    hide SideOf, Colliding, LeastStart, GreatestEnd, Conflicting;
    var l, r := Insertion(0, here), Insertion(0, there);
    IsColliding(l, r, l[0], r[0]);
    CollidingHere(l, r, 0);
    PointBounds(Colliding(l, r), 0, |base|);
    StartShare(base, here);
    StartShare(base, there);
  }

  lemma EmptyHunkIsNoAddition(input: Input)
    requires input.base.Some? && input.local != input.remote
    ensures SplitIn(input, Handoff.Hunk("", "", "")).None?
  {
    var n := LongestHead(input.base.value, input.local, input.remote, Handoff.Hunk("", "", ""));
    EmptyHunkNeverFits(input.base.value, input.local, input.remote, n);
  }

  lemma {:induction false} EmptyHunkNeverFits(base: string, local: string, remote: string, n: nat)
    requires local != remote
    ensures LongestFit(base, local, remote, Handoff.Hunk("", "", ""), n).None?
  {
    hide Slice, Tail;
    HeadAndTail(local, n);
    HeadAndTail(remote, n);
    if n > 0 { EmptyHunkNeverFits(base, local, remote, n - 1); }
  }

  lemma HeadAndTail(s: string, n: nat)
    ensures Slice(s, 0, n) + Tail(s, n) == s
  {
  }

  /** Insertions at the very start both vanish from the hunk, and the decision is left to the user. */
  lemma InsertionsAtTheStart(normal: NormalForm, diff: Diff, input: Input, here: Lines, there: Lines)
    requires InsertAt(diff, input, 0, here, there) && normal(input.local) != normal(input.remote)
    ensures ClassifyWith(normal, diff, input) == ManualBecause(NotAnAddition)
  {
    hide Hunks, Conflicting, RegionOf, SplitLines, FromLines, ThreeWay, ClassifyWith, SplitIn;
    StartRegion(SplitLines(input.base.value), here, there);
    ConflictHunk(diff, input.base.value, input.local, input.remote);
    JudgedByHunk(normal, diff, input);
    NothingJoined();
    EmptyHunkIsNoAddition(input);
  }

  lemma NothingJoined()
    ensures FromLines([]) == ""
  {
  }

  // ---- the smallest case ----

  /** The diff that reports everything between the shared first and the shared last lines as one range. */
  function MiddleDiff(): Diff {
    (base: Lines, side: Lines) => if base == side then [] else [MiddleRange(base, side)]
  }

  function HeadShared(base: Lines, side: Lines): nat { SharedHead(base, side, Min(|base|, |side|)) }

  function TailShared(base: Lines, side: Lines): nat {
    var n := HeadShared(base, side);
    SharedTail(base[n..], side[n..], Min(|base|, |side|) - n)
  }

  function MiddleRange(base: Lines, side: Lines): Range {
    RangeBetween(base, side, HeadShared(base, side), TailShared(base, side))
  }

  function RangeBetween(base: Lines, side: Lines, n: nat, m: nat): Range {
    if n + m <= |base| && n + m <= |side| then Range(n, |base| - n - m, side[n..|side| - m]) else Range(0, |base|, side)
  }

  lemma MiddleMeetsTheContract()
    ensures DiffContract(MiddleDiff())
  {
    forall base: Lines, side: Lines
      ensures Hunks(|base|, MiddleDiff()(base, side)) && Patch(base, MiddleDiff()(base, side), 0) == side
    {
      if base == side { PatchNone(base, 0); } else { MiddlePatch(base, side); }
    }
  }

  lemma MiddlePatch(base: Lines, side: Lines)
    ensures EndOf(MiddleRange(base, side)) <= |base| && Patch(base, [MiddleRange(base, side)], 0) == side
  {
    hide Patch, HeadShared, TailShared, RangeBetween;
    SharedIsEqual(base, side);
    PatchedMiddle(base, side, HeadShared(base, side), TailShared(base, side));
  }

  lemma SharedIsEqual(base: Lines, side: Lines)
    ensures var n, m := HeadShared(base, side), TailShared(base, side);
      n + m <= |base| && n + m <= |side| && base[..n] == side[..n] &&
        base[n..][|base[n..]| - m..] == side[n..][|side[n..]| - m..]
  {
    hide SharedHead, SharedTail;
    var n, m := HeadShared(base, side), TailShared(base, side);
    HeadIsLongest(base, side, Min(|base|, |side|), n);
    TailIsLongest(base[n..], side[n..], Min(|base|, |side|) - n, m);
  }

  lemma PatchedMiddle(base: Lines, side: Lines, n: nat, m: nat)
    requires n + m <= |base| && n + m <= |side| && base[..n] == side[..n]
    requires base[n..][|base[n..]| - m..] == side[n..][|side[n..]| - m..]
    ensures EndOf(RangeBetween(base, side, n, m)) <= |base| && Patch(base, [RangeBetween(base, side, n, m)], 0) == side
  {
    hide Patch;
    Rebuilt(base, side, n, m);
    OnePatch(base, Range(n, |base| - n - m, side[n..|side| - m]));
  }

  lemma Rebuilt(base: Lines, side: Lines, n: nat, m: nat)
    requires n + m <= |base| && n + m <= |side| && base[..n] == side[..n]
    requires base[n..][|base[n..]| - m..] == side[n..][|side[n..]| - m..]
    ensures base[..n] + side[n..|side| - m] + base[|base| - m..] == side
  {
    TailOfTail(base, n, m);
    TailOfTail(side, n, m);
    ThreeParts(side, n, m);
  }

  lemma OnePatch(base: Lines, r: Range)
    requires EndOf(r) <= |base|
    ensures Patch(base, [r], 0) == base[..r.start] + r.replacement + base[EndOf(r)..]
  {
    hide Patch, Slice;
    assert [r] == [r] + [];
    PatchCons(base, r, [], 0);
    PatchNone(base, EndOf(r));
    SliceEnds(base, r.start);
    SliceEnds(base, EndOf(r));
  }

  lemma {:induction false} SubsequenceTail<T>(part: seq<T>, whole: seq<T>)
    requires part != [] && Subsequence(part, whole)
    ensures Subsequence(part[1..], whole)
  {
    if part[0] == whole[0] && Subsequence(part[1..], whole[1..]) {
      SubsequenceSkip(part[1..], [whole[0]], whole[1..]);
      assert [whole[0]] + whole[1..] == whole;
    } else {
      SubsequenceTail(part, whole[1..]);
      SubsequenceSkip(part[1..], [whole[0]], whole[1..]);
      assert [whole[0]] + whole[1..] == whole;
    }
  }

  /** Reading from the left, the first match is as good as any. */
  lemma SubsequenceStep<T>(part: seq<T>, whole: seq<T>)
    requires part != [] && whole != []
    ensures Subsequence(part, whole) <==> Subsequence(if part[0] == whole[0] then part[1..] else part, whole[1..])
  {
    if part[0] == whole[0] && Subsequence(part, whole[1..]) { SubsequenceTail(part, whole[1..]); }
  }

  /** A line put before a different one is reported as that insertion. */
  lemma InsertionIsReported(base: Lines, point: nat, line: string)
    requires point < |base| && base[point] != line
    ensures var side := base[..point] + [line] + base[point..]; MiddleDiff()(base, side) == Insertion(point, [line])
  {
    hide SharedHead, SharedTail;
    var side, rest := base[..point] + [line] + base[point..], [line] + base[point..];
    var m := |base| - point;
    assert side[..point] == base[..point] && side[point] == line && side != base;
    HeadIsLongest(base, side, |base|, point);
    assert side[point..] == rest && rest[1..] == base[point..];
    TailIsLongest(base[point..], side[point..], m, m);
    assert side[point..|side| - m] == [line];
  }

  function Lost(): Input { Input(Some("p\na\n"), "p\nac\na\n", "p\nad\na\n", Some(1.0), Some(1.0), None) }

  /** The lines of a text written out. */
  lemma LostLines()
    ensures SplitLines("p\na\n") == ["p\n", "a\n"]
    ensures SplitLines("p\nac\na\n") == ["p\n", "ac\n", "a\n"] && SplitLines("p\nad\na\n") == ["p\n", "ad\n", "a\n"]
  {
    hide SplitLines, FromLines;
    ThreeJoined("p\n", "ac\n", "a\n");
    ThreeJoined("p\n", "ad\n", "a\n");
    TwoJoined("p\n", "a\n");
    assert "p\n" + "a\n" == "p\na\n" && "p\n" + "ac\n" + "a\n" == "p\nac\na\n" &&
      "p\n" + "ad\n" + "a\n" == "p\nad\na\n";
    LinesOfFromLines(["p\n", "a\n"]);
    LinesOfFromLines(["p\n", "ac\n", "a\n"]);
    LinesOfFromLines(["p\n", "ad\n", "a\n"]);
  }

  lemma TwoJoined(a: string, b: string)
    ensures FromLines([a, b]) == a + b
  {
    assert [a, b][1..] == [b] && [b][1..] == [];
    assert FromLines([b]) == b;
  }

  lemma ThreeJoined(a: string, b: string, c: string)
    ensures FromLines([a, b, c]) == a + b + c
  {
    TwoJoined(b, c);
    assert [a, b, c][1..] == [b, c];
  }

  lemma LostInsertions()
    ensures InsertAt(MiddleDiff(), Lost(), 1, ["ac\n"], ["ad\n"])
  {
    hide SplitLines, MiddleDiff, DiffContract;
    LostLines();
    MiddleMeetsTheContract();
    var base := ["p\n", "a\n"];
    assert base[..1] == ["p\n"] && base[1..] == ["a\n"] && "a\n" != "ac\n" && "a\n" != "ad\n";
    InsertionIsReported(base, 1, "ac\n");
    InsertionIsReported(base, 1, "ad\n");
    assert ["p\n"] + ["ac\n"] + ["a\n"] == ["p\n", "ac\n", "a\n"] &&
      ["p\n"] + ["ad\n"] + ["a\n"] == ["p\n", "ad\n", "a\n"];
    assert "ac\n"[1] != "ad\n"[1];
  }

  lemma LostIsSignificant()
    ensures SignificantText("ac\n") == "ac" && SignificantText("ad\n") == "ad"
    ensures SignificantText("p\nac\na\n") == "p\nac\na" && SignificantText("p\nad\na\n") == "p\nad\na"
  {
    hide SignificantText, JoinWith;
    JoinThree("p", "ac", "a");
    JoinThree("p", "ad", "a");
    JoinOne("ac");
    JoinOne("ad");
    FinalNewlineIsInsignificant(["ac"]);
    FinalNewlineIsInsignificant(["ad"]);
    FinalNewlineIsInsignificant(["p", "ac", "a"]);
    FinalNewlineIsInsignificant(["p", "ad", "a"]);
    assert "ac" + "\n" == "ac\n" && "ad" + "\n" == "ad\n";
    assert "p" + "\n" + "ac" + "\n" + "a" + "\n" == "p\nac\na\n" &&
      "p" + "\n" + "ad" + "\n" + "a" + "\n" == "p\nad\na\n";
    assert "p" + "\n" + "ac" + "\n" + "a" == "p\nac\na" && "p" + "\n" + "ad" + "\n" + "a" == "p\nad\na";
  }

  lemma JoinOne(a: string)
    ensures JoinWith([a], "\n") == a
  {
  }

  /** The additions start like the next line, so the split drifts by that character. */
  lemma LostDrifts()
    ensures var a := Additions("p\n", "", "ac\n", "ad\n", "a\n"); a.Drift() == 1 && a.Shifted() == "a"
  {
    hide SharedHead;
    var a := Additions("p\n", "", "ac\n", "ad\n", "a\n");
    var b, l, r := a.region + a.tail, a.region + a.here + a.tail, a.region + a.there + a.tail;
    assert b == "a\n" && l == "ac\na\n" && r == "ad\na\n";
    SharedUpTo(l, b, 2, 1);
    SharedUpTo(l, b, 2, 2);
    SharedUpTo(r, b, 2, 1);
    assert l[..1] == r[..1] == b[..1] == "a";
    assert l[..2][1] == 'c' && b[..2][1] == '\n';
  }

  lemma LostText()
    ensures var d := ClassifyHunk(SignificantText, Lost(), Handoff.Hunk("ac\n", "", "ad\n"));
      d.verdict == Handoff && d.mergedText == Some("p\naac\nad\n\n")
  {
    hide SignificantText, SplitOf, ClassifySplit;
    var a := Additions("p\n", "", "ac\n", "ad\n", "a\n");
    LostDrifts();
    assert a.Base() == "p\na\n" && a.Local() == "p\nac\na\n" && a.Remote() == "p\nad\na\n";
    SplitDrifts(a);
    assert a.region + a.here == "ac\n" && a.region + a.there == "ad\n" && a.head + a.Shifted() == "p\na";
    LostDecision();
  }

  lemma LostDecision()
    ensures var d := ClassifySplit(SignificantText, Lost(), "", RegionSplit("p\na", "\n", "ac\n", "ad\n"));
      d.verdict == Handoff && d.mergedText == Some("p\naac\nad\n\n")
  {
    hide SignificantText, ByteLength, OrderExtras;
    LostIsSignificant();
    ByteLengthBound("ac\n");
    ByteLengthBound("ad\n");
    LostOrder();
    assert "p\na" + "" + "ac\n" + "ad\n" + "\n" == "p\naac\nad\n\n";
  }

  lemma LostOrder()
    ensures OrderExtras(RegionSplit("p\na", "\n", "ac\n", "ad\n")) == ("ac\n", "ad\n")
  {
    assert "ad\n"[1..] == "d\n" && "ac\n"[1..] == "c\n";
    assert !Less("d\n", "c\n");
  }

  lemma StepAt<T>(part: seq<T>, i: nat, whole: seq<T>, j: nat)
    requires i < |part| && j < |whole|
    ensures Subsequence(part[i..], whole[j..]) <==>
      Subsequence(part[if part[i] == whole[j] then i + 1 else i..], whole[j + 1..])
  {
    SubsequenceStep(part[i..], whole[j..]);
    assert part[i..][1..] == part[i + 1..] && whole[j..][1..] == whole[j + 1..];
  }

  /** In the handoff text no `a` follows `ad` and its newline. */
  lemma RemoteIsNotInside()
    ensures !Subsequence("p\nad\na\n", "p\naac\nad\n\n")
  {
    hide Subsequence;
    var part, whole := "p\nad\na\n", "p\naac\nad\n\n";
    StepAt(part, 0, whole, 0);
    StepAt(part, 1, whole, 1);
    StepAt(part, 2, whole, 2);
    StepAt(part, 3, whole, 3);
    StepAt(part, 3, whole, 4);
    StepAt(part, 3, whole, 5);
    EndIsNotInside(part, whole);
    assert part[0..] == part && whole[0..] == whole;
  }

  lemma EndIsNotInside(part: string, whole: string)
    requires part == "p\nad\na\n" && whole == "p\naac\nad\n\n"
    ensures !Subsequence(part[3..], whole[6..])
  {
    hide Subsequence;
    StepAt(part, 3, whole, 6);
    StepAt(part, 3, whole, 7);
    StepAt(part, 4, whole, 8);
    StepAt(part, 5, whole, 9);
    NotInsideEmpty(part[5..]);
    assert whole[10..] == [];
  }

  lemma NotInsideEmpty<T>(part: seq<T>)
    requires part != []
    ensures !Subsequence(part, [])
  {
  }

  /**
   * The guard is needed. Two devices insert a line before the same line, all three start with one character, and
   * the automatic handoff loses one device's side: the shared line is cut in two around the insertions.
   */
  lemma AdditionIsLost()
    ensures var text := "p\naac\nad\n\n";
      && DiffContract(MiddleDiff())
      && ClassifyDivergence(MiddleDiff(), Lost()).verdict == Handoff
      && ClassifyDivergence(MiddleDiff(), Lost()).mergedText == Some(text) && !Subsequence(Lost().remote, text)
  {
    hide SignificantText, ClassifyHunk, ClassifyWith, InsertAt, Subsequence, DiffContract;
    MiddleMeetsTheContract();
    LostInsertions();
    LostIsSignificant();
    assert "p\nac\na"[3] != "p\nad\na"[3];
    InsertionsAreJudged(SignificantText, MiddleDiff(), Lost(), 1, ["ac\n"], ["ad\n"]);
    LostAdditions();
    LostText();
    RemoteIsNotInside();
  }

  lemma LostAdditions()
    ensures |SplitLines("p\na\n")| >= 1 &&
      AdditionsAt("p\na\n", 1, ["ac\n"], ["ad\n"]).Hunk() == Handoff.Hunk("ac\n", "", "ad\n")
  {
    hide SplitLines;
    LostLines();
    assert FromLines(["ac\n"]) == "ac\n" && FromLines(["ad\n"]) == "ad\n";
  }
}
