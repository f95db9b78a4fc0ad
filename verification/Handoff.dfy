/** src/conflict/handoff.ts and the merge it judges: which divergences are settled without asking anyone. */
module Handoff {
  import opened Types
  import opened Text
  import opened Merge

  type Diff = (Lines, Lines) -> seq<Range>

  /** The contract of the line diff: separated hunks that patch the base into the side. */
  ghost predicate DiffContract(diff: Diff) {
    forall base, side :: Hunks(|base|, diff(base, side)) && Patch(base, diff(base, side), 0) == side
  }

  lemma SomeDiffMeetsTheContract()
    ensures DiffContract((base: Lines, side: Lines) => if base == side then [] else [Range(0, |base|, side)])
  {
    forall base: Lines, side: Lines | base != side
      ensures Patch(base, [Range(0, |base|, side)], 0) == side
    {
      assert [Range(0, |base|, side)][1..] == [];
    }
  }

  datatype Hunk = Hunk(local: string, base: string, remote: string)

  datatype MergeResult = Settled(text: string) | InConflict(hunk: Hunk, draft: string)

  function Draft(base: Lines, region: Region): string
    requires region.start <= region.end <= |base|
  {
    FromLines(base[..region.start]) + "<<<<<<< LOCAL\n" + FromLines(region.local) + "=======\n"
      + FromLines(region.remote)
    + ">>>>>>> REMOTE\n" + FromLines(base[region.end..])
  }

  function ThreeWay(diff: Diff, base: string, local: string, remote: string): MergeResult
    requires DiffContract(diff)
  {
    var b := SplitLines(base);
    var l, r := diff(b, SplitLines(local)), diff(b, SplitLines(remote));
    if !Conflicting(l, r) then Settled(FromLines(MergedLines(b, l, r)))
    else
      var region := RegionOf(b, l, r);
      InConflict(Hunk(FromLines(region.local), FromLines(region.base), FromLines(region.remote)), Draft(b, region))
  }

  method ThreeWayMerge(diff: Diff, base: string, local: string, remote: string) returns (result: MergeResult)
    requires DiffContract(diff)
    ensures result == ThreeWay(diff, base, local, remote)
  {
    var b := ToLines(base);
    var l := ToLines(local);
    var r := ToLines(remote);
    var localRanges, remoteRanges := diff(b, l), diff(b, r);
    if !Conflicting(localRanges, remoteRanges) {
      var localPieces := PiecesOf(|b|, localRanges);
      var remotePieces := PiecesOf(|b|, remoteRanges);
      var lines := Interleave(b, localPieces, remotePieces);
      return Settled(FromLines(lines));
    }
    var region := ConflictRegion(b, localRanges, remoteRanges);
    return InConflict(Hunk(FromLines(region.local), FromLines(region.base), FromLines(region.remote)),
      Draft(b, region));
  }

  /** A file that was read back unchanged merges to the other side, when that side neither deletes nor prepends. */
  lemma UntouchedSideYields(diff: Diff, base: string, local: string)
    requires DiffContract(diff) && diff(SplitLines(base), SplitLines(base)) == []
    requires forall r :: r in diff(SplitLines(base), SplitLines(local)) ==>
      r.replacement != [] && (r.length == 0 ==> r.start > 0)
    ensures ThreeWay(diff, base, local, base) == Settled(local)
  {
    OneSidedEditIsKept(SplitLines(base), diff(SplitLines(base), SplitLines(local)));
    LinesRoundTrip(local);
  }

  // ---- the same for whole files ----

  /** The local file's own shape wins; mixed line endings are nobody's. */
  function PreferredShape(local: Shape, remote: Shape, base: Shape): Shape {
    var eol := if local.eol != Mixed then local.eol else if remote.eol != Mixed then remote.eol
      else if base.eol == Crlf then Crlf else Lf;
    Shape(local.bom, eol, local.trailingNewline)
  }

  datatype FileMerge =
    | Undecodable
    | CleanFile(text: string, shape: Shape, file: string)
    | FileConflict(hunk: Hunk, draft: string, shape: Shape)

  function MergedFiles(diff: Diff, base: string, local: string, remote: string): FileMerge
    requires DiffContract(diff)
  {
    var b, l, r := Decoding(base), Decoding(local), Decoding(remote);
    if b.None? || l.None? || r.None? then Undecodable
    else
      var shape := PreferredShape(l.value.shape, r.value.shape, b.value.shape);
      match ThreeWay(diff, b.value.text, l.value.text, r.value.text)
      case Settled(text) => CleanFile(text, shape, Encoding(text, shape))
      case InConflict(hunk, draft) => FileConflict(hunk, draft, shape)
  }

  /**
   * A file edited here only, without deleting or prepending lines, comes out of a merge character by character,
   * BOM and final newline included, exactly if it does not mix line endings.
   */
  lemma OneSidedFileIsKept(diff: Diff, base: string, local: string)
    requires DiffContract(diff) && Decoding(base).Some? && Decoding(local).Some?
    requires var b, l := SplitLines(Decoding(base).value.text), SplitLines(Decoding(local).value.text);
      diff(b, b) == [] && forall r :: r in diff(b, l) ==> r.replacement != [] && (r.length == 0 ==> r.start > 0)
    ensures var m := MergedFiles(diff, base, local, base);
      m.CleanFile? && m.text == Decoding(local).value.text &&
        (m.file == local <==> Decoding(local).value.shape.eol != Mixed)
  {
    hide ThreeWay, Encoding, Decoding, SplitLines;
    var l, b := Decoding(local).value, Decoding(base).value;
    UntouchedSideYields(diff, b.text, l.text);
    DecodeThenEncode(local);
    if l.shape.eol == Mixed { MixedIsNotRestored(local, PreferredShape(l.shape, b.shape, b.shape)); }
  }

  /** No uniform line ending restores a file that mixes them. */
  lemma MixedIsNotRestored(raw: string, shape: Shape)
    requires Decoding(raw).Some? && Decoding(raw).value.shape.eol == Mixed
    requires shape == Decoding(raw).value.shape.(eol := shape.eol) && shape.eol != Mixed
    ensures Encoding(Decoding(raw).value.text, shape) != raw
  {
    hide ToCrlf, NormalizeToLf, HasPair, HasBare, CountCrlf, CountBareLf, Encoding;
    var text, body := Decoding(raw).value.text, WithoutBom(raw);
    DecodingMeans(raw);
    NormalizeEnds(body);
    EncodingMeans(text, shape);
    FlagHidesNoBare(body);
    assert raw == (if shape.bom then [BOM] else []) + body && [] + body == body;
    if shape.eol == Lf {
      PairsCounted(body);
      PlainEncodingLength(text, shape);
    }
  }

  lemma FlagHidesNoBare(body: string)
    ensures HasBare(body) ==> HasBare([BOM] + body)
  {
    if i: nat :| BareAt(body, i) { assert BareAt([BOM] + body, i + 1); }
  }

  lemma PlainEncodingLength(text: string, shape: Shape)
    requires shape.eol == Lf && shape.trailingNewline == EndsWithNewline(text)
    ensures |Encoding(text, shape)| == |text| + if shape.bom then 1 else 0
  {
  }

  // ---- proving the split ----

  datatype RegionSplit = RegionSplit(prefix: string, suffix: string, localExtra: string, remoteExtra: string)

  function Tail(s: string, from: nat): string { if from <= |s| then s[from..] else "" }

  predicate Extends(longer: string, shorter: string) { shorter <= longer }

  /** The heads and the tails around the region agree; the middles are not looked at. */
  predicate FitsAt(base: string, local: string, remote: string, hunk: Hunk, n: nat) {
    var head := Slice(local, 0, n);
    && Slice(remote, 0, n) == head && Slice(base, 0, n) == head
    && var tail := Tail(local, n + |hunk.local|);
       Tail(remote, n + |hunk.remote|) == tail && Tail(base, n + |hunk.base|) == tail
  }

  /** The greatest length, at most `n`, at which the split fits. */
  function LongestFit(base: string, local: string, remote: string, hunk: Hunk, n: nat): (r: Option<nat>)
    ensures r.Some? ==> r.value <= n && FitsAt(base, local, remote, hunk, r.value)
  {
    if FitsAt(base, local, remote, hunk, n) then Some(n)
    else if n == 0 then None
    else LongestFit(base, local, remote, hunk, n - 1)
  }

  function CommonPrefixLength(left: string, right: string): nat { SharedHead(left, right, Min(|left|, |right|)) }

  function LongestHead(base: string, local: string, remote: string, hunk: Hunk): nat {
    Max(0, Min(CommonPrefixLength(local, remote),
      Min(|local| - |hunk.local|, Min(|remote| - |hunk.remote|, |base| - |hunk.base|))))
  }

  function SplitAt(local: string, hunk: Hunk, n: nat): RegionSplit
    requires |hunk.base| <= |hunk.local| && |hunk.base| <= |hunk.remote|
  {
    RegionSplit(Slice(local, 0, n), Tail(local, n + |hunk.local|), hunk.local[|hunk.base|..],
      hunk.remote[|hunk.base|..])
  }

  function SplitFit(local: string, hunk: Hunk, fit: Option<nat>): Option<RegionSplit>
    requires |hunk.base| <= |hunk.local| && |hunk.base| <= |hunk.remote|
  {
    if fit.None? then None else Some(SplitAt(local, hunk, fit.value))
  }

  function SplitOf(base: string, local: string, remote: string, hunk: Hunk): Option<RegionSplit> {
    if !Extends(hunk.local, hunk.base) || !Extends(hunk.remote, hunk.base) then None
    else SplitFit(local, hunk, LongestFit(base, local, remote, hunk, LongestHead(base, local, remote, hunk)))
  }

  method SearchFit(base: string, local: string, remote: string, hunk: Hunk, longest: nat) returns (fit: Option<nat>)
    ensures fit == LongestFit(base, local, remote, hunk, longest)
  {
    var length: int := longest;
    while length >= 0
      invariant -1 <= length <= longest
      invariant LongestFit(base, local, remote, hunk, longest) == if length < 0 then None
        else LongestFit(base, local, remote, hunk, length)
    {
      if FitsAt(base, local, remote, hunk, length) { return Some(length); }
      length := length - 1;
    }
    return None;
  }

  method SplitRegion(base: string, local: string, remote: string, hunk: Hunk) returns (split: Option<RegionSplit>)
    ensures split == SplitOf(base, local, remote, hunk)
  {
    if !Extends(hunk.local, hunk.base) || !Extends(hunk.remote, hunk.base) { return None; }
    var longest := LongestSharedHead(base, local, remote, hunk);
    var fit := SearchFit(base, local, remote, hunk, longest);
    return SplitFit(local, hunk, fit);
  }

  method LongestSharedHead(base: string, local: string, remote: string, hunk: Hunk) returns (longest: nat)
    ensures longest == LongestHead(base, local, remote, hunk)
  {
    var common := HeadLength(local, remote, Min(|local|, |remote|));
    longest := Max(0, Min(common, Min(|local| - |hunk.local|, Min(|remote| - |hunk.remote|, |base| - |hunk.base|))));
  }

  // ---- the policy ----

  const HANDOFF_MAX_SEPARATION_MS := 30_000.0
  const HANDOFF_MAX_DELTA_BYTES := 2_048

  /** Stamps are `None` when missing or not finite. */
  datatype Input = Input(base: Option<string>, local: string, remote: string, localChangedAt: Option<real>,
    remoteChangedAt: Option<real>, baseSyncedAt: Option<real>)

  datatype Class = Clean | Handoff | Manual

  /** Which rule decided; the source records it as prose. */
  datatype Rule =
    | OnlyFormatting | NoAncestor | DifferentParts | NotAnAddition
    | BothAddedFormatting | RemoteAddedFormatting | LocalAddedFormatting
    | TimesMissing | TooFarApart | TooLarge | SmallAdditions

  datatype Decision = Decision(verdict: Class, rule: Rule, mergedText: Option<string>, deltas: Option<(nat, nat)>,
    separationMs: Option<real>, ageMs: Option<real>)

  datatype Times = Times(separationMs: real, ageMs: Option<real>)

  function UsableTimes(input: Input): Option<Times> {
    if input.localChangedAt.None? || input.remoteChangedAt.None? then None
    else
      var l, r := input.localChangedAt.value, input.remoteChangedAt.value;
      if !(l > 0.0) || !(r > 0.0) then None
      else
        var age := if input.baseSyncedAt.Some? && input.baseSyncedAt.value > 0.0 then
          Some((if l < r then r else l) - input.baseSyncedAt.value) else None;
        Some(Times(if l < r then r - l else l - r, age))
  }

  /** Lexicographic order of the texts themselves. */
  predicate Less(a: string, b: string) {
    b != "" && (a == "" || a[0] < b[0] || (a[0] == b[0] && Less(a[1..], b[1..])))
  }

  function OrderExtras(split: RegionSplit): (string, string) {
    if Less(split.remoteExtra, split.localExtra) then (split.remoteExtra, split.localExtra)
      else (split.localExtra, split.remoteExtra)
  }

  /** The text a difference is judged in; the policy is stated for any such normal form. */
  type NormalForm = string -> string

  function ManualBecause(rule: Rule): Decision { Decision(Manual, rule, None, None, None, None) }

  /** The decision once a conflicting region has been split. A conflict always has exactly one region. */
  function ClassifySplit(normal: NormalForm, input: Input, hunkBase: string, split: RegionSplit): Decision {
    var deltas := (ByteLength(split.localExtra), ByteLength(split.remoteExtra));
    var localAdded, remoteAdded := normal(split.localExtra), normal(split.remoteExtra);
    var keepLocal := split.prefix + hunkBase + split.localExtra + split.suffix;
    var keepRemote := split.prefix + hunkBase + split.remoteExtra + split.suffix;
    if localAdded == "" && remoteAdded == "" then
      Decision(Clean, BothAddedFormatting, Some(keepLocal), Some(deltas), None, None)
    else if remoteAdded == "" then Decision(Clean, RemoteAddedFormatting, Some(keepLocal), Some(deltas), None, None)
    else if localAdded == "" then Decision(Clean, LocalAddedFormatting, Some(keepRemote), Some(deltas), None, None)
    else
      var times := UsableTimes(input);
      if times.None? then ManualBecause(TimesMissing)
      else if times.value.separationMs > HANDOFF_MAX_SEPARATION_MS then ManualBecause(TooFarApart)
      else if deltas.0 + deltas.1 > HANDOFF_MAX_DELTA_BYTES then ManualBecause(TooLarge)
      else
        var ordered := OrderExtras(split);
        Decision(Handoff, SmallAdditions, Some(split.prefix + hunkBase + ordered.0 + ordered.1 + split.suffix),
          Some(deltas), Some(times.value.separationMs), times.value.ageMs)
  }

  /** The decision for a conflicting region. */
  function ClassifyHunk(normal: NormalForm, input: Input, hunk: Hunk): Decision {
    var split := SplitIn(input, hunk);
    if split.None? then ManualBecause(NotAnAddition) else ClassifySplit(normal, input, hunk.base, split.value)
  }

  function SplitIn(input: Input, hunk: Hunk): Option<RegionSplit> {
    if input.base.None? then None else SplitOf(input.base.value, input.local, input.remote, hunk)
  }

  function ClassifyMerge(normal: NormalForm, input: Input, merge: MergeResult): Decision {
    match merge
    case Settled(text) => Decision(Clean, DifferentParts, Some(text), None, None, None)
    case InConflict(hunk, _) => ClassifyHunk(normal, input, hunk)
  }

  function ClassifyWith(normal: NormalForm, diff: Diff, input: Input): Decision
    requires DiffContract(diff)
  {
    if normal(input.local) == normal(input.remote) then
      Decision(Clean, OnlyFormatting, Some(input.local), Some((0, 0)), None, None)
    else if input.base.None? then ManualBecause(NoAncestor)
    else ClassifyMerge(normal, input, ThreeWay(diff, input.base.value, input.local, input.remote))
  }

  /** The policy as shipped: differences are judged in their significant text. */
  function ClassifyDivergence(diff: Diff, input: Input): Decision
    requires DiffContract(diff)
  {
    ClassifyWith(SignificantText, diff, input)
  }

  // ---- observer independence ----

  /** The same divergence as the other device sees it: the roles exchanged. */
  function Swapped(input: Input): Input {
    Input(input.base, input.remote, input.local, input.remoteChangedAt, input.localChangedAt, input.baseSyncedAt)
  }

  function SwapHunk(hunk: Hunk): Hunk { Hunk(hunk.remote, hunk.base, hunk.local) }

  function SwapSplit(split: RegionSplit): RegionSplit {
    RegionSplit(split.prefix, split.suffix, split.remoteExtra, split.localExtra)
  }

  lemma MergeSwap(diff: Diff, base: string, local: string, remote: string)
    requires DiffContract(diff)
    ensures MirrorMerges(ThreeWay(diff, base, local, remote), ThreeWay(diff, base, remote, local))
  {
    var b := SplitLines(base);
    var l, r := diff(b, SplitLines(local)), diff(b, SplitLines(remote));
    ConflictingIsSymmetric(l, r);
    if Conflicting(l, r) { RegionSwap(b, l, r); } else { MergedLinesSwap(b, l, r); }
  }

  lemma FitsSwap(base: string, local: string, remote: string, hunk: Hunk, n: nat)
    ensures FitsAt(base, remote, local, SwapHunk(hunk), n) == FitsAt(base, local, remote, hunk, n)
  {
    hide Slice, Tail;
  }

  lemma {:induction false} FitSwap(base: string, local: string, remote: string, hunk: Hunk, n: nat)
    ensures LongestFit(base, remote, local, SwapHunk(hunk), n) == LongestFit(base, local, remote, hunk, n)
  {
    hide FitsAt, SwapHunk;
    FitsSwap(base, local, remote, hunk, n);
    if n > 0 { FitSwap(base, local, remote, hunk, n - 1); }
  }

  lemma HeadSwap(left: string, right: string)
    ensures CommonPrefixLength(left, right) == CommonPrefixLength(right, left)
  {
    var n := CommonPrefixLength(left, right);
    HeadIsLongest(left, right, Min(|left|, |right|), n);
    HeadIsLongest(right, left, Min(|left|, |right|), n);
  }

  lemma SplitSwap(base: string, local: string, remote: string, hunk: Hunk)
    ensures SplitOf(base, remote, local, SwapHunk(hunk)) == MapSwap(SplitOf(base, local, remote, hunk))
  {
    var n := LongestHead(base, local, remote, hunk);
    HeadSwap(local, remote);
    assert LongestHead(base, remote, local, SwapHunk(hunk)) == n;
    FitSwap(base, local, remote, hunk, n);
    var fit := LongestFit(base, local, remote, hunk, n);
    if Extends(hunk.local, hunk.base) && Extends(hunk.remote, hunk.base) && fit.Some? {
      assert FitsAt(base, local, remote, hunk, fit.value);
      assert SplitAt(remote, SwapHunk(hunk), fit.value) == SwapSplit(SplitAt(local, hunk, fit.value));
    }
  }

  function MapSwap(split: Option<RegionSplit>): Option<RegionSplit> {
    if split.None? then None else Some(SwapSplit(split.value))
  }

  lemma {:induction false} LessIsTotal(a: string, b: string)
    ensures !(Less(a, b) && Less(b, a))
    ensures !Less(a, b) && !Less(b, a) ==> a == b
  {
    if a != "" && b != "" && a[0] == b[0] {
      LessIsTotal(a[1..], b[1..]);
      assert a == [a[0]] + a[1..] && b == [b[0]] + b[1..];
    }
  }

  lemma OrderSwap(split: RegionSplit)
    ensures var a, b := OrderExtras(split), OrderExtras(SwapSplit(split)); a.0 + a.1 == b.0 + b.1
  {
    LessIsTotal(split.localExtra, split.remoteExtra);
  }

  /** `p + x + s` determines `x`. */
  lemma MiddleDetermined(p: string, x: string, y: string, s: string)
    ensures p + x + s == p + y + s <==> x == y
  {
    if p + x + s == p + y + s {
      assert |x| == |y|;
      assert x == (p + x + s)[|p|..|p| + |x|] && y == (p + y + s)[|p|..|p| + |y|];
    }
  }

  lemma ClassifySplitSwap(normal: NormalForm, input: Input, hunkBase: string, split: RegionSplit)
    ensures var d, e := ClassifySplit(normal, input, hunkBase, split),
      ClassifySplit(normal, Swapped(input), hunkBase, SwapSplit(split));
      && d.verdict == e.verdict && d.separationMs == e.separationMs && d.ageMs == e.ageMs
      && d.rule != OnlyFormatting && e.rule != OnlyFormatting
      && (d.rule == BothAddedFormatting <==> e.rule == BothAddedFormatting)
      && (d.rule == BothAddedFormatting ==> (d.mergedText == e.mergedText <==> split.localExtra == split.remoteExtra))
      && (d.rule != BothAddedFormatting ==> d.mergedText == e.mergedText)
  {
    OrderSwap(split);
    var ordered, swapped := OrderExtras(split), OrderExtras(SwapSplit(split));
    var p, s := split.prefix + hunkBase, split.suffix;
    assert p + ordered.0 + ordered.1 + s == p + (ordered.0 + ordered.1) + s;
    assert p + swapped.0 + swapped.1 + s == p + (swapped.0 + swapped.1) + s;
    MiddleDetermined(p, split.localExtra, split.remoteExtra, s);
  }

  /** Each device kept its own extra, so the two texts agree exactly when the extras do. */
  ghost predicate KeepsLocalExtra(input: Input, hunk: Hunk, d: Decision, e: Decision) {
    && SplitIn(input, hunk).Some?
    && (d.mergedText == e.mergedText <==>
      SplitIn(input, hunk).value.localExtra == SplitIn(input, hunk).value.remoteExtra)
  }

  /** The same, for the hunk of the merge that was judged. */
  ghost predicate KeepsMergesExtra(input: Input, merge: MergeResult, d: Decision, e: Decision) {
    merge.InConflict? && KeepsLocalExtra(input, merge.hunk, d, e)
  }

  lemma SplitInSwap(input: Input, hunk: Hunk)
    ensures SplitIn(Swapped(input), SwapHunk(hunk)) == MapSwap(SplitIn(input, hunk))
  {
    if input.base.Some? { SplitSwap(input.base.value, input.local, input.remote, hunk); }
  }

  lemma ClassifyHunkSwap(normal: NormalForm, input: Input, hunk: Hunk)
    ensures var d, e := ClassifyHunk(normal, input, hunk), ClassifyHunk(normal, Swapped(input), SwapHunk(hunk));
      && d.verdict == e.verdict && (d.rule == BothAddedFormatting <==> e.rule == BothAddedFormatting)
      && d.rule != OnlyFormatting && e.rule != OnlyFormatting
      && (d.rule != BothAddedFormatting ==> d.mergedText == e.mergedText)
      && (d.rule == BothAddedFormatting ==> KeepsLocalExtra(input, hunk, d, e))
  {
    SplitInSwap(input, hunk);
    var split := SplitIn(input, hunk);
    if split.Some? { ClassifySplitSwap(normal, input, hunk.base, split.value); }
  }

  /** The two merges are one merge seen from the two devices. */
  ghost predicate MirrorMerges(m: MergeResult, n: MergeResult) {
    match m
    case Settled(text) => n == Settled(text)
    case InConflict(hunk, _) => n.InConflict? && n.hunk == SwapHunk(hunk)
  }

  lemma ClassifyMergeSwap(normal: NormalForm, input: Input, m: MergeResult, n: MergeResult)
    requires MirrorMerges(m, n)
    ensures var d, e := ClassifyMerge(normal, input, m), ClassifyMerge(normal, Swapped(input), n);
      && d.verdict == e.verdict && (d.rule == BothAddedFormatting <==> e.rule == BothAddedFormatting)
      && d.rule != OnlyFormatting && e.rule != OnlyFormatting
      && (d.rule != BothAddedFormatting ==> d.mergedText == e.mergedText)
      && (d.rule == BothAddedFormatting ==> m.InConflict? && KeepsLocalExtra(input, m.hunk, d, e))
  {
    if m.InConflict? { ClassifyHunkSwap(normal, input, m.hunk); }
  }

  /**
   * Both devices reach the same class and the same text. The two rules that keep "the local copy" of a
   * formatting-only difference are the only exceptions, and there the texts agree exactly when the two
   * copies, or the two added extras, do.
   */
  lemma ObserverIndependence(normal: NormalForm, diff: Diff, input: Input)
    requires DiffContract(diff)
    ensures var d, e := ClassifyWith(normal, diff, input), ClassifyWith(normal, diff, Swapped(input));
      && d.verdict == e.verdict
      && (d.rule == OnlyFormatting <==> e.rule == OnlyFormatting) &&
        (d.rule == BothAddedFormatting <==> e.rule == BothAddedFormatting)
      && (d.rule != OnlyFormatting && d.rule != BothAddedFormatting ==> d.mergedText == e.mergedText)
      && (d.rule == OnlyFormatting ==> (d.mergedText == e.mergedText <==> input.local == input.remote))
      && (d.rule == BothAddedFormatting ==>
        input.base.Some? && KeepsMergesExtra(input, ThreeWay(diff, input.base.value, input.local, input.remote), d, e))
  {
    if normal(input.local) != normal(input.remote) && input.base.Some? {
      MergeSwap(diff, input.base.value, input.local, input.remote);
      ClassifyMergeSwap(normal, input, ThreeWay(diff, input.base.value, input.local, input.remote),
        ThreeWay(diff, input.base.value, input.remote, input.local));
    }
  }

  lemma SplitIgnoresStamps(normal: NormalForm, here: Input, there: Input, hunkBase: string, split: RegionSplit)
    requires ClassifySplit(normal, here, hunkBase, split).verdict == Handoff &&
      ClassifySplit(normal, there, hunkBase, split).verdict == Handoff
    ensures ClassifySplit(normal, here, hunkBase, split).mergedText
      == ClassifySplit(normal, there, hunkBase, split).mergedText
  {}

  lemma MergeIgnoresStamps(normal: NormalForm, here: Input, there: Input, merge: MergeResult)
    requires here.base == there.base && here.local == there.local && here.remote == there.remote
    requires ClassifyMerge(normal, here, merge).verdict == Handoff &&
      ClassifyMerge(normal, there, merge).verdict == Handoff
    ensures ClassifyMerge(normal, here, merge).mergedText == ClassifyMerge(normal, there, merge).mergedText
  {
    var split := SplitIn(here, merge.hunk);
    assert SplitIn(there, merge.hunk) == split;
    SplitIgnoresStamps(normal, here, there, merge.hunk.base, split.value);
  }

  lemma SplitMeansSmallAdditions(normal: NormalForm, input: Input, hunkBase: string, split: RegionSplit)
    ensures ClassifySplit(normal, input, hunkBase, split).verdict == Handoff <==>
      ClassifySplit(normal, input, hunkBase, split).rule == SmallAdditions
  {}

  lemma HandoffMeansSmallAdditions(normal: NormalForm, input: Input, merge: MergeResult)
    requires ClassifyMerge(normal, input, merge).verdict == Handoff
    ensures ClassifyMerge(normal, input, merge).rule == SmallAdditions
  {
    var split := SplitIn(input, merge.hunk);
    SplitMeansSmallAdditions(normal, input, merge.hunk.base, split.value);
  }

  lemma HandoffIsMerged(normal: NormalForm, diff: Diff, input: Input)
    requires DiffContract(diff) && ClassifyWith(normal, diff, input).verdict == Handoff
    ensures input.base.Some? &&
      ClassifyWith(normal, diff, input)
      == ClassifyMerge(normal, input, ThreeWay(diff, input.base.value, input.local, input.remote))
    ensures ClassifyWith(normal, diff, input).rule == SmallAdditions
  {
    HandoffMeansSmallAdditions(normal, input, ThreeWay(diff, input.base.value, input.local, input.remote));
  }

  /** Two devices that both settle one handoff write the same text, whatever stamps each of them saw. */
  lemma HandoffTextIgnoresStamps(normal: NormalForm, diff: Diff, here: Input, there: Input)
    requires DiffContract(diff)
    requires here.base == there.base && here.local == there.remote && here.remote == there.local
    requires ClassifyWith(normal, diff, here).verdict == Handoff && ClassifyWith(normal, diff, there).verdict == Handoff
    ensures ClassifyWith(normal, diff, here).mergedText == ClassifyWith(normal, diff, there).mergedText
  {
    HandoffIsMerged(normal, diff, here);
    HandoffIsMerged(normal, diff, there);
    ObserverIndependence(normal, diff, here);
    HandoffIsMerged(normal, diff, Swapped(here));
    MergeIgnoresStamps(normal, Swapped(here), there, ThreeWay(diff, there.base.value, there.local, there.remote));
  }

  // ---- nothing is lost ----

  /** `part` can be read inside `whole` from left to right. */
  predicate Subsequence<T(==)>(part: seq<T>, whole: seq<T>) {
    if part == [] then true
    else if whole == [] then false
    else (part[0] == whole[0] && Subsequence(part[1..], whole[1..])) || Subsequence(part, whole[1..])
  }

  lemma {:induction false} SubsequenceRefl<T>(s: seq<T>)
    ensures Subsequence(s, s)
  {
    if s != [] { SubsequenceRefl(s[1..]); }
  }

  lemma {:induction false} SubsequenceSkip<T>(part: seq<T>, extra: seq<T>, whole: seq<T>)
    requires Subsequence(part, whole)
    ensures Subsequence(part, extra + whole)
  {
    if extra == [] {
      assert extra + whole == whole;
    } else {
      SubsequenceSkip(part, extra[1..], whole);
      assert (extra + whole)[1..] == extra[1..] + whole;
    }
  }

  lemma {:induction false} SubsequenceAppend<T>(a: seq<T>, b: seq<T>, c: seq<T>, d: seq<T>)
    requires Subsequence(a, b) && Subsequence(c, d)
    ensures Subsequence(a + c, b + d)
  {
    if a == [] {
      assert a + c == c;
      SubsequenceSkip(c, b, d);
    } else {
      assert (b + d)[1..] == b[1..] + d && (a + c)[1..] == a[1..] + c;
      if a[0] == b[0] && Subsequence(a[1..], b[1..]) {
        SubsequenceAppend(a[1..], b[1..], c, d);
      } else {
        SubsequenceAppend(a, b[1..], c, d);
      }
    }
  }

  /** Either middle can be left out. */
  lemma TwoMiddles<T>(p: seq<T>, x: seq<T>, y: seq<T>, s: seq<T>)
    ensures Subsequence(p + x + s, p + x + y + s) && Subsequence(p + y + s, p + x + y + s)
  {
    SubsequenceRefl(p);
    SubsequenceRefl(p + x);
    SubsequenceRefl(s);
    SubsequenceRefl(y);
    SubsequenceSkip(s, y, s);
    SubsequenceAppend(p + x, p + x, s, y + s);
    assert p + x + (y + s) == p + x + y + s;
    SubsequenceSkip(y, x, y);
    SubsequenceAppend(p, p, y, x + y);
    SubsequenceAppend(p + y, p + (x + y), s, s);
    assert p + (x + y) + s == p + x + y + s;
  }

  /**
   * A handoff keeps both additions: when each side really is head, own region and tail, both sides can be
   * read inside the text, and the text is exactly as long as the ancestor's region with both extras in it.
   */
  lemma BothAdditionsSurvive(normal: NormalForm, input: Input, hunkBase: string, split: RegionSplit)
    requires ClassifySplit(normal, input, hunkBase, split).verdict == Handoff
    requires input.local == split.prefix + hunkBase + split.localExtra + split.suffix
    requires input.remote == split.prefix + hunkBase + split.remoteExtra + split.suffix
    ensures var text := ClassifySplit(normal, input, hunkBase, split).mergedText.value;
      && Subsequence(input.local, text) && Subsequence(input.remote, text)
      && |text| == |split.prefix| + |hunkBase| + |split.localExtra| + |split.remoteExtra| + |split.suffix|
  {
    var (a, b) := OrderExtras(split);
    TwoMiddles(split.prefix + hunkBase, a, b, split.suffix);
  }

  /** The extras of a split are what each hunk has beyond the ancestor's own region. */
  lemma ExtrasExtend(input: Input, hunk: Hunk)
    requires SplitIn(input, hunk).Some?
    ensures hunk.local == hunk.base + SplitIn(input, hunk).value.localExtra &&
      hunk.remote == hunk.base + SplitIn(input, hunk).value.remoteExtra
  {}

  /** The same for a decision on a hunk; the guard is the comparison of the middles that the code leaves out. */
  lemma HandoffKeepsBothSides(normal: NormalForm, input: Input, hunk: Hunk, split: RegionSplit, text: string)
    requires SplitIn(input, hunk) == Some(split) && ClassifyHunk(normal, input, hunk).verdict == Handoff
    requires ClassifyHunk(normal, input, hunk).mergedText == Some(text)
    requires input.local == split.prefix + hunk.local + split.suffix &&
      input.remote == split.prefix + hunk.remote + split.suffix
    ensures Subsequence(input.local, text) && Subsequence(input.remote, text)
  {
    ExtrasExtend(input, hunk);
    Reassociate(split.prefix, hunk.base, split.localExtra, split.suffix);
    Reassociate(split.prefix, hunk.base, split.remoteExtra, split.suffix);
    BothAdditionsSurvive(normal, input, hunk.base, split);
  }

  lemma Reassociate(p: string, b: string, x: string, s: string)
    ensures p + (b + x) + s == p + b + x + s
  {}

  // ---- when the ancestor comes back as the result ----

  lemma FitBounds(base: string, local: string, remote: string, hunk: Hunk, split: RegionSplit)
    requires SplitOf(base, local, remote, hunk) == Some(split)
    ensures |split.prefix| + |hunk.base| + |split.suffix| >= |base|
  {
    var n := LongestFit(base, local, remote, hunk, LongestHead(base, local, remote, hunk)).value;
    assert FitsAt(base, local, remote, hunk, n);
  }

  /**
   * A conflict is settled with the ancestor as its clean text exactly when the split finds it around the
   * ancestor's region, this side shows that region unchanged, and the other side's addition is formatting.
   */
  lemma AncestorCleanIff(normal: NormalForm, input: Input, hunk: Hunk)
    requires input.base.Some? && normal("") == ""
    ensures var d, split := ClassifyHunk(normal, input, hunk), SplitIn(input, hunk);
      (d.verdict == Clean && d.mergedText == input.base) <==>
        && split.Some? && hunk.local == hunk.base && normal(split.value.remoteExtra) == ""
        && input.base.value == split.value.prefix + hunk.base + split.value.suffix
  {
    hide SplitOf, ClassifySplit;
    var split := SplitIn(input, hunk);
    if split.Some? {
      ExtrasExtend(input, hunk);
      FitBounds(input.base.value, input.local, input.remote, hunk, split.value);
      AncestorSplitIff(normal, input, hunk.base, split.value);
      assert hunk.local == hunk.base <==>
        split.value.localExtra == "" by { AppendsNothing(hunk.base, split.value.localExtra); }
    }
  }

  lemma AppendsNothing(a: string, b: string)
    ensures a + b == a <==> b == ""
  {
  }

  lemma AncestorSplitIff(normal: NormalForm, input: Input, hunkBase: string, split: RegionSplit)
    requires input.base.Some? && normal("") == ""
    requires |split.prefix| + |hunkBase| + |split.suffix| >= |input.base.value|
    ensures var d := ClassifySplit(normal, input, hunkBase, split);
      (d.verdict == Clean && d.mergedText == input.base) <==>
        split.localExtra == "" && normal(split.remoteExtra) == "" &&
          input.base.value == split.prefix + hunkBase + split.suffix
  {
    LongerThan(split.prefix + hunkBase, split.localExtra, split.suffix, input.base.value);
    LongerThan(split.prefix + hunkBase, split.remoteExtra, split.suffix, input.base.value);
  }

  /** With an addition the text is longer than the ancestor, and without one it is head, region and tail. */
  lemma LongerThan(a: string, extra: string, b: string, text: string)
    requires |a| + |b| >= |text|
    ensures a + extra + b == text <==> extra == "" && a + b == text
  {
    if extra == "" { assert a + extra + b == a + b; }
    assert |a + extra + b| == |a| + |extra| + |b|;
  }

  /** The two sides' colliding edits together reach from the first line of the ancestor to its last. */
  ghost predicate SpansAll(base: Lines, local: seq<Range>, remote: seq<Range>) {
    && Hunks(|base|, local) && Hunks(|base|, remote) && Conflicting(local, remote) && Colliding(local, remote) != [] &&
      base != []
    && LeastStart(Colliding(local, remote)) == 0 && GreatestEnd(Colliding(local, remote), |base|) == |base|
  }

  /** One range replaces the whole ancestor by lines. */
  ghost predicate Rewrites(base: Lines, ranges: seq<Range>) {
    exists r :: r in ranges && Spans(r, 0, |base|) && r.replacement != []
  }

  /** A side's hunk is then its own text if it rewrote the ancestor in one range, and the ancestor otherwise. */
  lemma WholeShare(base: Lines, ranges: seq<Range>, side: string)
    requires Hunks(|base|, ranges) && base != [] && Patch(base, ranges, 0) == SplitLines(side)
    ensures FromLines(SideOf(base, ranges, 0, |base|)) == if Rewrites(base, ranges) then side else FromLines(base)
  {
    hide Hunks, Patch, SideOf, FromLines, SplitLines;
    InsideWhole(|base|, ranges);
    NarrowEditsVanish(base, ranges, 0, |base|);
    assert base[0..|base|] == base;
    LinesRoundTrip(side);
    if r :| r in ranges && Spans(r, 0, |base|) && r.replacement != [] { WholePatch(base, r); }
  }

  lemma InsideWhole(baseLength: nat, ranges: seq<Range>)
    requires Hunks(baseLength, ranges)
    ensures forall r :: r in ranges ==> Inside(r, 0, baseLength)
  {
  }

  lemma WholePatch(base: Lines, r: Range)
    requires Spans(r, 0, |base|)
    ensures Patch(base, [r], 0) == r.replacement
  {
    assert [r][1..] == [];
  }

  lemma RegionIsBase(base: Lines, local: seq<Range>, remote: seq<Range>)
    requires SpansAll(base, local, remote)
    ensures RegionOf(base, local, remote)
      == Region(0, |base|, base, SideOf(base, local, 0, |base|), SideOf(base, remote, 0, |base|))
  {
    assert base[0..|base|] == base;
  }

  /** Around a hunk that holds the whole ancestor there is no head, and no tail may be left. */
  lemma WholeSplit(input: Input, text: string, local: string, remote: string)
    requires input.base == Some(text)
    ensures var split := SplitIn(input, Hunk(local, text, remote));
      && (split.Some? <==> text <= local && text <= remote && |input.local| <= |local| && |input.remote| <= |remote|)
      && (split.Some? ==> split.value == RegionSplit("", "", local[|text|..], remote[|text|..]))
  {
    var hunk := Hunk(local, text, remote);
    assert LongestHead(text, input.local, input.remote, hunk) == 0;
    assert FitsAt(text, input.local, input.remote, hunk, 0) <==>
      Tail(input.local, |local|) == Tail(input.remote, |remote|) == "";
    assert Slice(input.local, 0, 0) == "";
    assert Tail(input.local, |local|) == "" <==> |input.local| <= |local|;
    assert Tail(input.remote, |remote|) == "" <==> |input.remote| <= |remote|;
  }

  /**
   * When the edits of two devices collide over the whole text, the policy calls the ancestor itself the clean
   * result exactly when this side did not rewrite it in one range and did not outgrow it, and the other side
   * either did neither, or rewrote it by adding formatting at its end. In the first case both devices' edits
   * are gone.
   */
  lemma AncestorReturnedIff(normal: NormalForm, diff: Diff, input: Input, base: Lines, local: seq<Range>,
      remote: seq<Range>)
    requires DiffContract(diff) && input.base.Some? && base == SplitLines(input.base.value)
    requires local == diff(base, SplitLines(input.local)) && remote == diff(base, SplitLines(input.remote))
    requires SpansAll(base, local, remote) && normal(input.local) != normal(input.remote) && normal("") == ""
    ensures var d, text := ClassifyWith(normal, diff, input), input.base.value;
      (d.verdict == Clean && d.mergedText == input.base) <==>
        && (Rewrites(base, local) ==> input.local == text) && |input.local| <= |text|
        && if Rewrites(base, remote) then text <= input.remote && normal(input.remote[|text|..]) == ""
          else |input.remote| <= |text|
  {
    hide DiffContract, SpansAll, Rewrites, ThreeWay, ClassifyWith, ClassifyHunk, SplitIn;
    var text := input.base.value;
    var l := if Rewrites(base, local) then input.local else text;
    var r := if Rewrites(base, remote) then input.remote else text;
    WholeHunk(diff, input, base, local, remote);
    JudgedByHunk(normal, diff, input);
    WholeSplit(input, text, l, r);
    AncestorCleanIff(normal, input, Hunk(l, text, r));
    assert "" + text + "" == text && text[|text|..] == "";
    assert text <= l && l[|text|..] == "" ==> l == text;
  }

  lemma WholeHunk(diff: Diff, input: Input, base: Lines, local: seq<Range>, remote: seq<Range>)
    requires DiffContract(diff) && input.base.Some? && base == SplitLines(input.base.value) &&
      SpansAll(base, local, remote)
    requires local == diff(base, SplitLines(input.local)) && remote == diff(base, SplitLines(input.remote))
    ensures var text := input.base.value;
      var l := if Rewrites(base, local) then input.local else text;
      var r := if Rewrites(base, remote) then input.remote else text;
      var merge := ThreeWay(diff, text, input.local, input.remote); merge.InConflict? && merge.hunk == Hunk(l, text, r)
  {
    hide Hunks, Rewrites, ThreeWay, RegionOf, SideOf, Conflicting, Colliding;
    var text := input.base.value;
    RegionIsBase(base, local, remote);
    WholeShare(base, local, input.local);
    WholeShare(base, remote, input.remote);
    LinesRoundTrip(text);
    ConflictHunk(diff, text, input.local, input.remote);
  }

  lemma ConflictHunk(diff: Diff, base: string, local: string, remote: string)
    requires DiffContract(diff)
    ensures var b := SplitLines(base); var l, r := diff(b, SplitLines(local)), diff(b, SplitLines(remote));
      Conflicting(l, r) ==>
        var region := RegionOf(b, l, r);
        ThreeWay(diff, base, local, remote)
          == InConflict(Hunk(FromLines(region.local), FromLines(region.base), FromLines(region.remote)),
          Draft(b, region))
  {}

  lemma JudgedByHunk(normal: NormalForm, diff: Diff, input: Input)
    requires DiffContract(diff) && input.base.Some? && normal(input.local) != normal(input.remote)
    ensures var m := ThreeWay(diff, input.base.value, input.local, input.remote);
      m.InConflict? ==> ClassifyWith(normal, diff, input) == ClassifyHunk(normal, input, m.hunk)
  {}

  /** The side differs from the base in its first and its last line, and nowhere else. */
  predicate EditsBothEnds(base: Lines, side: Lines) {
    var last := |base| - 1;
    |side| == |base| > 2 && side[1..last] == base[1..last] && side[0] != base[0] && side[last] != base[last]
  }

  function EndEdits(base: Lines, side: Lines): seq<Range>
    requires EditsBothEnds(base, side)
  {
    [Range(0, 1, [side[0]]), Range(|base| - 1, 1, [side[|base| - 1]])]
  }

  /** A diff that reports two such edits as what they are. */
  function EndwiseDiff(): Diff {
    (base: Lines, side: Lines) =>
      if EditsBothEnds(base, side) then EndEdits(base, side) else if base == side then [] else [Range(0, |base|, side)]
  }

  lemma EndEditsPatch(base: Lines, side: Lines)
    requires EditsBothEnds(base, side)
    ensures Hunks(|base|, EndEdits(base, side)) && Patch(base, EndEdits(base, side), 0) == side
    ensures !Rewrites(base, EndEdits(base, side))
  {
    hide Patch, Hunks;
    PatchedEnds(base, side[0], side[|base| - 1]);
    EndEditsApart(|base|, Range(0, 1, [side[0]]), Range(|base| - 1, 1, [side[|base| - 1]]));
    BetweenTheEnds(side);
  }

  lemma EndEditsApart(baseLength: nat, front: Range, back: Range)
    requires front.start == 0 && front.length == 1 && EndOf(back) == baseLength > 2 && back.length == 1
    ensures Hunks(baseLength, [front, back])
  {
  }

  lemma BetweenTheEnds(side: Lines)
    requires |side| > 2
    ensures side == [side[0]] + side[1..|side| - 1] + [side[|side| - 1]]
  {
  }

  lemma PatchedEnds(base: Lines, first: string, last: string)
    requires |base| > 2
    ensures Patch(base, [Range(0, 1, [first]), Range(|base| - 1, 1, [last])], 0) == [first] + base[1..|base| - 1]
      + [last]
  {
    hide Patch, Slice;
    var front, back := Range(0, 1, [first]), Range(|base| - 1, 1, [last]);
    TwoPatches(base, front, back);
    SlicesAround(base);
    Regrouped([first], base[1..|base| - 1], [last]);
  }

  lemma TwoPatches(base: Lines, front: Range, back: Range)
    ensures Patch(base, [front, back], 0) ==
      Slice(base, 0, front.start) + front.replacement
        + (Slice(base, EndOf(front), back.start) + back.replacement + Slice(base, EndOf(back), |base|))
  {
    hide Patch, Slice;
    assert [front, back] == [front] + [back] && [back] == [back] + [];
    PatchCons(base, front, [back], 0);
    PatchCons(base, back, [], EndOf(front));
    PatchNone(base, EndOf(back));
  }

  lemma Regrouped(a: Lines, b: Lines, c: Lines)
    ensures [] + a + (b + c + []) == a + b + c
  {
  }

  lemma SlicesAround(base: Lines)
    requires |base| > 2
    ensures Slice(base, 0, 0) == [] && Slice(base, 1, |base| - 1) == base[1..|base| - 1] &&
      Slice(base, |base|, |base|) == []
  {
  }

  lemma EndwiseMeetsTheContract()
    ensures DiffContract(EndwiseDiff())
  {
    forall base: Lines, side: Lines
      ensures Hunks(|base|, EndwiseDiff()(base, side)) && Patch(base, EndwiseDiff()(base, side), 0) == side
    {
      if EditsBothEnds(base, side) { EndEditsPatch(base, side); }
        else if base != side { assert [Range(0, |base|, side)][1..] == []; }
    }
  }

  /** Different edits of the same first and the same last line collide over the whole text. */
  lemma EndsSpanTheMiddle(base: Lines, local: Lines, remote: Lines)
    requires EditsBothEnds(base, local) && EditsBothEnds(base, remote)
    requires local[0] != remote[0] && local[|base| - 1] != remote[|base| - 1]
    ensures SpansAll(base, EndEdits(base, local), EndEdits(base, remote))
    ensures !Rewrites(base, EndEdits(base, local)) && !Rewrites(base, EndEdits(base, remote))
  {
    EndEditsPatch(base, local);
    EndEditsPatch(base, remote);
    var l, r := EndEdits(base, local), EndEdits(base, remote);
    IsColliding(l, r, l[0], r[0]);
    IsColliding(l, r, l[1], r[1]);
    BoundsAre(Colliding(l, r), |base|, l[0], l[1]);
  }

  lemma IsColliding(local: seq<Range>, remote: seq<Range>, l: Range, r: Range)
    requires l in local && r in remote && Collides(l, r)
    ensures Conflicting(local, remote) && l in Colliding(local, remote)
  {
    assert l in local + remote && r in local + remote;
  }

  lemma BoundsAre(ranges: seq<Range>, limit: nat, first: Range, last: Range)
    requires first in ranges && last in ranges && EndOf(last) == limit && first.start == 0
    ensures LeastStart(ranges) == 0 && GreatestEnd(ranges, limit) == limit
  {
    var least, greatest := LeastStart(ranges), GreatestEnd(ranges, limit);
    var a :| a in ranges && Min(limit, EndOf(a)) == greatest;
  }

  /**
   * Two devices that each rewrite the first and the last of three or more lines, without making the text
   * longer, lose all four edits: the ancestor is the clean result.
   */
  lemma EndEditsAreLost(normal: NormalForm, input: Input)
    requires input.base.Some? && normal(input.local) != normal(input.remote) && normal("") == ""
    requires |input.local| <= |input.base.value| && |input.remote| <= |input.base.value|
    requires var b, l, r := SplitLines(input.base.value), SplitLines(input.local), SplitLines(input.remote);
      EditsBothEnds(b, l) && EditsBothEnds(b, r) && l[0] != r[0] && l[|b| - 1] != r[|b| - 1]
    ensures DiffContract(EndwiseDiff())
    ensures ClassifyWith(normal, EndwiseDiff(), input).verdict == Clean &&
      ClassifyWith(normal, EndwiseDiff(), input).mergedText == input.base
  {
    var b, l, r := SplitLines(input.base.value), SplitLines(input.local), SplitLines(input.remote);
    EndwiseMeetsTheContract();
    EndsSpanTheMiddle(b, l, r);
    AncestorReturnedIff(normal, EndwiseDiff(), input, b, EndEdits(b, l), EndEdits(b, r));
  }

  /** Such a pair under the shipped policy. */
  lemma AncestorReturnedAsClean()
    ensures var input := Input(Some("a\nb\nc"), "x\nb\ny", "u\nb\nv", None, None, None);
      && DiffContract(EndwiseDiff())
      && ClassifyDivergence(EndwiseDiff(), input).verdict == Clean
      && ClassifyDivergence(EndwiseDiff(), input).mergedText == Some("a\nb\nc")
  {
    hide SignificantText, DiffContract, ClassifyWith, SplitLines, EditsBothEnds;
    ThreeLines("a", "b", "c");
    ThreeLines("x", "b", "y");
    ThreeLines("u", "b", "v");
    BothEnds("a", "b", "c", "x", "y");
    BothEnds("a", "b", "c", "u", "v");
    EmptyIsSignificant();
    assert "a" + "\n" + "b" + "\n" + "c" == "a\nb\nc";
    assert "x" + "\n" + "b" + "\n" + "y" == "x\nb\ny";
    assert "u" + "\n" + "b" + "\n" + "v" == "u\nb\nv";
    assert "x\nb\ny"[0] != "u\nb\nv"[0];
    EndEditsAreLost(SignificantText, Input(Some("a\nb\nc"), "x\nb\ny", "u\nb\nv", None, None, None));
  }

  lemma EmptyIsSignificant()
    ensures SignificantText("") == ""
  {
    assert JoinWith([""], "\n") == "";
    PlainIsSignificant([""]);
  }

  lemma BothEnds(a: string, b: string, c: string, x: string, y: string)
    requires a != x && c != y
    ensures EditsBothEnds([a + "\n", b + "\n", c], [x + "\n", b + "\n", y])
    ensures a + "\n" != x + "\n"
  {
    assert (a + "\n")[..|a|] == a && (x + "\n")[..|x|] == x;
  }

  lemma ThreeLines(a: string, b: string, c: string)
    requires PlainLine(a) && PlainLine(b) && PlainLine(c) && c != ""
    ensures var text := a + "\n" + b + "\n" + c;
      SplitLines(text) == [a + "\n", b + "\n", c] && SignificantText(text) == text
  {
    hide Split, LinesOf, SignificantText, JoinWith, FromLines;
    SplitLine(b, c);
    SplitLine(a, b + "\n" + c);
    SplitLast(c);
    assert a + "\n" + b + "\n" + c == a + "\n" + (b + "\n" + c) && [b] + [c] == [b, c] && [a] + [b, c] == [a, b, c];
    LinesOfThree(a, b, c);
    JoinThree(a, b, c);
    PlainIsSignificant([a, b, c]);
  }

  lemma LinesOfThree(a: string, b: string, c: string)
    requires c != ""
    ensures LinesOf([a, b, c]) == [a + "\n", b + "\n", c]
  {
    assert [a, b, c][1..] == [b, c] && [b, c][1..] == [c];
    assert LinesOf([b, c]) == [b + "\n", c];
  }

  lemma JoinThree(a: string, b: string, c: string)
    ensures JoinWith([a, b, c], "\n") == a + "\n" + b + "\n" + c
  {
    assert [a, b, c][1..] == [b, c] && [b, c][1..] == [c];
    assert JoinWith([b, c], "\n") == b + "\n" + c;
  }

  // ---- keeping both additions in the resolver (src/ui/conflict-presentation.ts) ----

  function Spliced(left: Lines, right: Lines, prefix: nat, suffix: nat): Lines
    requires prefix + suffix <= |left| && prefix + suffix <= |right|
  {
    left[..prefix] + left[prefix..|left| - suffix] + right[prefix..|right| - suffix] + left[|left| - suffix..]
  }

  function Combined(left: Lines, right: Lines): Lines {
    var prefix := SharedHead(left, right, Min(|left|, |right|));
    Spliced(left, right, prefix, SharedTail(left[prefix..], right[prefix..], Min(|left|, |right|) - prefix))
  }

  method CombineLines(left: Lines, right: Lines) returns (lines: Lines)
    ensures lines == Combined(left, right)
  {
    var prefix := HeadLength(left, right, Min(|left|, |right|));
    var suffix := TailLength(left[prefix..], right[prefix..], Min(|left|, |right|) - prefix);
    lines := Spliced(left, right, prefix, suffix);
  }

  method CombineAdditions(local: string, remote: string) returns (text: string)
    ensures text == FromLines(Combined(SplitLines(local), SplitLines(remote)))
  {
    var left := ToLines(local);
    var right := ToLines(remote);
    var lines := CombineLines(left, right);
    text := FromLines(lines);
  }

  /** Whatever the two sides are, both are kept: line by line, and with the lines joined again. */
  lemma CombinedKeepsBoth(local: string, remote: string)
    ensures var left, right := SplitLines(local), SplitLines(remote);
      && Subsequence(left, Combined(left, right)) && Subsequence(right, Combined(left, right))
      && Subsequence(local, FromLines(Combined(left, right))) && Subsequence(remote, FromLines(Combined(left, right)))
  {
    var left, right := SplitLines(local), SplitLines(remote);
    CombinedReads(left, right);
    LinesRoundTrip(local);
    LinesRoundTrip(remote);
    JoinedReads(left, Combined(left, right));
    JoinedReads(right, Combined(left, right));
  }

  lemma TailOfTail(a: Lines, n: nat, m: nat)
    requires n + m <= |a|
    ensures a[n..][|a[n..]| - m..] == a[|a| - m..]
  {
  }

  lemma ThreeParts(a: Lines, n: nat, m: nat)
    requires n + m <= |a|
    ensures a == a[..n] + a[n..|a| - m] + a[|a| - m..]
  {
  }

  lemma SplicedReads(a: Lines, b: Lines, n: nat, m: nat)
    requires n + m <= |a| && n + m <= |b| && a[..n] == b[..n] && a[n..][|a[n..]| - m..] == b[n..][|b[n..]| - m..]
    ensures Subsequence(a, Spliced(a, b, n, m)) && Subsequence(b, Spliced(a, b, n, m))
  {
    hide Subsequence;
    TailOfTail(a, n, m);
    TailOfTail(b, n, m);
    ThreeParts(a, n, m);
    ThreeParts(b, n, m);
    TwoMiddles(a[..n], a[n..|a| - m], b[n..|b| - m], a[|a| - m..]);
  }

  lemma CombinedReads(left: Lines, right: Lines)
    ensures Subsequence(left, Combined(left, right)) && Subsequence(right, Combined(left, right))
  {
    hide Subsequence, SharedHead, SharedTail, Spliced;
    var prefix := SharedHead(left, right, Min(|left|, |right|));
    var suffix := SharedTail(left[prefix..], right[prefix..], Min(|left|, |right|) - prefix);
    HeadIsLongest(left, right, Min(|left|, |right|), prefix);
    TailIsLongest(left[prefix..], right[prefix..], Min(|left|, |right|) - prefix, suffix);
    SplicedReads(left, right, prefix, suffix);
  }

  lemma {:induction false} JoinedReads(part: Lines, whole: Lines)
    requires Subsequence(part, whole)
    ensures Subsequence(FromLines(part), FromLines(whole))
  {
    if part != [] {
      if part[0] == whole[0] && Subsequence(part[1..], whole[1..]) {
        JoinedReads(part[1..], whole[1..]);
        SubsequenceRefl(part[0]);
        SubsequenceAppend(part[0], whole[0], FromLines(part[1..]), FromLines(whole[1..]));
      } else {
        JoinedReads(part, whole[1..]);
        SubsequenceSkip(FromLines(part), whole[0], FromLines(whole[1..]));
      }
    }
  }
}
