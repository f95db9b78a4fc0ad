/**
 * src/sync/text.ts: encoding shape and the line model. Strings are sequences of Unicode scalar values, so
 * decoding works on the text a strict UTF-8 decoder has already accepted.
 */
module Text {
  import opened Types

  const BOM := '\U{FEFF}'

  datatype Decoded = Decoded(text: string, shape: Shape)

  predicate StartsCrlf(s: string) { |s| >= 2 && s[0] == '\r' && s[1] == '\n' }

  predicate EndsWithNewline(s: string) { s != "" && s[|s| - 1] == '\n' }

  /** `replace(/\r\n/g, "\n")`. */
  function NormalizeToLf(raw: string): string {
    if raw == "" then ""
    else if StartsCrlf(raw) then "\n" + NormalizeToLf(raw[2..])
    else [raw[0]] + NormalizeToLf(raw[1..])
  }

  /** `replace(/\n/g, "\r\n")`. */
  function ToCrlf(text: string): string {
    if text == "" then ""
    else (if text[0] == '\n' then "\r\n" else [text[0]]) + ToCrlf(text[1..])
  }

  function CountCrlf(raw: string): nat {
    if raw == "" then 0 else if StartsCrlf(raw) then 1 + CountCrlf(raw[2..]) else CountCrlf(raw[1..])
  }

  /** Line feeds that are not the tail of a CRLF pair. */
  function CountBareLf(raw: string): nat {
    if raw == "" then 0
    else if StartsCrlf(raw) then CountBareLf(raw[2..])
    else (if raw[0] == '\n' then 1 else 0) + CountBareLf(raw[1..])
  }

  function EolOf(raw: string): Eol {
    if CountCrlf(raw) > 0 && CountBareLf(raw) > 0 then Mixed else if CountCrlf(raw) > 0 then Crlf else Lf
  }

  function WithoutBom(raw: string): string { if raw != "" && raw[0] == BOM then raw[1..] else raw }

  /** `None` is a file that must not be merged. */
  function Decoding(raw: string): Option<Decoded> {
    var body := WithoutBom(raw);
    if '\0' in body then None
    else Some(Decoded(NormalizeToLf(body), Shape(body != raw, EolOf(body), EndsWithNewline(body))))
  }

  method DecodeText(text: string) returns (decoded: Option<Decoded>)
    ensures decoded == Decoding(text)
  {
    var raw, bom := text, false;
    if raw != "" && raw[0] == BOM { bom := true; raw := raw[1..]; }
    if '\0' in raw { return None; }
    var crlf, lf := CountCrlf(raw), CountBareLf(raw);
    var eol := if crlf > 0 && lf > 0 then Mixed else if crlf > 0 then Crlf else Lf;
    return Some(Decoded(NormalizeToLf(raw), Shape(bom, eol, EndsWithNewline(raw))));
  }

  function WithTrailing(text: string, trailingNewline: bool): string {
    if !trailingNewline && EndsWithNewline(text) then text[..|text| - 1]
    else if trailingNewline && text != "" && !EndsWithNewline(text) then text + "\n"
    else text
  }

  function Encoding(normalized: string, shape: Shape): string {
    var text := WithTrailing(normalized, shape.trailingNewline);
    (if shape.bom then [BOM] else []) + (if shape.eol == Crlf then ToCrlf(text) else text)
  }

  method EncodeText(normalized: string, shape: Shape) returns (text: string)
    ensures text == Encoding(normalized, shape)
  {
    text := normalized;
    if !shape.trailingNewline && EndsWithNewline(text) { text := text[..|text| - 1]; }
    else if shape.trailingNewline && text != "" && !EndsWithNewline(text) { text := text + "\n"; }
    if shape.eol == Crlf { text := ToCrlf(text); }
    if shape.bom { text := [BOM] + text; }
  }

  // ---- what the two say about a file ----

  predicate PairAt(s: string, i: nat) { i + 1 < |s| && s[i] == '\r' && s[i + 1] == '\n' }

  predicate BareAt(s: string, i: nat) { i < |s| && s[i] == '\n' && (i == 0 || s[i - 1] != '\r') }

  ghost predicate HasPair(s: string) { exists i: nat :: PairAt(s, i) }

  ghost predicate HasBare(s: string) { exists i: nat :: BareAt(s, i) }

  lemma {:induction false} PairsCounted(s: string)
    ensures CountCrlf(s) > 0 <==> HasPair(s)
  {
    if StartsCrlf(s) {
      assert PairAt(s, 0);
    } else if s != "" {
      PairsCounted(s[1..]);
      if i: nat :| PairAt(s, i) { assert PairAt(s[1..], i - 1); }
      if i: nat :| PairAt(s[1..], i) { assert PairAt(s, i + 1); }
    }
  }

  lemma {:induction false} BaresCounted(s: string)
    ensures CountBareLf(s) > 0 <==> HasBare(s)
  {
    if StartsCrlf(s) {
      BaresCounted(s[2..]);
      if i: nat :| BareAt(s, i) { assert BareAt(s[2..], i - 2); }
      if i: nat :| BareAt(s[2..], i) { assert BareAt(s, i + 2); }
    } else if s != "" {
      BaresCounted(s[1..]);
      if s[0] == '\n' { assert BareAt(s, 0); }
      if i: nat :| BareAt(s, i) && i > 0 { assert BareAt(s[1..], i - 1); }
      if i: nat :| BareAt(s[1..], i) { assert BareAt(s, i + 1); }
    }
  }

  /** A line without the carriage return it ends in. */
  function Chomp(line: string): string { if line != "" && line[|line| - 1] == '\r' then line[..|line| - 1] else line }

  /** Every line but the last, chomped. */
  function ChompEnded(parts: seq<string>): seq<string> {
    if |parts| <= 1 then parts else [Chomp(parts[0])] + ChompEnded(parts[1..])
  }

  lemma SplitCons(c: char, rest: string)
    ensures Split([c] + rest) == if c == '\n' then [""] + Split(rest) else [[c] + Split(rest)[0]] + Split(rest)[1..]
  {
    assert ([c] + rest)[1..] == rest;
  }

  lemma ChompCons(first: string, parts: seq<string>)
    ensures ChompEnded([first] + parts) == if parts == [] then [first] else [Chomp(first)] + ChompEnded(parts)
  {
    assert ([first] + parts)[1..] == parts;
  }

  lemma {:induction false} NormalizedLines(raw: string)
    ensures Split(NormalizeToLf(raw)) == ChompEnded(Split(raw))
  {
    if StartsCrlf(raw) {
      var rest := raw[2..];
      NormalizedLines(rest);
      assert raw == ['\r'] + (['\n'] + rest);
      SplitCons('\n', rest);
      SplitCons('\r', ['\n'] + rest);
      ChompCons("\r", Split(rest));
      SplitCons('\n', NormalizeToLf(rest));
    } else if raw != "" {
      var c, rest := raw[0], raw[1..];
      NormalizedLines(rest);
      assert raw == [c] + rest;
      SplitCons(c, rest);
      SplitCons(c, NormalizeToLf(rest));
      FirstChomped(c, rest);
    }
  }

  /** An empty first part that is not the only one stands before a newline. */
  lemma FirstPart(s: string)
    ensures Split(s)[0] == "" && |Split(s)| > 1 ==> s != "" && s[0] == '\n'
  {
  }

  lemma FirstChomped(c: char, rest: string)
    requires !StartsCrlf([c] + rest)
    ensures ChompEnded([""] + Split(rest)) == [""] + ChompEnded(Split(rest))
    ensures c != '\n' ==>
      ChompEnded([[c] + Split(rest)[0]] + Split(rest)[1..]) == [[c] + ChompEnded(Split(rest))[0]]
        + ChompEnded(Split(rest))[1..]
  {
    hide Split, ChompEnded;
    var first, others := Split(rest)[0], Split(rest)[1..];
    assert Split(rest) == [first] + others;
    ChompCons("", Split(rest));
    ChompCons(first, others);
    ChompCons([c] + first, others);
    FirstPart(rest);
    if others != [] && first != "" { ChompPrefixed(c, first); }
    FirstOfParts(Chomp(first), ChompEnded(others));
  }

  lemma ChompPrefixed(c: char, line: string)
    requires line != ""
    ensures Chomp([c] + line) == [c] + Chomp(line)
  {
  }

  lemma FirstOfParts(first: string, others: seq<string>)
    ensures ([first] + others)[0] == first && ([first] + others)[1..] == others
  {
  }

  lemma {:induction false} CrlfHasNoBare(text: string)
    ensures CountBareLf(ToCrlf(text)) == 0
  {
    if text != "" {
      CrlfHasNoBare(text[1..]);
      var rest := ToCrlf(text[1..]);
      if text[0] == '\n' {
        assert ToCrlf(text)[2..] == rest;
      } else {
        CrlfStart(text[1..]);
        assert ToCrlf(text)[1..] == rest;
      }
    }
  }

  lemma CrlfStart(text: string)
    ensures ToCrlf(text) != "" ==> ToCrlf(text)[0] != '\n'
  {
  }

  /**
   * A file is refused exactly for a NUL. Its shape says where it has a BOM, pairs, bare line feeds and a
   * final newline; its text has the same lines, each without the carriage return before its newline.
   */
  lemma DecodingMeans(raw: string)
    ensures Decoding(raw).None? <==> '\0' in raw
    ensures Decoding(raw).Some? ==>
      var body, d := WithoutBom(raw), Decoding(raw).value;
      && (d.shape.bom <==> raw == [BOM] + body)
      && (d.shape.eol == Lf <==> !HasPair(body)) && (d.shape.eol == Mixed <==> HasPair(body) && HasBare(body))
      && (d.shape.trailingNewline <==> EndsWithNewline(raw)) && (d.shape.trailingNewline <==> EndsWithNewline(d.text))
      && Split(d.text) == ChompEnded(Split(body))
  {
    var body := WithoutBom(raw);
    assert raw == body || raw == [BOM] + body;
    PairsCounted(body);
    BaresCounted(body);
    NormalizeEnds(body);
    NormalizedLines(body);
  }

  /**
   * A pair survives decoding exactly when a carriage return stands before one: only one is removed for
   * each line feed.
   */
  lemma {:induction false} PairSurvivesIff(raw: string)
    ensures HasPair(NormalizeToLf(raw)) <==> exists i: nat :: PairAt(raw, i + 1) && raw[i] == '\r'
  {
    var text := NormalizeToLf(raw);
    if StartsCrlf(raw) {
      var rest := raw[2..];
      PairSurvivesIff(rest);
      if i: nat :| PairAt(text, i) { assert PairAt(NormalizeToLf(rest), i - 1); }
      if i: nat :| PairAt(NormalizeToLf(rest), i) { assert PairAt(text, i + 1); }
      if i: nat :| PairAt(raw, i + 1) && raw[i] == '\r' { assert PairAt(rest, i - 2 + 1) && rest[i - 2] == '\r'; }
      if i: nat :| PairAt(rest, i + 1) && rest[i] == '\r' { assert PairAt(raw, i + 2 + 1) && raw[i + 2] == '\r'; }
    } else if raw != "" {
      var rest := raw[1..];
      PairSurvivesIff(rest);
      FirstNormalized(rest);
      if i: nat :| PairAt(text, i) && i > 0 { assert PairAt(NormalizeToLf(rest), i - 1); }
      if PairAt(text, 0) { assert PairAt(raw, 0 + 1) && raw[0] == '\r'; }
      if i: nat :| PairAt(NormalizeToLf(rest), i) { assert PairAt(text, i + 1); }
      if i: nat :| PairAt(raw, i + 1) && raw[i] == '\r' {
        if i == 0 { assert PairAt(text, 0); } else { assert PairAt(rest, i - 1 + 1) && rest[i - 1] == '\r'; }
      }
      if i: nat :| PairAt(rest, i + 1) && rest[i] == '\r' { assert PairAt(raw, i + 1 + 1) && raw[i + 1] == '\r'; }
    }
  }

  lemma FirstNormalized(rest: string)
    ensures NormalizeToLf(rest) != "" && NormalizeToLf(rest)[0] == '\n' <==>
      StartsCrlf(rest) || (rest != "" && rest[0] == '\n')
  {
  }

  /**
   * An encoded file starts with the BOM its shape asks for, has no bare line feed when it asks for pairs, and
   * ends in a newline when it asks for one; when it asks for none, a second newline at the end remains.
   */
  lemma EncodingMeans(text: string, shape: Shape)
    ensures var e := Encoding(text, shape);
      && (shape.bom ==> e != "" && e[0] == BOM)
      && (!shape.bom ==>
        (e != "" && e[0] == BOM <==> WithTrailing(text, shape.trailingNewline) != "" && text[0] == BOM))
      && (shape.eol == Crlf ==> !HasBare(e))
      && (shape.trailingNewline ==> (EndsWithNewline(e) <==> text != ""))
      && (!shape.trailingNewline ==> (EndsWithNewline(e) <==> |text| > 1 && text[|text| - 2..] == "\n\n"))
  {
    hide ToCrlf, CountBareLf, HasBare;
    var t := WithTrailing(text, shape.trailingNewline);
    TrailingMeans(text, shape.trailingNewline);
    CrlfEnds(t);
    CrlfHasNoBare(t);
    BaresCounted(ToCrlf(t));
    FlagAddsNoBare(ToCrlf(t));
    FirstOfCrlf(t);
    EndOfFlagged(if shape.eol == Crlf then ToCrlf(t) else t);
  }

  lemma TrailingMeans(text: string, trailingNewline: bool)
    ensures var t := WithTrailing(text, trailingNewline);
      && (trailingNewline ==> (EndsWithNewline(t) <==> text != ""))
      && (!trailingNewline ==> (EndsWithNewline(t) <==> |text| > 1 && text[|text| - 2..] == "\n\n"))
      && (t != "" ==> text != "" && t[0] == text[0])
  {
  }

  lemma FlagAddsNoBare(body: string)
    ensures !HasBare(body) ==> !HasBare([BOM] + body) && !HasBare([] + body)
  {
    assert [] + body == body;
    if i: nat :| BareAt([BOM] + body, i) { assert BareAt(body, i - 1); }
  }

  lemma FirstOfCrlf(t: string)
    ensures t != "" ==> ToCrlf(t) != "" && (ToCrlf(t)[0] == BOM <==> t[0] == BOM)
  {
  }

  lemma EndOfFlagged(body: string)
    ensures EndsWithNewline([BOM] + body) == EndsWithNewline(body) && [] + body == body
  {
  }

  // ---- round trips ----

  lemma {:induction false} NormalizeEnds(raw: string)
    ensures EndsWithNewline(NormalizeToLf(raw)) == EndsWithNewline(raw)
    ensures NormalizeToLf(raw) == "" <==> raw == ""
    ensures |NormalizeToLf(raw)| + CountCrlf(raw) == |raw|
  {
    if raw != "" {
      NormalizeEnds(if StartsCrlf(raw) then raw[2..] else raw[1..]);
    }
  }

  lemma {:induction false} NormalizeWithoutCrlf(raw: string)
    requires CountCrlf(raw) == 0
    ensures NormalizeToLf(raw) == raw
  {
    if raw != "" { NormalizeWithoutCrlf(raw[1..]); }
  }

  /** Normalizing loses nothing when every line feed was half of a pair. */
  lemma {:induction false} ToCrlfUndoesNormalize(raw: string)
    requires CountBareLf(raw) == 0
    ensures ToCrlf(NormalizeToLf(raw)) == raw
  {
    if raw != "" {
      if StartsCrlf(raw) {
        ToCrlfUndoesNormalize(raw[2..]);
        assert NormalizeToLf(raw)[1..] == NormalizeToLf(raw[2..]);
        assert raw == "\r\n" + raw[2..];
      } else {
        ToCrlfUndoesNormalize(raw[1..]);
        assert NormalizeToLf(raw)[1..] == NormalizeToLf(raw[1..]);
      }
    }
  }

  /** Encoding a decoded file with its own shape restores it exactly, unless it mixes line endings. */
  lemma DecodeThenEncode(raw: string)
    requires Decoding(raw).Some?
    ensures var d := Decoding(raw).value; Encoding(d.text, d.shape) == raw <==> d.shape.eol != Mixed
  {
    var body := WithoutBom(raw);
    NormalizeEnds(body);
    var text := NormalizeToLf(body);
    assert WithTrailing(text, EndsWithNewline(body)) == text;
    assert raw == (if body != raw then [BOM] else []) + body;
    if CountCrlf(body) == 0 {
      NormalizeWithoutCrlf(body);
    } else if CountBareLf(body) == 0 {
      ToCrlfUndoesNormalize(body);
    } else {
      assert |text| < |body|;
    }
  }

  lemma {:induction false} NoCarriageReturn(text: string)
    requires '\r' !in text
    ensures NormalizeToLf(text) == text && CountCrlf(text) == 0
  {
    if text != "" { NoCarriageReturn(text[1..]); }
  }

  lemma {:induction false} CrlfCounts(text: string)
    requires '\r' !in text
    ensures NormalizeToLf(ToCrlf(text)) == text && CountBareLf(ToCrlf(text)) == 0
    ensures CountCrlf(ToCrlf(text)) > 0 <==> '\n' in text
  {
    if text != "" {
      CrlfCounts(text[1..]);
      assert text == [text[0]] + text[1..];
      if text[0] == '\n' {
        assert ToCrlf(text)[2..] == ToCrlf(text[1..]);
      } else {
        assert ToCrlf(text)[1..] == ToCrlf(text[1..]);
      }
    }
  }

  lemma {:induction false} CrlfEnds(text: string)
    ensures EndsWithNewline(ToCrlf(text)) == EndsWithNewline(text)
    ensures '\0' in ToCrlf(text) <==> '\0' in text
    ensures ToCrlf(text) == "" <==> text == ""
  {
    if text != "" {
      CrlfEnds(text[1..]);
      assert text == [text[0]] + text[1..];
    }
  }

  lemma EncodedEndings(text: string)
    requires '\r' !in text
    ensures NormalizeToLf(text) == text && CountCrlf(text) == 0
    ensures NormalizeToLf(ToCrlf(text)) == text && CountBareLf(ToCrlf(text)) == 0
    ensures CountCrlf(ToCrlf(text)) > 0 <==> '\n' in text
    ensures EndsWithNewline(ToCrlf(text)) == EndsWithNewline(text)
    ensures '\0' in ToCrlf(text) <==> '\0' in text
    ensures ToCrlf(text) == "" <==> text == ""
  {
    NoCarriageReturn(text);
    CrlfCounts(text);
    CrlfEnds(text);
  }

  function Written(text: string, eol: Eol): string { if eol == Crlf then ToCrlf(text) else text }

  function ReadShape(text: string, bom: bool, eol: Eol): Shape {
    Shape(bom, if eol == Crlf && '\n' in text then Crlf else Lf, EndsWithNewline(text))
  }

  lemma DecodeFlagged(text: string, eol: Eol)
    requires '\r' !in text && '\0' !in text
    ensures Decoding([BOM] + Written(text, eol)) == Some(Decoded(text, ReadShape(text, true, eol)))
  {
    EncodedEndings(text);
    assert WithoutBom([BOM] + Written(text, eol)) == Written(text, eol);
  }

  lemma DecodePlain(text: string, eol: Eol)
    requires '\r' !in text && '\0' !in text && !(text != "" && text[0] == BOM)
    ensures Decoding(Written(text, eol)) == Some(Decoded(text, ReadShape(text, false, eol)))
  {
    EncodedEndings(text);
    assert WithoutBom(Written(text, eol)) == Written(text, eol);
  }

  /** What decoding finds in an encoded CR-free text; a leading BOM of the text is taken for the file's own. */
  lemma DecodeOfEncoded(text: string, shape: Shape)
    requires '\r' !in text && '\0' !in text
    ensures
      var t := WithTrailing(text, shape.trailingNewline);
      var stolen := !shape.bom && t != "" && t[0] == BOM;
      var u := if stolen then t[1..] else t;
      Decoding(Encoding(text, shape)) == Some(Decoded(u, ReadShape(u, shape.bom || stolen, shape.eol)))
  {
    var t := WithTrailing(text, shape.trailingNewline);
    assert '\r' !in t && '\0' !in t;
    if shape.bom {
      DecodeFlagged(t, shape.eol);
    } else if t != "" && t[0] == BOM {
      assert Written(t, shape.eol) == [BOM] + Written(t[1..], shape.eol);
      assert Encoding(text, shape) == Written(t, shape.eol);
      DecodeFlagged(t[1..], shape.eol);
    } else {
      assert Encoding(text, shape) == Written(t, shape.eol);
      DecodePlain(t, shape.eol);
    }
  }

  /** Decoding an encoded CR-free text recovers text and shape exactly when the shape is true of the text. */
  lemma EncodeThenDecode(text: string, shape: Shape)
    requires '\r' !in text && '\0' !in text
    ensures Decoding(Encoding(text, shape)) == Some(Decoded(text, shape)) <==>
      && shape.trailingNewline == EndsWithNewline(text)
      && (text != "" && text[0] == BOM ==> shape.bom)
      && (shape.eol == Crlf ==> '\n' in text)
      && shape.eol != Mixed
  {
    DecodeOfEncoded(text, shape);
    var t := WithTrailing(text, shape.trailingNewline);
    if |t| == |text| + 1 && t != "" {
      // Dropping a leading BOM from the lengthened text cannot give the original back.
      assert t[1..] == text ==> EndsWithNewline(t[1..]) == EndsWithNewline(text);
    }
  }

  // ---- the line model ----

  /** `split("\n")`. */
  function Split(s: string): (parts: seq<string>)
    ensures |parts| >= 1
  {
    if s == "" then [""]
    else
      var rest := Split(s[1..]);
      if s[0] == '\n' then [""] + rest else [[s[0]] + rest[0]] + rest[1..]
  }

  /** Where a part holds a character, the text holds it, and it is no newline. */
  lemma {:induction false} SplitParts(s: string, i: nat, j: nat)
    requires i < |Split(s)| && j < |Split(s)[i]|
    ensures Split(s)[i][j] in s && Split(s)[i][j] != '\n'
  {
    var rest := Split(s[1..]);
    assert s == [s[0]] + s[1..];
    if s[0] == '\n' {
      SplitParts(s[1..], i - 1, j);
    } else if i > 0 {
      SplitParts(s[1..], i, j);
    } else if j > 0 {
      SplitParts(s[1..], 0, j - 1);
    }
  }

  lemma PartsOf(s: string, p: string)
    requires p in Split(s)
    ensures '\n' !in p && forall c :: c in p ==> c in s
  {
    var i :| 0 <= i < |Split(s)| && Split(s)[i] == p;
    forall c | c in p ensures c in s && c != '\n' {
      var j :| 0 <= j < |p| && p[j] == c;
      SplitParts(s, i, j);
    }
  }

  function JoinWith(parts: seq<string>, separator: string): string {
    if parts == [] then "" else if |parts| == 1 then parts[0]
      else parts[0] + separator + JoinWith(parts[1..], separator)
  }

  function FromLines(lines: seq<string>): string {
    if lines == [] then "" else lines[0] + FromLines(lines[1..])
  }

  /** Lines keep their terminator; only the last may lack one. */
  predicate LineModel(lines: seq<string>) {
    forall i :: 0 <= i < |lines| ==>
      lines[i] != "" && '\n' !in lines[i][..|lines[i]| - 1] && (i < |lines| - 1 ==> EndsWithNewline(lines[i]))
  }

  /** The split parts with their terminators back, and a final empty part dropped. */
  function LinesOf(parts: seq<string>): seq<string>
    requires parts != []
  {
    if |parts| == 1 then if parts[0] == "" then [] else [parts[0]]
    else [parts[0] + "\n"] + LinesOf(parts[1..])
  }

  function SplitLines(text: string): seq<string> { LinesOf(Split(text)) }

  method ToLines(text: string) returns (lines: seq<string>)
    ensures lines == SplitLines(text)
  {
    if text == "" { return []; }
    var parts := Split(text);
    lines := [];
    for i := 0 to |parts| - 1
      invariant lines + LinesOf(parts[i..]) == SplitLines(text)
    {
      assert parts[i..][1..] == parts[i + 1..];
      lines := lines + [parts[i] + "\n"];
    }
    var last := parts[|parts| - 1];
    if last != "" { lines := lines + [last]; }
  }

  lemma {:induction false} LinesModel(parts: seq<string>)
    requires parts != [] && forall p :: p in parts ==> '\n' !in p
    ensures LineModel(LinesOf(parts)) && FromLines(LinesOf(parts)) == JoinWith(parts, "\n")
  {
    if |parts| > 1 {
      LinesModel(parts[1..]);
      var rest := LinesOf(parts[1..]);
      assert LinesOf(parts)[1..] == rest;
      assert (parts[0] + "\n")[..|parts[0]|] == parts[0];
      forall i | 1 <= i < |LinesOf(parts)| ensures LinesOf(parts)[i] == rest[i - 1] {}
    } else if parts[0] != "" {
      assert parts[0] in parts;
      var n := |parts[0]| - 1;
      assert parts[0] == parts[0][..n] + [parts[0][n]];
      assert FromLines([parts[0]]) == parts[0];
    }
  }

  lemma {:induction false} JoinUndoesSplit(s: string)
    ensures JoinWith(Split(s), "\n") == s
  {
    if s != "" {
      JoinUndoesSplit(s[1..]);
      var rest := Split(s[1..]);
      if s[0] == '\n' {
        assert ([""] + rest)[1..] == rest;
      } else {
        assert Split(s)[1..] == rest[1..];
      }
    }
  }

  /** Joining the lines of a text gives the text back. */
  lemma LinesRoundTrip(text: string)
    ensures LineModel(SplitLines(text)) && FromLines(SplitLines(text)) == text
  {
    forall p | p in Split(text) { PartsOf(text, p); }
    LinesModel(Split(text));
    JoinUndoesSplit(text);
  }

  lemma {:induction false} SplitLine(line: string, rest: string)
    requires '\n' !in line
    ensures Split(line + "\n" + rest) == [line] + Split(rest)
  {
    var s := line + "\n" + rest;
    if line == "" {
      assert s[1..] == rest;
    } else {
      assert s[1..] == line[1..] + "\n" + rest;
      SplitLine(line[1..], rest);
      assert [line[0]] + line[1..] == line;
    }
  }

  lemma {:induction false} SplitLast(line: string)
    requires '\n' !in line
    ensures Split(line) == [line]
  {
    if line != "" {
      assert line == [line[0]] + line[1..];
      SplitLast(line[1..]);
      assert ([[line[0]] + line[1..]] + [line[1..]][1..]) == [line];
    }
  }

  /** Splitting joined lines gives the lines back. */
  lemma {:induction false} LinesOfFromLines(lines: seq<string>)
    requires LineModel(lines)
    ensures SplitLines(FromLines(lines)) == lines
  {
    if lines != [] {
      var line := lines[0];
      assert LineModel(lines[1..]) by {
        forall i | 0 <= i < |lines[1..]| ensures lines[1..][i] == lines[i + 1] {}
      }
      LinesOfFromLines(lines[1..]);
      var body := line[..|line| - 1];
      if EndsWithNewline(line) {
        assert line == body + "\n";
        assert FromLines(lines) == body + "\n" + FromLines(lines[1..]);
        SplitLine(body, FromLines(lines[1..]));
        assert (([body] + Split(FromLines(lines[1..])))[1..]) == Split(FromLines(lines[1..]));
      } else {
        assert line == body + [line[|line| - 1]];
        assert lines == [line];
        assert FromLines(lines) == line;
        SplitLast(line);
      }
    }
  }

  // ---- the normal form a difference is judged in ----

  function WithoutBoms(s: string): (r: string)
    ensures BOM !in r && forall c :: c in r ==> c in s
    ensures BOM !in s ==> r == s
  {
    if s == "" then "" else (if s[0] == BOM then [] else [s[0]]) + WithoutBoms(s[1..])
  }

  predicate Blank(c: char) { c == ' ' || c == '\t' }

  /** `line.replace(/[ \t]+$/, "")`. */
  function TrimEnd(line: string): (r: string)
    ensures r <= line && (r != "" ==> !Blank(r[|r| - 1]))
    ensures line != "" && !Blank(line[|line| - 1]) ==> r == line
  {
    if line != "" && Blank(line[|line| - 1]) then TrimEnd(line[..|line| - 1]) else line
  }

  function TrimAll(parts: seq<string>): (r: seq<string>)
    ensures |r| == |parts| && forall i :: 0 <= i < |r| ==> r[i] == TrimEnd(parts[i])
  {
    if parts == [] then [] else [TrimEnd(parts[0])] + TrimAll(parts[1..])
  }

  /** `replace(/\n+$/, "")`. */
  function StripNewlines(s: string): (r: string)
    ensures !EndsWithNewline(r) && r <= s
  {
    if EndsWithNewline(s) then StripNewlines(s[..|s| - 1]) else s
  }

  function SignificantText(text: string): string {
    StripNewlines(JoinWith(TrimAll(Split(WithoutBoms(NormalizeToLf(text)))), "\n"))
  }

  /** The parts without the empty ones at the end, keeping at least one. */
  function DropEmptyTail(parts: seq<string>): (r: seq<string>)
    requires parts != []
    ensures r != [] && r <= parts && (|r| > 1 ==> r[|r| - 1] != "")
  {
    if |parts| > 1 && parts[|parts| - 1] == "" then DropEmptyTail(parts[..|parts| - 1]) else parts
  }

  lemma {:induction false} JoinAppend(parts: seq<string>, last: string)
    requires parts != []
    ensures JoinWith(parts + [last], "\n") == JoinWith(parts, "\n") + "\n" + last
  {
    assert (parts + [last])[1..] == parts[1..] + [last];
    if |parts| > 1 { JoinAppend(parts[1..], last); }
  }

  lemma {:induction false} SplitUndoesJoin(parts: seq<string>)
    requires parts != [] && forall p :: p in parts ==> '\n' !in p
    ensures Split(JoinWith(parts, "\n")) == parts
  {
    if |parts| == 1 {
      SplitLast(parts[0]);
    } else {
      SplitUndoesJoin(parts[1..]);
      SplitLine(parts[0], JoinWith(parts[1..], "\n"));
    }
  }

  lemma {:induction false} StripJoined(parts: seq<string>)
    requires parts != [] && forall p :: p in parts ==> '\n' !in p
    ensures StripNewlines(JoinWith(parts, "\n")) == JoinWith(DropEmptyTail(parts), "\n")
  {
    var last := parts[|parts| - 1];
    assert last in parts;
    if |parts| > 1 {
      var init := parts[..|parts| - 1];
      assert parts == init + [last];
      JoinAppend(init, last);
      if last == "" {
        var joined := JoinWith(parts, "\n");
        assert joined[..|joined| - 1] == JoinWith(init, "\n");
        StripJoined(init);
      }
    }
  }

  /** The significant text is a join of trimmed lines whose last is not empty. */
  lemma SignificantParts(text: string) returns (parts: seq<string>)
    ensures parts != [] && SignificantText(text) == JoinWith(parts, "\n") && DropEmptyTail(parts) == parts
    ensures forall p :: p in parts ==> '\n' !in p && BOM !in p && TrimEnd(p) == p && forall c :: c in p ==>
      c in NormalizeToLf(text)
  {
    hide NormalizeToLf, WithoutBoms, Split, TrimAll, StripNewlines, JoinWith, TrimEnd;
    var split := Split(WithoutBoms(NormalizeToLf(text)));
    var trimmed := TrimAll(split);
    forall p | p in trimmed
      ensures '\n' !in p && BOM !in p && TrimEnd(p) == p && forall c :: c in p ==> c in NormalizeToLf(text) {
      var i :| 0 <= i < |trimmed| && trimmed[i] == p;
      PartsOf(WithoutBoms(NormalizeToLf(text)), split[i]);
      assert p == TrimEnd(split[i]) && p <= split[i];
    }
    StripJoined(trimmed);
    DroppedAlready(trimmed);
    parts := DropEmptyTail(trimmed);
    assert forall p :: p in parts ==> p in trimmed;
  }

  lemma DroppedAlready(parts: seq<string>)
    requires parts != []
    ensures DropEmptyTail(DropEmptyTail(parts)) == DropEmptyTail(parts)
  {
  }

  lemma {:induction false} JoinChars(parts: seq<string>, c: char)
    requires c in JoinWith(parts, "\n") && c != '\n'
    ensures exists p :: p in parts && c in p
  {
    if |parts| > 1 && c !in parts[0] {
      JoinChars(parts[1..], c);
    } else {
      assert parts[0] in parts;
    }
  }

  /**
   * Normalizing twice is normalizing once, exactly if trimming left no carriage return before a newline (as it
   * does in a line that ends in one followed by blanks).
   */
  lemma SignificantTextIdempotent(text: string)
    ensures SignificantText(SignificantText(text)) == SignificantText(text) <==> !HasPair(SignificantText(text))
  {
    var once := SignificantText(text);
    PairsCounted(once);
    if HasPair(once) {
      NormalizeEnds(once);
      SignificantIsShorter(once);
    } else {
      var parts := SignificantParts(text);
      NormalizeWithoutCrlf(once);
      if BOM in once { JoinChars(parts, BOM); }
      SplitUndoesJoin(parts);
      TrimmedAlready(parts);
      StripJoined(parts);
    }
  }

  lemma {:induction false} WithoutBomsIsShorter(s: string)
    ensures |WithoutBoms(s)| <= |s|
  {
    if s != "" { WithoutBomsIsShorter(s[1..]); }
  }

  lemma SignificantIsShorter(text: string)
    ensures |SignificantText(text)| <= |NormalizeToLf(text)|
  {
    var plain := WithoutBoms(NormalizeToLf(text));
    WithoutBomsIsShorter(NormalizeToLf(text));
    JoinUndoesSplit(plain);
    TrimmedIsShorter(Split(plain));
  }

  lemma {:induction false} TrimmedIsShorter(parts: seq<string>)
    ensures |JoinWith(TrimAll(parts), "\n")| <= |JoinWith(parts, "\n")|
  {
    if |parts| > 1 {
      TrimmedIsShorter(parts[1..]);
      assert TrimAll(parts)[1..] == TrimAll(parts[1..]);
    }
  }

  /** A line that normalizing leaves alone. */
  predicate PlainLine(line: string) {
    '\n' !in line && '\r' !in line && BOM !in line && (line != "" ==> !Blank(line[|line| - 1]))
  }

  lemma PlainIsStripped(parts: seq<string>)
    requires parts != [] && forall p :: p in parts ==> PlainLine(p)
    ensures SignificantText(JoinWith(parts, "\n")) == JoinWith(DropEmptyTail(parts), "\n")
  {
    hide NormalizeToLf, WithoutBoms, Split, TrimAll, StripNewlines, JoinWith, TrimEnd, DropEmptyTail;
    var text := JoinWith(parts, "\n");
    if '\r' in text { JoinChars(parts, '\r'); }
    if BOM in text { JoinChars(parts, BOM); }
    NoCarriageReturn(text);
    SplitUndoesJoin(parts);
    PlainIsTrimmed(parts);
    TrimmedAlready(parts);
    StripJoined(parts);
  }

  lemma PlainIsSignificant(parts: seq<string>)
    requires parts != [] && (|parts| > 1 ==> parts[|parts| - 1] != "") && forall p :: p in parts ==> PlainLine(p)
    ensures SignificantText(JoinWith(parts, "\n")) == JoinWith(parts, "\n")
  {
    PlainIsStripped(parts);
  }

  /** One newline at the end is no difference. */
  lemma FinalNewlineIsInsignificant(parts: seq<string>)
    requires parts != [] && parts[|parts| - 1] != "" && forall p :: p in parts ==> PlainLine(p)
    ensures SignificantText(JoinWith(parts, "\n") + "\n") == JoinWith(parts, "\n")
  {
    hide SignificantText, JoinWith;
    JoinAppend(parts, "");
    assert JoinWith(parts, "\n") + "\n" + "" == JoinWith(parts, "\n") + "\n";
    PlainIsStripped(parts + [""]);
    assert (parts + [""])[..|parts|] == parts;
  }

  lemma PlainIsTrimmed(parts: seq<string>)
    requires forall p :: p in parts ==> PlainLine(p)
    ensures forall p :: p in parts ==> TrimEnd(p) == p
  {
  }

  /** A carriage return followed by a blank and a newline is such a text. */
  lemma TwiceDiffersFromOnce()
    ensures SignificantText("a\r \nb") == "a\r\nb" &&
      SignificantText(SignificantText("a\r \nb")) != SignificantText("a\r \nb")
  {
    hide NormalizeToLf, CountCrlf, WithoutBoms, Split, TrimAll, TrimEnd, JoinWith;
    var text := "a\r \nb";
    PairsCounted(text);
    NormalizeWithoutCrlf(text);
    SplitLast("b");
    SplitLine("a\r ", "b");
    assert text == "a\r " + "\n" + "b" && ["a\r "] + ["b"] == ["a\r ", "b"];
    TrimTwo();
    SignificantTextIdempotent(text);
    assert PairAt("a\r\nb", 1);
  }

  lemma TrimTwo()
    ensures JoinWith(TrimAll(["a\r ", "b"]), "\n") == "a\r\nb"
  {
    var line := "a\r ";
    assert line[..2] == "a\r" && Blank(line[2]);
    assert TrimEnd(line) == TrimEnd(line[..2]);
    assert TrimAll(["a\r ", "b"]) == ["a\r", "b"];
    assert ["a\r", "b"][1..] == ["b"];
  }

  lemma TrimmedAlready(parts: seq<string>)
    requires forall p :: p in parts ==> TrimEnd(p) == p
    ensures TrimAll(parts) == parts
  {
    forall i | 0 <= i < |parts| ensures TrimEnd(parts[i]) == parts[i] { assert parts[i] in parts; }
  }

  lemma {:induction false} ByteLengthBound(text: string)
    ensures |text| <= ByteLength(text) <= 4 * |text|
  {
    if text != "" { ByteLengthBound(text[1..]); }
  }

  /** UTF-8 length, the unit of every size threshold. */
  function ByteLength(text: string): nat {
    if text == "" then 0
    else
      var c := text[0];
      (if c < '\U{80}' then 1 else if c < '\U{800}' then 2 else if c < '\U{10000}' then 3 else 4)
        + ByteLength(text[1..])
  }
}
