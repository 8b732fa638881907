/** The text-to-record pipeline (`LiuYaoParser.parse`): length guard, line
    extraction, metadata, row classification and the per-row decoder. */
module Parser {
  import opened Wrappers
  import opened Text
  import opened Tables
  import opened Records
  import opened LineGrammar
  import opened ChartMeta

  /** Inputs longer than this are refused without parsing. */
  const MaxInputLength: nat := 12000

  const TooLongMessage: string := "输入文本过长，请控制在 12000 字以内。"

  /** Overall line type, read off the primary stroke alone. */
  function KindOf(benHua: Option<Stroke>): (k: LineKind)
    ensures k == YangLine <==> benHua == Some(Yang)
    ensures k == YinLine <==> benHua == Some(Yin)
    ensures k == Unknown <==> benHua.None?
  {
    match benHua
    case Some(Yang) => YangLine
    case Some(Yin) => YinLine
    case None => Unknown
  }

  /** Stroke type of the alternative that a stroke-pattern match starts with. */
  function GlyphStroke(c: char): Stroke {
    if c == LongStroke then Yang else Yin
  }

  /** Some moving-line marker occurs somewhere in `s`. */
  predicate HasMarker(s: string) {
    exists c :: c in MovingMarkers && c in s
  }

  /** Stripping keeps every marker, since no marker is whitespace. */
  lemma StripKeepsMarkers(s: string)
    ensures HasMarker(Strip(s)) <==> HasMarker(s)
  {
    SqueezeStrip(s);
    forall c | c in MovingMarkers
      ensures c in Strip(s) <==> c in s
    {
      InSqueeze(c, s);
      InSqueeze(c, Strip(s));
    }
  }

  /** The fields read from a row's tail: primary stroke, 世/应 marker,
      transformed relative and transformed stroke. */
  datatype TailFields = TailFields(
    benHua: Option<Stroke>,
    shiYing: Option<ShiYing>,
    bianYao: Option<string>,
    bianHua: Option<Stroke>
  )

  /** The stroke type of the first draw in `s`: solid for the long
      stroke, broken for a dash pair, none when `s` holds no draw. */
  function FirstStroke(s: string): (r: Option<Stroke>)
    ensures r.Some? <==> FindDraw(s, 0).Some?
    ensures FindDraw(s, 0).Some? ==> r == Some(GlyphStroke(s[FindDraw(s, 0).value.start]))
  {
    match FindDraw(s, 0)
    case None => None
    case Some(m) =>
      DecodeMatchedDraw(s, m.start);
      DetectDraw(s[m.start..m.end])
  }

  /** The transformed relative read from a segment: its first word,
      expanded, unless the segment is empty or starts with a bare stroke. */
  function TransformedRelative(segment: string): (r: Option<string>)
    ensures r.Some? ==> r.value != []
    ensures r.Some? <==> ExtractYaoToken(segment).Some? && ExtractYaoToken(segment).value != []
    ensures r == ExpandRelToken(ExtractYaoToken(segment))
  {
    var token := ExtractYaoToken(segment);
    if token.Some? && token.value != [] then ExpandRelToken(token) else None
  }

  /** The transformed relative of a segment is its first word expanded,
      whatever whitespace surrounds it, unless that word is a bare stroke. */
  lemma TransformedRelativeOfWord(pre: string, w: string, rest: string)
    requires AllSpace(pre) && IsWord(w)
    requires rest == [] || IsSpace(rest[0])
    ensures TransformedRelative(pre + w + rest) == if w in StrokeWords then None else ExpandRelToken(Some(w))
  {
    ExtractYaoTokenFirstWord(pre, w, rest);
  }

  /** The transformed fields of what follows the 世/应 marker: a second
      stroke, if any, gives the transformed stroke type, and the first word
      before it (or of the whole text, when there is no second stroke) is the
      transformed relative, unless that word is a bare stroke. */
  function TransformedFields(rightClean: string): (r: (Option<string>, Option<Stroke>))
    ensures r.1.Some? <==> FindDraw(rightClean, 0).Some?
    ensures FindDraw(rightClean, 0).Some? ==>
      r.1 == Some(GlyphStroke(rightClean[FindDraw(rightClean, 0).value.start]))
    ensures r.0.Some? ==> r.0.value != []
    ensures FindDraw(rightClean, 0).Some? ==>
      r.0 == TransformedRelative(Strip(rightClean[..FindDraw(rightClean, 0).value.start]))
    ensures FindDraw(rightClean, 0).None? ==> r.0 == TransformedRelative(rightClean)
  {
    var second := FindDraw(rightClean, 0);
    var segment := if second.Some? then Strip(rightClean[..second.value.start]) else rightClean;
    (TransformedRelative(segment), FirstStroke(rightClean))
  }

  /** What follows the first stroke: a standalone 世/应 word right after it
      is the marker, and the remainder holds the transformed fields. */
  function ParseAfterStroke(rest: string): (r: TailFields)
    ensures r.benHua.None?
    ensures r.shiYing == ExtractShiYing(rest).1
    ensures r.bianHua.Some? <==> FindDraw(ExtractShiYing(rest).0, 0).Some?
    ensures r.bianYao.Some? ==> r.bianYao.value != []
    ensures (r.bianYao, r.bianHua) == TransformedFields(ExtractShiYing(rest).0)
  {
    var sy := ExtractShiYing(rest);
    var tf := TransformedFields(sy.0);
    TailFields(None, sy.1, tf.0, tf.1)
  }

  /** The tail grammar: the first stroke in the tail gives the primary stroke
      type and everything after it is read by `ParseAfterStroke`; a tail
      without a stroke yields none of the four fields. */
  function ParseTail(tail: string): (r: TailFields)
    ensures r.benHua.Some? <==> FindDraw(tail, 0).Some?
    ensures FindDraw(tail, 0).Some? ==>
      r.benHua == Some(GlyphStroke(tail[FindDraw(tail, 0).value.start]))
    ensures r.benHua.None? ==> r.shiYing.None? && r.bianYao.None? && r.bianHua.None?
    ensures r.bianYao.Some? ==> r.bianYao.value != []
    ensures FindDraw(tail, 0).Some? ==>
      var after := ParseAfterStroke(Strip(tail[FindDraw(tail, 0).value.end..]));
      r.shiYing == after.shiYing && r.bianYao == after.bianYao && r.bianHua == after.bianHua
  {
    match FindDraw(tail, 0)
    case None => TailFields(None, None, None, None)
    case Some(first) =>
      ParseAfterStroke(Strip(tail[first.end..])).(benHua := FirstStroke(tail))
  }

  /** `SIX_GOD_MAP.get(token, token)`. */
  function SixGodOf(token: string): (r: string)
    ensures token in SixGodMap ==> r == SixGodMap[token] && r in SixGodMap && SixGodMap[r] == r
    ensures token !in SixGodMap ==> r == token
  {
    if token in SixGodMap then SixGodCanonical(token); SixGodMap[token] else token
  }

  /** The space-separated words of a row after stripping and normalising. */
  function RowWords(line: string): seq<string> {
    Split(Normalize(Strip(line)), ' ')
  }

  /** Everything after the third word, joined back with single spaces. */
  function RowTail(line: string): string
    requires |RowWords(line)| >= 4
  {
    Join(RowWords(line)[3..], " ")
  }

  function TailTuple(f: TailFields): (Option<Stroke>, Option<ShiYing>, Option<string>, Option<Stroke>) {
    (f.benHua, f.shiYing, f.bianYao, f.bianHua)
  }

  /** The row has no second stroke: it has fewer than four words, its tail
      holds no stroke, or nothing after the first stroke and the 世/应 marker
      does. */
  predicate LacksSecondStroke(line: string) {
    || |RowWords(line)| < 4
    || FindDraw(RowTail(line), 0).None?
    || FindDraw(ExtractShiYing(Strip(RowTail(line)[FindDraw(RowTail(line), 0).value.end..])).0, 0).None?
  }

  /** `_parse_single_yao`: decode one row at position `index`. */
  function ParseSingleYao(index: int, line: string): (y: YaoLine)
    ensures y.index == index && y.pos == PosOf(index) && y.raw == Strip(line)
    ensures y.moving <==> HasMarker(line)
    ensures y.yinYang == YangLine <==> y.benHua == Some(Yang)
    ensures y.yinYang == YinLine <==> y.benHua == Some(Yin)
    ensures y.yinYang == Unknown <==> y.benHua.None?
    ensures y.benHua.None? ==> y.shiYing.None? && y.bianYao.None? && y.bianHua.None?
    ensures |RowWords(line)| < 4 ==>
      y.sixGod.None? && y.fuShen.None? && y.benYao.None? && y.benHua.None?
    ensures |RowWords(line)| >= 4 ==>
      && y.sixGod == Some(SixGodOf(RowWords(line)[0]))
      && y.fuShen.Some? && y.fuShen == ExpandRelToken(Some(RowWords(line)[1]))
      && y.benYao.Some? && y.benYao == ExpandRelToken(Some(RowWords(line)[2]))
      && (y.benHua.Some? <==> FindDraw(RowTail(line), 0).Some?)
  {
    var raw := Strip(line);
    var moving := HasMarker(raw);
    StripKeepsMarkers(line);
    var parts := RowWords(line);
    if |parts| < 4 then
      // the malformed-row fallback: the spirit is dropped too
      YaoLine(index, PosOf(index), Unknown, None, None, None, None, moving, None, None, None, raw)
    else
      InnerWordsNonEmpty(Normalize(raw));
      var sixGod := Some(SixGodOf(parts[0]));
      var fuShen := ExpandRelToken(Some(parts[1]));
      var benYao := ExpandRelToken(Some(parts[2]));
      var f := ParseTail(RowTail(line));
      YaoLine(index, PosOf(index), KindOf(f.benHua), sixGod, fuShen, benYao,
              f.benHua, moving, f.shiYing, f.bianYao, f.bianHua, raw)
  }

  lemma InnerWordsNonEmpty(t: string)
    requires IsNormal(t) && |Split(t, ' ')| >= 3
    ensures Split(t, ' ')[1] != [] && Split(t, ' ')[2] != []
  {
    assert t != [];
    NormalWords(t);
  }

  /** A row of four or more words takes its primary stroke, 世/应 marker and
      transformed fields from the tail grammar; a row has a transformed
      stroke exactly when it has a second stroke. */
  lemma RowTailFields(index: int, line: string)
    ensures |RowWords(line)| >= 4 ==>
      TailTuple(ParseTail(RowTail(line))) == (var y := ParseSingleYao(index, line);
        (y.benHua, y.shiYing, y.bianYao, y.bianHua))
    ensures ParseSingleYao(index, line).bianHua.None? <==> LacksSecondStroke(line)
  {
  }

  /** A row is a hexagram line when its first word is a six-spirit alias. */
  predicate IsCandidate(line: string) {
    var n := Normalize(line);
    n != [] && Split(n, ' ')[0] in SixGodMap
  }

  /** The rows `keep` accepts, in source order. */
  function Filter(lines: seq<string>, keep: string -> bool): (r: seq<string>)
    ensures |r| <= |lines|
    ensures forall k :: 0 <= k < |r| ==> keep(r[k])
    decreases |lines|
  {
    if lines == [] then []
    else (if keep(lines[0]) then [lines[0]] else []) + Filter(lines[1..], keep)
  }

  /** The hexagram-line rows, in source order. */
  function Candidates(lines: seq<string>): (r: seq<string>)
    ensures |r| <= |lines|
    ensures forall k :: 0 <= k < |r| ==> IsCandidate(r[k])
  {
    Filter(lines, IsCandidate)
  }

  /** Every candidate is a hexagram-line row, and a row list is kept whole
      exactly when every row in it is one. */
  lemma CandidatesAreRows(lines: seq<string>)
    ensures forall k :: 0 <= k < |Candidates(lines)| ==> IsCandidate(Candidates(lines)[k])
    ensures Candidates(lines) == lines <==> forall k :: 0 <= k < |lines| ==> IsCandidate(lines[k])
  {
    FilterKeeps(lines, IsCandidate);
  }

  lemma {:induction false} FilterKeeps(lines: seq<string>, keep: string -> bool)
    ensures Filter(lines, keep) == lines <==> forall k :: 0 <= k < |lines| ==> keep(lines[k])
    decreases |lines|
  {
    if lines != [] {
      FilterKeeps(lines[1..], keep);
      if !keep(lines[0]) {
        assert |Filter(lines, keep)| < |lines|;
      } else {
        assert lines == [lines[0]] + lines[1..];
        if Filter(lines, keep) == lines {
          assert Filter(lines[1..], keep) == lines[1..];
        }
        if forall k :: 0 <= k < |lines| ==> keep(lines[k]) {
          assert forall k :: 0 <= k < |lines[1..]| ==> keep(lines[1..][k]) by {
            forall k | 0 <= k < |lines[1..]| ensures keep(lines[1..][k]) {
              assert lines[1..][k] == lines[k + 1];
            }
          }
        }
      }
    }
  }

  /** The rows `c` decoded by `decode` at positions `top`, `top - 1`, ...,
      stopping when either runs out. */
  function Rows(c: seq<string>, top: nat, decode: (int, string) -> YaoLine): (r: seq<YaoLine>)
    ensures |r| == (if |c| < top then |c| else top)
    decreases top
  {
    if c == [] || top == 0 then []
    else [decode(top, c[0])] + Rows(c[1..], top - 1, decode)
  }

  /** Row `k` of `Rows(c, top, decode)` is `c[k]` decoded at position
      `top - k`. */
  lemma {:induction false} RowsAt(c: seq<string>, top: nat, decode: (int, string) -> YaoLine, k: nat)
    requires k < |Rows(c, top, decode)|
    ensures Rows(c, top, decode)[k] == decode(top - k, c[k])
    decreases top
  {
    if k > 0 {
      RowsAt(c[1..], top - 1, decode, k - 1);
    }
  }

  /** Row `k` of the decoded candidates is candidate `k` decoded at
      position `6 - k`. */
  lemma DecodedRowAt(c: seq<string>, k: nat)
    requires k < |Rows(c, 6, ParseSingleYao)|
    ensures Rows(c, 6, ParseSingleYao)[k] == ParseSingleYao(6 - k, c[k])
  {
    RowsAt(c, 6, ParseSingleYao, k);
  }

  /** `_parse_yao_lines`: the first six candidate rows, top line first, at
      positions 6, 5, 4, ... */
  function ParseYaoLines(lines: seq<string>): (r: seq<YaoLine>)
    ensures |r| == (if |Candidates(lines)| < 6 then |Candidates(lines)| else 6)
  {
    Rows(Candidates(lines), 6, ParseSingleYao)
  }

  /** The rows of the input that are not blank, right-stripped, in order. */
  function NonBlankLines(pieces: seq<string>): (r: seq<string>)
    ensures |r| <= |pieces|
    ensures forall k :: 0 <= k < |r| ==> r[k] != [] && !IsSpace(r[k][|r[k]| - 1])
    decreases |pieces|
  {
    if pieces == [] then []
    else
      (if AllSpace(pieces[0]) then [] else [RStrip(pieces[0])]) + NonBlankLines(pieces[1..])
  }

  /** Rows are kept one piece at a time: the rows of two blocks of pieces
      are the rows of each, in order. */
  lemma {:induction false} NonBlankLinesAppend(a: seq<string>, b: seq<string>)
    ensures NonBlankLines(a + b) == NonBlankLines(a) + NonBlankLines(b)
    decreases |a|
  {
    if a == [] {
      assert a + b == b;
    } else {
      assert (a + b)[0] == a[0] && (a + b)[1..] == a[1..] + b;
      NonBlankLinesAppend(a[1..], b);
    }
  }

  /** A blank piece is dropped; any other piece is kept, right-stripped. */
  lemma NonBlankLinesOne(p: string)
    ensures AllSpace(p) ==> NonBlankLines([p]) == []
    ensures !AllSpace(p) ==> NonBlankLines([p]) == [RStrip(p)] && RStrip(p) != []
  {
    assert [p][1..] == [];
  }

  /** `LiuYaoParser.parse`. An oversized input yields only the E001 error;
      anything else yields the metadata and the hexagram lines with no
      errors. */
  function Parse(rawText: string): (c: ChartRecord)
    ensures |rawText| > MaxInputLength ==>
      c == ChartRecord(None, [], [ErrorEntry(E001, TooLongMessage)])
    ensures |rawText| <= MaxInputLength ==>
      && c.errors == []
      && c.baseInfo == Some(ParseBaseInfo(NonBlankLines(Split(rawText, '\n'))))
      && c.yaoLines == ParseYaoLines(NonBlankLines(Split(rawText, '\n')))
  {
    if |rawText| > MaxInputLength then
      ChartRecord(None, [], [ErrorEntry(E001, TooLongMessage)])
    else
      var lines := NonBlankLines(Split(rawText, '\n'));
      ChartRecord(Some(ParseBaseInfo(lines)), ParseYaoLines(lines), [])
  }

  /** A single row is kept iff it is a hexagram-line row; any other row is
      dropped. */
  lemma CandidatesOne(x: string)
    ensures Candidates([x]) == (if IsCandidate(x) then [x] else [])
  {
    assert [x][1..] == [];
  }

  /** Classification is row by row: the candidates of two blocks of rows
      are the candidates of each, in order. */
  lemma CandidatesAppend(a: seq<string>, b: seq<string>)
    ensures Candidates(a + b) == Candidates(a) + Candidates(b)
  {
    FilterAppend(a, b, IsCandidate);
  }

  lemma {:induction false} FilterAppend(a: seq<string>, b: seq<string>, keep: string -> bool)
    ensures Filter(a + b, keep) == Filter(a, keep) + Filter(b, keep)
    decreases |a|
  {
    if a == [] {
      assert a + b == b;
    } else {
      assert (a + b)[0] == a[0] && (a + b)[1..] == a[1..] + b;
      FilterAppend(a[1..], b, keep);
    }
  }

  /** The lines of any parse sit at distinct positions within 1..6, in
      strictly descending order, each labelled with its position name. */
  lemma ParsedPositions(rawText: string)
    ensures PositionsWellFormed(Parse(rawText).yaoLines)
  {
    if |rawText| <= MaxInputLength {
      RowPositions(NonBlankLines(Split(rawText, '\n')));
    }
  }

  /** At most six lines, each at a position in 1..6 carrying that
      position's name, strictly descending from the top. */
  predicate PositionsWellFormed(ys: seq<YaoLine>) {
    && |ys| <= 6
    && (forall k :: 0 <= k < |ys| ==> 1 <= ys[k].index <= 6 && ys[k].pos == PosLabels[ys[k].index - 1])
    && (forall i, j :: 0 <= i < j < |ys| ==> ys[i].index > ys[j].index)
  }

  lemma RowPositions(lines: seq<string>)
    ensures PositionsWellFormed(ParseYaoLines(lines))
  {
    RowPlaces(lines);
    TopDownWellFormed(ParseYaoLines(lines));
  }

  lemma TopDownWellFormed(ys: seq<YaoLine>)
    requires |ys| <= 6
    requires forall k :: 0 <= k < |ys| ==> ys[k].index == 6 - k && ys[k].pos == PosLabels[5 - k]
    ensures PositionsWellFormed(ys)
  {
  }

  /** Line `k` of the result is the `k`-th candidate decoded at position
      `6 - k`: it sits at that position, with that position's name... */
  lemma RowPlaces(lines: seq<string>)
    ensures forall k :: 0 <= k < |ParseYaoLines(lines)| ==>
      ParseYaoLines(lines)[k].index == 6 - k && ParseYaoLines(lines)[k].pos == PosLabels[5 - k]
  {
    var c := Candidates(lines);
    forall k | 0 <= k < |ParseYaoLines(lines)|
      ensures ParseYaoLines(lines)[k].index == 6 - k && ParseYaoLines(lines)[k].pos == PosLabels[5 - k]
    {
      RowPlace(c, k);
    }
  }

  /** ... keeps the candidate's stripped text, and is moving exactly when
      the candidate carries a marker. */
  lemma RowTexts(lines: seq<string>)
    ensures forall k :: 0 <= k < |ParseYaoLines(lines)| ==>
      && ParseYaoLines(lines)[k].raw == Strip(Candidates(lines)[k])
      && (ParseYaoLines(lines)[k].moving <==> HasMarker(Candidates(lines)[k]))
  {
    var c := Candidates(lines);
    forall k | 0 <= k < |ParseYaoLines(lines)|
      ensures ParseYaoLines(lines)[k].raw == Strip(c[k])
      ensures ParseYaoLines(lines)[k].moving <==> HasMarker(c[k])
    {
      RowText(c, k);
    }
  }

  lemma RowPlace(c: seq<string>, k: nat)
    requires k < |c| && k < 6
    ensures |Rows(c, 6, ParseSingleYao)| > k
    ensures Rows(c, 6, ParseSingleYao)[k].index == 6 - k
    ensures Rows(c, 6, ParseSingleYao)[k].pos == PosOf(6 - k)
  {
    RowFields(c, 6, ParseSingleYao, k);
  }

  lemma RowText(c: seq<string>, k: nat)
    requires k < |c| && k < 6
    ensures |Rows(c, 6, ParseSingleYao)| > k
    ensures Rows(c, 6, ParseSingleYao)[k].raw == Strip(c[k])
    ensures Rows(c, 6, ParseSingleYao)[k].moving <==> HasMarker(c[k])
  {
    RowFields(c, 6, ParseSingleYao, k);
  }

  /** The fields of row `k` are those of `c[k]` decoded at `top - k`. */
  lemma RowFields(c: seq<string>, top: nat, decode: (int, string) -> YaoLine, k: nat)
    requires k < |c| && k < top
    ensures |Rows(c, top, decode)| > k
    ensures var y, d := Rows(c, top, decode)[k], decode(top - k, c[k]);
      y.index == d.index && y.pos == d.pos && y.raw == d.raw && y.moving == d.moving
  {
    RowsAt(c, top, decode, k);
  }
}
