# Liu Yao chart parser and validator — a Dafny model

The plugin reads a six-line (六爻) divination chart pasted as plain text. This model covers its two core steps.

- **Parsing** (`LiuYaoParser.parse`). The parser first applies a length guard. It then keeps the non-blank rows and reads the chart metadata: question, cast time, four pillars, void branches, main hexagram, changed hexagram and house. Finally it reads the first six rows whose first word is a six-spirit alias (虎, 白虎, 蛇, ...). Each such row becomes a line record at positions 6, 5, 4, ... from the top. A record holds:
  - the spirit;
  - the hidden relative (伏神);
  - the primary relative (本卦爻);
  - the primary stroke (`—` solid, `- -` broken);
  - the moving flag (a marker X, Χ, ×, O or ○ anywhere in the row);
  - the 世/应 marker;
  - the transformed relative and the transformed stroke.
- **Validation** (`validate`, `format_errors`). The validator checks the parse record. It reports:
  - E101 when there are not six lines;
  - E102 when the sorted indexes are not `[1, 2, 3, 4, 5, 6]`;
  - one E201 per moving line that lacks its transformed relative or stroke.

  It keeps the record's own errors (E001 from the length guard) as a prefix. `format_errors` renders the list as a report with a header, one bullet per error and a closing line.

## Modules

| Module | File | What it holds |
|---|---|---|
| `Wrappers` | `wrappers.dfy` | `Option` |
| `Text` | `text.dfy` | Python's whitespace class, `strip`, `rstrip`, the whitespace normaliser, `split`, `join` and integer rendering |
| `Tables` | `tables.dfy` | The spirit, relative and branch-element tables, the moving markers and the position labels |
| `Records` | `records.dfy` | The line record, metadata, error entries and the parse record |
| `LineGrammar` | `line_grammar.dfy` | The regular expressions of one row, written as explicit scanners |
| `ChartMeta` | `chart_meta.dfy` | The metadata extractors |
| `Parser` | `parser.dfy` | `parse`, the row classifier and the per-row decoder |
| `Sorting` | `sorting.dfy` | `sorted` on integers |
| `Validator` | `validator.dfy` | `validate` and `format_errors` |
| `Pipeline` | `pipeline.dfy` | The parser and validator composed |
| `RowShapes` | `row_shapes.dfy` | The documented row shape read end to end |

### Regular expressions as scanners

Each regular expression the core uses is written as a scanner that returns the same match.

- **Stroke pattern** `(?:-\s*-|—)\s*[XΧ×O○]?`:
  - `StrokeAt` and `DrawAt` match the pattern at one position.
  - `FindDraw` is `search`: the leftmost match.
- **Labelled field** `key[:：]\s*(.+)`:
  - `\s*` is greedy and may cross a line break.
  - It gives characters back only when nothing but line breaks is left for `(.+)`.
  - So an empty `时间：` field followed by another row captures that whole next row. The model keeps this.
- **Hexagram field** `name[/house][·number]` is split by `SplitGua`.

`_normalize_space` is `Strip(Collapse(s))`. `Collapse` turns each run of whitespace into one space. The full-width space and the tab are whitespace in Python, so the two explicit replacements before the collapse change nothing.

### How the source behaves, kept as written

- A row with fewer than four words is still a line record. In that record:
  - the spirit is absent (`None`), although its first word was a known alias;
  - the moving flag is still read from the raw row.
- `_pos_of` labels the top position 上六 whatever the stroke.
- The validator's literal keys `"errors"` and `"爻象数据"` are assumed to be the keys the parser writes. `keys.py` is not part of this model. The model passes the record between the two steps as a typed value.
- `raw` is the row stripped at both ends (`line.strip()`, parser.py:152).
- A whitespace-only relative token strips to `""`. That result is returned as present-but-empty. A second expansion treats it as absent.

## Model

| member | source | states |
|---|---|---|
| Parser.Parse | parser.py:83-106 | Input over 12000 characters gives no metadata, no lines and exactly the E001 entry with the source's message. Any other input gives no errors, the metadata read from the non-blank right-stripped rows, and the lines decoded from those same rows. |
| Parser.ParseSingleYao | parser.py:150-221 | A decoded row keeps its index, the position label and the stripped raw text. It is moving iff the row holds a marker. The line type is solid/broken/unknown exactly as the primary stroke is Yang/Yin/absent. Fewer than four words: no spirit, relatives or stroke. Otherwise: the spirit is the alias's canonical name (or the word itself), the two relatives are expanded, and a primary stroke exists iff the tail holds a stroke match. Without a primary stroke there is no marker and no transformed field. |
| Parser.RowTailFields | parser.py:173-221 | A row of four or more words takes its primary stroke, 世/应 marker and transformed fields from the tail grammar applied to the words after the third. A row lacks a transformed stroke iff it has no second stroke. |
| Parser.ParseTail | parser.py:173-203 | The primary stroke exists iff the tail contains a stroke match. It is solid or broken according to the glyph the first match starts with. When there is a match, the 世/应 marker and both transformed fields are those read from the stripped text after that match. Without one, all three are absent. A transformed relative is never empty. |
| Parser.ParseAfterStroke | parser.py:194-205 | The 世/应 marker is the one the marker stripper finds. The transformed relative and stroke are those read from the text the marker stripper leaves. |
| Parser.TransformedFields | parser.py:197-205 | The transformed stroke exists iff the text contains a stroke match, and its type is that of the match's glyph. The transformed relative is read from the stripped text before that match, or from the whole text when there is none. A transformed relative is non-empty. |
| Parser.FirstStroke | parser.py:175-193 | A stroke type is found iff the pattern matches. It is the type of the alternative that matched at the first match. |
| Parser.TransformedRelative | parser.py:205-218 | The transformed relative is the expansion of the picked token. It is present iff the picker returns a token, and then it is non-empty. |
| Parser.TransformedRelativeOfWord | parser.py:205-218 | The transformed relative of a segment is its first word, expanded, whatever whitespace surrounds it. It is absent when that word is a bare stroke. |
| Parser.KindOf | parser.py:207 | Solid line iff the stroke is Yang, broken line iff Yin, unknown iff absent. |
| Parser.SixGodOf | parser.py:182 | A known alias maps to its canonical spirit name, which maps to itself. Any other word is kept. |
| Parser.StripKeepsMarkers | parser.py:152-154 | The stripped row holds a marker iff the original row does. |
| Parser.CandidatesAreRows | parser.py:133-141 | Every kept row starts with a spirit alias. The row list is kept whole iff every row in it does. |
| Parser.CandidatesOne | parser.py:135-141 | A single row is kept iff it is a hexagram-line row. Any other row is dropped. |
| Parser.Candidates | parser.py:133-141 | At most as many rows as given, and every kept row is a hexagram-line row. |
| Parser.CandidatesAppend | parser.py:135-141 | Classification is row by row: the candidates of two blocks concatenated are the candidates of each, in order. |
| Parser.RowsAt | parser.py:143-148 | Row `k` of the decoded list is candidate `k` decoded at position `top - k`. |
| Parser.Rows | parser.py:143-148 | Decoding stops at the first of: the rows run out, or the positions do. So the list has `min(|c|, top)` lines. |
| Parser.RowPlaces | parser.py:143-148 | Every line `k` of the result sits at position `6 - k`, with that position's label. |
| Parser.RowTexts | parser.py:145-154 | Every line `k` keeps candidate `k`'s stripped text. It is moving iff that candidate holds a marker. |
| Parser.ParsedPositions | parser.py:143-148 | Any parse yields at most six lines. Their positions lie in 1..6, carry the matching labels, and strictly descend from the top. |
| Parser.ParseYaoLines | parser.py:132-148 | The result has six lines, or as many as there are candidate rows if that is fewer. |
| Parser.NonBlankLines | parser.py:96-98 | At most as many rows as pieces. Each kept row is non-empty and has no trailing whitespace. |
| Parser.NonBlankLinesAppend | parser.py:96-98 | Rows are kept piece by piece: the rows of two blocks of pieces are the rows of each, in order. |
| Parser.NonBlankLinesOne | parser.py:96-98 | A blank piece is dropped. Any other piece is kept right-stripped, and is then non-empty. |
| LineGrammar.StrokeAt | parser.py:175 | A long stroke `—` matches exactly that one character. A glyph match starting with `-` ends on a `-`, with only whitespace between the two dashes. If `-` is followed by whitespace and then `-`, it matches. Nothing else starts a match. |
| LineGrammar.DrawAt | parser.py:175 | The full pattern matches iff its stroke glyph does. After the glyph, the match takes whitespace and then at most one moving marker as its last character. The whitespace run is taken whole: when no marker was taken, the match ends at the end of the text or before a character that is neither whitespace nor a marker. |
| LineGrammar.FindDraw | parser.py:175-176 | A match is the leftmost: no stroke glyph starts between the search start and the match. No match means no stroke glyph anywhere from the start on. |
| LineGrammar.DecodeMatchedDraw | parser.py:193 | Decoding the text of a stroke-pattern match gives solid for `—` and broken for `-\s*-`. |
| LineGrammar.DetectDraw | parser.py:230-237 | A long stroke anywhere gives solid, and beats a broken stroke. Otherwise a dash pair, possibly with whitespace between the dashes, gives broken. The result is absent iff neither occurs. |
| LineGrammar.DashPairSqueeze | parser.py:232-235 | The text holds a dash pair with optional whitespace between iff the text with all whitespace removed holds two adjacent dashes. |
| LineGrammar.ExtractShiYing | parser.py:239-255 | The marker is 世 (or 应) iff the first normalised word is exactly 世 (or 应). When a marker is found, the rest is the remaining words joined with spaces. Otherwise the rest is the whole normalised text. The rest is always normalised. |
| LineGrammar.ExtractYaoToken | parser.py:257-265 | A token is the first word of the normalised text. The result is absent iff the text is blank or that word is a bare stroke. |
| LineGrammar.ExtractYaoTokenFirstWord | parser.py:257-265 | Round trip: a text made of whitespace, a word and then nothing or whitespace-led text gives that word back, or nothing when the word is a bare stroke. |
| LineGrammar.ExpandRelToken | parser.py:267-281 | Absent or empty input gives absent. A stripped token that starts with a relative glyph and a branch glyph becomes "full relative + branch + element". Any other token comes back stripped. |
| LineGrammar.ExpandIdempotent | parser.py:267-281 | Expanding a non-empty expansion again changes nothing. |
| LineGrammar.LabelIsFixed | parser.py:275-280 | A canonical label expands to itself. |
| LineGrammar.ExpandAbbreviation | parser.py:275-280 | Any relative glyph followed by any branch glyph expands to the canonical label. |
| LineGrammar.RelLabelInjective | parser.py:279-280 | Distinct glyph pairs give distinct labels. |
| LineGrammar.SingleGlyphKept | parser.py:271-273 | A single non-space glyph comes back unchanged. |
| LineGrammar.ExpandExample | parser.py:267-281 | 财戌 expands to 妻财戌土, and 官酉 expands to 官鬼酉金. |
| ChartMeta.CaptureStart | parser.py:111 | When the whitespace run stops before the end, the group starts right after it. Otherwise it starts at a non-line-break character inside the run, and only line breaks follow it. There is no group iff only line breaks follow. |
| ChartMeta.CaptureFrom | parser.py:111 | The captured group is the rest of the line from the capture start. It is present iff there is a capture start, and then it is non-empty. |
| ChartMeta.MatchAt | parser.py:285 | A match at `i` needs the key at `i` and then a colon, full-width or ASCII. The captured text is the group read from just after the colon. It is non-empty and lies within one line. |
| ChartMeta.FindLabel | parser.py:285 | The reported match position is the leftmost one. No position means no match anywhere. |
| ChartMeta.ExtractFirst | parser.py:283-286 | The value is absent iff the labelled pattern matches nowhere. Otherwise it is the group of the leftmost match, stripped: it lies within one line and has no whitespace at either end. |
| ChartMeta.ExtractFirstReadsLabelledLine | parser.py:111-117 | A row `key：value` with a trimmed value yields exactly that value, after any earlier text that does not contain the key's first character (a title row, say). |
| ChartMeta.ExtractPillars | parser.py:288-297 | The value is absent iff no normalised row names year, month, day and hour without a time, question or hexagram label. Otherwise it is the first such row, normalised. |
| ChartMeta.ExtractKongWang | parser.py:299-310 | The value is absent iff no normalised row mentions 空 without 年, 时间 or 卦. Otherwise it is the first such row, normalised. |
| ChartMeta.ParseGuaMeta | parser.py:312-322 | Absent or empty text gives neither part. A house is present only with a slash-free name. A house holds no middle dot and is non-empty. |
| ChartMeta.ParseGuaMetaRoundTrip | parser.py:312-322 | `name/house·digits`, for a normalised name without `/` and a normalised house without `·`, gives back exactly that name and house. |
| ChartMeta.SplitGua | parser.py:317-322 | A house is present only together with a slash-free name. A house is non-empty and holds no middle dot. |
| ChartMeta.ParseBaseInfo | parser.py:108-130 | The question and cast time are the labelled values of the rows joined by line breaks. The pillars and void branches come from the row heuristics. The hexagram names come from the hexagram fields. The house is the main hexagram's house, falling back to the changed hexagram's. |
| Text.Normalize | parser.py:223-228 | The result is normal. Its only whitespace is the ordinary space, so it holds no tab or full-width space. It never has two spaces in a row, and has no space at either end. It is empty iff the input is all whitespace. |
| Text.NormalizeIdempotent | parser.py:223-228 | Normalising twice is normalising once. |
| Text.SqueezeNormalize | parser.py:223-228 | Normalising changes only whitespace: with all whitespace removed, input and result are equal. |
| Text.FirstWord | parser.py:223-228 | The first space-separated word of the normalised text is the first run of characters that are not whitespace. |
| Text.NormalizeWordSep | parser.py:223-228 | Between a word and non-blank text, a whitespace run of any length and kind becomes exactly one space. The text after it is normalised on its own. |
| Text.IsSpace | parser.py:227 | The whitespace class of `\s` and of `str.strip`: tab to carriage return, `\x1c` to space, NEL, no-break space, U+1680, U+2000 to U+200A, U+2028, U+2029, U+202F, U+205F and the full-width space U+3000. |
| Text.Collapse | parser.py:225-227 | The result is empty iff the input is. It starts with a space iff the input starts with whitespace. Its only whitespace is the ordinary space, and never two in a row. |
| Text.Strip | parser.py:152 | The result is a slice of the input that starts after the leading whitespace run. Everything after it is whitespace. It has no whitespace at either end, and is empty iff the input is all whitespace. |
| Text.RStrip | parser.py:97 | The result is a prefix of the input. Everything after it is whitespace, and it does not end in whitespace. |
| Text.Split | parser.py:156 | At least one piece. No piece holds the separator. The first piece is a prefix of the text. |
| Text.JoinSplit | parser.py:174 | Joining the pieces of a split with the separator restores the text. |
| Text.SplitJoin | validator.py:48 | Splitting a join of separator-free pieces gives the pieces back. |
| Text.JoinEnds | validator.py:48 | A join starts with its first piece and ends with its last. |
| Tables.PosOf | parser.py:324-327 | Positions 1..6 get 初爻, 二爻, 三爻, 四爻, 五爻, 上六. Any other index gets its decimal rendering. |
| Tables.PosOfInjective | parser.py:324-327 | Distinct positions get distinct labels, and no fallback rendering equals a position label. |
| Tables.SixGodCanonical | parser.py:8-21 | Every canonical spirit name is an alias of itself. |
| Tables.KinNamesNotAbbreviations | parser.py:23-44 | No full relative name has a branch glyph as its second character. |
| Sorting.InsertionSort | validator.py:17 | The result is sorted and is a permutation of the input. |
| Sorting.SortedUnique | validator.py:17 | Two sorted sequences with the same elements are equal. |
| Sorting.SortedIsOneToSix | validator.py:16-17 | The sorted indexes equal `[1, 2, 3, 4, 5, 6]` iff the indexes are 1..6, each once, in any order. |
| Validator.FromParse | validator.py:5-6 | The validator sees one record per parsed line, in order, plus the parse's own errors. |
| Validator.ListRepr | validator.py:21 | The rendering is bracketed, and is `[]` iff the list is empty. |
| Validator.ListReprInjective | validator.py:21 | Distinct index lists render differently. |
| Validator.ListReprExample | validator.py:21 | `[6, -1]` renders as `[6, -1]`: decimal renderings separated by a comma and a space. |
| Validator.CountMessage | validator.py:12 | The E101 message: the fixed text around the entry count in decimal. Which count it names is recoverable by `Validator.CountMessageInjective`. |
| Validator.IndexListMessage | validator.py:21 | The E102 message: the fixed text around the list's `repr`. Which list it names is recoverable by `Validator.IndexListMessageInjective`. |
| Validator.MovingMessage | validator.py:33 | The E201 message: the fixed text around the position in decimal. Which position it names is recoverable by `Validator.MovingMessageInjective`. |
| Validator.CountMessageInjective | validator.py:12 | Distinct entry counts give distinct E101 messages. |
| Validator.IndexListMessageInjective | validator.py:21 | Distinct index lists give distinct E102 messages. |
| Validator.MovingMessageInjective | validator.py:33 | Distinct positions give distinct E201 messages. |
| Text.NatToString | validator.py:12 | Python's `str` of a non-negative count: at least one character, all decimal digits, a leading `0` only for zero. Reading the digits back, most significant first, gives the number rendered. |
| Text.IntToString | validator.py:33 | Python's `str` of an integer: a minus sign in front exactly when it is negative, decimal digits otherwise. Reading the rendering back, sign included, gives the number rendered. |
| Text.NatToStringInjective | validator.py:12 | Distinct counts render differently. |
| Text.IntToStringInjective | validator.py:33 | Distinct integers render differently. |
| Validator.CountErrors | validator.py:8-14 | One E101 iff the list does not hold six entries. The entry is then exactly the one whose message names the entry count. |
| Validator.IndexErrors | validator.py:16-23 | One E102 iff the record indexes are not 1..6, each exactly once. The entry is then exactly the one whose message names the index list as found, in list order. |
| Validator.MovingErrors | validator.py:25-35 | One E201 per incomplete moving record, and nothing else. |
| Validator.MovingErrorAt | validator.py:25-35 | The `k`-th E201 entry names the index of the `k`-th incomplete moving record. |
| Validator.IncompleteReported | validator.py:28-35 | Every moving record that lacks its transformed relative or stroke gets an E201 naming its index. |
| Validator.Validate | validator.py:4-38 | The record's errors come first. The added entries are: one E101 iff not six entries; one E102 iff the indexes are not 1..6 once each; one E201 per incomplete moving record. They appear in that order and nothing else is added. Valid iff the final list is empty. The returned record carries the final list. |
| Validator.ValidateAppends | validator.py:5-37 | The final list is the record's list followed by the new entries. |
| Validator.OnlyMovingErrors | validator.py:8-35 | Six records at positions 1..6 in any order draw only the E201 entries. |
| Validator.ShortChartReport | validator.py:8-23 | A line count other than six, with an index count other than six, draws both checks' errors. The order is: E101 with the count, E102 with the index list as found, then the E201s. Such a chart is never valid. |
| Validator.ReportLines | validator.py:44-47 | The report has the header, one `- code: message` bullet per error in order, and the closing line. |
| Validator.FormatErrors | validator.py:41-48 | An empty list gives `未知错误。`. Otherwise the result is the report lines joined with line breaks. |
| Validator.FormatErrorsFrame | validator.py:44-48 | A non-empty report starts with the header and ends with the closing instruction, whatever the messages hold. |
| Validator.FormatErrorsLines | validator.py:41-48 | When no message contains a line break, the report of `n` errors reads back as `n + 2` lines: header, the bullets in order, closing line. |
| Pipeline.SixLinesPassStructure | validator.py:8-35 | A parse that yields six lines never fails the count or index checks. Every reported error is an E201, one per incomplete moving line. |
| Pipeline.SixParsedRows | parser.py:143-148 | Six parsed lines sit at positions 6, 5, 4, 3, 2, 1 in order, and the parse itself reported nothing. |
| Pipeline.TopDownChart | validator.py:16-35 | A clean record with six lines at positions 6..1 draws only the E201 entries. |
| Pipeline.FewLinesReport | validator.py:8-23 | An input within the limit that yields fewer than six lines is reported with E101 (the count found) and E102 (the index list found), then any E201s. |
| Pipeline.MovingWithoutSecondStroke | parser.py:197-205 | A row with a moving marker but no second stroke decodes to an incomplete moving line. |
| Pipeline.MovingWithoutSecondStrokeReported | validator.py:25-35 | Such a row, read as line `k` of a parse, draws an E201 naming position `6 - k`. |
| Pipeline.IncompleteLineReported | validator.py:25-35 | Every incomplete moving line of a parse record draws an E201 naming its index. |
| Pipeline.ParsedRow | parser.py:143-148 | Line `k` of a parse is candidate row `k` decoded at position `6 - k`. |
| Pipeline.TooLongReport | parser.py:85-95 | An oversized input is reported as exactly E001, then E101 for zero lines, then E102 for an empty index list. It is never valid. |
| Pipeline.AcceptedIffComplete | validator.py:4-38 | A text is accepted iff all three hold: it is within the length limit, six lines were found, and no moving line lacks its transformed relative or stroke. |
| Pipeline.Check | main.py:42-43 | The parser's own errors come first in the verdict, and a text is accepted iff no error was found at all. |
| RowShapes.WordsRow | parser.py:152-156 | Words without whitespace, joined by single spaces, survive stripping and normalising and split back into exactly those words. |
| RowShapes.JoinedWordsNormal | parser.py:152-153 | Words joined by single spaces are already normal and stripped. |
| RowShapes.CompleteTail | parser.py:173-205 | The tail `- -× v —`, for a word `v` with no stroke glyph that is not 世 or 应, gives a broken primary stroke, no 世/应 marker, the transformed relative `v` expanded and a solid transformed stroke. |
| RowShapes.TailWithoutRelative | parser.py:173-205 | The tail `- -× —` gives a broken primary stroke, no marker, no transformed relative and a solid transformed stroke. |
| RowShapes.CanonicalMovingRow | parser.py:150-221 | The documented moving row `spirit relative relative - -× v —` decodes to a broken moving line with no 世/应 marker, the transformed relative `v` expanded and a solid transformed stroke. The validator finds nothing missing in it. |
| RowShapes.MissingRelativeRow | parser.py:150-221 | The same row with the transformed relative left out, `spirit relative relative - -× —`, decodes to a broken moving line with a solid transformed stroke and no transformed relative. It is incomplete. |
| RowShapes.MissingRelativeReported | validator.py:25-35 | A text whose row `k` has that shape is refused with an E201 naming position `6 - k`. |
| Pipeline.IncompleteRowReported | validator.py:25-35 | A text whose row `k` decodes to an incomplete moving line is refused with an E201 naming position `6 - k`. |

## Left out

- `main.py` (the chat-bot command handler) and `prompt.py` (the prompt builder) are outside the core. They do I/O and call a language model.
- `ParsedYaoLine.to_dict`, the JSON keys and the `keys.py` constants are left out. `keys.py` is not part of this model. The record is passed as typed Dafny values.
- `splitlines` also splits on `\r`, `\v`, `\f`, `\x1c`–`\x1e`, `\x85`, `\u2028` and `\u2029`. The model splits on `\n` only.
- The general regular-expression engine is left out. Only the patterns the core uses are modelled, as scanners.
- Unicode case folding and normalisation are left out; characters are compared as code points.
- The `__main__` demonstration blocks are left out.
- `raw_text or ""` with `raw_text = None` is left out. The model's input is always a string.
- `sorted` raising on a `None` index is left out. Every record in the model carries an integer index.
- An entry of the line list that is not a mapping is modelled as `NonRecord`. Its contents are not modelled.
- Parser.ParseSingleYao: its own contract does not state the 世/应 marker or the transformed fields. `Parser.RowTailFields` ties them, with the primary stroke, to `Parser.ParseTail` of the row's tail. This keeps the row decoder's contract within the prover's budget.
- Parser.ParseYaoLines: its contract states only the length. The content of each line is stated by `Parser.RowPlaces`, `Parser.RowTexts` and `Parser.RowsAt`.
- Parser.Candidates: its contract states only that the kept rows are hexagram-line rows. `Parser.CandidatesOne` and `Parser.CandidatesAppend` fix the filter on every input.
- Parser.Rows: its contract states only the length. `Parser.RowsAt` states each line.
- ChartMeta.SplitGua: its contract states only the shape of the two parts. Their values are stated for the `name/house·digits` shape by `ChartMeta.ParseGuaMetaRoundTrip`.
- ChartMeta.ParseGuaMeta: when the text starts with `/`, `re.match` fails and the source returns the whole normalised text as the name. The model does the same. The round trip is stated only for the `name/house·digits` shape.
