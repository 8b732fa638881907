/** Chart metadata (`_parse_base_info` and its helpers): the labelled-field
    pattern `key[:：]\s*(.+)` as an explicit scanner, the four-pillars and
    void-branch line heuristics, and the `name[/house][·number]` splitter. */
module ChartMeta {
  import opened Wrappers
  import opened Text
  import opened Records

  predicate IsColon(c: char) {
    c == ':' || c == '：'
  }

  /** Position of the first line break at or after `m`, or the end. */
  function LineEnd(s: string, m: nat): (e: nat)
    requires m <= |s|
    ensures m <= e <= |s|
    ensures forall p :: m <= p < e ==> s[p] != '\n'
    ensures e == |s| || s[e] == '\n'
    decreases |s| - m
  {
    if m == |s| || s[m] == '\n' then m else LineEnd(s, m + 1)
  }

  /** The rest of the line from `m`: up to the next line break or the end. */
  function LineFrom(s: string, m: nat): (r: string)
    requires m <= |s|
    ensures '\n' !in r
    ensures r == s[m..LineEnd(s, m)]
  {
    var e := LineEnd(s, m);
    assert forall p :: 0 <= p < |s[m..e]| ==> s[m..e][p] == s[m + p];
    s[m..e]
  }

  /** The last position in `[j, m)` that is not a line break. */
  function BackOff(s: string, j: nat, m: nat): (r: Option<nat>)
    requires j <= m <= |s|
    ensures r.Some? ==> j <= r.value < m && s[r.value] != '\n'
    ensures r.Some? ==> forall p :: r.value < p < m ==> s[p] == '\n'
    ensures r.None? ==> forall p :: j <= p < m ==> s[p] == '\n'
    decreases m - j
  {
    if m == j then None
    else if s[m - 1] != '\n' then Some(m - 1)
    else BackOff(s, j, m - 1)
  }

  /** Where the group `(.+)` starts when `\s*(.+)` is matched at `j`: the
      greedy `\s*` takes the whole whitespace run and gives back characters
      only when nothing is left for `.+`, which needs one character other
      than a line break. */
  function CaptureStart(s: string, j: nat): (m: Option<nat>)
    requires j <= |s|
    ensures m.Some? ==> j <= m.value < |s| && s[m.value] != '\n'
    ensures m.Some? ==> forall p :: j <= p < m.value ==> IsSpace(s[p])
    ensures SkipSpace(s, j) < |s| ==> m == Some(SkipSpace(s, j))
    ensures SkipSpace(s, j) == |s| && m.Some? ==> forall p :: m.value < p < |s| ==> s[p] == '\n'
    ensures m.None? <==> forall p :: j <= p < |s| ==> s[p] == '\n'
  {
    var k := SkipSpace(s, j);
    if k < |s| then Some(k) else BackOff(s, j, k)
  }

  /** The group `(.+)` captured when `\s*(.+)` is matched at `j`: the rest
      of the line from the capture start. */
  function CaptureFrom(s: string, j: nat): (r: Option<string>)
    requires j <= |s|
    ensures r.Some? ==> r.value != [] && '\n' !in r.value
    ensures r.Some? <==> CaptureStart(s, j).Some?
    ensures r.Some? ==> r.value == LineFrom(s, CaptureStart(s, j).value)
  {
    match CaptureStart(s, j)
    case None => None
    case Some(m) => Some(LineFrom(s, m))
  }

  /** The text captured when `key[:：]\s*(.+)` matches at `i`, if it does. */
  function MatchAt(s: string, key: string, i: nat): (r: Option<string>)
    requires i <= |s|
    ensures r.Some? ==> r.value != [] && '\n' !in r.value
    ensures r.Some? ==>
      && OccursAt(s, key, i) && i + |key| < |s| && IsColon(s[i + |key|])
      && r == CaptureFrom(s, i + |key| + 1)
  {
    var j := i + |key|;
    if OccursAt(s, key, i) && j < |s| && IsColon(s[j]) then CaptureFrom(s, j + 1) else None
  }

  /** Leftmost position at or after `from` where the labelled pattern matches
      (`re.search`). */
  function FindLabel(s: string, key: string, from: nat): (r: Option<nat>)
    requires from <= |s|
    ensures r.Some? ==> from <= r.value <= |s| && MatchAt(s, key, r.value).Some?
    ensures r.Some? ==> forall k :: from <= k < r.value ==> MatchAt(s, key, k).None?
    ensures r.None? <==> forall k :: from <= k <= |s| ==> MatchAt(s, key, k).None?
    decreases |s| - from
  {
    if MatchAt(s, key, from).Some? then Some(from)
    else if from == |s| then None
    else FindLabel(s, key, from + 1)
  }

  /** `_extract_first`: the stripped group of the first match, confined to
      one line. */
  function ExtractFirst(s: string, key: string): (r: Option<string>)
    ensures r.None? <==> forall k :: 0 <= k <= |s| ==> MatchAt(s, key, k).None?
    ensures r.Some? ==> '\n' !in r.value
    ensures r.Some? ==> Trimmed(r.value)
    ensures r.Some? <==> FindLabel(s, key, 0).Some?
    ensures r.Some? ==> r.value == Strip(MatchAt(s, key, FindLabel(s, key, 0).value).value)
  {
    match FindLabel(s, key, 0)
    case None => None
    case Some(i) => Some(StripLine(MatchAt(s, key, i).value))
  }

  /** A one-line capture, stripped. */
  function StripLine(g: string): (r: string)
    requires '\n' !in g
    ensures '\n' !in r
    ensures Trimmed(r)
  {
    StripKeepsOut(g, '\n');
    Strip(g)
  }

  /** A row `key：value` with a trimmed one-line value yields that value,
      whatever rows come before it, as long as they do not hold the key's
      first character. */
  lemma ExtractFirstReadsLabelledLine(pre: string, key: string, v: string, rest: string)
    requires key != [] && key[0] !in pre
    requires v != [] && !IsSpace(v[0]) && !IsSpace(v[|v| - 1]) && '\n' !in v
    requires rest == [] || rest[0] == '\n'
    ensures ExtractFirst(pre + key + "：" + v + rest, key) == Some(v)
  {
    var s := pre + key + "：" + v + rest;
    LabelledRowPieces(pre, key, v, rest);
    LabelledValueAt(s, key, |pre|, v);
    NoLabelBefore(s, key, |pre|);
    FindLabelAt(s, key, |pre|);
    StripTrimmed(v);
  }

  /** Where the parts of `pre + key + "：" + v + rest` sit. */
  lemma LabelledRowPieces(pre: string, key: string, v: string, rest: string)
    requires key != [] && key[0] !in pre
    requires rest == [] || rest[0] == '\n'
    ensures var s := pre + key + "：" + v + rest; var j := |pre| + |key| + 1;
      && OccursAt(s, key, |pre|) && j <= |s| && IsColon(s[j - 1])
      && j + |v| <= |s| && s[j..j + |v|] == v && (j + |v| == |s| || s[j + |v|] == '\n')
      && forall k :: 0 <= k < |pre| ==> s[k] != key[0]
  {
    var s := pre + key + "：" + v + rest;
    var j := |pre| + |key| + 1;
    assert s == pre + key + ("：" + v + rest);
    assert s[|pre|..|pre| + |key|] == key;
    assert s[j - 1] == '：';
    assert s[j..j + |v|] == v;
    assert forall k :: 0 <= k < |pre| ==> s[k] == pre[k];
    if rest != [] {
      assert s[j + |v|] == rest[0];
    }
  }

  /** The labelled pattern at `i`, followed by a trimmed one-line value,
      captures that value. */
  lemma LabelledValueAt(s: string, key: string, i: nat, v: string)
    requires OccursAt(s, key, i)
    requires i + |key| + |v| < |s| && IsColon(s[i + |key|])
    requires s[i + |key| + 1..i + |key| + 1 + |v|] == v
    requires v != [] && !IsSpace(v[0]) && '\n' !in v
    requires i + |key| + 1 + |v| == |s| || s[i + |key| + 1 + |v|] == '\n'
    ensures MatchAt(s, key, i) == Some(v)
  {
    CaptureOfValue(s, i + |key| + 1, v);
  }

  /** The pattern cannot match where the key's first character is absent. */
  lemma NoLabelBefore(s: string, key: string, i: nat)
    requires key != [] && i <= |s|
    requires forall k :: 0 <= k < i ==> s[k] != key[0]
    ensures forall k :: 0 <= k < i ==> MatchAt(s, key, k).None?
  {
    forall k | 0 <= k < i ensures !OccursAt(s, key, k) {
      if k + |key| <= |s| {
        assert s[k..k + |key|][0] == s[k];
      }
    }
  }

  /** A match with none before it is the one the search reports. */
  lemma FindLabelAt(s: string, key: string, p: nat)
    requires p <= |s| && MatchAt(s, key, p).Some?
    requires forall k :: 0 <= k < p ==> MatchAt(s, key, k).None?
    ensures FindLabel(s, key, 0) == Some(p)
  {
    var r := FindLabel(s, key, 0);
    assert r.Some?;
    assert r.value >= p by {
      assert MatchAt(s, key, r.value).Some?;
    }
    assert r.value <= p by {
      assert MatchAt(s, key, p).Some?;
    }
  }

  lemma CaptureOfValue(s: string, j: nat, v: string)
    requires j + |v| <= |s| && s[j..j + |v|] == v
    requires v != [] && !IsSpace(v[0]) && '\n' !in v
    requires j + |v| == |s| || s[j + |v|] == '\n'
    ensures CaptureFrom(s, j) == Some(v)
  {
    assert s[j] == v[0];
    assert SkipSpace(s, j) == j;
    forall p | j <= p < j + |v| ensures s[p] != '\n' {
      assert s[p] == v[p - j];
    }
    LineEndAt(s, j, j + |v|);
  }

  lemma LineEndAt(s: string, m: nat, e: nat)
    requires m <= e <= |s|
    requires forall p :: m <= p < e ==> s[p] != '\n'
    requires e == |s| || s[e] == '\n'
    ensures LineEnd(s, m) == e
    decreases e - m
  {
    if m < e {
      LineEndAt(s, m + 1, e);
    }
  }

  /** Index of the first of `ns` at or after `from` that `accept` admits. */
  function FirstAccepted(ns: seq<string>, accept: string -> bool, from: nat): (r: Option<nat>)
    requires from <= |ns|
    ensures r.Some? ==> from <= r.value < |ns| && accept(ns[r.value])
    ensures r.Some? ==> forall k :: from <= k < r.value ==> !accept(ns[k])
    ensures r.None? <==> forall k :: from <= k < |ns| ==> !accept(ns[k])
    decreases |ns| - from
  {
    if from == |ns| then None
    else if accept(ns[from]) then Some(from)
    else FirstAccepted(ns, accept, from + 1)
  }

  /** Every line normalised. */
  function NormalizeAll(lines: seq<string>): (r: seq<string>)
    ensures |r| == |lines| && forall k :: 0 <= k < |r| ==> r[k] == Normalize(lines[k])
  {
    seq(|lines|, k requires 0 <= k < |lines| => Normalize(lines[k]))
  }

  /** A four-pillars line: it names a year, month, day and hour, and is not
      the time, question or hexagram line. */
  predicate IsPillarsLine(n: string) {
    && '年' in n && '月' in n && '日' in n && '时' in n
    && !Contains(n, "时间") && !Contains(n, "本卦") && !Contains(n, "变卦") && !Contains(n, "占问")
  }

  /** A void-branch line: it mentions 空 and no year, time or hexagram. */
  predicate IsKongWangLine(n: string) {
    '空' in n && '年' !in n && !Contains(n, "时间") && '卦' !in n
  }

  /** `_extract_pillars`: the first four-pillars line, normalised. */
  function ExtractPillars(lines: seq<string>): (r: Option<string>)
    ensures r.None? <==> forall k :: 0 <= k < |lines| ==> !IsPillarsLine(Normalize(lines[k]))
    ensures r.Some? ==> IsPillarsLine(r.value) && IsNormal(r.value)
    ensures r.Some? ==> exists k :: 0 <= k < |lines| && r.value == Normalize(lines[k]) &&
                          forall j :: 0 <= j < k ==> !IsPillarsLine(Normalize(lines[j]))
  {
    var ns := NormalizeAll(lines);
    match FirstAccepted(ns, IsPillarsLine, 0)
    case None => None
    case Some(k) => Some(ns[k])
  }

  /** `_extract_kong_wang`: the first void-branch line, normalised. */
  function ExtractKongWang(lines: seq<string>): (r: Option<string>)
    ensures r.None? <==> forall k :: 0 <= k < |lines| ==> !IsKongWangLine(Normalize(lines[k]))
    ensures r.Some? ==> IsKongWangLine(r.value) && IsNormal(r.value)
    ensures r.Some? ==> exists k :: 0 <= k < |lines| && r.value == Normalize(lines[k]) &&
                          forall j :: 0 <= j < k ==> !IsKongWangLine(Normalize(lines[j]))
  {
    var ns := NormalizeAll(lines);
    match FirstAccepted(ns, IsKongWangLine, 0)
    case None => None
    case Some(k) => Some(ns[k])
  }

  /** Position of the first `c` at or after `from`, or the end. */
  function IndexOf(t: string, c: char, from: nat): (p: nat)
    requires from <= |t|
    ensures from <= p <= |t|
    ensures forall k :: from <= k < p ==> t[k] != c
    ensures p == |t| || t[p] == c
    decreases |t| - from
  {
    if from == |t| || t[from] == c then from else IndexOf(t, c, from + 1)
  }

  /** The middle dot before a hexagram's number. */
  const Dot: char := '\U{B7}'

  /** An empty string stands for "absent" (`x.strip() or None`). */
  function NonEmpty(s: string): (r: Option<string>)
    ensures r.Some? <==> s != []
    ensures r.Some? ==> r.value == s
  {
    if s == [] then None else Some(s)
  }

  /** `_parse_gua_meta`: a hexagram field `name[/house][·number]` split into
      its name and house. The name is the text before the first `/`; the
      house is what follows, up to the first middle dot; both are stripped. */
  function ParseGuaMeta(text: Option<string>): (r: (Option<string>, Option<string>))
    ensures text.None? || text.value == [] ==> r == (None, None)
    ensures r.0.Some? ==> '/' !in r.0.value || r.1.None?
    ensures r.1.Some? ==> Dot !in r.1.value && r.1.value != []
    ensures r.1.Some? ==> r.0.Some? && '/' !in r.0.value
  {
    if text.None? || text.value == [] then (None, None)
    else SplitGua(Normalize(text.value))
  }

  /** The splitter applied to normalised hexagram text. */
  function SplitGua(t: string): (r: (Option<string>, Option<string>))
    requires IsNormal(t)
    ensures r.0.Some? ==> '/' !in r.0.value || r.1.None?
    ensures r.1.Some? ==> Dot !in r.1.value && r.1.value != []
    ensures r.1.Some? ==> r.0.Some? && '/' !in r.0.value
  {
    if t == [] || t[0] == '/' then
      // `[^/]+` cannot match at the start: the normalised text is the name
      (Some(t), None)
    else
      var a := IndexOf(t, '/', 0);
      var name := Strip(t[..a]);
      var house :=
        if a + 1 < |t| && t[a + 1] != Dot then
          var b := IndexOf(t, Dot, a + 1);
          StripKeepsOut(t[a + 1..b], Dot);
          Strip(t[a + 1..b])
        else [];
      StripKeepsOut(t[..a], '/');
      assert t[..a][0] == t[0];
      (NonEmpty(name), NonEmpty(house))
  }

  /** Stripping never introduces a character. */
  lemma StripKeepsOut(s: string, c: char)
    requires c !in s
    ensures c !in Strip(s)
  {
    var r := Strip(s);
    var i := SkipSpace(s, 0);
    forall p | 0 <= p < |r| ensures r[p] != c {
      assert r[p] == s[i + p];
    }
  }

  /** Round trip: a hexagram field written as `name/house·digits` gives its
      name and house back. */
  lemma ParseGuaMetaRoundTrip(name: string, house: string, digits: string)
    requires IsNormal(name) && name != [] && '/' !in name
    requires IsNormal(house) && house != [] && Dot !in house
    requires IsNormal(name + "/" + house + [Dot] + digits)
    ensures ParseGuaMeta(Some(name + "/" + house + [Dot] + digits)) == (Some(name), Some(house))
  {
    var t := name + "/" + house + [Dot] + digits;
    NormalizeFixesNormal(t);
    SplitGuaRoundTrip(name, house, digits);
  }

  lemma SplitGuaRoundTrip(name: string, house: string, digits: string)
    requires IsNormal(name) && name != [] && '/' !in name
    requires IsNormal(house) && house != [] && Dot !in house
    requires IsNormal(name + "/" + house + [Dot] + digits)
    ensures SplitGua(name + "/" + house + [Dot] + digits) == (Some(name), Some(house))
  {
    var t := name + "/" + house + [Dot] + digits;
    GuaTextCuts(name, house, digits);
    assert t[0] == name[0];
    StripTrimmed(name);
    StripTrimmed(house);
  }

  /** Where the splitter cuts `name/house·digits`. */
  lemma GuaTextCuts(name: string, house: string, digits: string)
    requires name != [] && '/' !in name && house != [] && Dot !in house
    ensures var t := name + "/" + house + [Dot] + digits;
      && IndexOf(t, '/', 0) == |name| && t[..|name|] == name
      && |name| + 1 < |t| && t[|name| + 1] != Dot
      && IndexOf(t, Dot, |name| + 1) == |name| + 1 + |house|
      && t[|name| + 1..|name| + 1 + |house|] == house
  {
    var t := name + "/" + house + [Dot] + digits;
    var a := |name|;
    assert t[..a] == name;
    IndexOfAt(t, '/', 0, a);
    var b := a + 1 + |house|;
    assert t[a + 1..b] == house;
    assert t[a + 1] == house[0];
    IndexOfAt(t, Dot, a + 1, b);
  }

  lemma IndexOfAt(t: string, c: char, from: nat, p: nat)
    requires from <= p < |t| && t[p] == c
    requires forall k :: from <= k < p ==> t[k] != c
    ensures IndexOf(t, c, from) == p
    decreases p - from
  {
    if from < p {
      IndexOfAt(t, c, from + 1, p);
    }
  }

  /** The labels of the labelled fields. */
  const TimeLabel: string := "时间"
  const QuestionLabel: string := "占问"
  const MainGuaLabel: string := "本卦"
  const ChangedGuaLabel: string := "变卦"

  /** `_parse_base_info`: every metadata field of the chart. The house is the
      main hexagram's house, or the changed hexagram's when the main one has
      none. */
  function ParseBaseInfo(lines: seq<string>): (r: BaseInfo)
    ensures r.question == ExtractFirst(Join(lines, "\n"), QuestionLabel)
    ensures r.castTime == ExtractFirst(Join(lines, "\n"), TimeLabel)
    ensures r.fourPillars == ExtractPillars(lines)
    ensures r.kongWangRaw == ExtractKongWang(lines)
    ensures var text := Join(lines, "\n");
      && r.mainGua == ParseGuaMeta(ExtractFirst(text, MainGuaLabel)).0
      && r.changedGua == ParseGuaMeta(ExtractFirst(text, ChangedGuaLabel)).0
      && r.house == (if ParseGuaMeta(ExtractFirst(text, MainGuaLabel)).1.Some?
                     then ParseGuaMeta(ExtractFirst(text, MainGuaLabel)).1
                     else ParseGuaMeta(ExtractFirst(text, ChangedGuaLabel)).1)
  {
    var text := Join(lines, "\n");
    var (benName, benGong) := ParseGuaMeta(ExtractFirst(text, MainGuaLabel));
    var (bianName, bianGong) := ParseGuaMeta(ExtractFirst(text, ChangedGuaLabel));
    BaseInfo(
      question := ExtractFirst(text, QuestionLabel),
      castTime := ExtractFirst(text, TimeLabel),
      fourPillars := ExtractPillars(lines),
      kongWangRaw := ExtractKongWang(lines),
      mainGua := benName,
      changedGua := bianName,
      house := if benGong.Some? then benGong else bianGong
    )
  }
}
