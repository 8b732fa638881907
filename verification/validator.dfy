/** The structural validator (`validate`) and the error renderer
    (`format_errors`). The validator reads the parse record's error list and
    line list; entries of the line list that are not records are counted but
    otherwise skipped, as the source skips anything that is not a mapping. */
module Validator {
  import opened Wrappers
  import opened Text
  import opened Records
  import opened Sorting

  /** One entry of the line list: a line record, or something else. */
  datatype YaoItem = Record(line: YaoLine) | NonRecord

  /** The validator's view of a parse record. */
  datatype Chart = Chart(baseInfo: Option<BaseInfo>, items: seq<YaoItem>, errors: seq<ErrorEntry>)

  /** The parser's record as the validator sees it: every line a record. */
  function FromParse(c: ChartRecord): (r: Chart)
    ensures |r.items| == |c.yaoLines| && r.errors == c.errors
    ensures forall k :: 0 <= k < |r.items| ==> r.items[k] == Record(c.yaoLines[k])
  {
    Chart(c.baseInfo, seq(|c.yaoLines|, k requires 0 <= k < |c.yaoLines| => Record(c.yaoLines[k])), c.errors)
  }

  /** The outcome: validity, the full error list, and the record with its
      error list replaced by that list. */
  datatype Verdict = Verdict(valid: bool, errors: seq<ErrorEntry>, chart: Chart)

  /** The `index` of every record entry, in list order. */
  function Indexes(items: seq<YaoItem>): (r: seq<int>)
    ensures |r| <= |items|
    decreases |items|
  {
    if items == [] then []
    else (if items[0].Record? then [items[0].line.index] else []) + Indexes(items[1..])
  }

  /** Python truthiness of an optional string. */
  predicate Truthy(o: Option<string>) {
    o.Some? && o.value != []
  }

  /** A moving line that lacks its transformed relative or stroke. */
  predicate Incomplete(l: YaoLine) {
    l.moving && (!Truthy(l.bianYao) || l.bianHua.None?)
  }

  /** Indexes of the incomplete moving lines, in list order. */
  function IncompleteIndexes(items: seq<YaoItem>): (r: seq<int>)
    decreases |items|
  {
    if items == [] then []
    else
      (if items[0].Record? && Incomplete(items[0].line) then [items[0].line.index] else [])
      + IncompleteIndexes(items[1..])
  }

  /** The E101 message, naming the entry count. */
  function CountMessage(n: nat): string {
    "必须识别到 6 行爻象，当前识别到 " + IntToString(n) + " 行。"
  }

  /** The decimal renderings of a list of integers. */
  function Renderings(xs: seq<int>): (r: seq<string>)
    ensures |r| == |xs|
    ensures forall k :: 0 <= k < |r| ==> r[k] == IntToString(xs[k])
  {
    seq(|xs|, k requires 0 <= k < |xs| => IntToString(xs[k]))
  }

  /** Python's `repr` of a list of integers: the decimal renderings between
      brackets, separated by a comma and a space. */
  function ListRepr(xs: seq<int>): (r: string)
    ensures |r| >= 2 && r[0] == '[' && r[|r| - 1] == ']'
    ensures (r == "[]") <==> xs == []
  {
    JoinNonEmpty(Renderings(xs), ", ");
    "[" + Join(Renderings(xs), ", ") + "]"
  }

  /** Renderings join to nothing only when there are none. */
  lemma JoinNonEmpty(ps: seq<string>, sep: string)
    requires forall k :: 0 <= k < |ps| ==> ps[k] != []
    ensures (Join(ps, sep) == []) <==> ps == []
  {
    if ps != [] {
      JoinEnds(ps, sep);
    }
  }

  /** The E102 message, naming the index list as found. */
  function IndexListMessage(xs: seq<int>): string {
    "index 必须完整为 6..1 且不重复，当前为 " + ListRepr(xs) + "。"
  }

  /** The E201 message, naming the position of the incomplete line. */
  function MovingMessage(index: int): string {
    "第 " + IntToString(index) + " 爻为动爻，但缺少变卦爻/变卦爻阴阳。"
  }

  /** Equal texts around a fixed head and tail have equal middles. */
  lemma Middle(head: string, x: string, y: string, tail: string)
    requires head + x + tail == head + y + tail
    ensures x == y
  {
    assert x == (head + x + tail)[|head|..|head| + |x|];
  }

  /** Distinct lists render differently. */
  lemma ListReprInjective(xs: seq<int>, ys: seq<int>)
    ensures ListRepr(xs) == ListRepr(ys) ==> xs == ys
  {
    if ListRepr(xs) == ListRepr(ys) {
      var ps, qs := Renderings(xs), Renderings(ys);
      Middle("[", Join(ps, ", "), Join(qs, ", "), "]");
      JoinInjective(ps, qs, ", ");
      forall k | 0 <= k < |xs| ensures xs[k] == ys[k] {
        IntToStringInjective(xs[k], ys[k]);
      }
    }
  }

  /** Distinct counts give distinct E101 messages. */
  lemma CountMessageInjective(m: nat, n: nat)
    ensures CountMessage(m) == CountMessage(n) ==> m == n
  {
    if CountMessage(m) == CountMessage(n) {
      Middle("必须识别到 6 行爻象，当前识别到 ", IntToString(m), IntToString(n), " 行。");
      IntToStringInjective(m, n);
    }
  }

  /** Distinct index lists give distinct E102 messages. */
  lemma IndexListMessageInjective(xs: seq<int>, ys: seq<int>)
    ensures IndexListMessage(xs) == IndexListMessage(ys) ==> xs == ys
  {
    if IndexListMessage(xs) == IndexListMessage(ys) {
      Middle("index 必须完整为 6..1 且不重复，当前为 ", ListRepr(xs), ListRepr(ys), "。");
      ListReprInjective(xs, ys);
    }
  }

  /** Distinct positions give distinct E201 messages. */
  lemma MovingMessageInjective(m: int, n: int)
    ensures MovingMessage(m) == MovingMessage(n) ==> m == n
  {
    if MovingMessage(m) == MovingMessage(n) {
      Middle("第 ", IntToString(m), IntToString(n), " 爻为动爻，但缺少变卦爻/变卦爻阴阳。");
      IntToStringInjective(m, n);
    }
  }

  /** The rendering follows Python's list `repr`. */
  lemma ListReprExample()
    ensures ListRepr([6, -1]) == "[6, -1]"
  {
    var ps := Renderings([6, -1]);
    assert IntToString(6) == "6" && IntToString(-1) == "-1";
    assert ps == ["6", "-1"];
    assert Join(ps, ", ") == "6" + ", " + Join(["-1"], ", ");
  }


  function CountError(n: nat): (e: ErrorEntry)
    ensures e.code == E101
  {
    ErrorEntry(E101, CountMessage(n))
  }

  function IndexError(xs: seq<int>): (e: ErrorEntry)
    ensures e.code == E102
  {
    ErrorEntry(E102, IndexListMessage(xs))
  }

  /** One E201 per incomplete moving record, in list order. */
  function MovingErrors(items: seq<YaoItem>): (r: seq<ErrorEntry>)
    ensures |r| == |IncompleteIndexes(items)|
    ensures forall k :: 0 <= k < |r| ==> r[k].code == E201
    decreases |items|
  {
    if items == [] then []
    else
      var head :=
        if items[0].Record? && Incomplete(items[0].line)
        then [ErrorEntry(E201, MovingMessage(items[0].line.index))]
        else [];
      head + MovingErrors(items[1..])
  }

  /** The `k`-th E201 entry names the `k`-th incomplete moving record. */
  lemma {:induction false} MovingErrorAt(items: seq<YaoItem>, k: nat)
    ensures k < |MovingErrors(items)| ==>
      MovingErrors(items)[k] == ErrorEntry(E201, MovingMessage(IncompleteIndexes(items)[k]))
    decreases |items|
  {
    if items != [] && k < |MovingErrors(items)| {
      if items[0].Record? && Incomplete(items[0].line) {
        if k > 0 {
          MovingErrorAt(items[1..], k - 1);
        }
      } else {
        MovingErrorAt(items[1..], k);
      }
    }
  }

  /** Number of entries with the given code. */
  function CodeCount(errs: seq<ErrorEntry>, code: ErrorCode): nat
    decreases |errs|
  {
    if errs == [] then 0
    else (if errs[0].code == code then 1 else 0) + CodeCount(errs[1..], code)
  }

  lemma {:induction false} CodeCountAppend(a: seq<ErrorEntry>, b: seq<ErrorEntry>, code: ErrorCode)
    ensures CodeCount(a + b, code) == CodeCount(a, code) + CodeCount(b, code)
    decreases |a|
  {
    if a == [] {
      assert a + b == b;
    } else {
      assert (a + b)[1..] == a[1..] + b;
      CodeCountAppend(a[1..], b, code);
    }
  }

  /** Rank of a code in the order the checks run. */
  function Rank(code: ErrorCode): nat {
    match code
    case E001 => 0
    case E101 => 1
    case E102 => 2
    case E201 => 3
  }

  /** The E101 check: one error, naming the entry count, when the list does
      not hold six entries. */
  function CountErrors(items: seq<YaoItem>): (r: seq<ErrorEntry>)
    ensures |r| == (if |items| != 6 then 1 else 0)
    ensures forall k :: 0 <= k < |r| ==> r[k].code == E101
    ensures r != [] ==> r == [CountError(|items|)]
  {
    if |items| != 6 then [CountError(|items|)] else []
  }

  /** The E102 check: one error, naming the index list as found, when the
      sorted record indexes are not `[1, 2, 3, 4, 5, 6]`, which is to say
      when the indexes are not 1..6 each exactly once. */
  function IndexErrors(items: seq<YaoItem>): (r: seq<ErrorEntry>)
    ensures |r| == (if multiset(Indexes(items)) != multiset(OneToSix) then 1 else 0)
    ensures forall k :: 0 <= k < |r| ==> r[k].code == E102
    ensures r != [] ==> r == [IndexError(Indexes(items))]
  {
    SortedIsOneToSix(Indexes(items));
    if InsertionSort(Indexes(items)) != OneToSix then [IndexError(Indexes(items))] else []
  }

  /** The newly found errors, in check order: E101, E102, then the E201s. */
  function NewErrors(items: seq<YaoItem>): seq<ErrorEntry> {
    CountErrors(items) + IndexErrors(items) + MovingErrors(items)
  }

  /** `validate`: the record's own errors are kept as a prefix; after them
      come at most one E101 (the line count is not six), at most one E102
      (the record indexes are not 1..6, each once) and one E201 per
      incomplete moving record, in that order; the record is valid iff the
      final list is empty. */
  function Validate(chart: Chart): (v: Verdict)
    ensures |v.errors| >= |chart.errors| && v.errors[..|chart.errors|] == chart.errors
    ensures var added := v.errors[|chart.errors|..];
      && CodeCount(added, E101) == (if |chart.items| != 6 then 1 else 0)
      && CodeCount(added, E102) == (if multiset(Indexes(chart.items)) != multiset(OneToSix) then 1 else 0)
      && CodeCount(added, E201) == |IncompleteIndexes(chart.items)|
      && CodeCount(added, E001) == 0
      && |added| == CodeCount(added, E101) + CodeCount(added, E102) + CodeCount(added, E201)
      && InCheckOrder(added)
    ensures v.valid <==> v.errors == []
    ensures v.chart == chart.(errors := v.errors)
  {
    var added := NewErrors(chart.items);
    AddedShape(chart.items);
    var errors := chart.errors + added;
    assert errors[|chart.errors|..] == added;
    Verdict(|errors| == 0, errors, chart.(errors := errors))
  }

  /** With six records at positions 1..6 in some order, the only errors
      the validator adds are the E201 entries for incomplete moving lines. */
  lemma OnlyMovingErrors(chart: Chart)
    requires |chart.items| == 6 && multiset(Indexes(chart.items)) == multiset(OneToSix)
    ensures Validate(chart).errors == chart.errors + MovingErrors(chart.items)
  {
    ValidateAppends(chart);
    assert NewErrors(chart.items) == MovingErrors(chart.items) by {
      assert CountErrors(chart.items) == [] && IndexErrors(chart.items) == [];
    }
  }

  /** The verdict's error list is the record's own list followed by the
      newly found entries. */
  lemma ValidateAppends(chart: Chart)
    ensures Validate(chart).errors == chart.errors + NewErrors(chart.items)
  {
  }

  /** A chart with a line count other than six, whose record indexes also
      number other than six, draws both structural errors: E101 with the
      count, then E102 with the index list as found, then the E201s. */
  lemma ShortChartReport(chart: Chart)
    requires |chart.items| != 6 && |Indexes(chart.items)| != 6
    ensures Validate(chart).errors ==
      chart.errors + [CountError(|chart.items|), IndexError(Indexes(chart.items))] + MovingErrors(chart.items)
    ensures !Validate(chart).valid
  {
    var x, y := CountError(|chart.items|), IndexError(Indexes(chart.items));
    ValidateAppends(chart);
    ShortNewErrors(chart.items);
    AppendAssoc(chart.errors, [x, y], MovingErrors(chart.items));
  }

  lemma AppendAssoc<T>(a: seq<T>, b: seq<T>, c: seq<T>)
    ensures a + (b + c) == a + b + c
  {
  }

  lemma ShortNewErrors(items: seq<YaoItem>)
    requires |items| != 6 && |Indexes(items)| != 6
    ensures NewErrors(items) == [CountError(|items|), IndexError(Indexes(items))] + MovingErrors(items)
  {
    IndexErrorsShort(items);
    ThreeParts(CountErrors(items), IndexErrors(items), MovingErrors(items),
               CountError(|items|), IndexError(Indexes(items)));
  }

  lemma ThreeParts(a: seq<ErrorEntry>, b: seq<ErrorEntry>, m: seq<ErrorEntry>, x: ErrorEntry, y: ErrorEntry)
    requires a == [x] && b == [y]
    ensures a + b + m == [x, y] + m
  {
  }

  lemma IndexErrorsShort(items: seq<YaoItem>)
    requires |Indexes(items)| != 6
    ensures IndexErrors(items) == [IndexError(Indexes(items))]
  {
    SortedLength(Indexes(items));
  }

  /** Every incomplete moving record is reported, with its own index. */
  lemma {:induction false} IncompleteReported(items: seq<YaoItem>, k: nat)
    requires k < |items| && items[k].Record? && Incomplete(items[k].line)
    ensures ErrorEntry(E201, MovingMessage(items[k].line.index)) in MovingErrors(items)
    decreases k
  {
    if k > 0 {
      IncompleteReported(items[1..], k - 1);
      assert items[1..][k - 1] == items[k];
    }
  }

  /** Entries appear in the order the checks run. */
  predicate InCheckOrder(errs: seq<ErrorEntry>) {
    forall i, j :: 0 <= i < j < |errs| ==> Rank(errs[i].code) <= Rank(errs[j].code)
  }

  lemma AddedShape(items: seq<YaoItem>)
    ensures var added := NewErrors(items);
      && CodeCount(added, E101) == (if |items| != 6 then 1 else 0)
      && CodeCount(added, E102) == (if multiset(Indexes(items)) != multiset(OneToSix) then 1 else 0)
      && CodeCount(added, E201) == |IncompleteIndexes(items)|
      && CodeCount(added, E001) == 0
      && |added| == CodeCount(added, E101) + CodeCount(added, E102) + CodeCount(added, E201)
      && InCheckOrder(added)
  {
    PartsShape(CountErrors(items), IndexErrors(items), MovingErrors(items));
  }

  /** At most one E101, then at most one E102, then only E201s: the counts
      add up and the order is the check order. */
  lemma PartsShape(a: seq<ErrorEntry>, b: seq<ErrorEntry>, m: seq<ErrorEntry>)
    requires |a| <= 1 && (forall k :: 0 <= k < |a| ==> a[k].code == E101)
    requires |b| <= 1 && (forall k :: 0 <= k < |b| ==> b[k].code == E102)
    requires forall k :: 0 <= k < |m| ==> m[k].code == E201
    ensures CodeCount(a + b + m, E101) == |a|
    ensures CodeCount(a + b + m, E102) == |b|
    ensures CodeCount(a + b + m, E201) == |m|
    ensures CodeCount(a + b + m, E001) == 0
    ensures InCheckOrder(a + b + m)
  {
    AllE201Count(m);
    CodeCountAppend(a, b, E101);
    CodeCountAppend(a, b, E102);
    CodeCountAppend(a, b, E201);
    CodeCountAppend(a, b, E001);
    CodeCountAppend(a + b, m, E101);
    CodeCountAppend(a + b, m, E102);
    CodeCountAppend(a + b, m, E201);
    CodeCountAppend(a + b, m, E001);
    var all := a + b + m;
    forall i, j | 0 <= i < j < |all| ensures Rank(all[i].code) <= Rank(all[j].code) {
      assert Rank(all[i].code) == (if i < |a| then 1 else if i < |a| + |b| then 2 else 3);
      assert Rank(all[j].code) == (if j < |a| then 1 else if j < |a| + |b| then 2 else 3);
    }
  }

  /** A list of E201 entries counts only as E201. */
  lemma {:induction false} AllE201Count(errs: seq<ErrorEntry>)
    requires forall k :: 0 <= k < |errs| ==> errs[k].code == E201
    ensures CodeCount(errs, E201) == |errs|
    ensures CodeCount(errs, E101) == 0 && CodeCount(errs, E102) == 0 && CodeCount(errs, E001) == 0
    decreases |errs|
  {
    if errs != [] {
      AllE201Count(errs[1..]);
    }
  }

  const Header: string := "解析失败："
  const Trailer: string := "请补充缺失字段后重新发送 /liuyao。"
  const UnknownError: string := "未知错误。"

  /** One bullet line: `- code: message`. */
  function Bullet(e: ErrorEntry): string {
    "- " + e.code.Text() + ": " + e.message
  }

  /** The lines of a non-empty error report: header, one bullet per error in
      order, and the fixed closing instruction. */
  function ReportLines(errors: seq<ErrorEntry>): (r: seq<string>)
    ensures |r| == |errors| + 2
    ensures r[0] == Header && r[|r| - 1] == Trailer
    ensures forall k :: 0 <= k < |errors| ==> r[k + 1] == Bullet(errors[k])
  {
    [Header] + seq(|errors|, k requires 0 <= k < |errors| => Bullet(errors[k])) + [Trailer]
  }

  /** `format_errors`. */
  function FormatErrors(errors: seq<ErrorEntry>): (r: string)
    ensures errors == [] ==> r == UnknownError
    ensures errors != [] ==> r == Join(ReportLines(errors), "\n")
  {
    if errors == [] then UnknownError else Join(ReportLines(errors), "\n")
  }

  /** A non-empty report starts with the header line and ends with the
      closing instruction, whatever the messages hold. */
  lemma FormatErrorsFrame(errors: seq<ErrorEntry>)
    requires errors != []
    ensures |FormatErrors(errors)| >= |Header| && FormatErrors(errors)[..|Header|] == Header
    ensures |FormatErrors(errors)| >= |Trailer|
    ensures FormatErrors(errors)[|FormatErrors(errors)| - |Trailer|..] == Trailer
  {
    JoinEnds(ReportLines(errors), "\n");
  }

  /** When no message contains a line break, the report of `n` errors reads
      back as exactly `n + 2` lines: the header, the bullets in order, and
      the closing instruction. */
  lemma FormatErrorsLines(errors: seq<ErrorEntry>)
    requires errors != []
    requires forall k :: 0 <= k < |errors| ==> '\n' !in errors[k].message
    ensures var lines := Split(FormatErrors(errors), '\n');
      && |lines| == |errors| + 2
      && lines[0] == Header
      && lines[|lines| - 1] == Trailer
      && forall k :: 0 <= k < |errors| ==> lines[k + 1] == "- " + errors[k].code.Text() + ": " + errors[k].message
  {
    ReportLinesOneLine(errors);
    SplitJoin(ReportLines(errors), '\n');
  }

  lemma ReportLinesOneLine(errors: seq<ErrorEntry>)
    requires forall k :: 0 <= k < |errors| ==> '\n' !in errors[k].message
    ensures forall k :: 0 <= k < |ReportLines(errors)| ==> '\n' !in ReportLines(errors)[k]
  {
    forall k | 0 <= k < |ReportLines(errors)| ensures '\n' !in ReportLines(errors)[k] {
      ReportLineOneLine(errors, k);
    }
  }

  lemma ReportLineOneLine(errors: seq<ErrorEntry>, k: nat)
    requires forall k :: 0 <= k < |errors| ==> '\n' !in errors[k].message
    requires k < |errors| + 2
    ensures '\n' !in ReportLines(errors)[k]
  {
    if k == 0 {
      FixedLinesOneLine();
    } else if k == |errors| + 1 {
      FixedLinesOneLine();
    } else {
      BulletOneLine(errors[k - 1]);
    }
  }

  lemma FixedLinesOneLine()
    ensures '\n' !in Header && '\n' !in Trailer
  {
  }

  lemma BulletOneLine(e: ErrorEntry)
    requires '\n' !in e.message
    ensures '\n' !in Bullet(e)
  {
    assert '\n' !in e.code.Text();
  }
}
