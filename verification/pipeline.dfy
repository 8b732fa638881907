/** Parser and validator composed: what the validator can say about a
    record the parser produced. */
module Pipeline {
  import opened Wrappers
  import opened Text
  import opened Records
  import opened Sorting
  import opened Parser
  import opened Validator

  /** Parse a text and check the parser's output: the parser's own errors
      come first in the verdict, and the text is accepted iff no error was
      found at all. */
  function Check(rawText: string): (v: Verdict)
    ensures var prior := Parse(rawText).errors;
      |v.errors| >= |prior| && v.errors[..|prior|] == prior
    ensures v.valid <==> v.errors == []
  {
    Validate(FromParse(Parse(rawText)))
  }

  lemma IndexesOfParse(c: ChartRecord)
    ensures Indexes(FromParse(c).items) == seq(|c.yaoLines|, k requires 0 <= k < |c.yaoLines| => c.yaoLines[k].index)
  {
    IndexesOfRecords(FromParse(c).items, c.yaoLines);
  }

  lemma {:induction false} IndexesOfRecords(items: seq<YaoItem>, ys: seq<YaoLine>)
    requires |items| == |ys| && forall k :: 0 <= k < |ys| ==> items[k] == Record(ys[k])
    ensures Indexes(items) == seq(|ys|, k requires 0 <= k < |ys| => ys[k].index)
    decreases |ys|
  {
    if ys != [] {
      IndexesOfRecords(items[1..], ys[1..]);
    }
  }

  /** A list of records has one index per entry. */
  lemma {:induction false} RecordIndexes(items: seq<YaoItem>)
    requires forall k :: 0 <= k < |items| ==> items[k].Record?
    ensures |Indexes(items)| == |items|
    decreases |items|
  {
    if items != [] {
      RecordIndexes(items[1..]);
    }
  }

  /** A parse that yields six lines never fails the count or index checks:
      its positions are 6..1, so every error the validator reports is an
      E201 for an incomplete moving line. */
  lemma SixLinesPassStructure(rawText: string)
    ensures |Parse(rawText).yaoLines| == 6 ==>
      && (forall e :: e in Check(rawText).errors ==> e.code == E201)
      && |Check(rawText).errors| == |IncompleteIndexes(FromParse(Parse(rawText)).items)|
  {
    if |Parse(rawText).yaoLines| == 6 {
      SixParsedRows(rawText);
      TopDownChart(Parse(rawText));
    }
  }

  /** Six parsed lines carry the positions 6, 5, 4, 3, 2, 1 in order, and
      the parse itself reported nothing. */
  lemma SixParsedRows(rawText: string)
    ensures |Parse(rawText).yaoLines| == 6 ==>
      && Parse(rawText).errors == []
      && forall k :: 0 <= k < 6 ==> Parse(rawText).yaoLines[k].index == 6 - k
  {
    if |Parse(rawText).yaoLines| == 6 {
      assert |rawText| <= MaxInputLength;
      RowPlaces(NonBlankLines(Split(rawText, '\n')));
    }
  }

  /** A clean record whose six lines sit at positions 6..1 draws only the
      E201 entries from the validator. */
  lemma TopDownChart(c: ChartRecord)
    requires c.errors == [] && |c.yaoLines| == 6
    requires forall k :: 0 <= k < 6 ==> c.yaoLines[k].index == 6 - k
    ensures Validate(FromParse(c)).errors == MovingErrors(FromParse(c).items)
  {
    TopDownIndexes(c);
    ReversedOneToSix();
    OnlyMovingErrors(FromParse(c));
  }

  lemma TopDownIndexes(c: ChartRecord)
    requires |c.yaoLines| == 6 && forall k :: 0 <= k < 6 ==> c.yaoLines[k].index == 6 - k
    ensures Indexes(FromParse(c).items) == [6, 5, 4, 3, 2, 1]
  {
    IndexesOfParse(c);
    var ix := Indexes(FromParse(c).items);
    assert ix[0] == 6 && ix[1] == 5 && ix[2] == 4 && ix[3] == 3 && ix[4] == 2 && ix[5] == 1;
  }

  /** A parse that finds fewer than six lines is reported with E101 (the
      count found) and E102 (the index list found), then any E201s. */
  lemma FewLinesReport(rawText: string)
    ensures |rawText| <= MaxInputLength && |Parse(rawText).yaoLines| < 6 ==>
      Check(rawText).errors ==
        [CountError(|Parse(rawText).yaoLines|), IndexError(Indexes(FromParse(Parse(rawText)).items))]
        + MovingErrors(FromParse(Parse(rawText)).items)
  {
    if |rawText| <= MaxInputLength && |Parse(rawText).yaoLines| < 6 {
      FewLinesChart(Parse(rawText));
    }
  }

  /** A clean record with fewer than six lines draws E101, E102 and then
      the E201 entries. */
  lemma FewLinesChart(c: ChartRecord)
    requires c.errors == [] && |c.yaoLines| < 6
    ensures Validate(FromParse(c)).errors ==
      [CountError(|c.yaoLines|), IndexError(Indexes(FromParse(c).items))] + MovingErrors(FromParse(c).items)
  {
    var chart := FromParse(c);
    RecordIndexes(chart.items);
    ShortChartReport(chart);
    assert chart.errors + [CountError(|chart.items|), IndexError(Indexes(chart.items))]
      == [CountError(|chart.items|), IndexError(Indexes(chart.items))];
  }

  /** An oversized input is reported as exactly E001, E101 (no lines) and
      E102 (an empty index list), in that order. */
  lemma TooLongReport(rawText: string)
    requires |rawText| > MaxInputLength
    ensures Check(rawText).errors ==
      [ErrorEntry(E001, TooLongMessage), CountError(0), IndexError([])]
    ensures !Check(rawText).valid
  {
    var chart := FromParse(Parse(rawText));
    assert chart.items == [];
    assert Indexes([]) == [];
    assert InsertionSort([]) == [];
    assert MovingErrors([]) == [];
  }

  /** A parse is accepted exactly when the input was within the length
      limit, six lines were found, and no moving line lacks its transformed
      relative or stroke. */
  lemma AcceptedIffComplete(rawText: string)
    ensures Check(rawText).valid <==>
      && |rawText| <= MaxInputLength
      && |Parse(rawText).yaoLines| == 6
      && IncompleteIndexes(FromParse(Parse(rawText)).items) == []
  {
    var c := Parse(rawText);
    var chart := FromParse(c);
    var v := Validate(chart);
    var added := v.errors[|chart.errors|..];
    if |rawText| <= MaxInputLength && |c.yaoLines| == 6 {
      SixLinesPassStructure(rawText);
    }
    if v.valid {
      assert added == [];
    }
  }
  /** A row with a moving marker but no second stroke is an incomplete
      moving line. */
  lemma MovingWithoutSecondStroke(index: int, line: string)
    ensures HasMarker(line) && LacksSecondStroke(line) ==> Incomplete(ParseSingleYao(index, line))
  {
    RowTailFields(index, line);
  }

  /** Such a row, read as line `k` of a parse, is reported with an E201
      naming position `6 - k`. */
  lemma MovingWithoutSecondStrokeReported(rawText: string, k: nat)
    ensures k < |Parse(rawText).yaoLines| && |rawText| <= MaxInputLength ==>
      var row := Candidates(NonBlankLines(Split(rawText, '\n')))[k];
      HasMarker(row) && LacksSecondStroke(row) ==>
        ErrorEntry(E201, MovingMessage(6 - k)) in Check(rawText).errors
  {
    if k < |Parse(rawText).yaoLines| && |rawText| <= MaxInputLength {
      var row := Candidates(NonBlankLines(Split(rawText, '\n')))[k];
      ParsedRow(rawText, k);
      if HasMarker(row) && LacksSecondStroke(row) {
        RowReported(Parse(rawText), k, row);
      }
    }
  }

  /** Line `k` of a parse is candidate row `k` decoded at position `6 - k`. */
  lemma ParsedRow(rawText: string, k: nat)
    ensures k < |Parse(rawText).yaoLines| && |rawText| <= MaxInputLength ==>
      Parse(rawText).yaoLines[k] == ParseSingleYao(6 - k, Candidates(NonBlankLines(Split(rawText, '\n')))[k])
  {
    if k < |Parse(rawText).yaoLines| && |rawText| <= MaxInputLength {
      var lines := NonBlankLines(Split(rawText, '\n'));
      assert Parse(rawText).yaoLines == ParseYaoLines(lines);
      LineAt(lines, k);
    }
  }

  lemma LineAt(lines: seq<string>, k: nat)
    requires k < |ParseYaoLines(lines)|
    ensures ParseYaoLines(lines)[k] == ParseSingleYao(6 - k, Candidates(lines)[k])
  {
    var c := Candidates(lines);
    assert ParseYaoLines(lines) == Rows(c, 6, ParseSingleYao);
    DecodedRowAt(c, k);
  }

  lemma RowReported(c: ChartRecord, k: nat, line: string)
    requires k < |c.yaoLines| && c.yaoLines[k] == ParseSingleYao(6 - k, line)
    requires HasMarker(line) && LacksSecondStroke(line)
    ensures ErrorEntry(E201, MovingMessage(6 - k)) in Validate(FromParse(c)).errors
  {
    MovingWithoutSecondStroke(6 - k, line);
    IncompleteLineReported(c, k);
  }

  /** Every incomplete moving line of a record is reported with its index. */
  lemma IncompleteLineReported(c: ChartRecord, k: nat)
    requires k < |c.yaoLines| && Incomplete(c.yaoLines[k])
    ensures ErrorEntry(E201, MovingMessage(c.yaoLines[k].index)) in Validate(FromParse(c)).errors
  {
    var chart := FromParse(c);
    IncompleteReported(chart.items, k);
    ValidateAppends(chart);
  }

  /** A text whose row `k` decodes to an incomplete moving line is refused
      with an E201 naming position `6 - k`. */
  lemma IncompleteRowReported(rawText: string, k: nat)
    ensures k < |Parse(rawText).yaoLines| && |rawText| <= MaxInputLength ==>
      Incomplete(ParseSingleYao(6 - k, Candidates(NonBlankLines(Split(rawText, '\n')))[k])) ==>
        ErrorEntry(E201, MovingMessage(6 - k)) in Check(rawText).errors
  {
    if k < |Parse(rawText).yaoLines| && |rawText| <= MaxInputLength {
      var row := Candidates(NonBlankLines(Split(rawText, '\n')))[k];
      ParsedRow(rawText, k);
      if Incomplete(ParseSingleYao(6 - k, row)) {
        IncompleteRecordRow(Parse(rawText), k, row);
      }
    }
  }

  lemma IncompleteRecordRow(c: ChartRecord, k: nat, line: string)
    requires k < |c.yaoLines| && c.yaoLines[k] == ParseSingleYao(6 - k, line)
    requires Incomplete(ParseSingleYao(6 - k, line))
    ensures ErrorEntry(E201, MovingMessage(6 - k)) in Validate(FromParse(c)).errors
  {
    IncompleteLineReported(c, k);
  }
}

