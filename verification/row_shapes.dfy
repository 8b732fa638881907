/** The documented row shape, read end to end: a spirit, two relatives, the
    primary stroke with its moving marker, the transformed relative and the
    transformed stroke, all separated by single spaces. */
module RowShapes {
  import opened Wrappers
  import opened Text
  import opened Tables
  import opened Records
  import opened LineGrammar
  import opened Parser
  import opened Validator
  import opened Pipeline

  /** A word is its own normal form. */
  lemma WordNormal(w: string)
    requires IsWord(w)
    ensures Normalize(w) == w
  {
    CollapseWord(w, []);
    assert w + [] == w;
    StripTrimmed(w);
  }

  /** Words joined by single spaces are already normal and trimmed. */
  lemma {:induction false} JoinedWordsNormal(parts: seq<string>)
    requires |parts| >= 1 && forall k :: 0 <= k < |parts| ==> IsWord(parts[k])
    ensures Normalize(Join(parts, " ")) == Join(parts, " ")
    ensures Strip(Join(parts, " ")) == Join(parts, " ")
    decreases |parts|
  {
    JoinedWordsStripped(parts);
    if |parts| == 1 {
      WordNormal(parts[0]);
    } else {
      var rest := Join(parts[1..], " ");
      assert Join(parts, " ") == parts[0] + " " + rest;
      assert forall k :: 0 <= k < |parts[1..]| ==> IsWord(parts[1..][k]);
      JoinedWordsNormal(parts[1..]);
      JoinEnds(parts[1..], " ");
      assert IsWord(parts[1]) && rest[..|parts[1]|] == parts[1];
      assert rest[0] == parts[1][0];
      NormalConsWord(parts[0], rest);
    }
  }

  /** A word, one space and a normal text starting with a non-space form a
      normal text. */
  lemma NormalConsWord(w: string, rest: string)
    requires IsWord(w) && rest != [] && !IsSpace(rest[0]) && Normalize(rest) == rest
    ensures Normalize(w + " " + rest) == w + " " + rest
  {
    assert IsSpace(' ');
    NormalizeWordSep(w, " ", rest);
  }

  /** Words joined by single spaces neither start nor end with whitespace. */
  lemma JoinedWordsStripped(parts: seq<string>)
    requires |parts| >= 1 && forall k :: 0 <= k < |parts| ==> IsWord(parts[k])
    ensures Strip(Join(parts, " ")) == Join(parts, " ")
  {
    JoinEnds(parts, " ");
    StripBetweenWords(Join(parts, " "), parts[0], parts[|parts| - 1]);
  }

  /** A string that starts with one word and ends with another is stripped. */
  lemma StripBetweenWords(line: string, first: string, last: string)
    requires IsWord(first) && IsWord(last)
    requires |line| >= |first| && line[..|first|] == first
    requires |line| >= |last| && line[|line| - |last|..] == last
    ensures Strip(line) == line
  {
    assert line[0] == first[0];
    assert line[|line| - 1] == last[|last| - 1];
    StripTrimmed(line);
  }

  /** A row written as words separated by single spaces reads back as
      exactly those words. */
  lemma WordsRow(parts: seq<string>)
    requires |parts| >= 1 && forall k :: 0 <= k < |parts| ==> IsWord(parts[k])
    ensures RowWords(Join(parts, " ")) == parts
  {
    JoinedWordsNormal(parts);
    forall k | 0 <= k < |parts| ensures ' ' !in parts[k] {
      assert IsSpace(' ');
    }
    SplitJoin(parts, ' ');
  }

  /** Joining a piece in front of a non-empty list. */
  lemma JoinCons(p: string, ps: seq<string>, sep: string)
    requires ps != []
    ensures Join([p] + ps, sep) == p + sep + Join(ps, sep)
  {
    assert ([p] + ps)[1..] == ps;
  }

  /** The tail words rejoined. */
  lemma TailJoin(v: string)
    ensures Join(["-", "-\U{D7}", v, "\U{2014}"], " ") == "- -\U{D7} " + v + " \U{2014}"
  {
    JoinCons(v, ["\U{2014}"], " ");
    assert [v, "\U{2014}"] == [v] + ["\U{2014}"];
    JoinCons("-\U{D7}", [v, "\U{2014}"], " ");
    assert ["-\U{D7}", v, "\U{2014}"] == ["-\U{D7}"] + [v, "\U{2014}"];
    JoinCons("-", ["-\U{D7}", v, "\U{2014}"], " ");
    assert ["-", "-\U{D7}", v, "\U{2014}"] == ["-"] + ["-\U{D7}", v, "\U{2014}"];
  }

  /** The seven-word row, as a join of its words. */
  lemma SevenWords(g: string, f: string, b: string, v: string)
    ensures g + " " + f + " " + b + " - -\U{D7} " + v + " \U{2014}"
      == Join([g, f, b, "-", "-\U{D7}", v, "\U{2014}"], " ")
  {
    var t := ["-", "-\U{D7}", v, "\U{2014}"];
    TailJoin(v);
    JoinCons(b, t, " ");
    JoinCons(f, [b] + t, " ");
    JoinCons(g, [f] + ([b] + t), " ");
    assert [g] + ([f] + ([b] + t)) == [g, f, b, "-", "-\U{D7}", v, "\U{2014}"];
  }

  /** The tail words without a relative, rejoined. */
  lemma ShortTailJoin()
    ensures Join(["-", "-\U{D7}", "\U{2014}"], " ") == "- -\U{D7} \U{2014}"
  {
    JoinCons("-\U{D7}", ["\U{2014}"], " ");
    assert ["-\U{D7}", "\U{2014}"] == ["-\U{D7}"] + ["\U{2014}"];
    JoinCons("-", ["-\U{D7}", "\U{2014}"], " ");
    assert ["-", "-\U{D7}", "\U{2014}"] == ["-"] + ["-\U{D7}", "\U{2014}"];
  }

  /** The six-word row, as a join of its words. */
  lemma SixWords(g: string, f: string, b: string)
    ensures g + " " + f + " " + b + " - -\U{D7} \U{2014}"
      == Join([g, f, b, "-", "-\U{D7}", "\U{2014}"], " ")
  {
    var t := ["-", "-\U{D7}", "\U{2014}"];
    ShortTailJoin();
    JoinCons(b, t, " ");
    JoinCons(f, [b] + t, " ");
    JoinCons(g, [f] + ([b] + t), " ");
    assert [g] + ([f] + ([b] + t)) == [g, f, b, "-", "-\U{D7}", "\U{2014}"];
  }

  /** The tail of a row: the words after the third, joined by single
      spaces. */
  lemma RowTailOfWords(parts: seq<string>)
    requires |parts| >= 4 && forall k :: 0 <= k < |parts| ==> IsWord(parts[k])
    ensures |RowWords(Join(parts, " "))| >= 4
    ensures RowTail(Join(parts, " ")) == Join(parts[3..], " ")
  {
    WordsRow(parts);
  }

  /** In `- -× ...` the first stroke match is the broken stroke with its
      marker, the first four characters. */
  lemma MarkedBrokenFirst(tail: string)
    requires |tail| >= 4 && tail[..4] == "- -\U{D7}"
    ensures FindDraw(tail, 0) == Some(Span(0, 4)) && tail[0] == '-'
  {
    assert tail[0] == '-' && tail[1] == ' ' && tail[2] == '-' && tail[3] == '\U{D7}';
    assert SkipSpace(tail, 2) == 2;
    assert SkipSpace(tail, 1) == 2;
    assert StrokeAt(tail, 0) == Some(3);
    assert SkipSpace(tail, 3) == 3;
    assert DrawAt(tail, 0) == Some(4);
  }

  /** Stripping one leading space from a word-led text. */
  lemma StripOneLead(x: string)
    requires x != [] && !IsSpace(x[0]) && !IsSpace(x[|x| - 1])
    ensures Strip(" " + x) == x
  {
    StripLeadSpace(x);
    StripTrimmed(x);
  }

  /** A word followed by one space strips to the word. */
  lemma StripWordSpace(v: string)
    requires IsWord(v)
    ensures Strip(v + " ") == v
  {
    var t := v + " ";
    assert t[0] == v[0] && t[|v|] == ' ' && t[|v| - 1] == v[|v| - 1];
    assert SkipSpace(t, 0) == 0;
    assert TrimEnd(t, |v|) == |v|;
    assert TrimEnd(t, |t|) == |v|;
    assert t[..|v|] == v;
  }

  /** `v —`, with `v` neither 世 nor 应, has no 世/应 marker and passes
      through whole. */
  lemma NoMarkerBeforeSolid(v: string)
    requires IsWord(v) && v != "世" && v != "应"
    ensures ExtractShiYing(v + " \U{2014}") == (v + " \U{2014}", None)
  {
    FirstWordBeforeSolid(v);
  }

  /** `v —` is normal and its first word is `v`. */
  lemma FirstWordBeforeSolid(v: string)
    requires IsWord(v)
    ensures Normalize(v + " \U{2014}") == v + " \U{2014}"
    ensures Split(v + " \U{2014}", ' ')[0] == v
  {
    SolidPairNormal(v);
    SolidPairFirst(v);
  }

  lemma SolidPairNormal(v: string)
    requires IsWord(v)
    ensures Normalize(v + " \U{2014}") == v + " \U{2014}"
  {
    WordNormal("\U{2014}");
    NormalConsWord(v, "\U{2014}");
    assert v + " " + "\U{2014}" == v + " \U{2014}";
  }

  lemma SolidPairFirst(v: string)
    requires IsWord(v)
    ensures Split(v + " \U{2014}", ' ')[0] == v
  {
    var rest := v + " \U{2014}";
    assert IsSpace(' ');
    SplitFirst(rest, ' ', |v|);
    assert rest[..|v|] == v;
  }

  /** In `v —`, with no stroke glyph in `v`, the only stroke match is the
      final `—`. */
  lemma SolidAfterWord(v: string)
    requires IsWord(v) && '-' !in v && LongStroke !in v
    ensures var rest := v + " \U{2014}";
      FindDraw(rest, 0).Some? && FindDraw(rest, 0).value.start == |v| + 1
      && rest[|v| + 1] == LongStroke && rest[..|v| + 1] == v + " "
  {
    var rest := v + " \U{2014}";
    var n := |v| + 1;
    assert rest[n] == LongStroke;
    assert StrokeAt(rest, n) == Some(n + 1);
    forall k | 0 <= k < n ensures StrokeAt(rest, k).None? {
      assert rest[k] != '-' && rest[k] != LongStroke;
    }
    assert rest[..n] == v + " ";
  }

  /** The relative read before the second stroke is the word itself,
      expanded. */
  lemma RelativeOfWord(v: string)
    requires IsWord(v) && '-' !in v && LongStroke !in v
    ensures TransformedRelative(Strip(v + " ")) == ExpandRelToken(Some(v))
  {
    StripWordSpace(v);
    WordRelative(v);
  }

  /** A word holding no stroke glyph is its own transformed relative,
      expanded. */
  lemma WordRelative(v: string)
    requires IsWord(v) && '-' !in v && LongStroke !in v
    ensures TransformedRelative(v) == ExpandRelToken(Some(v))
  {
    assert v !in StrokeWords by {
      assert v[0] != '-' && v[0] != LongStroke;
    }
    assert "" + v + [] == v;
    TransformedRelativeOfWord("", v, []);
  }

  /** After the marked broken stroke, `v —` gives no 世/应 marker, the
      relative `v` expanded and a solid transformed stroke. */
  lemma RelativeThenSolid(v: string)
    requires IsWord(v) && '-' !in v && LongStroke !in v && v != "世" && v != "应"
    ensures var f := ParseAfterStroke(v + " \U{2014}");
      f.shiYing.None? && f.bianYao == ExpandRelToken(Some(v)) && f.bianHua == Some(Yang)
  {
    var rest := v + " \U{2014}";
    NoMarkerBeforeSolid(v);
    var sy := ExtractShiYing(rest);
    assert sy.0 == rest && sy.1.None?;
    SolidAfterWord(v);
    var second := FindDraw(rest, 0).value;
    assert GlyphStroke(rest[second.start]) == Yang;
    RelativeOfWord(v);
    var tf := TransformedFields(rest);
    assert tf.0 == TransformedRelative(Strip(rest[..second.start]));
    assert tf == (ExpandRelToken(Some(v)), Some(Yang));
  }

  /** The documented tail `- -× v —`: broken primary stroke, no 世/应
      marker, the relative `v`, and a solid transformed stroke. */
  lemma CompleteTail(v: string)
    requires IsWord(v) && '-' !in v && LongStroke !in v && v != "世" && v != "应"
    ensures var f := ParseTail("- -\U{D7} " + v + " \U{2014}");
      && f.benHua == Some(Yin) && f.shiYing.None?
      && f.bianYao == ExpandRelToken(Some(v)) && f.bianHua == Some(Yang)
  {
    var tail := "- -\U{D7} " + v + " \U{2014}";
    assert tail[..4] == "- -\U{D7}";
    MarkedBrokenFirst(tail);
    assert tail[4..] == " " + (v + " \U{2014}");
    StripOneLead(v + " \U{2014}");
    RelativeThenSolid(v);
  }

  /** The same tail with the relative left out, `- -× —`: the transformed
      stroke is still read, the transformed relative is not. */
  lemma TailWithoutRelative()
    ensures var f := ParseTail("- -\U{D7} \U{2014}");
      f.benHua == Some(Yin) && f.shiYing.None? && f.bianYao.None? && f.bianHua == Some(Yang)
  {
    var tail := "- -\U{D7} \U{2014}";
    assert tail[..4] == "- -\U{D7}";
    MarkedBrokenFirst(tail);
    var s := tail[4..];
    assert s == " " + "\U{2014}";
    StripOneLead("\U{2014}");
    var rest := Strip(s);
    WordNormal(rest);
    SplitFirst(rest, ' ', 1);
    var sy := ExtractShiYing(rest);
    assert sy.0 == rest && sy.1.None?;
    assert StrokeAt(rest, 0) == Some(1);
    assert FindDraw(rest, 0).value.start == 0;
    assert rest[..0] == [];
    assert Normalize([]) == [] by { assert AllSpace([]); }
  }

  /** A row whose tail is `tail` takes its primary stroke, 世/应 marker and
      transformed fields from `ParseTail(tail)`. */
  lemma FieldsOfTail(index: int, line: string, tail: string)
    requires |RowWords(line)| >= 4 && RowTail(line) == tail
    ensures var y := ParseSingleYao(index, line);
      (y.benHua, y.shiYing, y.bianYao, y.bianHua) == TailTuple(ParseTail(tail))
  {
    RowTailFields(index, line);
  }

  /** The seven-word row splits into three words and the tail `- -× v —`. */
  lemma SevenWordTail(g: string, f: string, b: string, v: string)
    requires IsWord(g) && IsWord(f) && IsWord(b) && IsWord(v)
    ensures var line := g + " " + f + " " + b + " - -\U{D7} " + v + " \U{2014}";
      |RowWords(line)| >= 4 && RowTail(line) == "- -\U{D7} " + v + " \U{2014}"
  {
    var parts := [g, f, b, "-", "-\U{D7}", v, "\U{2014}"];
    SevenWords(g, f, b, v);
    assert forall k :: 0 <= k < |parts| ==> IsWord(parts[k]);
    RowTailOfWords(parts);
    assert parts[3..] == ["-", "-\U{D7}", v, "\U{2014}"];
    TailJoin(v);
  }

  /** The six-word row splits into three words and the tail `- -× —`. */
  lemma SixWordTail(g: string, f: string, b: string)
    requires IsWord(g) && IsWord(f) && IsWord(b)
    ensures var line := g + " " + f + " " + b + " - -\U{D7} \U{2014}";
      |RowWords(line)| >= 4 && RowTail(line) == "- -\U{D7} \U{2014}"
  {
    var parts := [g, f, b, "-", "-\U{D7}", "\U{2014}"];
    SixWords(g, f, b);
    assert forall k :: 0 <= k < |parts| ==> IsWord(parts[k]);
    RowTailOfWords(parts);
    assert parts[3..] == ["-", "-\U{D7}", "\U{2014}"];
    ShortTailJoin();
  }

  /** A row holding `×` is a moving row. */
  lemma MarkedAt(line: string, i: nat)
    requires i < |line| && line[i] == '\U{D7}'
    ensures HasMarker(line)
  {
    assert '\U{D7}' in MovingMarkers;
  }

  /** The seven-word row carries the moving marker. */
  lemma SevenWordMarked(g: string, f: string, b: string, v: string)
    ensures HasMarker(g + " " + f + " " + b + " - -\U{D7} " + v + " \U{2014}")
  {
    var line := g + " " + f + " " + b + " - -\U{D7} " + v + " \U{2014}";
    assert line[|g| + |f| + |b| + 6] == '\U{D7}';
    MarkedAt(line, |g| + |f| + |b| + 6);
  }

  /** The six-word row carries the moving marker. */
  lemma SixWordMarked(g: string, f: string, b: string)
    ensures HasMarker(g + " " + f + " " + b + " - -\U{D7} \U{2014}")
  {
    var line := g + " " + f + " " + b + " - -\U{D7} \U{2014}";
    assert line[|g| + |f| + |b| + 6] == '\U{D7}';
    MarkedAt(line, |g| + |f| + |b| + 6);
  }

  /** Any marked row with the tail `- -× v —` decodes to a complete
      broken moving line. */
  lemma CompleteMovingLine(index: int, line: string, v: string)
    requires IsWord(v) && '-' !in v && LongStroke !in v && v != "世" && v != "应"
    requires |RowWords(line)| >= 4 && RowTail(line) == "- -\U{D7} " + v + " \U{2014}"
    requires HasMarker(line)
    ensures var y := ParseSingleYao(index, line);
      && y.yinYang == YinLine && y.benHua == Some(Yin) && y.moving
      && y.shiYing.None? && y.bianYao == ExpandRelToken(Some(v)) && y.bianHua == Some(Yang)
      && !Incomplete(y)
  {
    CompleteTail(v);
    FieldsOfTail(index, line, "- -\U{D7} " + v + " \U{2014}");
    StripTrimmed(v);
  }

  /** Any marked row with the tail `- -× —` decodes to an incomplete
      broken moving line: solid transformed stroke, no transformed relative. */
  lemma RelativeMissingLine(index: int, line: string)
    requires |RowWords(line)| >= 4 && RowTail(line) == "- -\U{D7} \U{2014}"
    requires HasMarker(line)
    ensures var y := ParseSingleYao(index, line);
      && y.yinYang == YinLine && y.moving
      && y.bianYao.None? && y.bianHua == Some(Yang)
      && Incomplete(y)
  {
    TailWithoutRelative();
    FieldsOfTail(index, line, "- -\U{D7} \U{2014}");
  }

  /** The documented moving row `g f b - -× v —` decodes to a broken
      moving line whose transformed relative is `v` and whose transformed
      stroke is solid: it is complete. */
  lemma CanonicalMovingRow(index: int, g: string, f: string, b: string, v: string)
    requires IsWord(g) && IsWord(f) && IsWord(b) && IsWord(v)
    requires '-' !in v && LongStroke !in v && v != "世" && v != "应"
    ensures var y := ParseSingleYao(index, g + " " + f + " " + b + " - -\U{D7} " + v + " \U{2014}");
      && y.yinYang == YinLine && y.benHua == Some(Yin) && y.moving
      && y.shiYing.None? && y.bianYao == ExpandRelToken(Some(v)) && y.bianHua == Some(Yang)
      && !Incomplete(y)
  {
    SevenWordTail(g, f, b, v);
    SevenWordMarked(g, f, b, v);
    CompleteMovingLine(index, g + " " + f + " " + b + " - -\U{D7} " + v + " \U{2014}", v);
  }

  /** The same row with its transformed relative left out, `g f b - -× —`,
      still has a solid transformed stroke but no transformed relative: it
      is an incomplete moving line. */
  lemma MissingRelativeRow(index: int, g: string, f: string, b: string)
    requires IsWord(g) && IsWord(f) && IsWord(b)
    ensures var y := ParseSingleYao(index, g + " " + f + " " + b + " - -\U{D7} \U{2014}");
      && y.yinYang == YinLine && y.moving
      && y.bianYao.None? && y.bianHua == Some(Yang)
      && Incomplete(y)
  {
    SixWordTail(g, f, b);
    SixWordMarked(g, f, b);
    RelativeMissingLine(index, g + " " + f + " " + b + " - -\U{D7} \U{2014}");
  }

  /** A text whose row `k` is the documented moving row with its
      transformed relative left out is refused with an E201 naming
      position `6 - k`. */
  lemma MissingRelativeReported(rawText: string, k: nat, g: string, f: string, b: string)
    requires IsWord(g) && IsWord(f) && IsWord(b)
    ensures k < |Parse(rawText).yaoLines| && |rawText| <= MaxInputLength
      && Candidates(NonBlankLines(Split(rawText, '\n')))[k] == g + " " + f + " " + b + " - -\U{D7} \U{2014}"
      ==> ErrorEntry(E201, MovingMessage(6 - k)) in Check(rawText).errors
  {
    if k < |Parse(rawText).yaoLines| && |rawText| <= MaxInputLength
      && Candidates(NonBlankLines(Split(rawText, '\n')))[k] == g + " " + f + " " + b + " - -\U{D7} \U{2014}"
    {
      MissingRelativeRow(6 - k, g, f, b);
      IncompleteRowReported(rawText, k);
    }
  }
}
