/** The small token grammar of one hexagram row: the stroke pattern
    `(?:-\s*-|—)\s*[XΧ×O○]?` as an explicit scanner, the stroke decoder, the
    leading 世/应 marker, the transformed-relative token picker and the
    relative+branch expander. */
module LineGrammar {
  import opened Wrappers
  import opened Text
  import opened Tables
  import opened Records

  /** End of the stroke glyph `-\s*-` or `—` when one starts at `i`. */
  function StrokeAt(s: string, i: nat): (e: Option<nat>)
    requires i <= |s|
    ensures e.Some? ==> i < e.value <= |s| && (s[i] == LongStroke || s[i] == '-')
    ensures i < |s| && s[i] == LongStroke ==> e == Some(i + 1)
    ensures e.Some? && s[i] == '-' ==>
      && i + 2 <= e.value && s[e.value - 1] == '-'
      && forall p :: i < p < e.value - 1 ==> IsSpace(s[p])
    ensures i < |s| && s[i] == '-' ==>
      forall j :: i < j < |s| && s[j] == '-' && (forall p :: i < p < j ==> IsSpace(s[p])) ==> e.Some?
  {
    if i == |s| then None
    else if s[i] == '-' then
      var k := SkipSpace(s, i + 1);
      if k < |s| && s[k] == '-' then Some(k + 1) else None
    else if s[i] == LongStroke then Some(i + 1)
    else None
  }

  /** End of a match of the whole stroke pattern when one starts at `i`:
      the stroke glyph, any whitespace, then at most one moving marker. */
  function DrawAt(s: string, i: nat): (e: Option<nat>)
    requires i <= |s|
    ensures e.Some? <==> StrokeAt(s, i).Some?
    ensures e.Some? ==> StrokeAt(s, i).value <= e.value <= |s|
    ensures e.Some? ==> var j := StrokeAt(s, i).value;
      && (forall p :: j <= p < e.value - 1 ==> IsSpace(s[p]))
      && (j < e.value ==> IsSpace(s[e.value - 1]) || s[e.value - 1] in MovingMarkers)
      && ((forall p :: j <= p < e.value ==> IsSpace(s[p])) ==>
            e.value == |s| || (!IsSpace(s[e.value]) && s[e.value] !in MovingMarkers))
  {
    match StrokeAt(s, i)
    case None => None
    case Some(j) =>
      var k := SkipSpace(s, j);
      Some(if k < |s| && s[k] in MovingMarkers then k + 1 else k)
  }

  datatype Span = Span(start: nat, end: nat)

  /** Leftmost match of the stroke pattern at or after `from`
      (`draw_pattern.search`). */
  function FindDraw(s: string, from: nat): (r: Option<Span>)
    requires from <= |s|
    ensures r.Some? ==> from <= r.value.start < r.value.end <= |s|
    ensures r.Some? ==> DrawAt(s, r.value.start) == Some(r.value.end)
    ensures r.Some? ==> forall k :: from <= k < r.value.start ==> StrokeAt(s, k).None?
    ensures r.None? <==> forall k :: from <= k <= |s| ==> StrokeAt(s, k).None?
    decreases |s| - from
  {
    if from == |s| then None
    else match DrawAt(s, from)
      case Some(e) => Some(Span(from, e))
      case None => FindDraw(s, from + 1)
  }

  /** A broken stroke `-\s*-` starts at `i`. */
  predicate DashPairAt(s: string, i: nat) {
    i < |s| && s[i] == '-' && StrokeAt(s, i).Some?
  }

  /** `re.search(r"-\s*-|--", s)` succeeds. */
  predicate HasDashPair(s: string) {
    exists i: nat :: i < |s| && DashPairAt(s, i)
  }

  /** Two dashes side by side at `i`. */
  predicate DashesAt(q: string, i: nat) {
    i + 1 < |q| && q[i] == '-' && q[i + 1] == '-'
  }

  lemma {:induction false} SkipSpaceShift(c: char, t: string, i: nat)
    requires i <= |t|
    ensures SkipSpace([c] + t, i + 1) == SkipSpace(t, i) + 1
    decreases |t| - i
  {
    if i < |t| && IsSpace(t[i]) {
      SkipSpaceShift(c, t, i + 1);
    }
  }

  lemma {:induction false} SqueezeHead(t: string)
    ensures Squeeze(t) != [] <==> SkipSpace(t, 0) < |t|
    ensures Squeeze(t) != [] ==> Squeeze(t)[0] == t[SkipSpace(t, 0)]
    decreases |t|
  {
    if t != [] {
      SqueezeHead(t[1..]);
      if IsSpace(t[0]) {
        SkipSpaceShift(t[0], t[1..], 0);
        assert [t[0]] + t[1..] == t;
      }
    }
  }

  /** Some broken stroke occurs in `s`, even after the whitespace is removed. */
  predicate HasDashes(q: string) {
    exists i: nat :: i < |q| && DashesAt(q, i)
  }

  lemma HasDashPairCons(c: char, t: string)
    ensures HasDashPair([c] + t) <==> DashPairAt([c] + t, 0) || HasDashPair(t)
  {
    var s := [c] + t;
    forall i: nat | i < |t|
      ensures DashPairAt(s, i + 1) <==> DashPairAt(t, i)
    {
      SkipSpaceShift(c, t, i + 1);
      ConsSuffix(c, t, i);
    }
    if HasDashPair(s) && !DashPairAt(s, 0) {
      var i: nat :| i < |s| && DashPairAt(s, i);
      assert DashPairAt(t, i - 1);
    }
    if HasDashPair(t) {
      var i: nat :| i < |t| && DashPairAt(t, i);
      assert DashPairAt(s, i + 1);
    }
  }

  lemma ConsSuffix(c: char, t: string, i: nat)
    requires i <= |t|
    ensures ([c] + t)[i + 1..] == t[i..]
  {
    var s := [c] + t;
    assert |s[i + 1..]| == |t[i..]|;
    forall k | 0 <= k < |t[i..]| ensures s[i + 1..][k] == t[i..][k] {
      assert s[i + 1 + k] == t[i + k];
    }
  }

  lemma DashPairHead(c: char, t: string)
    ensures DashPairAt([c] + t, 0) <==> c == '-' && Squeeze(t) != [] && Squeeze(t)[0] == '-'
  {
    SkipSpaceShift(c, t, 0);
    SqueezeHead(t);
  }

  lemma HasDashesCons(h: string, q: string)
    requires |h| <= 1
    ensures HasDashes(h + q) <==> (h == "-" && q != [] && q[0] == '-') || HasDashes(q)
  {
    if HasDashes(q) {
      var i: nat :| i < |q| && DashesAt(q, i);
      assert (h + q)[i + |h|] == q[i] && (h + q)[i + |h| + 1] == q[i + 1];
      assert DashesAt(h + q, i + |h|);
    }
    if h == "-" && q != [] && q[0] == '-' {
      assert DashesAt(h + q, 0);
    }
    if HasDashes(h + q) {
      var i: nat :| i < |h + q| && DashesAt(h + q, i);
      if i >= |h| {
        assert (h + q)[i] == q[i - |h|] && (h + q)[i + 1] == q[i - |h| + 1];
        assert DashesAt(q, i - |h|);
      }
    }
  }

  /** A broken stroke occurs in `s` exactly when two dashes meet once the
      whitespace is removed. */
  lemma {:induction false} DashPairSqueeze(s: string)
    ensures HasDashPair(s) <==> HasDashes(Squeeze(s))
    decreases |s|
  {
    if s != [] {
      var c, t := s[0], s[1..];
      assert s == [c] + t;
      DashPairSqueeze(t);
      HasDashPairCons(c, t);
      DashPairHead(c, t);
      var h := if IsSpace(c) then [] else [c];
      assert Squeeze(s) == h + Squeeze(t);
      HasDashesCons(h, Squeeze(t));
    }
  }

  /** The stroke decoder (`_detect_draw`): a long stroke anywhere means a
      solid line and wins over a broken stroke; otherwise a broken stroke
      means a broken line; otherwise nothing. Whitespace never matters. */
  function DetectDraw(text: string): (r: Option<Stroke>)
    ensures LongStroke in text ==> r == Some(Yang)
    ensures LongStroke !in text && HasDashPair(text) ==> r == Some(Yin)
    ensures r.None? <==> LongStroke !in text && !HasDashPair(text)
  {
    var t := Normalize(text);
    NormalizeKeepsChar(LongStroke, text);
    DashPairSqueeze(t);
    DashPairSqueeze(text);
    SqueezeNormalize(text);
    if LongStroke in t then Some(Yang)
    else if HasDashPair(t) then Some(Yin)
    else None
  }

  /** Decoding the text a stroke-pattern match covers gives the stroke type
      of the alternative that matched: `—` is solid, `-\s*-` is broken. */
  lemma DecodeMatchedDraw(s: string, i: nat)
    requires i <= |s| && DrawAt(s, i).Some?
    ensures DetectDraw(s[i..DrawAt(s, i).value])
         == Some(if s[i] == LongStroke then Yang else Yin)
  {
    var e := DrawAt(s, i).value;
    var m := s[i..e];
    if s[i] == LongStroke {
      assert m[0] == LongStroke;
    } else {
      var k := SkipSpace(s, i + 1);
      var k2 := SkipSpace(s, k + 1);
      assert s[k] == '-';
      forall p | 0 <= p < |m| ensures m[p] != LongStroke {
        assert m[p] == s[i + p];
        if i + p == k2 && k2 < e {
          assert s[k2] in MovingMarkers;
        }
      }
      assert m[k - i] == '-';
      assert DashPairAt(m, 0) by {
        assert SkipSpace(m, 1) == k - i by {
          SkipSpaceSlice(s, i, e, i + 1);
        }
      }
    }
  }

  /** Whitespace scanning inside a slice agrees with scanning the whole
      string, as long as the run ends inside the slice. */
  lemma {:induction false} SkipSpaceSlice(s: string, a: nat, b: nat, j: nat)
    requires a <= j <= b <= |s|
    requires SkipSpace(s, j) < b
    ensures SkipSpace(s[a..b], j - a) == SkipSpace(s, j) - a
    decreases b - j
  {
    if IsSpace(s[j]) {
      SkipSpaceSlice(s, a, b, j + 1);
    }
  }

  /** The self/correspondence marker stripper (`_extract_shi_ying`): a
      leading standalone 世 or 应 word is removed and reported; anything else
      is returned normalised with no marker. */
  function ExtractShiYing(text: string): (r: (string, Option<ShiYing>))
    ensures var words := Split(Normalize(text), ' ');
      && (r.1 == Some(Shi) <==> words[0] == "世")
      && (r.1 == Some(Ying) <==> words[0] == "应")
      && (r.1.Some? ==> r.0 == Join(words[1..], " "))
      && (r.1.None? ==> r.0 == Normalize(text))
    ensures IsNormal(r.0)
  {
    var t := Normalize(text);
    LeadingWord(t, '世');
    LeadingWord(t, '应');
    NormalizeFixesNormal(t);
    if |t| >= 2 && t[..2] == "世 " then
      LeadingWordRest(t, '世');
      NormalizeFixesNormal(t[2..]);
      JoinSplit(t[2..], ' ');
      (Normalize(t[2..]), Some(Shi))
    else if t == "世" then
      (Normalize(""), Some(Shi))
    else if |t| >= 2 && t[..2] == "应 " then
      LeadingWordRest(t, '应');
      NormalizeFixesNormal(t[2..]);
      JoinSplit(t[2..], ' ');
      (Normalize(t[2..]), Some(Ying))
    else if t == "应" then
      (Normalize(""), Some(Ying))
    else
      (Normalize(t), None)
  }

  /** Leading words that are a bare stroke rather than a relative token. */
  const StrokeWords: set<string> := {[LongStroke], "-", "--"}

  /** The transformed-relative token picker (`_extract_yao_token`): the first
      word of the normalised text, unless there is none or it is a bare
      stroke. */
  function ExtractYaoToken(text: string): (r: Option<string>)
    ensures r.Some? ==> IsWord(r.value) && r.value == Split(Normalize(text), ' ')[0]
    ensures r.None? <==> (Normalize(text) == [] || Split(Normalize(text), ' ')[0] in StrokeWords)
  {
    var t := Normalize(text);
    if t == [] then None
    else
      var first := Split(t, ' ')[0];
      NormalWords(t);
      if first in StrokeWords then None else Some(first)
  }

  /** Round trip: the token picker gives back the first word of any text,
      whatever whitespace precedes or follows it, unless that word is a bare
      stroke. */
  lemma ExtractYaoTokenFirstWord(pre: string, w: string, rest: string)
    requires AllSpace(pre) && IsWord(w)
    requires rest == [] || IsSpace(rest[0])
    ensures ExtractYaoToken(pre + w + rest) == if w in StrokeWords then None else Some(w)
  {
    FirstWord(pre, w, rest);
  }

  /** The canonical three-part label "relative + branch + element". */
  function RelLabel(kin: char, branch: char): string
    requires kin in KinMap && branch in BranchWuxing
  {
    KinMap[kin] + [branch] + BranchWuxing[branch]
  }

  /** The stripped token begins with a relative glyph and a branch glyph. */
  predicate Expandable(t: string) {
    |t| >= 2 && t[0] in KinMap && t[1] in BranchWuxing
  }

  /** The relative+branch expander (`_expand_rel_token`): absent or empty
      input gives nothing; a stripped token beginning with a relative glyph
      and a branch glyph becomes the canonical label (anything after those
      two characters is dropped); every other token comes back stripped. */
  function ExpandRelToken(token: Option<string>): (r: Option<string>)
    ensures r.None? <==> token.None? || token.value == []
    ensures r.Some? && Expandable(Strip(token.value)) ==>
      r.value == RelLabel(Strip(token.value)[0], Strip(token.value)[1])
    ensures r.Some? && !Expandable(Strip(token.value)) ==> r.value == Strip(token.value)
  {
    if token.None? || token.value == [] then None
    else
      var t := Strip(token.value);
      if |t| < 2 then Some(t)
      else if t[0] in KinMap && t[1] in BranchWuxing then Some(RelLabel(t[0], t[1]))
      else Some(t)
  }

  /** Expansion is idempotent on everything it returns except the empty
      string (a whitespace-only token strips to `""`, which a second pass
      treats as absent). */
  lemma ExpandIdempotent(token: Option<string>)
    requires ExpandRelToken(token).Some? && ExpandRelToken(token).value != []
    ensures ExpandRelToken(ExpandRelToken(token)) == ExpandRelToken(token)
  {
    var t := Strip(token.value);
    if Expandable(t) {
      LabelIsFixed(t[0], t[1]);
    } else {
      StripTrimmed(t);
    }
  }

  /** A canonical label expands to itself. */
  lemma LabelIsFixed(kin: char, branch: char)
    requires kin in KinMap && branch in BranchWuxing
    ensures ExpandRelToken(Some(RelLabel(kin, branch))) == Some(RelLabel(kin, branch))
  {
    var x := RelLabel(kin, branch);
    KinNamesNotAbbreviations(kin);
    LabelEnds(kin, branch);
    assert x[1] == KinMap[kin][1];
    StripTrimmed(x);
  }

  lemma LabelEnds(kin: char, branch: char)
    requires kin in KinMap && branch in BranchWuxing
    ensures |RelLabel(kin, branch)| == 4
    ensures !IsSpace(RelLabel(kin, branch)[0]) && !IsSpace(RelLabel(kin, branch)[3])
  {
    assert kin in {'财', '官', '孙', '兄', '父'};
  }

  /** Expansion loses no information about the two glyphs it reads: the
      relative glyph and the branch can be recovered from the label. */
  lemma RelLabelInjective(k1: char, b1: char, k2: char, b2: char)
    requires k1 in KinMap && b1 in BranchWuxing && k2 in KinMap && b2 in BranchWuxing
    requires RelLabel(k1, b1) == RelLabel(k2, b2)
    ensures k1 == k2 && b1 == b2
  {
    var l := RelLabel(k1, b1);
    assert l[..2] == KinMap[k1] && l[2] == b1;
    assert RelLabel(k2, b2)[..2] == KinMap[k2] && RelLabel(k2, b2)[2] == b2;
  }

  /** A relative glyph followed by a branch glyph expands to the label. */
  lemma ExpandAbbreviation(kin: char, branch: char)
    requires kin in KinMap && branch in BranchWuxing
    ensures ExpandRelToken(Some([kin, branch])) == Some(RelLabel(kin, branch))
  {
    assert kin in {'财', '官', '孙', '兄', '父'};
    assert !IsSpace(branch);
    StripTrimmed([kin, branch]);
  }

  /** A single non-space glyph comes back unchanged. */
  lemma SingleGlyphKept(c: char)
    requires !IsSpace(c)
    ensures ExpandRelToken(Some([c])) == Some([c])
  {
    StripTrimmed([c]);
  }

  /** Worked examples: 财戌 expands to 妻财戌土 and 官酉 to 官鬼酉金. */
  lemma ExpandExample()
    ensures ExpandRelToken(Some("财戌")) == Some("妻财戌土")
    ensures ExpandRelToken(Some("官酉")) == Some("官鬼酉金")
  {
    ExpandAbbreviation('财', '戌');
    assert "妻财" + ['戌'] + "土" == "妻财戌土";
    ExpandAbbreviation('官', '酉');
    assert "官鬼" + ['酉'] + "金" == "官鬼酉金";
  }
}
