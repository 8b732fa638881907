/** The parser's fixed lookup tables: six-spirit aliases, relative-category
    aliases, the element of each earthly branch, the moving-line marker
    glyphs, and the display label of each line position. */
module Tables {
  import opened Text

  /** Six-spirit aliases: the one- and two-character forms of each spirit,
      mapped to its canonical two-character name. */
  const SixGodMap: map<string, string> := map[
    "虎" := "白虎", "白虎" := "白虎",
    "蛇" := "螣蛇", "螣蛇" := "螣蛇",
    "勾" := "勾陈", "勾陈" := "勾陈",
    "雀" := "朱雀", "朱雀" := "朱雀",
    "龙" := "青龙", "青龙" := "青龙",
    "玄" := "玄武", "玄武" := "玄武"
  ]

  /** Relative-category glyph to its full two-character name. */
  const KinMap: map<char, string> := map[
    '财' := "妻财", '官' := "官鬼", '孙' := "子孙", '兄' := "兄弟", '父' := "父母"
  ]

  /** Earthly branch to its element. */
  const BranchWuxing: map<char, string> := map[
    '子' := "水", '丑' := "土", '寅' := "木", '卯' := "木",
    '辰' := "土", '巳' := "火", '午' := "火", '未' := "土",
    '申' := "金", '酉' := "金", '戌' := "土", '亥' := "水"
  ]

  /** Moving-line markers: Latin X, Greek capital chi, the multiplication
      sign, Latin O and the white circle. The same glyphs form the optional
      marker class of the stroke pattern. */
  const MovingMarkers: set<char> := {'X', '\U{3A7}', '\U{D7}', 'O', '\U{25CB}'}

  /** The long stroke of a solid (yang) line. */
  const LongStroke: char := '\U{2014}'

  /** The six position labels, bottom line first. */
  const PosLabels: seq<string> := ["初爻", "二爻", "三爻", "四爻", "五爻", "上六"]

  /** Display label of a line position (`_pos_of`); an index outside 1..6
      falls back to its decimal rendering. */
  function PosOf(index: int): (r: string)
    ensures 1 <= index <= 6 ==> r == PosLabels[index - 1]
    ensures !(1 <= index <= 6) ==> r == IntToString(index)
  {
    match index
    case 6 => "上六"
    case 5 => "五爻"
    case 4 => "四爻"
    case 3 => "三爻"
    case 2 => "二爻"
    case 1 => "初爻"
    case _ => IntToString(index)
  }

  /** Distinct positions get distinct labels, and no numeric fallback
      collides with a position label. */
  lemma PosOfInjective(i: int, j: int)
    requires i != j
    requires 1 <= i <= 6
    ensures PosOf(i) != PosOf(j)
  {
    if !(1 <= j <= 6) {
      var d := IntToString(j);
      assert d[0] == '-' || '0' <= d[0] <= '9';
    }
  }

  /** Every canonical spirit name is itself an alias of itself, so mapping a
      spirit name twice gives the same result as mapping it once. */
  lemma SixGodCanonical(k: string)
    requires k in SixGodMap
    ensures SixGodMap[k] in SixGodMap && SixGodMap[SixGodMap[k]] == SixGodMap[k]
  {
  }

  /** No full relative name starts with an abbreviation followed by an
      earthly branch, so an expanded label is never expanded again. */
  lemma KinNamesNotAbbreviations(c: char)
    requires c in KinMap
    ensures |KinMap[c]| == 2 && KinMap[c][1] !in BranchWuxing
  {
  }
}
