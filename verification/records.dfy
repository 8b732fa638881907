/** The parse result and its parts: one record per hexagram line, the chart
    metadata, and the typed error entries shared by parser and validator. */
module Records {
  import opened Wrappers

  /** Stroke type of a line glyph (`"阳"` / `"阴"`). */
  datatype Stroke = Yang | Yin

  /** Overall line type (`"阳爻"`, `"阴爻"`, `"未知"`). */
  datatype LineKind = YangLine | YinLine | Unknown

  /** The self (`世`) / correspondence (`应`) marker. */
  datatype ShiYing = Shi | Ying

  /** One hexagram line as the parser reports it (`ParsedYaoLine`). */
  datatype YaoLine = YaoLine(
    index: int,
    pos: string,
    yinYang: LineKind,
    sixGod: Option<string>,
    fuShen: Option<string>,
    benYao: Option<string>,
    benHua: Option<Stroke>,
    moving: bool,
    shiYing: Option<ShiYing>,
    bianYao: Option<string>,
    bianHua: Option<Stroke>,
    raw: string
  )

  /** The four error codes in use. */
  datatype ErrorCode = E001 | E101 | E102 | E201 {
    function Text(): string {
      match this
      case E001 => "E001"
      case E101 => "E101"
      case E102 => "E102"
      case E201 => "E201"
    }
  }

  datatype ErrorEntry = ErrorEntry(code: ErrorCode, message: string)

  /** Chart metadata; every field is a best-effort extraction. */
  datatype BaseInfo = BaseInfo(
    question: Option<string>,
    castTime: Option<string>,
    fourPillars: Option<string>,
    kongWangRaw: Option<string>,
    mainGua: Option<string>,
    changedGua: Option<string>,
    house: Option<string>
  )

  /** The parser's output. `baseInfo` is `None` exactly when the length guard
      fired and the source returns an empty mapping. */
  datatype ChartRecord = ChartRecord(
    baseInfo: Option<BaseInfo>,
    yaoLines: seq<YaoLine>,
    errors: seq<ErrorEntry>
  )
}
