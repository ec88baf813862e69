/** The values the roster extractor reads and produces. */
module RosterTypes {

  /** Python's `None` or a value. */
  datatype Option<+T> = None | Some(value: T)

  /** Python's `x or ''` for an optional string. */
  function OrEmpty(o: Option<string>): string {
    if o.Some? then o.value else ""
  }

  /** A table cell as the PDF library extracts it: a string or `None`. */
  type Cell = Option<string>

  /** A table row; rows of one table may differ in length. */
  type Row = seq<Cell>

  /** A table grid, row by row. */
  type Table = seq<Row>

  /** One page of the document as the PDF library delivers it. `text` is the
      extracted text ("" when there is none); the three captures are what the
      team-header, roster-model and GAM patterns find in that text
      (`group(1)` of each match, before any cleaning), `None` when a pattern
      does not match. */
  datatype Page = Page(
    text: string,
    teamCapture: Option<string>,
    modelCapture: Option<string>,
    gamCapture: Option<string>,
    tables: seq<Table>)

  /** The carry-forward context: the last team, roster construction model
      and GAM figure seen so far. */
  datatype Context = Context(team: Option<string>, rosterModel: Option<string>, gam: Option<string>)

  const NoContext := Context(None, None, None)

  /** Python's `if not current_team`: rows are read only under a non-empty team. */
  predicate HasTeam(ctx: Context) {
    ctx.team.Some? && ctx.team.value != ""
  }

  /** The six categories a player row is classified into. */
  datatype Category = DesignatedPlayer | U22Initiative | TamPlayer | Homegrown | GenerationAdidas | Standard

  /** The text the output record carries for a category. */
  function Label(c: Category): string {
    match c
    case DesignatedPlayer => "Designated Player"
    case U22Initiative => "U22 Initiative"
    case TamPlayer => "TAM Player"
    case Homegrown => "Homegrown"
    case GenerationAdidas => "Generation Adidas"
    case Standard => "Standard"
  }

  /** Distinct categories are written as distinct texts. */
  lemma LabelInjective(a: Category, b: Category)
    ensures Label(a) == Label(b) <==> a == b
  {
  }

  /** One output record; the field order is that of the output dictionary. */
  datatype PlayerRecord = PlayerRecord(
    team: string,
    name: string,
    rosterDesignation: string,
    currentStatus: string,
    contractThru: string,
    optionYears: string,
    category: Category,
    rosterModel: string,
    teamGam2025: string)

  /** The column index found for each role of a roster table; `None` when no
      header cell took that role. */
  datatype ColumnMap = ColumnMap(
    name: Option<nat>,
    designation: Option<nat>,
    status: Option<nat>,
    contract: Option<nat>,
    option: Option<nat>)

  const NoColumns := ColumnMap(None, None, None, None, None)
}
