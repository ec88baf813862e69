/** The roster extractor `parse_roster_pdf` (parse_roster_pdfs.py:14-177):
    walks the pages in order, carries the team / roster model / GAM context
    forward, and appends one record per player row of every roster table. */
module Extractor {
  import opened Text
  import opened RosterTypes
  import opened Header
  import opened Rows

  /** Cover and information pages at the front of the document. */
  const SkippedPages: nat := 3

  /** Page number `pageNum` (counted from 1) is read: it is past the cover
      pages and has text. */
  predicate IsProcessed(pageNum: nat, page: Page) {
    pageNum > SkippedPages && page.text != ""
  }

  /** The context after reading a page's text: each of the three fields is
      overwritten when its own pattern matched and kept otherwise. The team
      and the roster model are stripped; the GAM figure loses its commas. */
  function UpdateContext(ctx: Context, page: Page): Context {
    Context(
      if page.teamCapture.Some? then Some(Strip(page.teamCapture.value)) else ctx.team,
      if page.modelCapture.Some? then Some(Strip(page.modelCapture.value)) else ctx.rosterModel,
      if page.gamCapture.Some? then Some(RemoveCommas(page.gamCapture.value)) else ctx.gam)
  }

  /** The context in effect once the first `n` pages have been walked. */
  function ContextAfter(pages: seq<Page>, n: nat): Context
    requires n <= |pages|
  {
    if n == 0 then NoContext
    else
      var prev := ContextAfter(pages, n - 1);
      if IsProcessed(n, pages[n - 1]) then UpdateContext(prev, pages[n - 1]) else prev
  }

  function RecordOf(r: Option<PlayerRecord>): seq<PlayerRecord> {
    if r.Some? then [r.value] else []
  }

  /** The records of some data rows, in row order. */
  function RowRecords(rows: seq<Row>, cols: ColumnMap, ctx: Context): seq<PlayerRecord>
    requires cols.name.Some? && HasTeam(ctx)
  {
    if rows == [] then []
    else RowRecords(rows[..|rows| - 1], cols, ctx) + RecordOf(ClassifyRow(rows[|rows| - 1], cols, ctx))
  }

  /** The records of one table: none for a table the header resolver
      rejects or whose header has no name column, otherwise those of the rows
      after the header. */
  function TableRecords(table: Table, ctx: Context): seq<PlayerRecord>
    requires HasTeam(ctx)
  {
    match ResolveHeader(table)
    case None => []
    case Some(header) =>
      var cols := Columns(header.cells);
      if cols.name.None? then [] else RowRecords(table[header.start..], cols, ctx)
  }

  /** The records of a page's tables, in table order. */
  function TablesRecords(tables: seq<Table>, ctx: Context): seq<PlayerRecord>
    requires HasTeam(ctx)
  {
    if tables == [] then []
    else TablesRecords(tables[..|tables| - 1], ctx) + TableRecords(tables[|tables| - 1], ctx)
  }

  /** The records a read page adds under the context in effect after its
      text: none while no team is known. */
  function PageRecords(page: Page, ctx: Context): seq<PlayerRecord> {
    if HasTeam(ctx) then TablesRecords(page.tables, ctx) else []
  }

  /** The output once the first `n` pages have been walked. */
  function Players(pages: seq<Page>, n: nat): seq<PlayerRecord>
    requires n <= |pages|
  {
    if n == 0 then []
    else
      Players(pages, n - 1) +
      (if IsProcessed(n, pages[n - 1]) then PageRecords(pages[n - 1], ContextAfter(pages, n)) else [])
  }

  /** The records of one table, row by row. */
  method ParseTable(table: Table, ctx: Context) returns (players: seq<PlayerRecord>)
    requires HasTeam(ctx)
    ensures players == TableRecords(table, ctx)
  {
    players := [];
    if table == [] || |table| < 2 {
      return;
    }
    var header := ResolveHeader(table);
    if header.None? {
      return;
    }
    var cols := ScanColumns(header.value.cells);
    if cols.name.None? {
      return;
    }
    players := ParseRows(table[header.value.start..], cols, ctx);
  }

  /** The row loop of one table: a record for each player row, in row order. */
  method ParseRows(rows: seq<Row>, cols: ColumnMap, ctx: Context) returns (players: seq<PlayerRecord>)
    requires cols.name.Some? && HasTeam(ctx)
    ensures players == RowRecords(rows, cols, ctx)
  {
    players := [];
    for r := 0 to |rows|
      invariant players == RowRecords(rows[..r], cols, ctx)
    {
      var record := ClassifyRow(rows[r], cols, ctx);
      RowRecordsStep(rows, r, cols, ctx);
      if record.Some? {
        players := players + [record.value];
      }
    }
    assert rows[..|rows|] == rows;
  }

  /** The records of the first `r + 1` rows extend those of the first `r`
      by the record of row `r`, if it has one. */
  lemma RowRecordsStep(rows: seq<Row>, r: nat, cols: ColumnMap, ctx: Context)
    requires r < |rows| && cols.name.Some? && HasTeam(ctx)
    ensures RowRecords(rows[..r + 1], cols, ctx) ==
            RowRecords(rows[..r], cols, ctx) + RecordOf(ClassifyRow(rows[r], cols, ctx))
  {
    assert rows[..r + 1][..r] == rows[..r];
  }

  /** The whole document: the page loop with its carry-forward context. */
  method ParseRosterPdf(pages: seq<Page>) returns (allPlayers: seq<PlayerRecord>)
    ensures allPlayers == Players(pages, |pages|)
  {
    allPlayers := [];
    var currentTeam: Option<string> := None;
    var currentRosterModel: Option<string> := None;
    var currentGam: Option<string> := None;
    var pageNum: nat := 0;
    while pageNum < |pages|
      invariant pageNum <= |pages|
      invariant Context(currentTeam, currentRosterModel, currentGam) == ContextAfter(pages, pageNum)
      invariant allPlayers == Players(pages, pageNum)
    {
      var page := pages[pageNum];
      pageNum := pageNum + 1;
      if pageNum <= SkippedPages {
        continue;
      }
      if page.text == "" {
        continue;
      }
      if page.teamCapture.Some? {
        currentTeam := Some(Strip(page.teamCapture.value));
      }
      if page.modelCapture.Some? {
        currentRosterModel := Some(Strip(page.modelCapture.value));
      }
      if page.gamCapture.Some? {
        currentGam := Some(RemoveCommas(page.gamCapture.value));
      }
      var ctx := Context(currentTeam, currentRosterModel, currentGam);
      if currentTeam.None? || currentTeam.value == "" {
        continue;
      }
      var found := ParseTables(page.tables, ctx);
      allPlayers := allPlayers + found;
    }
  }

  /** The table loop of one page: the records of its tables, in table order. */
  method ParseTables(tables: seq<Table>, ctx: Context) returns (players: seq<PlayerRecord>)
    requires HasTeam(ctx)
    ensures players == TablesRecords(tables, ctx)
  {
    players := [];
    for t := 0 to |tables|
      invariant players == TablesRecords(tables[..t], ctx)
    {
      var found := ParseTable(tables[t], ctx);
      players := players + found;
      assert tables[..t + 1][..t] == tables[..t];
    }
    assert tables[..|tables|] == tables;
  }

  /** Parsing keeps no state between runs: two runs on the same pages give
      the same records. */
  method ParseIsRepeatable(pages: seq<Page>) returns (first: seq<PlayerRecord>, second: seq<PlayerRecord>)
    ensures first == second
  {
    first := ParseRosterPdf(pages);
    second := ParseRosterPdf(pages);
  }

  // ---------------------------------------------------------------------
  // Skipped pages

  /** The cover pages neither change the context nor add records. */
  lemma {:induction false} CoverPagesInert(pages: seq<Page>, n: nat)
    requires n <= SkippedPages && n <= |pages|
    ensures ContextAfter(pages, n) == NoContext && Players(pages, n) == []
  {
    if n > 0 {
      CoverPagesInert(pages, n - 1);
    }
  }

  /** A page that is not read (a cover page, or one without text) leaves the
      context and the output as they were. */
  lemma UnreadPageInert(pages: seq<Page>, n: nat)
    requires 1 <= n <= |pages| && !IsProcessed(n, pages[n - 1])
    ensures ContextAfter(pages, n) == ContextAfter(pages, n - 1)
    ensures Players(pages, n) == Players(pages, n - 1)
  {
  }

  // ---------------------------------------------------------------------
  // Context carry-forward

  datatype ContextField = TeamField | ModelField | GamField

  function FieldOf(ctx: Context, f: ContextField): Option<string> {
    match f
    case TeamField => ctx.team
    case ModelField => ctx.rosterModel
    case GamField => ctx.gam
  }

  function CaptureOf(page: Page, f: ContextField): Option<string> {
    match f
    case TeamField => page.teamCapture
    case ModelField => page.modelCapture
    case GamField => page.gamCapture
  }

  /** How a captured value is cleaned before it is stored. */
  function Clean(f: ContextField, raw: string): string {
    if f == GamField then RemoveCommas(raw) else Strip(raw)
  }

  /** Page number `k` sets field `f`: it is read and `f`'s pattern matched. */
  predicate Writes(pages: seq<Page>, k: int, f: ContextField)
    requires 1 <= k <= |pages|
  {
    IsProcessed(k, pages[k - 1]) && CaptureOf(pages[k - 1], f).Some?
  }

  /** A field that page `n` does not set keeps its value across that page. */
  lemma FieldKeptUnlessWritten(pages: seq<Page>, n: nat, f: ContextField)
    requires 1 <= n <= |pages| && !Writes(pages, n, f)
    ensures FieldOf(ContextAfter(pages, n), f) == FieldOf(ContextAfter(pages, n - 1), f)
  {
  }

  /** A field that page `n` sets takes the cleaned capture of that page. */
  lemma FieldSetWhenWritten(pages: seq<Page>, n: nat, f: ContextField)
    requires 1 <= n <= |pages| && Writes(pages, n, f)
    ensures FieldOf(ContextAfter(pages, n), f) == Some(Clean(f, CaptureOf(pages[n - 1], f).value))
  {
  }

  /** Carry-forward: from page `k` up to page `n`, a field that no page in
      between sets keeps the value it had after page `k`. */
  lemma {:induction false} FieldCarriedForward(pages: seq<Page>, k: nat, n: nat, f: ContextField)
    requires k <= n <= |pages|
    requires forall j | k < j <= n :: !Writes(pages, j, f)
    ensures FieldOf(ContextAfter(pages, n), f) == FieldOf(ContextAfter(pages, k), f)
  {
    if n > k {
      FieldKeptUnlessWritten(pages, n, f);
      FieldCarriedForward(pages, k, n - 1, f);
    }
  }

  /** Last value wins: after page `k` sets a field and no later page up to
      `n` sets it again, the field holds page `k`'s cleaned capture. */
  lemma LastWriteWins(pages: seq<Page>, k: nat, n: nat, f: ContextField)
    requires 1 <= k <= n <= |pages| && Writes(pages, k, f)
    requires forall j | k < j <= n :: !Writes(pages, j, f)
    ensures FieldOf(ContextAfter(pages, n), f) == Some(Clean(f, CaptureOf(pages[k - 1], f).value))
  {
    FieldCarriedForward(pages, k, n, f);
    FieldSetWhenWritten(pages, k, f);
  }

  /** A field no page has set yet is unset. */
  lemma {:induction false} UnsetUntilWritten(pages: seq<Page>, n: nat, f: ContextField)
    requires n <= |pages|
    requires forall j | 1 <= j <= n :: !Writes(pages, j, f)
    ensures FieldOf(ContextAfter(pages, n), f).None?
  {
    FieldCarriedForward(pages, 0, n, f);
  }

  /** No record is produced before some read page has named a team. */
  lemma {:induction false} NoPlayersBeforeFirstTeam(pages: seq<Page>, n: nat)
    requires n <= |pages|
    requires forall j | 1 <= j <= n :: !Writes(pages, j, TeamField)
    ensures Players(pages, n) == []
  {
    if n > 0 {
      UnsetUntilWritten(pages, n, TeamField);
      NoPlayersBeforeFirstTeam(pages, n - 1);
    }
  }

  // ---------------------------------------------------------------------
  // Team attribution

  /** A record carries the team, roster model and GAM figure of a context
      that names a team. */
  predicate Stamped(p: PlayerRecord, ctx: Context) {
    HasTeam(ctx) && p.team == ctx.team.value &&
    p.rosterModel == OrEmpty(ctx.rosterModel) && p.teamGam2025 == OrEmpty(ctx.gam)
  }

  lemma {:induction false} RowRecordsStamped(rows: seq<Row>, cols: ColumnMap, ctx: Context)
    requires cols.name.Some? && HasTeam(ctx)
    ensures forall p | p in RowRecords(rows, cols, ctx) :: Stamped(p, ctx)
  {
    if rows != [] {
      RowRecordsStamped(rows[..|rows| - 1], cols, ctx);
    }
  }

  lemma {:induction false} TablesRecordsStamped(tables: seq<Table>, ctx: Context)
    requires HasTeam(ctx)
    ensures forall p | p in TablesRecords(tables, ctx) :: Stamped(p, ctx)
  {
    if tables != [] {
      TablesRecordsStamped(tables[..|tables| - 1], ctx);
      var table := tables[|tables| - 1];
      match ResolveHeader(table)
      case None =>
      case Some(header) =>
        var cols := Columns(header.cells);
        if cols.name.Some? {
          RowRecordsStamped(table[header.start..], cols, ctx);
        }
    }
  }

  /** The records page `n` adds carry the context in effect once that page's
      text was read: its team (never empty), roster model and GAM figure. */
  lemma PageRecordsCarryContext(pages: seq<Page>, n: nat)
    requires 1 <= n <= |pages|
    ensures |Players(pages, n - 1)| <= |Players(pages, n)|
    ensures Players(pages, n)[..|Players(pages, n - 1)|] == Players(pages, n - 1)
    ensures forall p | p in Players(pages, n)[|Players(pages, n - 1)|..] :: Stamped(p, ContextAfter(pages, n))
  {
    var added := if IsProcessed(n, pages[n - 1]) then PageRecords(pages[n - 1], ContextAfter(pages, n)) else [];
    assert Players(pages, n) == Players(pages, n - 1) + added;
    assert Players(pages, n)[|Players(pages, n - 1)|..] == added;
    if HasTeam(ContextAfter(pages, n)) {
      TablesRecordsStamped(pages[n - 1].tables, ContextAfter(pages, n));
    }
  }

  /** Record `p` could come from page number `k`: that page is read and `p`
      carries the context in effect after it. */
  predicate FromPage(pages: seq<Page>, k: int, p: PlayerRecord) {
    1 <= k <= |pages| && IsProcessed(k, pages[k - 1]) && Stamped(p, ContextAfter(pages, k))
  }

  /** Every output record carries the team (never empty), roster model and
      GAM figure of the context in effect on some read page. */
  lemma {:induction false} PlayersAttributed(pages: seq<Page>, n: nat)
    requires n <= |pages|
    ensures forall p | p in Players(pages, n) :: exists k | 1 <= k <= n :: FromPage(pages, k, p)
  {
    if n > 0 {
      PlayersAttributed(pages, n - 1);
      PageRecordsCarryContext(pages, n);
      var prev := Players(pages, n - 1);
      var all := Players(pages, n);
      forall p | p in all
        ensures exists k | 1 <= k <= n :: FromPage(pages, k, p)
      {
        var i :| 0 <= i < |all| && all[i] == p;
        if i < |prev| {
          assert all[..|prev|][i] == p;
          assert p in prev;
          var k :| 1 <= k <= n - 1 && FromPage(pages, k, p);
          assert FromPage(pages, k, p);
        } else {
          assert all[|prev|..][i - |prev|] == p;
          assert |all| > |prev|;
          assert FromPage(pages, n, p);
        }
      }
    }
  }

  // ---------------------------------------------------------------------
  // Order and size of the output

  /** Row records are produced row by row: the records of two stretches of
      rows are those of the first followed by those of the second. */
  lemma {:induction false} RowRecordsConcat(a: seq<Row>, b: seq<Row>, cols: ColumnMap, ctx: Context)
    requires cols.name.Some? && HasTeam(ctx)
    ensures RowRecords(a + b, cols, ctx) == RowRecords(a, cols, ctx) + RowRecords(b, cols, ctx)
  {
    if b == [] {
      assert a + b == a;
    } else {
      var last := |b| - 1;
      assert (a + b)[..|a + b| - 1] == a + b[..last];
      assert (a + b)[|a + b| - 1] == b[last];
      RowRecordsConcat(a, b[..last], cols, ctx);
    }
  }

  /** The output only grows: what the first `m` pages produce is a prefix of
      what the first `n >= m` pages produce. */
  lemma {:induction false} PlayersAppendOnly(pages: seq<Page>, m: nat, n: nat)
    requires m <= n <= |pages|
    ensures |Players(pages, m)| <= |Players(pages, n)|
    ensures Players(pages, n)[..|Players(pages, m)|] == Players(pages, m)
  {
    if m < n {
      PlayersAppendOnly(pages, m, n - 1);
      PageRecordsCarryContext(pages, n);
    }
  }

  /** The output for the first `n` pages depends on those pages alone: the
      document cut after page `n` yields exactly that output. */
  lemma {:induction false} PlayersOfPrefix(pages: seq<Page>, n: nat)
    requires n <= |pages|
    ensures ContextAfter(pages[..n], n) == ContextAfter(pages, n)
    ensures Players(pages[..n], n) == Players(pages, n)
  {
    if n > 0 {
      PlayersOfPrefix(pages, n - 1);
      assert pages[..n][..n - 1] == pages[..n - 1];
      ContextOfPrefix(pages[..n], pages, n - 1);
      PlayersOfPrefixAgree(pages[..n], pages, n - 1);
    }
  }

  /** Two documents that agree on their first `n` pages agree on the
      context after them. */
  lemma {:induction false} ContextOfPrefix(a: seq<Page>, b: seq<Page>, n: nat)
    requires n <= |a| && n <= |b| && a[..n] == b[..n]
    ensures ContextAfter(a, n) == ContextAfter(b, n)
  {
    if n > 0 {
      assert a[..n - 1] == b[..n - 1];
      assert a[n - 1] == a[..n][n - 1] == b[n - 1];
      ContextOfPrefix(a, b, n - 1);
    }
  }

  /** ... and on the output of those pages. */
  lemma {:induction false} PlayersOfPrefixAgree(a: seq<Page>, b: seq<Page>, n: nat)
    requires n <= |a| && n <= |b| && a[..n] == b[..n]
    ensures Players(a, n) == Players(b, n)
  {
    if n > 0 {
      assert a[..n - 1] == b[..n - 1];
      assert a[n - 1] == a[..n][n - 1] == b[n - 1];
      ContextOfPrefix(a, b, n);
      PlayersOfPrefixAgree(a, b, n - 1);
    }
  }

  /** The number of data rows of a table the header resolver accepts (the
      rows after its header), zero for a rejected table. */
  function DataRowCount(table: Table): nat {
    match ResolveHeader(table)
    case None => 0
    case Some(header) => |table| - header.start
  }

  function TablesDataRows(tables: seq<Table>): nat {
    if tables == [] then 0 else TablesDataRows(tables[..|tables| - 1]) + DataRowCount(tables[|tables| - 1])
  }

  /** The data rows of the accepted tables on those of the first `n` pages
      whose tables are read: pages past the cover, with text, read while a
      team is known. */
  function DocumentDataRows(pages: seq<Page>, n: nat): nat
    requires n <= |pages|
  {
    if n == 0 then 0
    else
      DocumentDataRows(pages, n - 1) +
      (if IsProcessed(n, pages[n - 1]) && HasTeam(ContextAfter(pages, n))
       then TablesDataRows(pages[n - 1].tables) else 0)
  }

  lemma {:induction false} RowRecordsBound(rows: seq<Row>, cols: ColumnMap, ctx: Context)
    requires cols.name.Some? && HasTeam(ctx)
    ensures |RowRecords(rows, cols, ctx)| <= |rows|
  {
    if rows != [] {
      RowRecordsBound(rows[..|rows| - 1], cols, ctx);
    }
  }

  lemma {:induction false} TablesRecordsBound(tables: seq<Table>, ctx: Context)
    requires HasTeam(ctx)
    ensures |TablesRecords(tables, ctx)| <= TablesDataRows(tables)
  {
    if tables != [] {
      TablesRecordsBound(tables[..|tables| - 1], ctx);
      var table := tables[|tables| - 1];
      match ResolveHeader(table)
      case None =>
      case Some(header) =>
        var cols := Columns(header.cells);
        if cols.name.Some? {
          RowRecordsBound(table[header.start..], cols, ctx);
        }
    }
  }

  /** The output has at most one record per data row of the accepted
      tables. */
  lemma {:induction false} PlayersBound(pages: seq<Page>, n: nat)
    requires n <= |pages|
    ensures |Players(pages, n)| <= DocumentDataRows(pages, n)
  {
    if n > 0 {
      PlayersBound(pages, n - 1);
      PageRecordsBound(pages[n - 1], ContextAfter(pages, n));
    }
  }

  /** A page read under a context yields at most as many records as its
      accepted tables have data rows, and none while no team is known. */
  lemma PageRecordsBound(page: Page, ctx: Context)
    ensures |PageRecords(page, ctx)| <= if HasTeam(ctx) then TablesDataRows(page.tables) else 0
  {
    if HasTeam(ctx) {
      TablesRecordsBound(page.tables, ctx);
    }
  }
}
