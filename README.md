# MLS Club Roster Profile extractor — a verified model

This project models `parse_roster_pdf`, the routine of the turbo-broccoli
repository that turns an MLS Club Roster Profile PDF into player records,
together with the season label the driver derives from the PDF's file name.

The extractor walks the pages of the document in order:

- It skips the three cover pages and every page without text.
- On each page it reads, it updates a carry-forward context: the current
  team, the roster construction model and the 2025 GAM figure.
- Once a team is known, it reads every table of the page:
  - it finds the header row (row 0, else row 1);
  - it maps header cells to column roles by substring tests;
  - it drops noise rows (section banners, repeated headers);
  - it reads the optional fields of each player row defensively;
  - it classifies each player by an ordered chain of substring tests on the
    roster designation.

The model is layered as the program is:

- `Text` holds the string primitives:
  - `Contains`, Python's `in` on strings;
  - `Strip`, `str.strip()`;
  - `Upper`, `str.upper()`;
  - `JoinSpace`, `' '.join`;
  - `RemoveCommas`, `replace(',', '')`.
- `RosterTypes` holds the pages, cells, context, column map and output
  record.
- `Categories` holds the category chain and, as its reference definition, the
  same chain written as an ordered rule list.
- `Header` holds header resolution and the header loop (`ScanColumns`). The
  loop is proved equal to the left fold `Columns`. It is also proved equal to
  a declarative reading: the first cell naming `NAME` wins, and every other
  role goes to the last cell it claims.
- `Rows` holds the row filter and field reads.
- `Extractor` holds the page, table and row loops. Each is proved equal to a
  left-fold specification (`Players`, `TablesRecords`, `TableRecords`,
  `RowRecords`). The lemmas about skipped pages, carry-forward, team
  attribution, output order and output size are stated on those
  specifications.
- `Season` holds the season label and the output file name.

The PDF library's results are inputs. Each `Page` carries its extracted
text, its table grids and the `group(1)` capture of each of the three
patterns (team header, roster construction model, GAM figure). A capture is
`None` when its pattern does not match. The model itself applies the
cleaning the code applies to the captures (`strip()`, and for the GAM figure
the removal of commas).

Behaviour of the code worth noting, all of it kept in the model:

- Designation, status, contract and option columns take the last matching
  header cell (there is no `is None` guard, lines 97-104). Only the name
  column is first-match.
- Header cells are upper-cased but not trimmed. They are checked through
  their space-join, so "ROSTER DESIGNATION" may span two cells.
- When row 0 passes the roster-table test but does not mention `NAME`, the
  table is dropped. Row 1 is not tried.
- A page with empty text is skipped entirely.
- Roster model and GAM may be set before any team is known.
- The output field is `team_gam_2025`.

## Model

| member | source | states |
|---|---|---|
| Extractor.ParseRosterPdf | parse_roster_pdfs.py:14-177 | the page loop's output is `Players` of all the pages; the loop keeps the three context variables equal to `ContextAfter` of the pages walked so far |
| Extractor.ParseTables | parse_roster_pdfs.py:58-61 | the records of a page's tables are those of each table in table order |
| Extractor.ParseTable | parse_roster_pdfs.py:61-110 | a table of fewer than two rows, a rejected header or a header without a name column gives no records; otherwise the records of the rows after the header |
| Extractor.ParseRows | parse_roster_pdfs.py:110-175 | the row loop appends exactly one record per player row, in row order |
| Extractor.RowRecordsStep | parse_roster_pdfs.py:110-175 | one more row extends the records by that row's record, if it has one |
| Extractor.ParseIsRepeatable | parse_roster_pdfs.py:24-27 | two runs on the same pages give the same records: no state outlives a run |
| Extractor.CoverPagesInert | parse_roster_pdfs.py:30-33 | after the first three pages the context is unset and no record exists |
| Extractor.UnreadPageInert | parse_roster_pdfs.py:30-37 | a cover page or a page without text changes neither the context nor the output |
| Extractor.FieldKeptUnlessWritten | parse_roster_pdfs.py:39-53 | a context field whose own pattern does not match on a read page keeps its value |
| Extractor.FieldSetWhenWritten | parse_roster_pdfs.py:39-53 | a matching pattern sets its field to the cleaned capture: stripped for team and model, without commas for the GAM figure |
| Extractor.FieldCarriedForward | parse_roster_pdfs.py:25-53 | across pages that do not set a field, the field keeps the value it had |
| Extractor.LastWriteWins | parse_roster_pdfs.py:39-53 | a field holds the cleaned capture of the last read page that set it |
| Extractor.UnsetUntilWritten | parse_roster_pdfs.py:25-53 | a field no read page has set is unset |
| Extractor.NoPlayersBeforeFirstTeam | parse_roster_pdfs.py:55-56 | no record is produced while no read page has named a team |
| Extractor.RowRecordsStamped | parse_roster_pdfs.py:163-173 | every record of a table's rows carries the context's team, roster model (or "") and GAM figure (or "") |
| Extractor.TablesRecordsStamped | parse_roster_pdfs.py:61-173 | the same for every record of a page's tables |
| Extractor.PageRecordsCarryContext | parse_roster_pdfs.py:163-175 | a page only appends to the output, and what it appends carries the context in effect after that page's text was read |
| Extractor.PlayersAttributed | parse_roster_pdfs.py:164 | every output record carries the non-empty team, roster model and GAM figure in effect on some read page |
| Extractor.RowRecordsConcat | parse_roster_pdfs.py:110-175 | the records of two stretches of rows are those of the first followed by those of the second |
| Extractor.PlayersAppendOnly | parse_roster_pdfs.py:175 | the output of the first `m` pages is a prefix of that of the first `n >= m` pages |
| Extractor.PlayersOfPrefix | parse_roster_pdfs.py:30-177 | the context and output after page `n` depend on the first `n` pages only |
| Extractor.RowRecordsBound | parse_roster_pdfs.py:110-175 | a table yields at most one record per data row |
| Extractor.TablesRecordsBound | parse_roster_pdfs.py:61-110 | a page yields at most as many records as its accepted tables have data rows |
| Extractor.PlayersBound | parse_roster_pdfs.py:24-177 | the output has at most as many records as there are data rows in the accepted tables of the pages whose tables are read (past the cover, with text, a team known) |
| Extractor.PageRecordsBound | parse_roster_pdfs.py:55-110 | a page yields at most as many records as its accepted tables have data rows, and none while no team is known |
| Header.HeaderPrecedence | parse_roster_pdfs.py:62-85 | fewer than two rows: rejected; row 0 first (data from row 1), else row 1 (data from row 2); the header found must mention NAME, and the header cells are the upper-cased cells of that row |
| Header.ScanColumns | parse_roster_pdfs.py:87-104 | the header loop computes `Columns`, the cell-by-cell fold of the elif chain |
| Header.ScanNameColumn | parse_roster_pdfs.py:94-96 | the name column is the first cell mentioning NAME, and is unset exactly when no cell does |
| Header.StepRoleIndex | parse_roster_pdfs.py:94-104 | one cell leaves a role alone when it becomes the name column, claims the role when the role's test is the first it passes, and otherwise leaves it alone |
| Header.ScanRoleColumn | parse_roster_pdfs.py:97-104 | each other role's index is the last cell that role claims, unset when none does |
| Header.ColumnsResolveRoles | parse_roster_pdfs.py:88-104 | the column map meets the declarative reading (first NAME cell, last claimant of every other role), and every index is a header cell |
| Header.ResolvesRolesUnique | parse_roster_pdfs.py:94-104 | at most one column map meets the declarative reading, so it specifies the header loop completely |
| Header.NameColumnFound | parse_roster_pdfs.py:84-107 | a header whose space-join mentions NAME has a cell mentioning NAME, so the name-column guard never drops a table |
| Header.AcceptedTableHasNameColumn | parse_roster_pdfs.py:83-107 | every table whose header is accepted has a name column |
| Text.JoinedWordInCell | parse_roster_pdfs.py:84-96 | a word without spaces that occurs in the space-join of some cells occurs in one of the cells |
| Rows.ClassifyRowSpec | parse_roster_pdfs.py:110-173 | a row gives a record exactly when its name cell exists, is not blank and holds no skip term once upper-cased; the record's name is the stripped cell, its fields are the defensive reads, its category comes from its designation, and team, model and GAM come from the context |
| Rows.Field | parse_roster_pdfs.py:129-147 | an optional field is "" exactly when its role has no column, the row is too short, or the cell is missing or blank; otherwise it is the stripped cell |
| Rows.NoiseRowSkipped | parse_roster_pdfs.py:122-127 | a row whose upper-cased name holds a skip term gives no record, whatever its other cells say |
| Rows.SeniorRosterBannerSkipped | parse_roster_pdfs.py:122-127 | a "Senior Roster" banner in any mix of cases gives no record |
| Rows.NoSkipTermWithoutNO | parse_roster_pdfs.py:123-126 | an upper-cased name with neither "N" nor "O" holds no skip term |
| Categories.RulesMatchTests | parse_roster_pdfs.py:151-159 | each rule of the rule list matches exactly when the corresponding test of the chain succeeds |
| Categories.CategorizeFollowsRules | parse_roster_pdfs.py:149-160 | the chain equals the first-match reading of the ordered rule list, "Standard" when no rule matches |
| Categories.CategoryPrecedence | parse_roster_pdfs.py:150-160 | the category is that of the first rule, in the fixed order, whose pattern occurs in the designation |
| Categories.StandardWhenNoRuleMatches | parse_roster_pdfs.py:150-160 | the category is "Standard" exactly when no pattern occurs in the designation |
| Categories.YoungDesignatedPlayerExample | parse_roster_pdfs.py:151-152 | "Young Designated Player (U22 Initiative eligible)" is a designated player: the earlier rule wins |
| Categories.NoLowerCaseIsStandard | parse_roster_pdfs.py:150-160 | the tests are case-sensitive: a designation without lower-case letters is "Standard" |
| Categories.UpperCaseDesignationIsStandard | parse_roster_pdfs.py:150-160 | an upper-cased designation, such as "GENERATION ADIDAS", is "Standard" |
| Categories.HomegrownCategory | parse_roster_pdfs.py:157-158 | the designation "Homegrown" gives the Homegrown category |
| Text.Strip | parse_roster_pdfs.py:117-120 | the result is a slice of the input with only whitespace before and after it, it neither starts nor ends with whitespace, and it is empty exactly when the input is all whitespace |
| Text.Upper | parse_roster_pdfs.py:71 | upper-casing keeps the length and maps every character by itself, lower-case ASCII letters to upper case and every other character to itself |
| Text.StripOfTrimmed | parse_roster_pdfs.py:120 | stripping a string without surrounding whitespace leaves it unchanged |
| Text.RemoveCommas | parse_roster_pdfs.py:53 | the cleaned GAM figure holds no comma |
| Text.RemoveCommasKeepsOthers | parse_roster_pdfs.py:53 | removing commas keeps every other character, with its count |
| Text.RemoveCommasConcat | parse_roster_pdfs.py:53 | comma removal distributes over concatenation, so the other characters keep their order |
| Text.RemoveCommasNoComma | parse_roster_pdfs.py:53 | a figure without commas is unchanged |
| Season.SeasonOf | parse_roster_pdfs.py:211 | the season is "2025" exactly when the file name mentions 2025, and "2024" otherwise |
| Season.OutputName | parse_roster_pdfs.py:212 | the output file name is the season followed by `_roster_profiles_parsed.csv` |
| RosterTypes.LabelInjective | parse_roster_pdfs.py:150-160 | the six category texts a record can carry are distinct, so the text names the category |
| Season.OutputPerSeason | parse_roster_pdfs.py:211-212 | two files share an output file exactly when both or neither mention 2025 |
| Season.NoFiveIs2024 | parse_roster_pdfs.py:211 | a file name without the digit 5, such as that of a 2023 roster, is labelled 2024 |

## Left out

- Opening the PDF and the text and table extraction of the PDF library (lines 29, 35, 59): their results are the `Page` inputs. A page whose `extract_text` returns `None` is given with text "".
- The regular-expression engine (lines 40, 46, 51): each pattern's `group(1)` capture, or `None`, is a per-page input, so the patterns' own semantics are not verified.
- Text.Strip: only ASCII whitespace and the four separator controls (28-31) count as whitespace, whereas Python's `str.strip()` also strips the other Unicode whitespace characters.
- Text.Upper: only ASCII letters are upper-cased, whereas Python's `str.upper()` also maps other letters and may change a string's length.
- Cells hold strings or `None`. The `str(...)` conversion of other cell values is not modelled, because the PDF library gives only those two.
- The console output of the page loop (line 43) and of `main`.
- `main`'s directory glob, the pandas DataFrame, the CSV writing and the summary statistics (lines 180-247). Only the season label and the output file name are kept.
- MLS_Stats.py: this is browser automation, page-source dumping and pandas table reading around a thin column-renaming wrapper, with no logic of the extractor's kind.
- Records are built as values. The output list is grown by concatenating each table's records, not appended to in place. The order is the same.
- The table-level counterpart of `Extractor.RowRecordsConcat` is not stated. Table order within a page follows from the definition of `TablesRecords` and from `Extractor.ParseTables`.
