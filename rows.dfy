/** The row classifier: noise-row filtering and defensive field reads for
    one data row of a roster table (parse_roster_pdfs.py:110-173). */
module Rows {
  import opened Text
  import opened RosterTypes
  import opened Categories

  /** An optional field of a row: "" when the role has no column, the row is
      too short, or the cell is `None` or ""; otherwise the stripped cell. */
  function Field(row: Row, idx: Option<nat>): (r: string)
    ensures r == "" <==>
      idx.None? || |row| <= idx.value || row[idx.value].None? || Strip(row[idx.value].value) == ""
    ensures r != "" ==> r == Strip(row[idx.value].value)
    ensures r == [] || (!IsSpace(r[0]) && !IsSpace(r[|r| - 1]))
  {
    if idx.Some? && |row| > idx.value then
      var cell := row[idx.value];
      if cell.Some? && cell.value != "" then Strip(cell.value) else ""
    else ""
  }

  /** Upper-case terms that mark a name cell as a repeated header or a
      section banner rather than a player. */
  const SkipTerms: seq<string> := [
    "NAME", "SENIOR ROSTER", "SUPPLEMENTAL ROSTER",
    "SUPPLEMENTAL SPOT", "OFF-ROSTER", "DESIGNATED PLAYERS",
    "U22 INITIATIVE", "UNAVAILABLE PLAYERS", "NO."
  ]

  predicate HasSkipTerm(upperName: string) {
    exists t | t in SkipTerms :: Contains(upperName, t)
  }

  /** The name cell a row contributes, if any: present, not blank, and free
      of every skip term once upper-cased. */
  predicate IsPlayerName(row: Row, nameIdx: nat) {
    |row| > nameIdx && row[nameIdx].Some? &&
    Strip(row[nameIdx].value) != "" && !HasSkipTerm(Upper(Strip(row[nameIdx].value)))
  }

  /** Turns one data row into a player record under the given context, or
      skips it (see `ClassifyRowSpec`). */
  function ClassifyRow(row: Row, cols: ColumnMap, ctx: Context): Option<PlayerRecord>
    requires cols.name.Some? && HasTeam(ctx)
  {
    var nameIdx := cols.name.value;
    if row == [] || |row| <= nameIdx then None
    else
      var cell := row[nameIdx];
      if cell.None? || cell.value == "" || Strip(cell.value) == "" then None
      else
        var playerName := Strip(cell.value);
        if HasSkipTerm(Upper(playerName)) then None
        else
          var designation := Field(row, cols.designation);
          Some(PlayerRecord(
            ctx.team.value,
            playerName,
            designation,
            Field(row, cols.status),
            Field(row, cols.contract),
            Field(row, cols.option),
            Categorize(designation),
            OrEmpty(ctx.rosterModel),
            OrEmpty(ctx.gam)))
  }

  /** The row filter: a record is produced exactly for rows whose name cell
      passes `IsPlayerName`; its name is the stripped name cell (never blank,
      no surrounding whitespace), its optional fields are read defensively,
      its category comes from its designation, and team, roster model and
      GAM figure are those of the context. */
  lemma ClassifyRowSpec(row: Row, cols: ColumnMap, ctx: Context)
    requires cols.name.Some? && HasTeam(ctx)
    ensures ClassifyRow(row, cols, ctx).Some? <==> IsPlayerName(row, cols.name.value)
    ensures ClassifyRow(row, cols, ctx).Some? ==>
      var p := ClassifyRow(row, cols, ctx).value;
      p.name == Strip(row[cols.name.value].value) && p.name != "" &&
      !IsSpace(p.name[0]) && !IsSpace(p.name[|p.name| - 1]) &&
      p.team == ctx.team.value && p.team != "" &&
      p.rosterDesignation == Field(row, cols.designation) &&
      p.currentStatus == Field(row, cols.status) &&
      p.contractThru == Field(row, cols.contract) &&
      p.optionYears == Field(row, cols.option) &&
      p.category == Categorize(p.rosterDesignation) &&
      p.rosterModel == OrEmpty(ctx.rosterModel) &&
      p.teamGam2025 == OrEmpty(ctx.gam)
  {
  }

  /** A row whose name cell, upper-cased, holds a skip term is noise, whatever
      its other cells say. */
  lemma NoiseRowSkipped(row: Row, cols: ColumnMap, ctx: Context, term: string)
    requires cols.name.Some? && HasTeam(ctx)
    requires |row| > cols.name.value && row[cols.name.value].Some?
    requires term in SkipTerms && Contains(Upper(Strip(row[cols.name.value].value)), term)
    ensures ClassifyRow(row, cols, ctx).None?
  {
  }

  /** A row whose name cell is "Senior Roster" in any mix of cases is a
      section banner and yields no record. */
  lemma SeniorRosterBannerSkipped(row: Row, cols: ColumnMap, ctx: Context, banner: string)
    requires cols.name.Some? && HasTeam(ctx)
    requires |row| > cols.name.value && row[cols.name.value] == Some(banner)
    requires Upper(banner) == "SENIOR ROSTER"
    ensures ClassifyRow(row, cols, ctx).None?
  {
    var upper := "SENIOR ROSTER";
    assert UpperChar(banner[0]) == upper[0] && UpperChar(banner[|banner| - 1]) == upper[|upper| - 1];
    StripOfTrimmed(banner);
    assert OccursAt(upper, upper, 0);
    NoiseRowSkipped(row, cols, ctx, upper);
  }

  /** Every skip term holds an "N" or an "O", so an upper-cased name with
      neither is never taken for noise. */
  lemma NoSkipTermWithoutNO(u: string)
    requires 'N' !in u && 'O' !in u
    ensures !HasSkipTerm(u)
  {
    MissingCharNotContained(u, "NAME", 'N');
    MissingCharNotContained(u, "SENIOR ROSTER", 'N');
    MissingCharNotContained(u, "SUPPLEMENTAL ROSTER", 'N');
    MissingCharNotContained(u, "SUPPLEMENTAL SPOT", 'N');
    MissingCharNotContained(u, "OFF-ROSTER", 'O');
    MissingCharNotContained(u, "DESIGNATED PLAYERS", 'N');
    MissingCharNotContained(u, "U22 INITIATIVE", 'N');
    MissingCharNotContained(u, "UNAVAILABLE PLAYERS", 'N');
    MissingCharNotContained(u, "NO.", 'N');
  }
}
