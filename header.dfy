/** Header resolution: finding the header row of a roster table and giving
    column roles by substring tests on its cells (parse_roster_pdfs.py:62-107). */
module Header {
  import opened Text
  import opened RosterTypes

  /** A header cell as the extractor reads it, `str(h).upper() if h else ''`:
      upper-cased but not trimmed. */
  function NormalizeCell(c: Cell): string {
    if c.Some? && c.value != "" then Upper(c.value) else ""
  }

  function NormalizeRow(row: Row): seq<string> {
    seq(|row|, k requires 0 <= k < |row| => NormalizeCell(row[k]))
  }

  /** The roster-table test on a candidate header row: the space-joined cells
      contain "ROSTER DESIGNATION", so the phrase may span two adjacent cells. */
  predicate MentionsDesignation(cells: seq<string>) {
    Contains(JoinSpace(cells), "ROSTER DESIGNATION")
  }

  predicate MentionsName(cells: seq<string>) {
    Contains(JoinSpace(cells), "NAME")
  }

  /** The header cells and the index of the first data row. */
  datatype Header = Header(cells: seq<string>, start: nat)

  /** Row 0 is non-empty and passes the roster-table test. */
  predicate RowZeroIsHeader(table: Table) {
    |table| > 0 && table[0] != [] && MentionsDesignation(NormalizeRow(table[0]))
  }

  /** Finds the header of a table, or rejects it (see `HeaderPrecedence`). */
  function ResolveHeader(table: Table): Option<Header>
  {
    if |table| < 2 then None
    else
      var fromRowZero :=
        if table[0] != [] && MentionsDesignation(NormalizeRow(table[0]))
        then Some(Header(NormalizeRow(table[0]), 1)) else None;
      var found :=
        if fromRowZero.None? && MentionsDesignation(NormalizeRow(table[1]))
        then Some(Header(NormalizeRow(table[1]), 2)) else fromRowZero;
      if found.None? || found.value.cells == [] || !MentionsName(found.value.cells) then None
      else found
  }

  /** Header precedence. A table of fewer than two rows is rejected. Row 0
      is tried first (data from row 1), then row 1 (data from row 2); once a
      row passes the roster-table test it is the header, and the table is
      rejected when that header does not mention "NAME", whatever the other
      row holds. */
  lemma HeaderPrecedence(table: Table)
    ensures |table| < 2 ==> ResolveHeader(table).None?
    ensures ResolveHeader(table).Some? ==>
      ResolveHeader(table).value.start in {1, 2} && ResolveHeader(table).value.start <= |table| &&
      ResolveHeader(table).value.cells == NormalizeRow(table[ResolveHeader(table).value.start - 1]) &&
      MentionsDesignation(ResolveHeader(table).value.cells) && MentionsName(ResolveHeader(table).value.cells)
    ensures |table| >= 2 && RowZeroIsHeader(table) ==>
      (ResolveHeader(table).Some? <==> MentionsName(NormalizeRow(table[0]))) && (ResolveHeader(table).Some? ==> ResolveHeader(table).value.start == 1)
    ensures |table| >= 2 && !RowZeroIsHeader(table) ==>
      (ResolveHeader(table).Some? <==> MentionsDesignation(NormalizeRow(table[1])) && MentionsName(NormalizeRow(table[1]))) &&
      (ResolveHeader(table).Some? ==> ResolveHeader(table).value.start == 2)
  {
  }

  /** The roles other than `name`, in the order the header loop tests them. */
  datatype Role = DesignationRole | StatusRole | ContractRole | OptionRole

  /** The role a header cell takes when it is not taken as the name column. */
  function CellRole(h: string): Option<Role> {
    if Contains(h, "DESIGNATION") then Some(DesignationRole)
    else if Contains(h, "STATUS") then Some(StatusRole)
    else if Contains(h, "CONTRACT") && Contains(h, "THRU") then Some(ContractRole)
    else if Contains(h, "OPTION") then Some(OptionRole)
    else None
  }

  function RoleIndex(cols: ColumnMap, role: Role): Option<nat> {
    match role
    case DesignationRole => cols.designation
    case StatusRole => cols.status
    case ContractRole => cols.contract
    case OptionRole => cols.option
  }

  /** One step of the header loop: cell `h` at index `i`. */
  function Step(cols: ColumnMap, i: nat, h: string): ColumnMap {
    if Contains(h, "NAME") && cols.name.None? then cols.(name := Some(i))
    else match CellRole(h)
      case None => cols
      case Some(DesignationRole) => cols.(designation := Some(i))
      case Some(StatusRole) => cols.(status := Some(i))
      case Some(ContractRole) => cols.(contract := Some(i))
      case Some(OptionRole) => cols.(option := Some(i))
  }

  /** The column map after the header loop has seen the first `n` cells. */
  function Scan(headers: seq<string>, n: nat): ColumnMap
    requires n <= |headers|
  {
    if n == 0 then NoColumns else Step(Scan(headers, n - 1), n - 1, headers[n - 1])
  }

  /** The column map of a header row. */
  function Columns(headers: seq<string>): ColumnMap {
    Scan(headers, |headers|)
  }

  /** The header loop: role indices assigned cell by cell, left to right. */
  method ScanColumns(headers: seq<string>) returns (cols: ColumnMap)
    ensures cols == Columns(headers)
  {
    var nameIdx: Option<nat> := None;
    var designationIdx: Option<nat> := None;
    var statusIdx: Option<nat> := None;
    var contractIdx: Option<nat> := None;
    var optionIdx: Option<nat> := None;
    for i := 0 to |headers|
      invariant ColumnMap(nameIdx, designationIdx, statusIdx, contractIdx, optionIdx) == Scan(headers, i)
    {
      var h := headers[i];
      if Contains(h, "NAME") && nameIdx.None? {
        nameIdx := Some(i);
      } else if Contains(h, "DESIGNATION") {
        designationIdx := Some(i);
      } else if Contains(h, "STATUS") {
        statusIdx := Some(i);
      } else if Contains(h, "CONTRACT") && Contains(h, "THRU") {
        contractIdx := Some(i);
      } else if Contains(h, "OPTION") {
        optionIdx := Some(i);
      }
    }
    cols := ColumnMap(nameIdx, designationIdx, statusIdx, contractIdx, optionIdx);
  }

  predicate IsNameCell(h: string) {
    Contains(h, "NAME")
  }

  /** Cell `i` is the first cell that mentions "NAME". */
  predicate IsFirstNameCell(headers: seq<string>, i: int)
    requires 0 <= i < |headers|
  {
    IsNameCell(headers[i]) && forall j | 0 <= j < i :: !IsNameCell(headers[j])
  }

  /** Cell `i` is claimed by `role`: it is not the name column and the first
      of the remaining tests that it passes is that role's. */
  predicate TakesRole(headers: seq<string>, i: int, role: Role)
    requires 0 <= i < |headers|
  {
    !IsFirstNameCell(headers, i) && CellRole(headers[i]) == Some(role)
  }

  /** `idx` is the last of the first `n` cells that `role` claims, or `None`
      when it claims none of them. */
  predicate IsLastTaker(headers: seq<string>, n: nat, idx: Option<nat>, role: Role)
    requires n <= |headers|
  {
    match idx
    case None => forall j | 0 <= j < n :: !TakesRole(headers, j, role)
    case Some(i) => i < n && TakesRole(headers, i, role) && forall j | i < j < n :: !TakesRole(headers, j, role)
  }

  /** The declarative reading of the header loop over the first `n` cells:
      `name` is the first cell mentioning "NAME" (first match wins), and
      every other role is the LAST cell it claims (a later match overwrites). */
  predicate ResolvesRoles(headers: seq<string>, n: nat, cols: ColumnMap)
    requires n <= |headers|
  {
    (cols.name.None? <==> forall j | 0 <= j < n :: !IsNameCell(headers[j])) &&
    (cols.name.Some? ==> cols.name.value < n && IsFirstNameCell(headers, cols.name.value)) &&
    IsLastTaker(headers, n, cols.designation, DesignationRole) &&
    IsLastTaker(headers, n, cols.status, StatusRole) &&
    IsLastTaker(headers, n, cols.contract, ContractRole) &&
    IsLastTaker(headers, n, cols.option, OptionRole)
  }

  lemma {:induction false} ScanNameColumn(headers: seq<string>, n: nat)
    requires n <= |headers|
    ensures Scan(headers, n).name.None? <==> forall j | 0 <= j < n :: !IsNameCell(headers[j])
    ensures Scan(headers, n).name.Some? ==>
      Scan(headers, n).name.value < n && IsFirstNameCell(headers, Scan(headers, n).name.value)
  {
    if n > 0 {
      ScanNameColumn(headers, n - 1);
    }
  }

  /** One step of the header loop as seen by one role: the cell is skipped
      when it becomes the name column, claimed when its first passing test is
      the role's, and otherwise leaves the role's index alone. */
  lemma StepRoleIndex(cols: ColumnMap, i: nat, h: string, role: Role)
    ensures RoleIndex(Step(cols, i, h), role) ==
      if Contains(h, "NAME") && cols.name.None? then RoleIndex(cols, role)
      else if CellRole(h) == Some(role) then Some(i)
      else RoleIndex(cols, role)
  {
  }

  lemma {:induction false} ScanRoleColumn(headers: seq<string>, n: nat, role: Role)
    requires n <= |headers|
    ensures IsLastTaker(headers, n, RoleIndex(Scan(headers, n), role), role)
  {
    if n > 0 {
      ScanNameColumn(headers, n - 1);
      ScanRoleColumn(headers, n - 1, role);
      var prev := Scan(headers, n - 1);
      var h := headers[n - 1];
      StepRoleIndex(prev, n - 1, h, role);
      assert Contains(h, "NAME") && prev.name.None? <==> IsFirstNameCell(headers, n - 1);
      assert TakesRole(headers, n - 1, role) <==>
        !(Contains(h, "NAME") && prev.name.None?) && CellRole(h) == Some(role);
    }
  }

  /** The header loop computes the declarative column map: first `NAME`
      cell, last claimant of every other role; so every index it gives is
      that of a header cell. */
  lemma ColumnsResolveRoles(headers: seq<string>)
    ensures ResolvesRoles(headers, |headers|, Columns(headers))
    ensures forall role :: RoleIndex(Columns(headers), role).Some? ==>
      RoleIndex(Columns(headers), role).value < |headers|
  {
    var n := |headers|;
    ScanNameColumn(headers, n);
    ScanRoleColumn(headers, n, DesignationRole);
    ScanRoleColumn(headers, n, StatusRole);
    ScanRoleColumn(headers, n, ContractRole);
    ScanRoleColumn(headers, n, OptionRole);
    forall role | RoleIndex(Columns(headers), role).Some?
      ensures RoleIndex(Columns(headers), role).value < |headers|
    {
      ScanRoleColumn(headers, n, role);
    }
  }

  /** The declarative reading pins the column map down: at most one map
      meets it, so it is a complete specification of the header loop. */
  lemma {:induction false} ResolvesRolesUnique(headers: seq<string>, a: ColumnMap, b: ColumnMap)
    requires ResolvesRoles(headers, |headers|, a) && ResolvesRoles(headers, |headers|, b)
    ensures a == b
  {
    var n := |headers|;
    if a.name.Some? && b.name.Some? {
      var i, j := a.name.value, b.name.value;
      assert !(i < j) && !(j < i) by {
        assert IsNameCell(headers[i]) && IsNameCell(headers[j]);
      }
    }
    LastTakerUnique(headers, n, a.designation, b.designation, DesignationRole);
    LastTakerUnique(headers, n, a.status, b.status, StatusRole);
    LastTakerUnique(headers, n, a.contract, b.contract, ContractRole);
    LastTakerUnique(headers, n, a.option, b.option, OptionRole);
  }

  lemma LastTakerUnique(headers: seq<string>, n: nat, x: Option<nat>, y: Option<nat>, role: Role)
    requires n <= |headers|
    requires IsLastTaker(headers, n, x, role) && IsLastTaker(headers, n, y, role)
    ensures x == y
  {
    if x.Some? && y.Some? {
      assert !(x.value < y.value) && !(y.value < x.value);
    }
  }

  /** A header whose space-join mentions "NAME" has a cell that mentions it,
      because "NAME" holds no space; so the name column is always found and
      the table is never dropped for want of one. */
  lemma NameColumnFound(headers: seq<string>)
    requires MentionsName(headers)
    ensures Columns(headers).name.Some?
  {
    JoinedWordInCell(headers, "NAME");
    ScanNameColumn(headers, |headers|);
  }

  /** Every table the resolver accepts has a name column. */
  lemma AcceptedTableHasNameColumn(table: Table)
    requires ResolveHeader(table).Some?
    ensures Columns(ResolveHeader(table).value.cells).name.Some?
  {
    HeaderPrecedence(table);
    NameColumnFound(ResolveHeader(table).value.cells);
  }
}
