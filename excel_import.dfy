/**
 * The offline spreadsheet import (import_from_excel.py:11-26): rows with a
 * `Client` and a `Project Title` cell become a student table and a project
 * table. A missing cell (pandas NaN) is `None`.
 */
module ExcelImport {
  import opened Seqs
  import opened Text
  import opened ProjectNames

  datatype SheetRow = SheetRow(client: Option<string>, projectTitle: Option<string>)

  datatype StudentRecord = StudentRecord(username: string, budget: int, remainingBudget: int)

  datatype ProjectRecord = ProjectRecord(projectId: string, projectName: string)

  /** Budget (and remaining budget) of every imported student. */
  const ImportBudget := 600

  /** The Client column, one cell per row. */
  function ClientCells(rows: seq<SheetRow>): seq<Option<string>>
  {
    seq(|rows|, i requires 0 <= i < |rows| => rows[i].client)
  }

  /** The non-missing Client cells in row order (`excel_df['Client'].dropna()`). */
  function Clients(rows: seq<SheetRow>): (cs: seq<string>)
    ensures forall c :: c in cs <==> exists i :: 0 <= i < |rows| && rows[i].client == Some(c)
  {
    var cells := ClientCells(rows);
    assert forall c :: Some(c) in cells <==> exists i :: 0 <= i < |rows| && rows[i].client == Some(c) by {
      forall c | exists i :: 0 <= i < |rows| && rows[i].client == Some(c) ensures Some(c) in cells {
        var i :| 0 <= i < |rows| && rows[i].client == Some(c);
        assert cells[i] == Some(c);
      }
    }
    Present(cells)
  }

  /** The student table: each distinct client once, unstripped, first appearance first, with 600 to spend. */
  function ImportStudents(rows: seq<SheetRow>): (r: seq<StudentRecord>)
  {
    var names := Dedup(Clients(rows));
    seq(|names|, i requires 0 <= i < |names| => StudentRecord(names[i], ImportBudget, ImportBudget))
  }

  /** The student table lists every client exactly once, with budget and remaining budget 600. */
  lemma ImportedStudentsAreTheClients(rows: seq<SheetRow>)
    ensures var r := ImportStudents(rows);
      && (forall i, j :: 0 <= i < j < |r| ==> r[i].username != r[j].username)
      && (forall c :: (exists i :: 0 <= i < |r| && r[i].username == c)
                      <==> (exists i :: 0 <= i < |rows| && rows[i].client == Some(c)))
      && (forall i :: 0 <= i < |r| ==> r[i].budget == ImportBudget && r[i].remainingBudget == ImportBudget)
  {
    var names := Dedup(Clients(rows));
    var r := ImportStudents(rows);
    forall c ensures (exists i :: 0 <= i < |r| && r[i].username == c) <==> c in names {
      if c in names {
        var i :| 0 <= i < |names| && names[i] == c;
        assert r[i].username == c;
      }
    }
  }

  /**
   * Students appear in the order in which their Client value first occurs:
   * the first row holding an earlier student comes before the first row
   * holding a later one.
   */
  lemma ImportedStudentsInFirstAppearanceOrder(rows: seq<SheetRow>, i: nat, j: nat)
    requires i < j < |ImportStudents(rows)|
    ensures var cells, r := ClientCells(rows), ImportStudents(rows);
      && Some(r[i].username) in cells && Some(r[j].username) in cells
      && IndexOf(cells, Some(r[i].username)).value < IndexOf(cells, Some(r[j].username)).value
  {
    var cs := Clients(rows);
    DedupFirstOccurrenceOrder(cs, i, j);
    PresentFirstOccurrenceOrder(ClientCells(rows), Dedup(cs)[i], Dedup(cs)[j]);
  }

  /** A row makes a project when both cells are present and neither is blank after stripping (lines 21-22). */
  predicate KeepsProject(row: SheetRow)
  {
    row.client.Some? && row.projectTitle.Some? && Trim(row.client.value) != "" && Trim(row.projectTitle.value) != ""
  }

  /** The project name of a kept row: stripped client, ": ", stripped title (line 23). */
  function ProjectNameOf(row: SheetRow): string
    requires KeepsProject(row)
  {
    Trim(row.client.value) + ": " + Trim(row.projectTitle.value)
  }

  /** Each row's project name, or `None` for a row the filter drops. */
  function NameCells(rows: seq<SheetRow>): seq<Option<string>>
  {
    seq(|rows|, i requires 0 <= i < |rows| => if KeepsProject(rows[i]) then Some(ProjectNameOf(rows[i])) else None)
  }

  /** The names of the kept rows, in row order, duplicates included. */
  function CandidateNames(rows: seq<SheetRow>): (ns: seq<string>)
    ensures forall n :: n in ns <==> exists i :: 0 <= i < |rows| && KeepsProject(rows[i]) && ProjectNameOf(rows[i]) == n
  {
    var cells := NameCells(rows);
    assert forall n :: Some(n) in cells <==> exists i :: 0 <= i < |rows| && KeepsProject(rows[i]) && ProjectNameOf(rows[i]) == n by {
      forall n | exists i :: 0 <= i < |rows| && KeepsProject(rows[i]) && ProjectNameOf(rows[i]) == n ensures Some(n) in cells {
        var i :| 0 <= i < |rows| && KeepsProject(rows[i]) && ProjectNameOf(rows[i]) == n;
        assert cells[i] == Some(n);
      }
    }
    Present(cells)
  }

  /** `f'P{i+1}'`: the id of the project at (zero-based) position i. */
  function ProjectId(i: nat): string
  {
    "P" + Decimal(i + 1)
  }

  /** The project table: kept names, first occurrence of each, numbered P1..Pn in that order (lines 24-26). */
  function ImportProjects(rows: seq<SheetRow>): (r: seq<ProjectRecord>)
  {
    var names := Dedup(CandidateNames(rows));
    seq(|names|, i requires 0 <= i < |names| => ProjectRecord(ProjectId(i), names[i]))
  }

  /** Distinct positions get distinct ids. */
  lemma ProjectIdsDistinct(i: nat, j: nat)
    requires i != j
    ensures ProjectId(i) != ProjectId(j)
  {
    assert ProjectId(i)[1..] == Decimal(i + 1);
    assert ProjectId(j)[1..] == Decimal(j + 1);
  }

  /** The project ids are P1..Pn in table order, one per project, pairwise distinct. */
  lemma ImportedProjectIdsDistinct(rows: seq<SheetRow>)
    ensures var r := ImportProjects(rows);
      && (forall i :: 0 <= i < |r| ==> r[i].projectId == "P" + Decimal(i + 1))
      && (forall i, j :: 0 <= i < j < |r| ==> r[i].projectId != r[j].projectId)
  {
    var r := ImportProjects(rows);
    forall i, j | 0 <= i < j < |r| ensures r[i].projectId != r[j].projectId {
      ProjectIdsDistinct(i, j);
    }
  }

  /**
   * The project names are pairwise distinct, each comes from a kept row, and
   * every kept row's name is listed.
   */
  lemma ImportedProjectNamesAreTheKeptRows(rows: seq<SheetRow>)
    ensures var r := ImportProjects(rows);
      && (forall i, j :: 0 <= i < j < |r| ==> r[i].projectName != r[j].projectName)
      && (forall i :: 0 <= i < |r| ==> r[i].projectName in CandidateNames(rows))
      && (forall n :: n in CandidateNames(rows) ==> exists i :: 0 <= i < |r| && r[i].projectName == n)
  {
    var names := Dedup(CandidateNames(rows));
    var r := ImportProjects(rows);
    forall n | n in CandidateNames(rows) ensures exists i :: 0 <= i < |r| && r[i].projectName == n {
      var i :| 0 <= i < |names| && names[i] == n;
      assert r[i].projectName == n;
    }
  }

  /** Of rows sharing a name, the first is the one kept: projects are ordered by first occurrence. */
  lemma ImportedProjectsInFirstAppearanceOrder(rows: seq<SheetRow>, i: nat, j: nat)
    requires i < j < |ImportProjects(rows)|
    ensures var ns := CandidateNames(rows);
      var r := ImportProjects(rows);
      && r[i].projectName in ns && r[j].projectName in ns
      && IndexOf(ns, r[i].projectName).value < IndexOf(ns, r[j].projectName).value
  {
    DedupFirstOccurrenceOrder(CandidateNames(rows), i, j);
  }

  /**
   * An imported name whose client has no colon is already canonical: the
   * migration parses it back into the stripped client and title and stores
   * it unchanged.
   */
  lemma ImportedNameSurvivesMigration(row: SheetRow)
    requires KeepsProject(row) && ':' !in row.client.value
    ensures Parse(ProjectNameOf(row)) == ParsedName(Trim(row.client.value), Trim(row.projectTitle.value))
    ensures Normalize(ProjectNameOf(row)) == ProjectNameOf(row)
  {
    ParseCanonical(Trim(row.client.value), Trim(row.projectTitle.value));
  }
}
