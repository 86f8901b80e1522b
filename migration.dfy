/**
 * migrate_from_csv (database.py:85-109): every `projects.csv` row
 * `(project_id, project_name)` yields a student named by the parsed owner,
 * seeded with a budget of 100, and a project stored under its id with its
 * normalised name.
 */
module Migration {
  import opened Seqs
  import opened ProjectNames
  import opened Ledger

  /** One row of `projects.csv`. */
  datatype CsvRow = CsvRow(projectId: string, projectName: string)

  /** Budget (and remaining budget) of every student the migration writes. */
  const SeedBudget := 100

  /** The stripped student name a row mentions (database.py:95-102). */
  function RowStudent(row: CsvRow): string
  {
    Parse(row.projectName).student
  }

  /** The row with its name normalised (database.py:103). */
  function NormalizedRow(row: CsvRow): CsvRow
  {
    CsvRow(row.projectId, Normalize(row.projectName))
  }

  /** The distinct stripped student names the rows mention (`list(set(students))`). */
  function MigratedNames(rows: seq<CsvRow>): set<string>
  {
    set i | 0 <= i < |rows| :: RowStudent(rows[i])
  }

  /** The project ids the rows mention. */
  function ProjectIds(rows: seq<CsvRow>): set<string>
  {
    set i | 0 <= i < |rows| :: rows[i].projectId
  }

  /**
   * The project writes of database.py:108-109, in row order: each row's id
   * gets the row's normalised name; ids no row mentions keep their names.
   */
  function ApplyProjectRows(projects: map<string, string>, rows: seq<CsvRow>): (r: map<string, string>)
    ensures r.Keys == projects.Keys + ProjectIds(rows)
    ensures forall id :: id in projects && id !in ProjectIds(rows) ==> r[id] == projects[id]
    decreases |rows|
  {
    if rows == [] then projects
    else
      var init, last := rows[..|rows| - 1], rows[|rows| - 1];
      assert ProjectIds(rows) == ProjectIds(init) + {last.projectId} by {
        assert forall i :: 0 <= i < |init| ==> init[i] == rows[i];
      }
      ApplyProjectRows(projects, init)[last.projectId := NormalizedRow(last).projectName]
  }

  /** A later row with the same id overwrites an earlier one: the last row for an id decides its name. */
  lemma {:induction false} LastRowWins(projects: map<string, string>, rows: seq<CsvRow>, j: nat)
    requires j < |rows|
    requires forall k :: j < k < |rows| ==> rows[k].projectId != rows[j].projectId
    ensures rows[j].projectId in ApplyProjectRows(projects, rows)
    ensures ApplyProjectRows(projects, rows)[rows[j].projectId] == Normalize(rows[j].projectName)
    decreases |rows|
  {
    if j < |rows| - 1 {
      var init := rows[..|rows| - 1];
      LastRowWins(projects, init, j);
    }
  }

  /** Every project name the migration writes is already in canonical "<student>: <title>" form. */
  lemma {:induction false} MigratedProjectNamesCanonical(projects: map<string, string>, rows: seq<CsvRow>, id: string)
    requires id in ProjectIds(rows)
    ensures Normalize(ApplyProjectRows(projects, rows)[id]) == ApplyProjectRows(projects, rows)[id]
    decreases |rows|
  {
    var init, last := rows[..|rows| - 1], rows[|rows| - 1];
    if id == last.projectId {
      NormalizeIdempotent(last.projectName);
    } else {
      assert id in ProjectIds(init) by {
        var i :| 0 <= i < |rows| && rows[i].projectId == id;
        assert init[i] == rows[i];
      }
      MigratedProjectNamesCanonical(projects, init, id);
    }
  }

  /**
   * The store after migrate_from_csv: one student per distinct name with
   * budget and remaining budget 100, overwriting any existing record of that
   * name; other students, and all investments, untouched; projects as
   * ApplyProjectRows writes them.
   */
  function Migrate(st: State, rows: seq<CsvRow>): (r: State)
    ensures r.investments == st.investments
    ensures r.students.Keys == st.students.Keys + MigratedNames(rows)
    ensures forall n :: n in MigratedNames(rows) ==> r.students[n] == Student(SeedBudget, SeedBudget)
    ensures forall u :: u in st.students && u !in MigratedNames(rows) ==> r.students[u] == st.students[u]
    ensures r.projects == ApplyProjectRows(st.projects, rows)
  {
    var seeded := map n | n in MigratedNames(rows) :: Student(SeedBudget, SeedBudget);
    st.(students := st.students + seeded, projects := ApplyProjectRows(st.projects, rows))
  }

  /**
   * On a consistent store the migration keeps the ledger invariant exactly
   * when none of the students it (re)seeds has invested anything.
   */
  lemma MigrateKeepsConsistentIff(st: State, rows: seq<CsvRow>)
    requires Consistent(st)
    ensures Consistent(Migrate(st, rows))
        <==> forall n :: n in MigratedNames(rows) ==> Spent(st.investments, n) == 0
  {
    var r := Migrate(st, rows);
    if forall n :: n in MigratedNames(rows) ==> Spent(st.investments, n) == 0 {
      assert Consistent(r);
    } else {
      var n :| n in MigratedNames(rows) && Spent(st.investments, n) != 0;
      assert r.students[n].remaining != r.students[n].budget - Spent(r.investments, n);
    }
  }

  /**
   * The start-up code as written (app.py:33-35): a browser session migrates
   * when its `db_migrated` entry is absent (`None`), whatever the store holds.
   */
  function SessionStart(st: State, flag: Option<bool>, rows: seq<CsvRow>): State
  {
    if flag.None? then Migrate(st, rows) else st
  }

  /**
   * Every new browser session starts with no `db_migrated` entry. A store
   * where student "A" has invested 60 of 100 is consistent, yet the next new
   * session re-migrates a `projects.csv` that names "A" and resets A's
   * remaining budget to 100 while the investment stays.
   */
  lemma SessionMigrationBreaksLedger()
    ensures var st := State(map["A" := Student(100, 40)], map[], [Investment("A", "P1", 60, "t")]);
      && Consistent(st)
      && !Consistent(SessionStart(st, None, [CsvRow("P1", "A")]))
  {
    var st := State(map["A" := Student(100, 40)], map[], [Investment("A", "P1", 60, "t")]);
    var rows := [CsvRow("P1", "A")];
    assert Spent(st.investments, "A") == 60 by {
      assert st.investments[..0] == [];
    }
    assert RowStudent(rows[0]) == "A";
    assert rows[0].projectName == "A";
    assert "A" in MigratedNames(rows);
    MigrateKeepsConsistentIff(st, rows);
  }

  /**
   * After reset_db the admin's session sets `db_migrated` to False to allow
   * re-migration (app.py:151-152), but the start-up test looks only at the
   * entry's presence: the session keeps the empty store.
   */
  lemma ResetSessionStaysEmpty(rows: seq<CsvRow>)
    ensures SessionStart(Empty, Some(false), rows) == Empty
  {
  }

  /**
   * The migration as the start-up code means it ("if this is the first
   * run"): it runs only on an empty store and is a no-op otherwise.
   */
  function FirstRunMigration(st: State, rows: seq<CsvRow>): State
  {
    if st == Empty then Migrate(st, rows) else st
  }

  /** Migrating only on the first run never breaks the ledger invariant. */
  lemma FirstRunMigrationKeepsConsistent(st: State, rows: seq<CsvRow>)
    requires Consistent(st)
    ensures Consistent(FirstRunMigration(st, rows))
  {
    if st == Empty {
      MigrateKeepsConsistentIff(st, rows);
    }
  }

  /** Once `projects.csv` has been migrated, later sessions leave the store alone. */
  lemma LaterSessionsDoNotRemigrate(st: State, rows: seq<CsvRow>)
    ensures var once := FirstRunMigration(st, rows);
      FirstRunMigration(once, rows) == once
  {
    if st == Empty && rows != [] {
      var once := Migrate(st, rows);
      assert rows[0].projectId in ProjectIds(rows);
      assert rows[0].projectId in once.projects;
    }
  }

  /** Gating on an empty store instead re-migrates right after reset_db, as app.py:152 intends. */
  lemma ResetStoreRemigrates(rows: seq<CsvRow>)
    requires rows != []
    ensures FirstRunMigration(Empty, rows) == Migrate(Empty, rows)
    ensures rows[0].projectId in FirstRunMigration(Empty, rows).projects
    ensures RowStudent(rows[0]) in FirstRunMigration(Empty, rows).students
  {
    assert rows[0].projectId in ProjectIds(rows);
    assert RowStudent(rows[0]) in MigratedNames(rows);
  }
}
