/**
 * The Firestore-backed store of database.py as an object whose three
 * collections are updated in place. Each operation is specified by the
 * value-level function of module Ledger or Migration that it implements, and
 * keeps the ledger invariant wherever that function does.
 */
module Database {
  import opened Ledger
  import opened ProjectNames
  import opened Migration

  class Store {
    var students: map<string, Student>
    var projects: map<string, string>
    var investments: seq<Investment>

    /** The current contents of the three collections. */
    function Snapshot(): State
      reads this
    {
      State(students, projects, investments)
    }

    /** The ledger invariant of the current contents. */
    predicate Consistent()
      reads this
    {
      Ledger.Consistent(Snapshot())
    }

    /** A fresh, empty store (init_db, database.py:24-26, has nothing to do on a schemaless store). */
    constructor ()
      ensures Snapshot() == Empty && Consistent()
    {
      students, projects, investments := map[], map[], [];
    }

    /** add_or_update_student (database.py:48-57). */
    method AddOrUpdateStudent(username: string, budget: int)
      modifies this
      ensures Snapshot() == UpsertStudent(old(Snapshot()), username, budget)
      ensures old(Consistent()) ==> Consistent()
    {
      if old(Consistent()) {
        UpsertStudentKeepsConsistent(Snapshot(), username, budget);
      }
      if username in students {
        var student := students[username];
        var diff := budget - student.budget;
        students := students[username := Student(budget, student.remaining + diff)];
      } else {
        students := students[username := Student(budget, budget)];
      }
    }

    /** add_or_update_project (database.py:59-61). */
    method AddOrUpdateProject(projectId: string, projectName: string)
      modifies this
      ensures Snapshot() == UpsertProject(old(Snapshot()), projectId, projectName)
      ensures old(Consistent()) ==> Consistent()
    {
      projects := projects[projectId := projectName];
    }

    /**
     * add_investment (database.py:63-83): one call of the transaction body,
     * run without interference; the timestamp is the caller's clock reading.
     */
    method AddInvestment(username: string, projectId: string, amount: int, timestamp: string)
      returns (outcome: Outcome)
      modifies this
      ensures Step(outcome, Snapshot()) == Invest(old(Snapshot()), username, projectId, amount, timestamp)
      ensures old(Consistent()) ==> Consistent()
    {
      if old(Consistent()) {
        InvestKeepsConsistent(Snapshot(), username, projectId, amount, timestamp);
      }
      if username !in students {
        return Failed(StudentNotFound);
      }
      var student := students[username];
      if student.remaining < amount {
        return Failed(InsufficientBudget);
      }
      students := students[username := student.(remaining := student.remaining - amount)];
      investments := investments + [Investment(username, projectId, amount, timestamp)];
      outcome := Done;
    }

    /** reset_db (database.py:111-116): delete every document of every collection, one by one. */
    method ResetDb()
      modifies this
      ensures Snapshot() == Empty && Consistent()
    {
      while students != map[]
        decreases |students|
      {
        var username :| username in students;
        students := students - {username};
      }
      while projects != map[]
        invariant students == map[]
        decreases |projects|
      {
        var projectId :| projectId in projects;
        projects := projects - {projectId};
      }
      while investments != []
        invariant students == map[] && projects == map[]
        decreases |investments|
      {
        investments := investments[1..];
      }
    }

    /**
     * The "Clear All Investments" button (app.py:159-168): delete every
     * investment, then set every student's remaining budget to its budget.
     */
    method ClearAllInvestments()
      modifies this
      ensures Snapshot() == ClearInvestments(old(Snapshot()))
      ensures Consistent()
    {
      while investments != []
        invariant students == old(students) && projects == old(projects)
        decreases |investments|
      {
        investments := investments[1..];
      }
      var pending := students.Keys;
      while pending != {}
        invariant pending <= students.Keys
        invariant students.Keys == old(students).Keys
        invariant forall u :: u in students && u in pending ==> students[u] == old(students)[u]
        invariant forall u :: u in students && u !in pending ==>
          students[u] == old(students)[u].(remaining := old(students)[u].budget)
        invariant projects == old(projects) && investments == []
        decreases pending
      {
        var username :| username in pending;
        students := students[username := students[username].(remaining := students[username].budget)];
        pending := pending - {username};
      }
    }

    /**
     * The first loop of migrate_from_csv (database.py:92-103): each row's
     * stripped student name, and the row with its name normalised.
     */
    static method ParseRows(rows: seq<CsvRow>) returns (names: seq<string>, normalized: seq<CsvRow>)
      ensures |names| == |rows| && |normalized| == |rows|
      ensures forall k :: 0 <= k < |rows| ==> names[k] == RowStudent(rows[k])
      ensures forall k :: 0 <= k < |rows| ==> normalized[k] == NormalizedRow(rows[k])
    {
      names, normalized := [], [];
      for i := 0 to |rows|
        invariant |names| == i && |normalized| == i
        invariant forall k :: 0 <= k < i ==> names[k] == RowStudent(rows[k])
        invariant forall k :: 0 <= k < i ==> normalized[k] == NormalizedRow(rows[k])
      {
        var parsed := Parse(rows[i].projectName);
        names := names + [parsed.student];
        normalized := normalized + [CsvRow(rows[i].projectId, parsed.student + ": " + parsed.title)];
      }
    }

    /** database.py:106-107: (over)write every named student with budget and remaining budget 100. */
    method SeedStudents(names: set<string>)
      modifies this
      ensures students == old(students) + map n | n in names :: Student(SeedBudget, SeedBudget)
      ensures projects == old(projects) && investments == old(investments)
    {
      var pending := names;
      while pending != {}
        invariant pending <= names
        invariant students.Keys == old(students).Keys + (names - pending)
        invariant forall u :: u in students ==>
          students[u] == if u in names - pending then Student(SeedBudget, SeedBudget) else old(students)[u]
        invariant projects == old(projects) && investments == old(investments)
        decreases pending
      {
        var name :| name in pending;
        students := students[name := Student(SeedBudget, SeedBudget)];
        pending := pending - {name};
      }
    }

    /** database.py:108-109: write the normalised project rows in order. */
    method WriteProjects(rows: seq<CsvRow>, normalized: seq<CsvRow>)
      requires |normalized| == |rows|
      requires forall k :: 0 <= k < |rows| ==> normalized[k] == NormalizedRow(rows[k])
      modifies this
      ensures projects == ApplyProjectRows(old(projects), rows)
      ensures students == old(students) && investments == old(investments)
    {
      for i := 0 to |normalized|
        invariant projects == ApplyProjectRows(old(projects), rows[..i])
        invariant students == old(students) && investments == old(investments)
      {
        assert rows[..i + 1][..i] == rows[..i];
        projects := projects[normalized[i].projectId := normalized[i].projectName];
      }
      assert rows[..|rows|] == rows;
    }

    /**
     * migrate_from_csv (database.py:85-109), from the rows of `projects.csv`:
     * parse every row, seed each distinct student with 100, then write the
     * projects in row order.
     */
    method MigrateFromCsv(rows: seq<CsvRow>)
      modifies this
      ensures Snapshot() == Migrate(old(Snapshot()), rows)
    {
      var names, normalized := ParseRows(rows);
      var distinct := set k | 0 <= k < |names| :: names[k];
      assert distinct == MigratedNames(rows) by {
        forall n | n in MigratedNames(rows) ensures n in distinct {
          var k :| 0 <= k < |rows| && RowStudent(rows[k]) == n;
          assert names[k] == n;
        }
      }
      SeedStudents(distinct);
      WriteProjects(rows, normalized);
    }

    /**
     * Start-up migration as intended: migrate only while the store is empty,
     * so that opening another session leaves an existing ledger alone.
     */
    method MigrateOnFirstRun(rows: seq<CsvRow>)
      modifies this
      ensures Snapshot() == FirstRunMigration(old(Snapshot()), rows)
      ensures old(Consistent()) ==> Consistent()
    {
      if old(Consistent()) {
        FirstRunMigrationKeepsConsistent(Snapshot(), rows);
      }
      if Snapshot() == Empty {
        MigrateFromCsv(rows);
      }
    }
  }
}
