/**
 * The investment ledger as values: the three Firestore collections
 * (students, projects, investments) and what each database operation does to
 * them (database.py:48-83, the clear-all sweep of app.py:159-168 and
 * reset_db, database.py:111-116).
 *
 * Central invariant: every investment names an existing student, and each
 * student's remaining budget is its budget minus what it has invested.
 */
module Ledger {

  /** The fields of a `students/{username}` document. */
  datatype Student = Student(budget: int, remaining: int)

  /** An `investments/{auto_id}` document; the timestamp comes from the caller's clock. */
  datatype Investment = Investment(username: string, projectId: string, amount: int, timestamp: string)

  /** The whole store: students by username, project names by project id, investments in insertion order. */
  datatype State = State(
    students: map<string, Student>,
    projects: map<string, string>,
    investments: seq<Investment>)

  /** The two `ValueError`s of add_investment: "Student not found" and "Insufficient budget". */
  datatype LedgerError = StudentNotFound | InsufficientBudget

  datatype Outcome = Done | Failed(error: LedgerError)

  /** What one ledger call reports and the store it leaves behind. */
  datatype Step = Step(outcome: Outcome, state: State)

  /** The store after reset_db: every collection empty. */
  const Empty := State(map[], map[], [])

  /** Total amount `username` has invested. */
  function Spent(investments: seq<Investment>, username: string): int
  {
    if investments == [] then 0
    else
      var last := investments[|investments| - 1];
      Spent(investments[..|investments| - 1], username) + (if last.username == username then last.amount else 0)
  }

  /** Appending one investment adds its amount to its investor's total and nothing to anyone else's. */
  lemma SpentAppend(investments: seq<Investment>, inv: Investment, username: string)
    ensures Spent(investments + [inv], username)
         == Spent(investments, username) + (if inv.username == username then inv.amount else 0)
  {
    assert (investments + [inv])[..|investments|] == investments;
  }

  /** A user who appears in no investment has invested nothing. */
  lemma {:induction false} SpentByStranger(investments: seq<Investment>, username: string)
    requires forall i :: 0 <= i < |investments| ==> investments[i].username != username
    ensures Spent(investments, username) == 0
  {
    if investments != [] {
      SpentByStranger(investments[..|investments| - 1], username);
    }
  }

  /** With positive amounts only (what the student page lets through), totals are never negative. */
  lemma {:induction false} SpentNonNegative(investments: seq<Investment>, username: string)
    requires forall i :: 0 <= i < |investments| ==> investments[i].amount > 0
    ensures Spent(investments, username) >= 0
  {
    if investments != [] {
      SpentNonNegative(investments[..|investments| - 1], username);
    }
  }

  /** The ledger invariant. */
  predicate Consistent(st: State)
  {
    && (forall i :: 0 <= i < |st.investments| ==> st.investments[i].username in st.students)
    && (forall u :: u in st.students ==>
          st.students[u].remaining == st.students[u].budget - Spent(st.investments, u))
  }

  /** reset_db leaves a consistent store. */
  lemma EmptyIsConsistent()
    ensures Consistent(Empty)
  {
  }

  /**
   * add_or_update_student (database.py:48-57): a new student starts with its
   * whole budget remaining; for an existing one the budget is replaced and the
   * remaining budget moves by the same difference, so the amount already
   * committed is kept. There is no floor: remaining may become negative.
   */
  function UpsertStudent(st: State, username: string, budget: int): (r: State)
    ensures r.projects == st.projects && r.investments == st.investments
    ensures r.students.Keys == st.students.Keys + {username}
    ensures forall v :: v in st.students && v != username ==> r.students[v] == st.students[v]
    ensures r.students[username].budget == budget
    ensures username !in st.students ==> r.students[username].remaining == budget
    ensures username in st.students ==>
      r.students[username].budget - r.students[username].remaining
        == st.students[username].budget - st.students[username].remaining
  {
    if username in st.students then
      var student := st.students[username];
      var diff := budget - student.budget;
      st.(students := st.students[username := Student(budget, student.remaining + diff)])
    else
      st.(students := st.students[username := Student(budget, budget)])
  }

  /** add_or_update_student keeps the ledger invariant. */
  lemma UpsertStudentKeepsConsistent(st: State, username: string, budget: int)
    requires Consistent(st)
    ensures Consistent(UpsertStudent(st, username, budget))
  {
    if username !in st.students {
      SpentByStranger(st.investments, username);
    }
  }

  /** Lowering a budget below what is already invested leaves a negative remaining budget. */
  lemma UpsertStudentHasNoFloor(st: State, username: string, budget: int)
    requires username in st.students
    requires budget < st.students[username].budget - st.students[username].remaining
    ensures UpsertStudent(st, username, budget).students[username].remaining < 0
  {
  }

  /** add_or_update_project (database.py:59-61): only that project's name is (over)written. */
  function UpsertProject(st: State, projectId: string, name: string): (r: State)
    ensures r.students == st.students && r.investments == st.investments
    ensures r.projects.Keys == st.projects.Keys + {projectId}
    ensures r.projects[projectId] == name
    ensures forall q :: q in st.projects && q != projectId ==> r.projects[q] == st.projects[q]
  {
    st.(projects := st.projects[projectId := name])
  }

  /**
   * The body of the add_investment transaction (database.py:63-83), run once
   * without interference from another call. A missing student and a remaining budget below the amount
   * are reported and change nothing; otherwise the student's remaining budget
   * drops by exactly the amount (to a value that is not negative) and exactly
   * one investment is appended. The amount is not checked for positivity.
   */
  function Invest(st: State, username: string, projectId: string, amount: int, timestamp: string): (r: Step)
    ensures r.outcome == Failed(StudentNotFound) <==> username !in st.students
    ensures r.outcome == Failed(InsufficientBudget)
        <==> username in st.students && st.students[username].remaining < amount
    ensures r.outcome.Failed? ==> r.state == st
    ensures r.outcome.Done? ==>
      && r.state.students.Keys == st.students.Keys
      && r.state.students[username].remaining == st.students[username].remaining - amount >= 0
      && r.state.students[username].budget == st.students[username].budget
      && (forall v :: v in st.students && v != username ==> r.state.students[v] == st.students[v])
      && r.state.projects == st.projects
      && r.state.investments == st.investments + [Investment(username, projectId, amount, timestamp)]
  {
    if username !in st.students then Step(Failed(StudentNotFound), st)
    else
      var student := st.students[username];
      if student.remaining < amount then Step(Failed(InsufficientBudget), st)
      else
        var students' := st.students[username := student.(remaining := student.remaining - amount)];
        Step(Done, State(students', st.projects,
                         st.investments + [Investment(username, projectId, amount, timestamp)]))
  }

  /** add_investment keeps the ledger invariant, whatever the outcome. */
  lemma InvestKeepsConsistent(st: State, username: string, projectId: string, amount: int, timestamp: string)
    requires Consistent(st)
    ensures Consistent(Invest(st, username, projectId, amount, timestamp).state)
  {
    var r := Invest(st, username, projectId, amount, timestamp);
    if r.outcome.Done? {
      var inv := Investment(username, projectId, amount, timestamp);
      forall u | u in r.state.students
        ensures r.state.students[u].remaining == r.state.students[u].budget - Spent(r.state.investments, u)
      {
        SpentAppend(st.investments, inv, u);
      }
    }
  }

  /**
   * add_investment does not reject a zero or negative amount: a negative one
   * succeeds and raises the remaining budget.
   */
  lemma InvestAcceptsNegativeAmount(st: State, username: string, projectId: string, amount: int, timestamp: string)
    requires username in st.students && amount < 0 <= st.students[username].remaining
    ensures Invest(st, username, projectId, amount, timestamp).outcome == Done
    ensures Invest(st, username, projectId, amount, timestamp).state.students[username].remaining
          > st.students[username].remaining
  {
  }

  /**
   * Serialised calls cannot overspend: when the first of two debits
   * succeeds and together they exceed the remaining budget, the second is
   * refused and the budget stays at what the first left.
   */
  lemma SecondInvestmentRefused(st: State, username: string, p1: string, a1: int, t1: string,
                                p2: string, a2: int, t2: string)
    requires username in st.students && a1 + a2 > st.students[username].remaining
    requires Invest(st, username, p1, a1, t1).outcome == Done
    ensures var s1 := Invest(st, username, p1, a1, t1).state;
      && Invest(s1, username, p2, a2, t2) == Step(Failed(InsufficientBudget), s1)
      && s1.students[username].remaining == st.students[username].remaining - a1
  {
  }

  /**
   * Two concurrent add_investment calls by one student as the code runs them
   * under an optimistic transaction, when both first attempts read `st`. An
   * attempt that passes its checks adds its investment at once, because
   * `investments_ref().add` (database.py:77-82) is not part of the
   * transaction; only the debit (line 75) waits for the commit. The first
   * call commits; the second conflicts on the student document and is retried
   * against the committed store, where it behaves as a fresh Invest.
   */
  function RacedInvestAsWritten(st: State, username: string, p1: string, a1: int, t1: string,
                                p2: string, a2: int, t2: string): State
  {
    if username !in st.students then st
    else
      var student := st.students[username];
      if student.remaining < a1 then Invest(st, username, p2, a2, t2).state
      else if student.remaining < a2 then Invest(st, username, p1, a1, t1).state
      else
        var committed := State(st.students[username := student.(remaining := student.remaining - a1)], st.projects,
                               st.investments + [Investment(username, p1, a1, t1), Investment(username, p2, a2, t2)]);
        Invest(committed, username, p2, a2, t2).state
  }

  /**
   * Two concurrent investments of 60 against a remaining budget of 100: the
   * second is refused on retry, yet its investment stays without a debit, so
   * the store is no longer consistent.
   */
  lemma RacedInvestLeavesUndebitedInvestment()
    ensures var st := State(map["A" := Student(100, 100)], map[], []);
      var r := RacedInvestAsWritten(st, "A", "P1", 60, "t1", "P2", 60, "t2");
      && Consistent(st)
      && |r.investments| == 2 && r.students["A"].remaining == 40
      && !Consistent(r)
  {
    var r := RacedInvestAsWritten(State(map["A" := Student(100, 100)], map[], []), "A", "P1", 60, "t1", "P2", 60, "t2");
    var i1, i2 := Investment("A", "P1", 60, "t1"), Investment("A", "P2", 60, "t2");
    assert r.investments == [i1, i2];
    assert [i1, i2][..1] == [i1];
    assert [i1][..0] == [];
    assert Spent([i1], "A") == 60;
    assert Spent([i1, i2], "A") == 120;
  }

  /**
   * With the investment written inside the transaction, two calls are
   * serialised as two Invest steps, which keep the ledger invariant.
   */
  lemma SerialisedInvestsKeepConsistent(st: State, username: string, p1: string, a1: int, t1: string,
                                        p2: string, a2: int, t2: string)
    requires Consistent(st)
    ensures Consistent(Invest(Invest(st, username, p1, a1, t1).state, username, p2, a2, t2).state)
  {
    InvestKeepsConsistent(st, username, p1, a1, t1);
    InvestKeepsConsistent(Invest(st, username, p1, a1, t1).state, username, p2, a2, t2);
  }

  /**
   * The clear-all-investments sweep of app.py:159-168: no investment is
   * left, every student's remaining budget is back to its budget, budgets
   * and projects are untouched, and the result is consistent whatever the
   * store was before.
   */
  function ClearInvestments(st: State): (r: State)
    ensures r.investments == []
    ensures r.projects == st.projects
    ensures r.students.Keys == st.students.Keys
    ensures forall u :: u in r.students ==>
      r.students[u].budget == st.students[u].budget && r.students[u].remaining == st.students[u].budget
    ensures Consistent(r)
  {
    State(map u | u in st.students :: st.students[u].(remaining := st.students[u].budget), st.projects, [])
  }

  /** In a consistent store with positive investments no remaining budget exceeds its budget. */
  lemma RemainingWithinBudget(st: State, username: string)
    requires Consistent(st) && username in st.students
    requires forall i :: 0 <= i < |st.investments| ==> st.investments[i].amount > 0
    ensures st.students[username].remaining <= st.students[username].budget
  {
    SpentNonNegative(st.investments, username);
  }
}
