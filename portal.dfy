/**
 * The computations the web pages make over the store (app.py): who may use
 * the student page, which projects a student owns and does not see, the
 * invest guard in front of add_investment, and the earnings figures.
 */
module Portal {
  import opened Seqs
  import opened Text
  import opened ProjectNames
  import opened Ledger

  /**
   * The student page goes on only for a non-empty username that is exactly a
   * stored key (app.py:74, 83-85): case and surrounding spaces matter here.
   */
  predicate StudentAdmitted(st: State, username: string)
  {
    username != "" && username in st.students
  }

  /** The owner as the project list computes it (app.py:106), with a split on every colon. */
  function DisplayedOwner(name: string): string
  {
    if ':' in name then Trim(Split(name, ':')[0]) else Trim(name)
  }

  /** The project list and the earnings figure use the same owner rule as the migration parse. */
  lemma DisplayedOwnerIsParsedStudent(name: string)
    ensures DisplayedOwner(name) == Parse(name).student
  {
  }

  /**
   * A student owns a project when the stripped text before the first colon
   * equals the stripped username, ignoring case (app.py:95).
   */
  predicate OwnedBy(projectName: string, username: string)
  {
    Lower(Parse(projectName).student) == Lower(Trim(username))
  }

  /** The project list skips a project whose owner matches the student, ignoring case (app.py:106-110). */
  predicate HiddenFrom(projectName: string, username: string)
  {
    Lower(DisplayedOwner(projectName)) == Lower(Trim(username))
  }

  /** A student sees every project except exactly the ones it owns. */
  lemma HiddenExactlyWhenOwned(projectName: string, username: string)
    ensures HiddenFrom(projectName, username) <==> OwnedBy(projectName, username)
  {
    DisplayedOwnerIsParsedStudent(projectName);
  }

  /** The student part of the sample project name "Alice: App" is "Alice", who owns it. */
  lemma SampleProjectOwner()
    ensures Parse("Alice: App").student == "Alice"
    ensures OwnedBy("Alice: App", "Alice")
  {
    var student, title := "Alice", "App";
    assert IsTrimmed(student) && IsTrimmed(title) && ':' !in student;
    ParseCanonical(student, title);
    assert student + ": " + title == "Alice: App";
    TrimFixesTrimmed(student);
  }

  /** Ownership ignores case: a username and its lower-cased spelling own the same projects. */
  lemma OwnershipIgnoresCase(projectName: string, username: string)
    ensures OwnedBy(projectName, Lower(username)) <==> OwnedBy(projectName, username)
  {
    TrimLowerCommute(username);
    LowerIdempotent(Trim(username));
  }

  /**
   * Admission is exact while ownership is not: with a stored student "Alice",
   * the spelling "alice" is turned away at the door although it owns every
   * project "Alice" owns ("Alice: App" among them, by `SampleProjectOwner`).
   */
  lemma AdmissionStricterThanOwnership(projectName: string)
    ensures var st := State(map["Alice" := Student(100, 100)], map[], []);
      && StudentAdmitted(st, "Alice") && !StudentAdmitted(st, "alice")
      && (OwnedBy(projectName, "alice") <==> OwnedBy(projectName, "Alice"))
  {
    assert "alice"[0] != "Alice"[0];
    assert Lower("Alice") == "alice";
    OwnershipIgnoresCase(projectName, "Alice");
  }

  /**
   * "Investment Earned" (app.py:95-101): the amounts of all investments whose
   * project the student owns.
   */
  function Earned(projects: map<string, string>, investments: seq<Investment>, username: string): int
  {
    if investments == [] then 0
    else
      var last := investments[|investments| - 1];
      var credited := last.projectId in projects && OwnedBy(projects[last.projectId], username);
      Earned(projects, investments[..|investments| - 1], username) + (if credited then last.amount else 0)
  }

  /** A student who owns no project has earned 0 (the `else: earned = 0` branch). */
  lemma {:induction false} EarnedWithoutOwnedProject(projects: map<string, string>, investments: seq<Investment>, username: string)
    requires forall p :: p in projects ==> !OwnedBy(projects[p], username)
    ensures Earned(projects, investments, username) == 0
  {
    if investments != [] {
      EarnedWithoutOwnedProject(projects, investments[..|investments| - 1], username);
    }
  }

  /** "Total Investment" of one project (app.py:224): the amounts of its investments. */
  function ProjectTotal(investments: seq<Investment>, projectId: string): int
  {
    if investments == [] then 0
    else
      var last := investments[|investments| - 1];
      ProjectTotal(investments[..|investments| - 1], projectId) + (if last.projectId == projectId then last.amount else 0)
  }

  /** A student owning exactly one project has earned exactly that project's total. */
  lemma {:induction false} EarnedFromSingleProject(projects: map<string, string>, investments: seq<Investment>,
                                                   username: string, projectId: string)
    requires projectId in projects && OwnedBy(projects[projectId], username)
    requires forall q :: q in projects && q != projectId ==> !OwnedBy(projects[q], username)
    ensures Earned(projects, investments, username) == ProjectTotal(investments, projectId)
  {
    if investments != [] {
      var init, last := investments[..|investments| - 1], investments[|investments| - 1];
      EarnedFromSingleProject(projects, init, username, projectId);
      var credited := last.projectId in projects && OwnedBy(projects[last.projectId], username);
      assert credited <==> last.projectId == projectId;
    }
  }

  /**
   * The earnings table (app.py:223-225): investments grouped by project id
   * and summed, then inner-joined with the projects, so it holds one entry
   * per stored project that has at least one investment, with that
   * project's total.
   */
  function EarningsTable(projects: map<string, string>, investments: seq<Investment>): (t: map<string, int>)
    ensures forall p :: p in t <==> p in projects && exists i :: 0 <= i < |investments| && investments[i].projectId == p
    ensures forall p :: p in t ==> t[p] == ProjectTotal(investments, p)
  {
    var invested := set i | 0 <= i < |investments| :: investments[i].projectId;
    map p | p in invested && p in projects :: ProjectTotal(investments, p)
  }

  /** A successful investment credits its project with the amount and no other project. */
  lemma InvestCreditsProject(st: State, username: string, projectId: string, amount: int, timestamp: string, q: string)
    requires Invest(st, username, projectId, amount, timestamp).outcome == Done
    ensures ProjectTotal(Invest(st, username, projectId, amount, timestamp).state.investments, q)
         == ProjectTotal(st.investments, q) + (if q == projectId then amount else 0)
  {
    var inv := Investment(username, projectId, amount, timestamp);
    assert (st.investments + [inv])[..|st.investments|] == st.investments;
  }

  /** A successful investment adds its amount to the earnings of the project's owner and of nobody else. */
  lemma InvestCreditsOwner(st: State, username: string, projectId: string, amount: int, timestamp: string, owner: string)
    requires Invest(st, username, projectId, amount, timestamp).outcome == Done
    ensures var after := Invest(st, username, projectId, amount, timestamp).state;
      Earned(after.projects, after.investments, owner)
        == Earned(st.projects, st.investments, owner)
           + (if projectId in st.projects && OwnedBy(st.projects[projectId], owner) then amount else 0)
  {
    var inv := Investment(username, projectId, amount, timestamp);
    assert (st.investments + [inv])[..|st.investments|] == st.investments;
  }

  /** The invest button calls add_investment only for `0 < amount <= remaining` as shown (app.py:121). */
  predicate InvestGuard(amount: int, shownRemaining: int)
  {
    0 < amount <= shownRemaining
  }

  /**
   * Pressing an invest button: the shown remaining budget comes from a cached
   * read that may be stale. `None` means the guard stopped the call.
   */
  function PressInvest(st: State, shownRemaining: int, username: string, projectId: string,
                       amount: int, timestamp: string): Option<Step>
  {
    if InvestGuard(amount, shownRemaining) then Some(Invest(st, username, projectId, amount, timestamp)) else None
  }

  /** Investments made through the student page all have positive amounts. */
  lemma PressInvestKeepsAmountsPositive(st: State, shownRemaining: int, username: string, projectId: string,
                                        amount: int, timestamp: string)
    requires forall i :: 0 <= i < |st.investments| ==> st.investments[i].amount > 0
    ensures var r := PressInvest(st, shownRemaining, username, projectId, amount, timestamp);
      r.Some? ==> forall i :: 0 <= i < |r.value.state.investments| ==> r.value.state.investments[i].amount > 0
  {
  }

  /**
   * With a fresh reading of the remaining budget, a press that passes the
   * guard always succeeds and lowers the remaining budget, which stays non-negative.
   */
  lemma FreshPressSucceeds(st: State, username: string, projectId: string, amount: int, timestamp: string)
    requires username in st.students
    requires InvestGuard(amount, st.students[username].remaining)
    ensures var r := PressInvest(st, st.students[username].remaining, username, projectId, amount, timestamp);
      && r.Some? && r.value.outcome == Done
      && 0 <= r.value.state.students[username].remaining < st.students[username].remaining
  {
  }
}
