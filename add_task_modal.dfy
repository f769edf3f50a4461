/** The "Create New Task" dialog (`src/components/AddTaskModal.tsx`): the
    form's held state, the presence check on submit, the task it emits, and
    the reset to the defaults afterwards. */
module AddTaskModal {
  import opened Collections
  import opened Data

  /** The reward field's initial value. */
  const DefaultReward: int := 50

  /** The toast a submission raises. */
  datatype Notice = MissingInformation | TaskAdded

  /** `Array.from(new Set(users.map(user => user.department)))`. */
  function Departments(users: seq<User>): (depts: seq<string>)
    ensures forall d :: d in depts <==> exists i :: 0 <= i < |users| && users[i].department == d
    ensures NoDuplicates(depts)
  {
    var all := seq(|users|, i requires 0 <= i < |users| => users[i].department);
    assert forall d :: d in all <==> exists i :: 0 <= i < |users| && users[i].department == d by {
      forall d | d in all ensures exists i :: 0 <= i < |users| && users[i].department == d {
        var i :| 0 <= i < |all| && all[i] == d;
      }
      forall d | exists i :: 0 <= i < |users| && users[i].department == d ensures d in all {
        var i :| 0 <= i < |users| && users[i].department == d;
        assert all[i] == d;
      }
    }
    Distinct(all)
  }

  /** The departments appear in the order in which the users first mention them. */
  lemma DepartmentsInFirstOccurrenceOrder(users: seq<User>)
    ensures var all := seq(|users|, i requires 0 <= i < |users| => users[i].department);
      var depts := Departments(users);
      forall i, j :: 0 <= i < j < |depts| ==> FirstIndex(all, depts[i]) < FirstIndex(all, depts[j])
  {
    var all := seq(|users|, i requires 0 <= i < |users| => users[i].department);
    DistinctFirstOccurrenceOrder(all);
  }

  /** The mock users name five departments, each once. */
  lemma MockDepartments()
    ensures Departments(MockUsers) == ["Engineering", "Marketing", "Product", "Finance", "HR"]
  {
    var all := seq(|MockUsers|, i requires 0 <= i < |MockUsers| => MockUsers[i].department);
    assert all == ["Engineering", "Marketing", "Product", "Finance", "HR"];
    DistinctOfNoDuplicates(all);
  }

  /** Without repeated values the dedupe changes nothing. */
  lemma {:induction false} DistinctOfNoDuplicates(xs: seq<string>)
    requires NoDuplicates(xs)
    ensures Distinct(xs) == xs
    decreases |xs|
  {
    if xs != [] {
      var init := xs[..|xs| - 1];
      DistinctOfNoDuplicates(init);
      assert xs[|xs| - 1] !in init;
      assert init + [xs[|xs| - 1]] == xs;
    }
  }

  /** The dialog's form. The `onChange` handlers of the inputs write these
      fields directly. */
  class Form {
    const users: seq<User>
    var open: bool
    var title: string
    var description: string
    var assignedTo: string
    var department: string
    var reward: int
    var date: Option<string>

    /** The fields' initial values, which a successful submit restores. */
    predicate AtDefaults()
      reads this
    {
      title == "" && description == "" && assignedTo == "" && department == "" &&
      reward == DefaultReward && date == None && !open
    }

    /** `!title || !description || !assignedTo || !department || !date` is
        false: every required field is non-empty or set. */
    predicate Complete()
      reads this
    {
      title != "" && description != "" && assignedTo != "" && department != "" && date.Some?
    }

    constructor (users: seq<User>)
      ensures this.users == users
      ensures AtDefaults()
    {
      this.users := users;
      open := false;
      title, description, assignedTo, department := "", "", "", "";
      reward := DefaultReward;
      date := None;
    }

    /** `handleSubmit`: with a required field missing, raise the
        "Missing Information" toast and change nothing; otherwise emit one
        open task built from the fields under the given id, raise
        "Task Added", and reset the form and close the dialog. */
    method HandleSubmit(id: string) returns (emitted: Option<Task>, notice: Notice)
      modifies this
      ensures !old(Complete()) ==>
        emitted.None? && notice == MissingInformation && unchanged(this)
      ensures old(Complete()) ==>
        emitted == Some(Task(id, old(title), old(description), Open, old(date).value,
          old(assignedTo), old(department), old(reward), None)) &&
        notice == TaskAdded && AtDefaults()
    {
      if title == "" || description == "" || assignedTo == "" || department == "" || date.None? {
        return None, MissingInformation;
      }
      var newTask := Task(id, title, description, Open, date.value, assignedTo, department, reward, None);
      emitted := Some(newTask);
      notice := TaskAdded;
      title := "";
      description := "";
      assignedTo := "";
      department := "";
      reward := DefaultReward;
      date := None;
      open := false;
    }
  }

  /** A task emitted by the form is open, carries no completion date, and so
      keeps the completion-date invariant of any list it is added to. */
  lemma EmittedTaskConsistent(t: Task, ts: seq<Task>)
    requires t.status == Open && t.completedOn.None?
    requires CompletedOnConsistent(ts)
    ensures CompletedOnConsistent([t] + ts)
  {
    assert forall i :: 1 <= i < |[t] + ts| ==> ([t] + ts)[i] == ts[i - 1];
  }
}
