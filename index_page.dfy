/** The dashboard page (`src/pages/Index.tsx`): the task list it owns, the
    status update and the insertion that the cards and the dialog trigger,
    the tab filter with its per-status counts, and the figures it hands to
    the rewards tracker and the profile card. */
module IndexPage {
  import opened Collections
  import opened Data
  import opened Percent
  import opened UserProfile
  import opened RewardsTracker
  import AddTaskModal
  import TaskCard

  /** The active tab: every task, or the tasks of one status. */
  datatype Tab = All | Only(status: Status)

  /** The two tasks agree on every field but the status and completion date. */
  predicate SameExceptStatus(t: Task, u: Task)
  {
    u.id == t.id && u.title == t.title && u.description == t.description &&
    u.dueDate == t.dueDate && u.assignedTo == t.assignedTo &&
    u.department == t.department && u.reward == t.reward
  }

  /** One task after a status change made on `today`: the new status, a
      completion date of today exactly when the new status is completed,
      every other field as before. */
  function Updated(t: Task, newStatus: Status, today: string): (u: Task)
    ensures SameExceptStatus(t, u) && u.status == newStatus
    ensures u.completedOn.Some? <==> newStatus == Completed
    ensures u.completedOn.Some? ==> u.completedOn.value == today
  {
    t.(status := newStatus, completedOn := if newStatus == Completed then Some(today) else None)
  }

  /** `handleStatusChange`'s map: every task whose id is `taskId` is
      updated, every other task is left as it was, and the order is kept. */
  function SetStatus(ts: seq<Task>, taskId: string, newStatus: Status, today: string): (r: seq<Task>)
    ensures |r| == |ts|
    ensures forall i :: 0 <= i < |ts| && ts[i].id != taskId ==> r[i] == ts[i]
    ensures forall i :: 0 <= i < |ts| && ts[i].id == taskId ==>
      SameExceptStatus(ts[i], r[i]) && r[i].status == newStatus &&
      r[i].completedOn == (if newStatus == Completed then Some(today) else None)
  {
    if ts == [] then []
    else
      (if ts[0].id == taskId then [Updated(ts[0], newStatus, today)] else [ts[0]])
      + SetStatus(ts[1..], taskId, newStatus, today)
  }

  /** Applying the same change twice is the same as applying it once. */
  lemma SetStatusIdempotent(ts: seq<Task>, taskId: string, s: Status, today: string)
    ensures SetStatus(SetStatus(ts, taskId, s, today), taskId, s, today) == SetStatus(ts, taskId, s, today)
  {
  }

  /** Of two changes to the same task only the later one is visible. */
  lemma SetStatusLastWins(ts: seq<Task>, taskId: string, s1: Status, d1: string, s2: Status, d2: string)
    ensures SetStatus(SetStatus(ts, taskId, s1, d1), taskId, s2, d2) == SetStatus(ts, taskId, s2, d2)
  {
  }

  /** An id that no task carries leaves the list as it was. */
  lemma SetStatusNoMatch(ts: seq<Task>, taskId: string, s: Status, today: string)
    requires forall i :: 0 <= i < |ts| ==> ts[i].id != taskId
    ensures SetStatus(ts, taskId, s, today) == ts
  {
  }

  /** A status change keeps the completion-date invariant. */
  lemma SetStatusKeepsConsistency(ts: seq<Task>, taskId: string, s: Status, today: string)
    requires CompletedOnConsistent(ts)
    ensures CompletedOnConsistent(SetStatus(ts, taskId, s, today))
  {
  }

  /** A status change keeps every id in place, so also their distinctness. */
  lemma SetStatusKeepsIds(ts: seq<Task>, taskId: string, s: Status, today: string)
    ensures forall i :: 0 <= i < |ts| ==> SetStatus(ts, taskId, s, today)[i].id == ts[i].id
    ensures DistinctIds(ts) ==> DistinctIds(SetStatus(ts, taskId, s, today))
  {
  }

  /** Replacing one entry of a sequence moves one occurrence of `s` out
      when the old value was `s`, and one in when the new value is. */
  lemma CountAfterUpdate<T>(xs: seq<T>, k: nat, v: T, s: T)
    requires k < |xs|
    ensures multiset(xs[k := v])[s]
      == multiset(xs)[s] - (if xs[k] == s then 1 else 0) + (if v == s then 1 else 0)
  {
    assert xs == xs[..k] + [xs[k]] + xs[k + 1..];
    assert xs[k := v] == xs[..k] + [v] + xs[k + 1..];
  }

  /** With distinct ids, changing the status of the task at position `k`
      moves it from its old status count to the new one; the other counts
      are unchanged. */
  lemma SetStatusCounts(ts: seq<Task>, k: nat, newStatus: Status, today: string, s: Status)
    requires DistinctIds(ts) && k < |ts|
    ensures |WithStatus(SetStatus(ts, ts[k].id, newStatus, today), s)|
      == |WithStatus(ts, s)| - (if ts[k].status == s then 1 else 0) + (if newStatus == s then 1 else 0)
  {
    OnlyOneWithId(ts, k);
    StatusesAfterSetStatus(ts, k, newStatus, today);
    CountAfterUpdate(Statuses(ts), k, newStatus, s);
    WithStatusSize(ts, s);
    WithStatusSize(SetStatus(ts, ts[k].id, newStatus, today), s);
  }

  /** When position `k` alone carries its id, the change touches the status
      at position `k` only. */
  lemma StatusesAfterSetStatus(ts: seq<Task>, k: nat, newStatus: Status, today: string)
    requires k < |ts|
    requires forall i :: 0 <= i < |ts| && i != k ==> ts[i].id != ts[k].id
    ensures Statuses(SetStatus(ts, ts[k].id, newStatus, today)) == Statuses(ts)[k := newStatus]
  {
    var r := SetStatus(ts, ts[k].id, newStatus, today);
    var before, after := Statuses(ts), Statuses(r);
    forall i | 0 <= i < |ts|
      ensures after[i] == before[k := newStatus][i]
    {
      if i == k {
        assert r[i].status == newStatus;
      } else {
        assert r[i] == ts[i];
      }
    }
  }

  /** With distinct ids, position `k` is the only one carrying its id. */
  lemma OnlyOneWithId(ts: seq<Task>, k: nat)
    requires DistinctIds(ts) && k < |ts|
    ensures forall i :: 0 <= i < |ts| && i != k ==> ts[i].id != ts[k].id
  {
    forall i | 0 <= i < |ts| && i != k
      ensures ts[i].id != ts[k].id
    {
      if i < k {
        assert ts[i].id != ts[k].id;
      } else {
        assert ts[k].id != ts[i].id;
      }
    }
  }

  /** `getFilteredTasks`: the whole list on the "all" tab, the tasks of the
      tab's status otherwise, in list order. */
  function Filtered(ts: seq<Task>, tab: Tab): (r: seq<Task>)
    ensures tab.All? ==> r == ts
    ensures tab.Only? ==> r == WithStatus(ts, tab.status)
    ensures tab.Only? ==> forall t :: t in r <==> t in ts && t.status == tab.status
  {
    match tab
    case All => ts
    case Only(s) =>
      WithStatusMembers(ts, s);
      WithStatus(ts, s)
  }

  /** The three status tabs together show every task exactly once. */
  lemma StatusTabsCoverAll(ts: seq<Task>)
    ensures multiset(Filtered(ts, Only(Open))) + multiset(Filtered(ts, Only(InProgress)))
      + multiset(Filtered(ts, Only(Completed))) == multiset(Filtered(ts, All))
  {
    StatusPartition(ts);
  }

  /** `handleAddTask` puts the new task in front; an open task raises the
      first badge by one and leaves the others. */
  lemma CountsAfterAdd(t: Task, ts: seq<Task>)
    requires t.status == Open
    ensures CountByStatus([t] + ts) == Counts(CountByStatus(ts).open + 1, CountByStatus(ts).inProgress, CountByStatus(ts).completed)
  {
    WithStatusCons(t, ts, Open);
    WithStatusCons(t, ts, InProgress);
    WithStatusCons(t, ts, Completed);
  }

  /** The page's state: the task list and the active tab. */
  class Dashboard {
    var tasks: seq<Task>
    var activeTab: Tab

    /** The records the page keeps satisfy the completion-date invariant. */
    predicate Valid()
      reads this
    {
      CompletedOnConsistent(tasks)
    }

    /** `useState(MOCK_TASKS)` and `useState("all")`. */
    constructor ()
      ensures tasks == MockTasks && activeTab == All
      ensures Valid()
    {
      tasks := MockTasks;
      activeTab := All;
      MockTasksWellFormed();
    }

    /** `handleStatusChange(taskId, newStatus)` on the day `today`
        (`new Date().toISOString().split('T')[0]`). */
    method HandleStatusChange(taskId: string, newStatus: Status, today: string)
      modifies this
      ensures tasks == SetStatus(old(tasks), taskId, newStatus, today)
      ensures activeTab == old(activeTab)
      ensures old(Valid()) ==> Valid()
    {
      var updated := SetStatus(tasks, taskId, newStatus, today);
      if Valid() {
        SetStatusKeepsConsistency(tasks, taskId, newStatus, today);
      }
      tasks := updated;
    }

    /** `handleAddTask(newTask)`: the new task goes in front. */
    method HandleAddTask(newTask: Task)
      modifies this
      ensures tasks == [newTask] + old(tasks)
      ensures activeTab == old(activeTab)
      ensures old(Valid()) && (newTask.completedOn.Some? <==> newTask.status == Completed) ==> Valid()
    {
      tasks := [newTask] + tasks;
      assert forall i :: 1 <= i < |tasks| ==> tasks[i] == old(tasks)[i - 1];
    }

    /** The tabs' `onValueChange`. */
    method SetActiveTab(tab: Tab)
      modifies this
      ensures activeTab == tab && tasks == old(tasks)
    {
      activeTab := tab;
    }

    /** The cards rendered under the active tab. */
    function Visible(): (r: seq<Task>)
      reads this
      ensures r == Filtered(tasks, activeTab)
      ensures activeTab.Only? ==> forall t :: t in r <==> t in tasks && t.status == activeTab.status
      ensures multiset(r) <= multiset(tasks)
    {
      StatusTabsCoverAll(tasks);
      Filtered(tasks, activeTab)
    }

    /** Submitting the dialog: a complete form adds its open task in front
        and raises the open badge by one; an incomplete one changes nothing. */
    method SubmitForm(form: AddTaskModal.Form, id: string)
      modifies this, form
      ensures old(form.Complete()) ==>
        tasks == [Task(id, old(form.title), old(form.description), Open, old(form.date).value,
          old(form.assignedTo), old(form.department), old(form.reward), None)] + old(tasks) &&
        CountByStatus(tasks).open == CountByStatus(old(tasks)).open + 1 && form.AtDefaults()
      ensures !old(form.Complete()) ==> tasks == old(tasks) && unchanged(form)
      ensures activeTab == old(activeTab)
      ensures old(Valid()) ==> Valid()
    {
      var emitted, _ := form.HandleSubmit(id);
      if emitted.Some? {
        CountsAfterAdd(emitted.value, tasks);
        if Valid() {
          AddTaskModal.EmittedTaskConsistent(emitted.value, tasks);
        }
        HandleAddTask(emitted.value);
      }
    }

    /** Pressing a card's footer button: the card steps its own status and
        reports it through `onStatusChange`, which the page applies to its
        list. The card keeps its own copy of the status, which the list
        update does not touch. */
    method PressCard(card: TaskCard.Card, today: string)
      requires card.hasCallback
      modifies this, card
      ensures TaskCard.OfferedTransition(old(card.currentStatus)).None? ==>
        tasks == old(tasks) && card.currentStatus == old(card.currentStatus)
      ensures TaskCard.OfferedTransition(old(card.currentStatus)).Some? ==>
        tasks == SetStatus(old(tasks), card.task.id, card.currentStatus, today) &&
        card.currentStatus == TaskCard.OfferedTransition(old(card.currentStatus)).value
      ensures activeTab == old(activeTab)
      ensures old(Valid()) ==> Valid()
    {
      var callback, _ := card.PressFooterButton();
      match callback
      case None =>
      case Some((taskId, newStatus)) =>
        HandleStatusChange(taskId, newStatus, today);
    }
  }

  /** The badges start at 3 open, 3 in progress and 2 completed. */
  lemma InitialCounts()
    ensures CountByStatus(MockTasks) == Counts(3, 3, 2)
  {
    MockStatusCounts();
  }

  /** The progress bar's fill: `calculateTotalRewards()` against the fixed
      target of 2500. */
  const TargetRewards: int := 2500

  function TeamProgress(): (p: int)
    ensures p == 94
  {
    RoundedPercentUnique(CalculateTotalRewards(), TargetRewards, 94);
    ProgressPercentage(CalculateTotalRewards(), TargetRewards)
  }

  /** The profile card shows `MOCK_USERS[0]` with `getTasksByUser`, which
      reads the static mock tasks, not the page's list. */
  function ProfileTasks(): (r: seq<Task>)
    ensures forall t :: t in r <==> t in MockTasks && t.assignedTo == MockUsers[0].id
  {
    TasksByUser(MockUsers[0].id)
  }

  /** The first mock user holds tasks 1, 3 and 5. */
  lemma ProfileTasksAre()
    ensures ProfileTasks() == [MockTask1, MockTask3, MockTask5]
  {
    MockTasksHalves();
    MockAssignees();
    AssignedToAppend([MockTask1, MockTask2, MockTask3, MockTask4],
      [MockTask5, MockTask6, MockTask7, MockTask8], "1");
    AssignedFront(MockTask1, MockTask2, MockTask3, MockTask4);
    AssignedBack(MockTask5, MockTask6, MockTask7, MockTask8);
  }

  lemma MockTasksHalves()
    ensures MockTasks == [MockTask1, MockTask2, MockTask3, MockTask4]
      + [MockTask5, MockTask6, MockTask7, MockTask8]
  {
  }

  lemma MockAssignees()
    ensures MockUsers[0].id == "1"
    ensures MockTask1.assignedTo == "1" && MockTask2.assignedTo == "2"
    ensures MockTask3.assignedTo == "1" && MockTask4.assignedTo == "3"
    ensures MockTask5.assignedTo == "1" && MockTask6.assignedTo == "4"
    ensures MockTask7.assignedTo == "3" && MockTask8.assignedTo == "5"
  {
  }

  lemma AssignedFront(a: Task, b: Task, c: Task, d: Task)
    requires a.assignedTo == "1" && b.assignedTo == "2" && c.assignedTo == "1" && d.assignedTo == "3"
    ensures AssignedTo([a, b, c, d], "1") == [a, c]
  {
    AssignedToCons(d, [], "1");
    AssignedToCons(c, [d], "1");
    AssignedToCons(b, [c, d], "1");
    AssignedToCons(a, [b, c, d], "1");
    assert [a] + [b, c, d] == [a, b, c, d];
    assert [b] + [c, d] == [b, c, d];
    assert [c] + [d] == [c, d];
    assert [d] + [] == [d];
  }

  lemma AssignedBack(e: Task, f: Task, g: Task, h: Task)
    requires e.assignedTo == "1" && f.assignedTo == "4" && g.assignedTo == "3" && h.assignedTo == "5"
    ensures AssignedTo([e, f, g, h], "1") == [e]
  {
    AssignedToCons(h, [], "1");
    AssignedToCons(g, [h], "1");
    AssignedToCons(f, [g, h], "1");
    AssignedToCons(e, [f, g, h], "1");
    assert [e] + [f, g, h] == [e, f, g, h];
    assert [f] + [g, h] == [f, g, h];
    assert [g] + [h] == [g, h];
    assert [h] + [] == [h];
  }

  /** Whatever the page does to its list, the profile card keeps showing a
      completion rate of 33 and 100 points of completed rewards: one of the
      three static tasks is completed, with a reward of 100. */
  lemma ProfileFigures()
    ensures CountByStatus(ProfileTasks()) == Counts(2, 0, 1)
    ensures CompletionRate(ProfileTasks()) == 33
    ensures ThisMonthRewards(ProfileTasks()) == 100
  {
    ProfileTasksAre();
    FiguresOf(MockTask1, MockTask3, MockTask5);
  }

  /** Two open tasks around a completed one worth 100. */
  lemma FiguresOf(a: Task, b: Task, c: Task)
    requires a.status == Open && b.status == Completed && c.status == Open
    requires b.reward == 100
    ensures CountByStatus([a, b, c]) == Counts(2, 0, 1)
    ensures CompletionRate([a, b, c]) == 33
    ensures ThisMonthRewards([a, b, c]) == 100
  {
    StatusesOfThree(a, b, c, Open);
    StatusesOfThree(a, b, c, InProgress);
    StatusesOfThree(a, b, c, Completed);
    CompletionRateOneOfThree([a, b, c]);
    assert SumOf([b], Reward) == Reward(b) + SumOf([b][1..], Reward);
    assert [b][1..] == [];
  }

  lemma StatusesOfThree(a: Task, b: Task, c: Task, s: Status)
    requires a.status == Open && b.status == Completed && c.status == Open
    ensures WithStatus([a, b, c], s) == match s
      case Open => [a, c]
      case InProgress => []
      case Completed => [b]
  {
    WithStatusCons(c, [], s);
    WithStatusCons(b, [c], s);
    WithStatusCons(a, [b, c], s);
    assert [a] + [b, c] == [a, b, c];
    assert [b] + [c] == [b, c];
    assert [c] + [] == [c];
  }
}
