/** The task and user records of the dashboard, its static mock data, and
    the queries over that data (`src/lib/data.ts`). Dates are uninterpreted
    strings; rewards are whole numbers. */
module Data {
  import opened Collections

  /** `TaskStatus`: 'open' | 'in-progress' | 'completed'. */
  datatype Status = Open | InProgress | Completed

  /** The string literal a status is written as. */
  function StatusName(s: Status): (name: string)
    ensures |name| > 0
  {
    match s
    case Open => "open"
    case InProgress => "in-progress"
    case Completed => "completed"
  }

  lemma StatusNameInjective(s: Status, t: Status)
    ensures StatusName(s) == StatusName(t) <==> s == t
  {
    if s != t {
      assert StatusName(s)[0] != StatusName(t)[0] || |StatusName(s)| != |StatusName(t)|;
    }
  }

  datatype Task = Task(
    id: string,
    title: string,
    description: string,
    status: Status,
    dueDate: string,
    assignedTo: string,
    department: string,
    reward: int,
    completedOn: Option<string>)

  datatype User = User(
    id: string,
    name: string,
    avatar: string,
    email: string,
    role: string,
    department: string,
    completedTasks: int,
    totalReward: int)

  /** The record-level invariant: a completion date is present exactly on
      the completed tasks. */
  predicate CompletedOnConsistent(ts: seq<Task>)
  {
    forall i :: 0 <= i < |ts| ==> (ts[i].completedOn.Some? <==> ts[i].status == Completed)
  }

  predicate DistinctIds(ts: seq<Task>)
  {
    forall i, j :: 0 <= i < j < |ts| ==> ts[i].id != ts[j].id
  }

  const MockTasks: seq<Task> :=
    [MockTask1, MockTask2, MockTask3, MockTask4, MockTask5, MockTask6, MockTask7, MockTask8]

  const MockTask1: Task :=
    Task("1", "Update client database schema",
      "Modify the current database schema to accommodate the new client requirements.",
      Open, "2025-05-01", "1", "Engineering", 50, None)

  const MockTask2: Task :=
    Task("2", "Create Q2 marketing campaign",
      "Design and implement a marketing campaign for the upcoming quarter.",
      InProgress, "2025-04-30", "2", "Marketing", 75, None)

  const MockTask3: Task :=
    Task("3", "Implement new authentication system",
      "Develop and deploy a new authentication system for our web application.",
      Completed, "2025-04-15", "1", "Engineering", 100, Some("2025-04-12"))

  const MockTask4: Task :=
    Task("4", "Conduct user interviews",
      "Schedule and conduct interviews with users to gather feedback on the new features.",
      InProgress, "2025-05-05", "3", "Product", 60, None)

  const MockTask5: Task :=
    Task("5", "Fix responsive design issues",
      "Identify and fix responsive design issues on the mobile version of our app.",
      Open, "2025-04-28", "1", "Engineering", 40, None)

  const MockTask6: Task :=
    Task("6", "Prepare financial report",
      "Compile and prepare the monthly financial report for stakeholders.",
      Completed, "2025-04-10", "4", "Finance", 80, Some("2025-04-08"))

  const MockTask7: Task :=
    Task("7", "Update company documentation",
      "Review and update the company documentation to reflect recent changes.",
      Open, "2025-05-10", "3", "Product", 45, None)

  const MockTask8: Task :=
    Task("8", "Revamp onboarding process",
      "Design and implement improvements to the employee onboarding process.",
      InProgress, "2025-05-15", "5", "HR", 90, None)

  const MockUsers: seq<User> :=
    [MockUser1, MockUser2, MockUser3, MockUser4, MockUser5]

  const MockUser1: User :=
    User("1", "Alex Chen", "/placeholder.svg", "alex.chen@example.com",
      "Senior Developer", "Engineering", 12, 580)

  const MockUser2: User :=
    User("2", "Jamie Taylor", "/placeholder.svg", "jamie.taylor@example.com",
      "Marketing Specialist", "Marketing", 8, 420)

  const MockUser3: User :=
    User("3", "Sam Rodriguez", "/placeholder.svg", "sam.rodriguez@example.com",
      "Product Manager", "Product", 10, 510)

  const MockUser4: User :=
    User("4", "Morgan Williams", "/placeholder.svg", "morgan.williams@example.com",
      "Financial Analyst", "Finance", 6, 390)

  const MockUser5: User :=
    User("5", "Jordan Lee", "/placeholder.svg", "jordan.lee@example.com",
      "HR Manager", "HR", 9, 450)

  /** The mock tasks have distinct ids and satisfy the completion-date invariant. */
  lemma MockTasksWellFormed()
    ensures |MockTasks| == 8
    ensures DistinctIds(MockTasks)
    ensures CompletedOnConsistent(MockTasks)
  {
  }

  // ---------------------------------------------------------------------
  // Filters over task lists

  /** `ts.filter(task => task.status === s)`. */
  function WithStatus(ts: seq<Task>, s: Status): (r: seq<Task>)
    ensures |r| <= |ts|
  {
    Filter(ts, (t: Task) => t.status == s)
  }

  /** The status filter keeps exactly the tasks with status `s`. */
  lemma WithStatusMembers(ts: seq<Task>, s: Status)
    ensures forall t :: t in WithStatus(ts, s) <==> t in ts && t.status == s
  {
    FilterMembers(ts, (t: Task) => t.status == s);
  }

  /** The selected tasks keep their order in the list. */
  lemma WithStatusInOrder(ts: seq<Task>, s: Status)
    ensures IsSubsequence(WithStatus(ts, s), ts)
  {
    FilterSubsequence(ts, (t: Task) => t.status == s);
  }

  /** The number of tasks of each status. */
  datatype Counts = Counts(open: nat, inProgress: nat, completed: nat)

  /** The three `filter(...).length` counts shown as badges on the page's
      tabs and on the profile card: the sizes of the status filters, which
      add up to the number of tasks. */
  function CountByStatus(ts: seq<Task>): (c: Counts)
    ensures c.open == |WithStatus(ts, Open)|
    ensures c.inProgress == |WithStatus(ts, InProgress)|
    ensures c.completed == |WithStatus(ts, Completed)|
    ensures c.open + c.inProgress + c.completed == |ts|
  {
    StatusPartition(ts);
    Counts(|WithStatus(ts, Open)|, |WithStatus(ts, InProgress)|, |WithStatus(ts, Completed)|)
  }

  /** How a status filter treats the first task of a list. */
  lemma WithStatusCons(t: Task, rest: seq<Task>, s: Status)
    ensures WithStatus([t] + rest, s) == (if t.status == s then [t] else []) + WithStatus(rest, s)
  {
    assert ([t] + rest)[0] == t;
    assert ([t] + rest)[1..] == rest;
  }

  /** The three status filters split a task list: every task lands in exactly
      one of them, so their sizes add up to the list's length. */
  lemma StatusPartition(ts: seq<Task>)
    ensures multiset(WithStatus(ts, Open)) + multiset(WithStatus(ts, InProgress))
      + multiset(WithStatus(ts, Completed)) == multiset(ts)
    ensures |WithStatus(ts, Open)| + |WithStatus(ts, InProgress)|
      + |WithStatus(ts, Completed)| == |ts|
  {
    StatusPartitionMultiset(ts);
    assert |multiset(ts)| == |ts|;
  }

  lemma {:induction false} StatusPartitionMultiset(ts: seq<Task>)
    ensures multiset(WithStatus(ts, Open)) + multiset(WithStatus(ts, InProgress))
      + multiset(WithStatus(ts, Completed)) == multiset(ts)
  {
    if ts != [] {
      var t, rest := ts[0], ts[1..];
      assert ts == [t] + rest;
      StatusPartitionMultiset(rest);
      WithStatusCons(t, rest, Open);
      WithStatusCons(t, rest, InProgress);
      WithStatusCons(t, rest, Completed);
    }
  }

  /** The status filter keeps every copy of a task with that status and nothing else. */
  lemma WithStatusMultiplicity(ts: seq<Task>, s: Status, t: Task)
    ensures multiset(WithStatus(ts, s))[t] == if t.status == s then multiset(ts)[t] else 0
  {
    FilterMultiplicity(ts, (t: Task) => t.status == s, t);
  }

  /** A status filter that every task passes is the identity. */
  lemma WithStatusAllPass(ts: seq<Task>, s: Status)
    requires forall i :: 0 <= i < |ts| ==> ts[i].status == s
    ensures WithStatus(ts, s) == ts
  {
    FilterAllPass(ts, (t: Task) => t.status == s);
  }

  /** With non-negative terms, a sum over the tasks of one status is between
      0 and the sum over all tasks. */
  lemma WithStatusSumBounded(ts: seq<Task>, s: Status, f: Task -> int)
    requires forall i :: 0 <= i < |ts| ==> f(ts[i]) >= 0
    ensures 0 <= SumOf(WithStatus(ts, s), f) <= SumOf(ts, f)
  {
    SumFilterBounded(ts, (t: Task) => t.status == s, f);
  }

  /** The statuses of a task list, position by position. */
  function Statuses(ts: seq<Task>): (r: seq<Status>)
    ensures |r| == |ts| && forall i :: 0 <= i < |ts| ==> r[i] == ts[i].status
  {
    if ts == [] then [] else [ts[0].status] + Statuses(ts[1..])
  }

  /** The size of a status filter is the number of times that status occurs. */
  lemma {:induction false} WithStatusSize(ts: seq<Task>, s: Status)
    ensures |WithStatus(ts, s)| == multiset(Statuses(ts))[s]
  {
    if ts != [] {
      assert ts == [ts[0]] + ts[1..];
      WithStatusCons(ts[0], ts[1..], s);
      WithStatusSize(ts[1..], s);
      assert Statuses(ts) == [ts[0].status] + Statuses(ts[1..]);
    }
  }

  /** Filtering by status keeps the old list's order across concatenation. */
  lemma WithStatusAppend(a: seq<Task>, b: seq<Task>, s: Status)
    ensures WithStatus(a + b, s) == WithStatus(a, s) + WithStatus(b, s)
  {
    FilterAppend(a, b, (t: Task) => t.status == s);
  }

  /** `ts.filter(task => task.assignedTo === userId)`. */
  function AssignedTo(ts: seq<Task>, userId: string): (r: seq<Task>)
    ensures |r| <= |ts|
  {
    Filter(ts, (t: Task) => t.assignedTo == userId)
  }

  /** The per-user filter keeps exactly the tasks assigned to `userId`. */
  lemma AssignedToMembers(ts: seq<Task>, userId: string)
    ensures forall t :: t in AssignedTo(ts, userId) <==> t in ts && t.assignedTo == userId
  {
    FilterMembers(ts, (t: Task) => t.assignedTo == userId);
  }

  /** The assigned tasks keep their order in the list. */
  lemma AssignedToInOrder(ts: seq<Task>, userId: string)
    ensures IsSubsequence(AssignedTo(ts, userId), ts)
  {
    FilterSubsequence(ts, (t: Task) => t.assignedTo == userId);
  }

  /** The per-user filter keeps every copy of an assigned task and nothing else. */
  lemma AssignedToMultiplicity(ts: seq<Task>, userId: string, t: Task)
    ensures multiset(AssignedTo(ts, userId))[t] == if t.assignedTo == userId then multiset(ts)[t] else 0
  {
    FilterMultiplicity(ts, (t: Task) => t.assignedTo == userId, t);
  }

  /** The per-user filter of a concatenation is the concatenation of the filters. */
  lemma AssignedToAppend(a: seq<Task>, b: seq<Task>, userId: string)
    ensures AssignedTo(a + b, userId) == AssignedTo(a, userId) + AssignedTo(b, userId)
  {
    FilterAppend(a, b, (t: Task) => t.assignedTo == userId);
  }

  /** How the per-user filter treats the first task of a list. */
  lemma AssignedToCons(t: Task, rest: seq<Task>, userId: string)
    ensures AssignedTo([t] + rest, userId)
      == (if t.assignedTo == userId then [t] else []) + AssignedTo(rest, userId)
  {
    assert ([t] + rest)[0] == t;
    assert ([t] + rest)[1..] == rest;
  }

  // ---------------------------------------------------------------------
  // The exported queries over the mock data

  /** `getTasksByStatus`: the mock tasks with the given status, in order. */
  function TasksByStatus(s: Status): (r: seq<Task>)
    ensures r == WithStatus(MockTasks, s)
    ensures forall t :: t in r <==> t in MockTasks && t.status == s
  {
    WithStatusMembers(MockTasks, s);
    WithStatus(MockTasks, s)
  }

  lemma MockStatuses()
    ensures Statuses(MockTasks)
      == [Open, InProgress, Completed, InProgress, Open, Completed, Open, InProgress]
  {
  }

  /** On the mock data the three status queries return 3, 3 and 2 tasks. */
  lemma MockStatusCounts()
    ensures |TasksByStatus(Open)| == 3
    ensures |TasksByStatus(InProgress)| == 3
    ensures |TasksByStatus(Completed)| == 2
  {
    MockStatuses();
    StatusCountsOf(MockTasks);
  }

  lemma StatusCountsOf(ts: seq<Task>)
    requires Statuses(ts) == [Open, InProgress, Completed, InProgress, Open, Completed, Open, InProgress]
    ensures |WithStatus(ts, Open)| == 3
    ensures |WithStatus(ts, InProgress)| == 3
    ensures |WithStatus(ts, Completed)| == 2
  {
    WithStatusCount(ts, Open);
    WithStatusCount(ts, InProgress);
    WithStatusCount(ts, Completed);
    MockOccurrences();
  }

  lemma MockOccurrences()
    ensures var xs := [Open, InProgress, Completed, InProgress, Open, Completed, Open, InProgress];
      Occurrences(xs, Open) == 3 && Occurrences(xs, InProgress) == 3 && Occurrences(xs, Completed) == 2
  {
  }

  /** The number of times `s` occurs in `xs`. */
  function Occurrences(xs: seq<Status>, s: Status): nat
  {
    if xs == [] then 0 else (if xs[0] == s then 1 else 0) + Occurrences(xs[1..], s)
  }

  /** The size of a status filter, counted along the list. */
  lemma {:induction false} WithStatusCount(ts: seq<Task>, s: Status)
    ensures |WithStatus(ts, s)| == Occurrences(Statuses(ts), s)
  {
    if ts != [] {
      WithStatusCount(ts[1..], s);
      assert ts == [ts[0]] + ts[1..];
      WithStatusCons(ts[0], ts[1..], s);
      assert Statuses(ts)[1..] == Statuses(ts[1..]);
    }
  }

  /** `users.find(user => user.id === id)`. */
  function FindById(us: seq<User>, id: string): (r: Option<User>)
    ensures r.None? <==> forall i :: 0 <= i < |us| ==> us[i].id != id
    ensures r.Some? ==> exists i :: 0 <= i < |us| && us[i] == r.value && FirstWithId(us, id, i)
  {
    if us == [] then None
    else if us[0].id == id then
      assert FirstWithId(us, id, 0);
      Some(us[0])
    else
      var r := FindById(us[1..], id);
      assert r.Some? ==> exists i :: 0 <= i < |us| && us[i] == r.value && FirstWithId(us, id, i) by {
      if r.Some? {
        var i :| 0 <= i < |us[1..]| && us[1..][i] == r.value && FirstWithId(us[1..], id, i);
        assert FirstWithId(us, id, i + 1);
      }
      }
      r
  }

  /** Position `i` holds the first user of `us` whose id is `id`. */
  predicate FirstWithId(us: seq<User>, id: string, i: int)
  {
    0 <= i < |us| && us[i].id == id && forall j :: 0 <= j < i ==> us[j].id != id
  }

  /** `getUserById`. */
  function UserById(id: string): (r: Option<User>)
    ensures r.None? <==> forall u :: u in MockUsers ==> u.id != id
    ensures r.Some? ==> r.value in MockUsers && r.value.id == id
    ensures r.Some? ==> exists i :: 0 <= i < |MockUsers| && MockUsers[i] == r.value && FirstWithId(MockUsers, id, i)
  {
    FindById(MockUsers, id)
  }

  /** `getTasksByUser`: the mock tasks assigned to `userId`, in order. */
  function TasksByUser(userId: string): (r: seq<Task>)
    ensures r == AssignedTo(MockTasks, userId)
    ensures forall t :: t in r <==> t in MockTasks && t.assignedTo == userId
  {
    AssignedToMembers(MockTasks, userId);
    AssignedTo(MockTasks, userId)
  }

  /** The sum of the users' stored `totalReward` fields. */
  function TotalReward(us: seq<User>): int
  {
    SumOf(us, (u: User) => u.totalReward)
  }

  /** `calculateTotalRewards`: sums the static per-user totals of the mock
      users, not the rewards of tasks in any task list. */
  function CalculateTotalRewards(): (total: int)
    ensures total == 2350
  {
    MockUsersPattern();
    TotalOfFive(MockUsers);
    TotalReward(MockUsers)
  }

  lemma TotalOfFive(us: seq<User>)
    requires MockRewardPattern(us)
    ensures TotalReward(us) == 2350
  {
    var f := (u: User) => u.totalReward;
    assert us[4..][1..] == [];
    assert us[3..][1..] == us[4..];
    assert us[2..][1..] == us[3..];
    assert us[1..][1..] == us[2..];
    assert SumOf(us[4..], f) == 450;
    assert SumOf(us[3..], f) == 840;
    assert SumOf(us[2..], f) == 1350;
    assert SumOf(us[1..], f) == 1770;
  }

  // ---------------------------------------------------------------------
  // Ranking: a stable sort by descending total reward

  predicate SortedByRewardDesc(us: seq<User>)
  {
    forall i, j :: 0 <= i < j < |us| ==> us[i].totalReward >= us[j].totalReward
  }

  /** One step of the stable sort: `u`, which came before every user of `s`,
      goes in front of the first user whose reward is not larger than its own. */
  function InsertByReward(u: User, s: seq<User>): (r: seq<User>)
    ensures |r| == |s| + 1
  {
    if s == [] || u.totalReward >= s[0].totalReward then [u] + s
    else [s[0]] + InsertByReward(u, s[1..])
  }

  /** The insertion adds exactly `u`. */
  lemma {:induction false} InsertByRewardPermutes(u: User, s: seq<User>)
    ensures multiset(InsertByReward(u, s)) == multiset(s) + multiset{u}
  {
    if !(s == [] || u.totalReward >= s[0].totalReward) {
      InsertByRewardPermutes(u, s[1..]);
      assert s == [s[0]] + s[1..];
    }
  }

  /** Every user of `s` has a total reward of at most `b`. */
  predicate RewardsAtMost(s: seq<User>, b: int)
  {
    forall i :: 0 <= i < |s| ==> s[i].totalReward <= b
  }

  lemma {:induction false} InsertByRewardAtMost(u: User, s: seq<User>, b: int)
    requires u.totalReward <= b && RewardsAtMost(s, b)
    ensures RewardsAtMost(InsertByReward(u, s), b)
  {
    if !(s == [] || u.totalReward >= s[0].totalReward) {
      InsertByRewardAtMost(u, s[1..], b);
    }
  }

  lemma SortedCons(x: User, s: seq<User>)
    requires SortedByRewardDesc(s) && RewardsAtMost(s, x.totalReward)
    ensures SortedByRewardDesc([x] + s)
  {
    var r := [x] + s;
    forall i, j | 0 <= i < j < |r|
      ensures r[i].totalReward >= r[j].totalReward
    {
      assert r[j] == s[j - 1];
      if i > 0 {
      assert r[i] == s[i - 1];
      }
    }
  }

  lemma {:induction false} InsertByRewardSorted(u: User, s: seq<User>)
    requires SortedByRewardDesc(s)
    ensures SortedByRewardDesc(InsertByReward(u, s))
  {
    if s == [] || u.totalReward >= s[0].totalReward {
      SortedCons(u, s);
    } else {
      InsertByRewardSorted(u, s[1..]);
      InsertByRewardAtMost(u, s[1..], s[0].totalReward);
      SortedCons(s[0], InsertByReward(u, s[1..]));
    }
  }

  /** `[...us].sort((a, b) => b.totalReward - a.totalReward)` on a copy:
      a permutation of `us`, non-increasing in total reward. */
  function RankByReward(us: seq<User>): (r: seq<User>)
    ensures |r| == |us|
    ensures multiset(r) == multiset(us)
    ensures SortedByRewardDesc(r)
  {
    if us == [] then []
    else
      assert us == [us[0]] + us[1..];
      InsertByRewardSorted(us[0], RankByReward(us[1..]));
      InsertByRewardPermutes(us[0], RankByReward(us[1..]));
      InsertByReward(us[0], RankByReward(us[1..]))
  }

  /** Users with one reward value, in their order. */
  function WithReward(us: seq<User>, v: int): seq<User>
  {
    Filter(us, (u: User) => u.totalReward == v)
  }

  lemma WithRewardCons(x: User, rest: seq<User>, v: int)
    ensures WithReward([x] + rest, v) == (if x.totalReward == v then [x] else []) + WithReward(rest, v)
  {
    assert ([x] + rest)[0] == x;
    assert ([x] + rest)[1..] == rest;
  }

  lemma {:induction false} InsertByRewardStable(u: User, s: seq<User>, v: int)
    ensures WithReward(InsertByReward(u, s), v) == WithReward([u] + s, v)
  {
    if !(s == [] || u.totalReward >= s[0].totalReward) {
      var rest := InsertByReward(u, s[1..]);
      InsertByRewardStable(u, s[1..], v);
      assert s == [s[0]] + s[1..];
      WithRewardCons(s[0], rest, v);
      WithRewardCons(u, s[1..], v);
      WithRewardCons(u, s, v);
      WithRewardCons(s[0], s[1..], v);
    }
  }

  /** The sort is stable: users with equal rewards keep their relative order. */
  lemma {:induction false} RankByRewardStable(us: seq<User>, v: int)
    ensures WithReward(RankByReward(us), v) == WithReward(us, v)
  {
    if us != [] {
      RankByRewardStable(us[1..], v);
      InsertByRewardStable(us[0], RankByReward(us[1..]), v);
      assert us == [us[0]] + us[1..];
      assert ([us[0]] + RankByReward(us[1..]))[1..] == RankByReward(us[1..]);
    }
  }

  /** Summing is unaffected by the reordering. */
  lemma {:induction false} RankByRewardPreservesTotal(us: seq<User>)
    ensures TotalReward(RankByReward(us)) == TotalReward(us)
  {
    if us != [] {
      RankByRewardPreservesTotal(us[1..]);
      InsertByRewardTotal(us[0], RankByReward(us[1..]));
    }
  }

  lemma {:induction false} InsertByRewardTotal(u: User, s: seq<User>)
    ensures TotalReward(InsertByReward(u, s)) == u.totalReward + TotalReward(s)
  {
    if !(s == [] || u.totalReward >= s[0].totalReward) {
      InsertByRewardTotal(u, s[1..]);
    }
  }

  /** `getUserRanking`: the mock users by descending total reward. */
  function UserRanking(): (r: seq<User>)
    ensures multiset(r) == multiset(MockUsers)
    ensures SortedByRewardDesc(r)
  {
    RankByReward(MockUsers)
  }

  /** The ranking is a stable sort of the mock users. */
  lemma UserRankingSortsMockUsers()
    ensures multiset(UserRanking()) == multiset(MockUsers)
    ensures SortedByRewardDesc(UserRanking())
    ensures forall v :: WithReward(UserRanking(), v) == WithReward(MockUsers, v)
  {
    forall v
      ensures WithReward(UserRanking(), v) == WithReward(MockUsers, v)
    {
      RankByRewardStable(MockUsers, v);
    }
  }

  /** One insertion-sort step, unfolded at position `k`. */
  lemma RankByRewardAt(us: seq<User>, k: nat)
    requires k < |us|
    ensures RankByReward(us[k..]) == InsertByReward(us[k], RankByReward(us[k + 1..]))
  {
    assert us[k..][1..] == us[k + 1..];
  }

  lemma InsertFront(u: User, s: seq<User>)
    requires s == [] || u.totalReward >= s[0].totalReward
    ensures InsertByReward(u, s) == [u] + s
  {
  }

  lemma InsertPast(u: User, s: seq<User>)
    requires s != [] && u.totalReward < s[0].totalReward
    ensures InsertByReward(u, s) == [s[0]] + InsertByReward(u, s[1..])
  {
  }

  /** Five users with the mock data's rewards, by position. */
  predicate MockRewardPattern(us: seq<User>)
  {
    |us| == 5 &&
    us[0].totalReward == 580 && us[1].totalReward == 420 && us[2].totalReward == 510 &&
    us[3].totalReward == 390 && us[4].totalReward == 450
  }

  lemma RankLastTwo(us: seq<User>)
    requires MockRewardPattern(us)
    ensures RankByReward(us[3..]) == [us[4], us[3]]
  {
    var u3, u4 := us[3], us[4];
    assert us[5..] == [];
    RankByRewardAt(us, 4);
    InsertFront(u4, []);
    RankByRewardAt(us, 3);
    InsertPast(u3, [u4]);
    InsertFront(u3, []);
  }

  lemma RankLastThree(us: seq<User>)
    requires MockRewardPattern(us)
    ensures RankByReward(us[2..]) == [us[2], us[4], us[3]]
  {
    RankLastTwo(us);
    RankByRewardAt(us, 2);
    InsertFront(us[2], [us[4], us[3]]);
  }

  lemma RankLastFour(us: seq<User>)
    requires MockRewardPattern(us)
    ensures RankByReward(us[1..]) == [us[2], us[4], us[1], us[3]]
  {
    RankLastThree(us);
    RankByRewardAt(us, 1);
    InsertThird(us[1], us[2], us[4], us[3]);
  }

  /** A user with less than `a` and `b` but at least `c` goes third. */
  lemma InsertThird(u: User, a: User, b: User, c: User)
    requires u.totalReward < a.totalReward && u.totalReward < b.totalReward
    requires u.totalReward >= c.totalReward
    ensures InsertByReward(u, [a, b, c]) == [a, b, u, c]
  {
    InsertPast(u, [a, b, c]);
    assert [a, b, c][1..] == [b, c];
    InsertPast(u, [b, c]);
    assert [b, c][1..] == [c];
    InsertFront(u, [c]);
  }

  /** Five users with the mock data's rewards rank as 1st, 3rd, 5th, 2nd, 4th. */
  lemma RankFive(us: seq<User>)
    requires MockRewardPattern(us)
    ensures RankByReward(us) == [us[0], us[2], us[4], us[1], us[3]]
  {
    var tail := [us[2], us[4], us[1], us[3]];
    RankLastFour(us);
    assert RankByReward(us) == InsertByReward(us[0], tail);
    InsertFront(us[0], tail);
    assert [us[0]] + tail == [us[0], us[2], us[4], us[1], us[3]];
  }

  /** On the mock data the ranking is users 1, 3, 5, 2, 4. */
  lemma MockRanking()
    ensures UserRanking() == [MockUser1, MockUser3, MockUser5, MockUser2, MockUser4]
  {
    MockUsersPattern();
    RankFive(MockUsers);
  }

  lemma MockUsersPattern()
    ensures MockRewardPattern(MockUsers)
    ensures MockUsers[0] == MockUser1 && MockUsers[1] == MockUser2 && MockUsers[2] == MockUser3
    ensures MockUsers[3] == MockUser4 && MockUsers[4] == MockUser5
  {
  }
}
