# Task Hero Rewards Hub — a Dafny model of the dashboard core

Task Hero is a single-page dashboard. Employees see reward-bearing tasks,
move each one from *open* to *in progress* to *completed*, and compare their
earnings on a leaderboard. This project models the logic behind that page in
Dafny and proves properties of it:

- **`Data`** (`data.dfy`): the `Task` and `User` records, the static mock
  data, and the query functions of `src/lib/data.ts`:
  - `getTasksByStatus`, `getUserById`, `getTasksByUser`;
  - `calculateTotalRewards`;
  - `getUserRanking`, modelled as a stable sort by descending total reward.
- **`IndexPage`** (`index_page.dfy`): the page in `src/pages/Index.tsx`.
  - Its state is a `Dashboard` class holding the task list and the active tab.
  - Methods: the status update, adding a task, and changing the tab.
  - Functions: the tab filter and the three badge counts.
  - Also: how the dialog and the cards feed the list, and the figures the
    page passes to the rewards tracker and the profile card.
- **`AddTaskModal`** (`add_task_modal.dfy`): the "Create New Task" dialog.
  - Its form is a `Form` class.
  - Submitting checks that the required fields are present, emits the new
    open task, and resets the form.
  - Also: the department list, deduplicated in order of first mention.
- **`TaskCard`** (`task_card.dfy`): one card.
  - It keeps a local copy of the status (a `Card` class).
  - Its footer button offers a single forward step.
  - A status change reports to the page's callback and raises a
    notification.
  - Also: the status chip's colour and label, and the avatar fallback.
- **`UserProfile`**, **`Leaderboard`**, **`RewardsTracker`**: the
  completion rate, the rewards of completed tasks, and the avatar initials;
  the top-N ranking with 1-based ranks; the capped progress percentage.
- **`Collections`**, **`Percent`**, **`Text`**: the JavaScript built-ins these
  components rely on:
  - `filter`, `reduce` (as a sum), `find`;
  - `Array.from(new Set(..))`, `slice(0, n)`;
  - `Math.round(a / b * 100)`;
  - `split`, `join`, `charAt(0)`, `toUpperCase`.

Three behaviours of the code are kept as written:

- The profile card reads the tasks of the first user from the **static**
  `MOCK_TASKS`, not the page's state. So its figures never change when the
  page updates its list (`IndexPage.ProfileFigures`).
- The progress bar sums the **static** `totalReward` fields of `MOCK_USERS`.
  It does not look at the rewards of completed tasks
  (`Data.CalculateTotalRewards`, `IndexPage.TeamProgress`).
- A card keeps its own copy of the status, which the page's list update does
  not touch (`IndexPage.Dashboard.PressCard`).

Values are Dafny values:

- Lists are `seq`, strings are `seq<char>`, and optional fields are `Option`.
- Rewards are unbounded integers.
- Dates are uninterpreted strings. "Today" is a parameter of the status update.
- The `Date.now()` id of a new task is a parameter of the submit.

## Model

| member | source | states |
|---|---|---|
| Data.StatusName | src/lib/data.ts:2 | each status is written as a non-empty literal |
| Data.StatusNameInjective | src/lib/data.ts:2 | the three status literals are pairwise different, so a status is identified by its literal |
| Data.MockTasksWellFormed | src/lib/data.ts:27-110 | the eight mock tasks have distinct ids, and a completion date is present exactly on the completed ones |
| Data.WithStatus | src/lib/data.ts:166 | filtering by status never yields more tasks than the list holds |
| Data.WithStatusMembers | src/lib/data.ts:166 | a task is in the status filter iff it is in the list and has that status |
| Data.WithStatusInOrder | src/lib/data.ts:166 | the status filter is a subsequence of the list, so the list order is kept |
| Data.WithStatusMultiplicity | src/lib/data.ts:166 | the status filter keeps every copy of a task with that status and no copy of any other task |
| Data.WithStatusAppend | src/lib/data.ts:166 | filtering a concatenation gives the concatenation of the filtered parts |
| Data.WithStatusCons | src/lib/data.ts:166 | a leading task is kept by the status filter exactly when it has that status |
| Data.WithStatusAllPass | src/lib/data.ts:166 | when every task has the status, the filter returns the whole list |
| Data.WithStatusSumBounded | src/lib/data.ts:166 | with non-negative terms, the sum over the filter lies between 0 and the sum over the list |
| Data.StatusPartition | src/lib/data.ts:165-167 | the three status filters split the list: their multisets add up to the list's, and their lengths add up to its length |
| Data.CountByStatus | src/pages/Index.tsx:64-66 | each badge count is the size of the matching status filter, and the three counts add up to the number of tasks |
| Data.WithStatusCount | src/lib/data.ts:166 | the size of a status filter equals the number of occurrences of the status in the list's statuses |
| Data.WithStatusSize | src/lib/data.ts:166 | the size of a status filter equals the multiplicity of the status in the multiset of statuses |
| Data.TasksByStatus | src/lib/data.ts:165-167 | `getTasksByStatus` is the status filter over the mock tasks, so it holds exactly the mock tasks with that status, in their order |
| Data.MockStatusCounts | src/lib/data.ts:165-167 | on the mock data the three status queries return 3, 3 and 2 tasks |
| Data.AssignedTo | src/lib/data.ts:174 | filtering by assignee never yields more tasks than the list holds |
| Data.AssignedToMembers | src/lib/data.ts:174 | a task is in the user filter iff it is in the list and is assigned to that user |
| Data.AssignedToInOrder | src/lib/data.ts:174 | the user filter is a subsequence of the list |
| Data.AssignedToMultiplicity | src/lib/data.ts:174 | the user filter keeps every copy of an assigned task and nothing else |
| Data.AssignedToAppend | src/lib/data.ts:174 | the user filter distributes over concatenation |
| Data.AssignedToCons | src/lib/data.ts:174 | a leading task is kept by the user filter exactly when it is assigned to that user |
| Data.TasksByUser | src/lib/data.ts:173-175 | `getTasksByUser` is the assignee filter over the mock tasks, so it holds exactly the mock tasks assigned to that user, in their order |
| Data.FindById | src/lib/data.ts:170 | `find` gives nothing iff no user has the id; otherwise it gives the first user in the list with that id |
| Data.UserById | src/lib/data.ts:169-171 | `getUserById` gives nothing iff no mock user has the id; otherwise it gives the first mock user with that id |
| Data.CalculateTotalRewards | src/lib/data.ts:177-179 | the sum of the mock users' stored totals is 2350 |
| Data.InsertByReward | src/lib/data.ts:182 | one insertion step of the sort lengthens the list by one |
| Data.InsertByRewardPermutes | src/lib/data.ts:182 | one insertion step of the sort adds exactly the inserted user to the multiset |
| Data.InsertByRewardSorted | src/lib/data.ts:182 | inserting into a list sorted by descending reward keeps it sorted |
| Data.RankByReward | src/lib/data.ts:182 | the ranking is a permutation of its input, sorted by descending total reward |
| Data.RankByRewardStable | src/lib/data.ts:182 | the sort is stable: for every reward value, the users with that value keep their relative order |
| Data.RankByRewardPreservesTotal | src/lib/data.ts:182 | ranking changes no one's reward, so the sum of rewards is the same |
| Data.UserRanking | src/lib/data.ts:181-183 | `getUserRanking` is a permutation of the mock users, sorted by descending total reward |
| Data.UserRankingSortsMockUsers | src/lib/data.ts:181-183 | `getUserRanking` is a sorted, stable permutation of the mock users |
| Data.MockRanking | src/lib/data.ts:181-183 | on the mock users the ranking is users 1, 3, 5, 2, 4 |
| Collections.Filter | src/lib/data.ts:166 | `filter` never yields more elements than its input |
| Collections.FilterMembers | src/lib/data.ts:166 | `filter` keeps exactly the elements that satisfy the predicate |
| Collections.FilterSubsequence | src/pages/Index.tsx:61 | `filter` keeps the order of the elements it keeps |
| Collections.FilterAppend | src/pages/Index.tsx:61 | `filter` distributes over concatenation |
| Collections.FilterMultiplicity | src/pages/Index.tsx:61 | `filter` keeps every copy of an element that passes and none of one that fails |
| Collections.SumOf | src/lib/data.ts:178 | the `reduce` sum starts at 0 and is non-negative when every term is |
| Collections.SumAppend | src/lib/data.ts:178 | the `reduce` sum over a concatenation is the sum of the parts' sums |
| Collections.Distinct | src/components/AddTaskModal.tsx:32 | `Array.from(new Set(xs))` holds exactly the values of `xs`, each once |
| Collections.DistinctFirstOccurrenceOrder | src/components/AddTaskModal.tsx:32 | the deduplicated values appear in the order of their first occurrence |
| Collections.SliceTo | src/components/Leaderboard.tsx:15 | `slice(0, end)` is a prefix: of length `end` clamped to the list, or the length plus `end` (at least 0) for a negative `end` |
| Percent.RoundedPercent | src/components/UserProfile.tsx:20 | `Math.round(a / b * 100)` is the integer `r` with `r - 1/2 <= 100a/b < r + 1/2` |
| Percent.RoundedPercentUnique | src/components/UserProfile.tsx:20 | that nearest-integer property fixes the rounded value |
| Percent.RoundedPercentBounds | src/components/UserProfile.tsx:20 | a ratio between 0 and 1 rounds to a percentage between 0 and 100 |
| Percent.RoundedPercentMonotone | src/components/RewardsTracker.tsx:22 | a larger numerator never gives a smaller percentage |
| Percent.RoundedPercentWhole | src/components/UserProfile.tsx:20 | `b / b` rounds to exactly 100 |
| Percent.RoundedPercentAtLeastWhole | src/components/RewardsTracker.tsx:22 | a ratio of at least 1 rounds to at least 100 |
| Text.SplitOn | src/components/UserProfile.tsx:33 | `split(sep)` gives at least one part, no part contains the separator, and joining the parts with the separator gives back the string |
| Text.JoinWith | src/components/UserProfile.tsx:33 | `join(sep)` starts with the first part, is at least as long as the `n - 1` separators it puts between `n` parts, and contains the separator once there are two parts |
| Text.FirstChar | src/components/TaskCard.tsx:106 | `charAt(0)` is the one-character prefix, or the empty string for an empty string |
| Text.UpperAscii | src/components/TaskCard.tsx:87 | `toUpperCase` maps a-z to A-Z and leaves every other character alone |
| Text.Capitalize | src/components/TaskCard.tsx:87 | only the first character is upper-cased; the length and the rest are kept |
| UserProfile.CompletionRate | src/components/UserProfile.tsx:20 | the completion rate is between 0 and 100, is 0 for no tasks, and is otherwise the nearest integer to 100·completed/total |
| UserProfile.CompletionRateAllCompleted | src/components/UserProfile.tsx:20 | all tasks completed gives exactly 100 |
| UserProfile.CompletionRateOneOfThree | src/components/UserProfile.tsx:20 | one completed task out of three gives 33 |
| UserProfile.CompletionRateMonotone | src/components/UserProfile.tsx:20 | for lists of the same length, more completed tasks never lower the rate |
| UserProfile.ThisMonthRewards | src/components/UserProfile.tsx:21 | with no completed task the sum is 0; with non-negative rewards it lies between 0 and the sum of all rewards |
| UserProfile.ThisMonthRewardsCons | src/components/UserProfile.tsx:21 | a task adds its reward to the sum exactly when it is completed |
| UserProfile.Initials | src/components/UserProfile.tsx:33 | the avatar initials are the word-starting characters of the name, never longer than the name |
| UserProfile.FirstChars | src/components/UserProfile.tsx:33 | `map(n => n[0]).join('')` gives at most one character per part, and each is the first character of a non-empty part |
| UserProfile.WordStarts | src/components/UserProfile.tsx:33 | the word-start reading never yields more characters than the name has |
| UserProfile.WordStartsSplit | src/components/UserProfile.tsx:33 | the first characters of the split parts are the characters that start a word |
| UserProfile.InitialsAreWordStarts | src/components/UserProfile.tsx:33 | the avatar initials are exactly the non-space characters at the start of the name or after a space |
| UserProfile.WordStartsAppend | src/components/UserProfile.tsx:33 | the word starts of a concatenation are those of the first part, followed by those of the second read from where the first part ends |
| UserProfile.InitialsOfTwoWords | src/components/UserProfile.tsx:33 | two words joined by one space give their two first letters |
| UserProfile.InitialsAlexChen | src/components/UserProfile.tsx:33 | "Alex Chen" gives "AC" |
| RewardsTracker.ProgressPercentage | src/components/RewardsTracker.tsx:22 | the progress is the rounded percentage capped at 100: never above 100, never above the rounded percentage, and equal to one of the two |
| RewardsTracker.ProgressFullAtTarget | src/components/RewardsTracker.tsx:22 | reaching the target fills the bar to exactly 100 |
| RewardsTracker.ProgressNonNegative | src/components/RewardsTracker.tsx:22 | non-negative rewards give a non-negative progress |
| RewardsTracker.ProgressMonotone | src/components/RewardsTracker.tsx:22 | more rewards never shrink the bar |
| Leaderboard.EffectiveLimit | src/components/Leaderboard.tsx:14 | the limit is the given one, or 5 when none is given |
| Leaderboard.SortedUsers | src/components/Leaderboard.tsx:14-15 | the card holds the first `min(limit, n)` users of the stable ranking; they are sorted by descending reward and taken from the input |
| Leaderboard.Entries | src/components/Leaderboard.tsx:28-32 | the row at index `i` shows the `i`-th user with rank `i + 1` |
| Leaderboard.RanksFollowRewards | src/components/Leaderboard.tsx:28-32 | ranks start at 1 and increase down the card, and a better rank never has a smaller total reward |
| Leaderboard.LeaderHasLargestReward | src/components/Leaderboard.tsx:15 | the first row's user has a total reward at least that of every user passed in |
| Leaderboard.LargeLimitShowsEveryone | src/components/Leaderboard.tsx:15 | a limit of at least the number of users shows the whole ranking |
| Leaderboard.MockLeaderboard | src/pages/Index.tsx:174 | on the page, with the default limit of 5, the card shows the full `getUserRanking` order: users 1, 3, 5, 2, 4 |
| TaskCard.OfferedTransition | src/components/TaskCard.tsx:112-130 | the footer offers "Start Task" for an open task and "Complete Task" for one in progress; a completed task has no button; each button moves exactly one stage forward |
| TaskCard.PressesToComplete | src/components/TaskCard.tsx:112-130 | following the buttons reaches completed after exactly `2 - stage` presses |
| TaskCard.NotificationFor | src/components/TaskCard.tsx:27-37 | "Task Completed!" iff the new status is completed, "Task Started" iff it is in progress, and no toast for open |
| TaskCard.OfferedStepsNotify | src/components/TaskCard.tsx:27-37 | every step the footer offers raises a notification |
| TaskCard.StatusColor | src/components/TaskCard.tsx:40-51 | any string other than the three status literals gets the grey default class |
| TaskCard.StatusColorsDistinct | src/components/TaskCard.tsx:40-51 | the three statuses get three different classes, none of them the default |
| TaskCard.StatusLabel | src/components/TaskCard.tsx:87 | the chip is the status literal with its first letter upper-cased |
| TaskCard.StatusLabels | src/components/TaskCard.tsx:87 | the chips read "Open", "In-progress" and "Completed" |
| TaskCard.AvatarFallback | src/components/TaskCard.tsx:106 | the fallback is the assignee's first character, or empty for an empty name |
| TaskCard.Card.constructor | src/components/TaskCard.tsx:19 | the local status starts as the task's status |
| TaskCard.Card.HandleStatusChange | src/components/TaskCard.tsx:21-38 | sets the local status; reports `(task.id, newStatus)` exactly when a callback was passed; raises the notification for the new status |
| TaskCard.Card.PressFooterButton | src/components/TaskCard.tsx:112-130 | a press with no button changes nothing; otherwise the card moves one stage forward, reports the step, and raises a notification |
| AddTaskModal.Departments | src/components/AddTaskModal.tsx:32 | the department options are exactly the users' departments, each once |
| AddTaskModal.DepartmentsInFirstOccurrenceOrder | src/components/AddTaskModal.tsx:32 | the options appear in the order in which the users first name them |
| AddTaskModal.MockDepartments | src/components/AddTaskModal.tsx:32 | the mock users give Engineering, Marketing, Product, Finance, HR |
| AddTaskModal.DistinctOfNoDuplicates | src/components/AddTaskModal.tsx:32 | a list without repeats is left unchanged by the dedupe |
| AddTaskModal.Form.constructor | src/components/AddTaskModal.tsx:24-30 | the dialog starts closed, with empty fields, no date and a reward of 50 |
| AddTaskModal.Form.AtDefaults | src/components/AddTaskModal.tsx:24-30 | the form's initial (and post-reset) state: closed, four empty text fields, no date, a reward of 50 |
| AddTaskModal.Form.Complete | src/components/AddTaskModal.tsx:37 | the presence check: title, description, assignee and department non-empty and a date chosen |
| AddTaskModal.Form.HandleSubmit | src/components/AddTaskModal.tsx:34-71 | with a required field missing: nothing is emitted, "Missing Information" is raised and no field changes. Otherwise: one open task is emitted with the form's fields, the given id and no completion date; "Task Added" is raised; every field is reset and the dialog closes |
| AddTaskModal.EmittedTaskConsistent | src/components/AddTaskModal.tsx:46-55 | an emitted task keeps the completion-date invariant of the list it is put in front of |
| IndexPage.Updated | src/pages/Index.tsx:42-47 | the changed task has the new status; it has a completion date, equal to today, exactly when the new status is completed; every other field is kept |
| IndexPage.SetStatus | src/pages/Index.tsx:41-50 | the map keeps the length and order; tasks with another id are untouched; every task with the id gets the new status and the matching completion date |
| IndexPage.SetStatusIdempotent | src/pages/Index.tsx:40-53 | repeating the same change has no further effect |
| IndexPage.SetStatusLastWins | src/pages/Index.tsx:40-53 | of two changes to the same id only the later one shows |
| IndexPage.SetStatusNoMatch | src/pages/Index.tsx:40-53 | an id no task carries leaves the list unchanged |
| IndexPage.SetStatusKeepsConsistency | src/pages/Index.tsx:40-53 | a status change keeps the completion-date invariant |
| IndexPage.SetStatusKeepsIds | src/pages/Index.tsx:40-53 | a status change keeps every id in place, and with it their distinctness |
| IndexPage.SetStatusCounts | src/pages/Index.tsx:64-66 | with distinct ids, a change moves one task from its old status count to the new one and leaves the third count alone |
| IndexPage.StatusesAfterSetStatus | src/pages/Index.tsx:41-50 | when only position k carries the id, only the status at position k changes |
| IndexPage.CountAfterUpdate | src/pages/Index.tsx:64-66 | replacing one entry moves one occurrence out of the old value's count and into the new one's |
| IndexPage.OnlyOneWithId | src/pages/Index.tsx:42 | with distinct ids, at most one task matches the id |
| IndexPage.Filtered | src/pages/Index.tsx:59-62 | the "all" tab shows the whole list; a status tab shows the status filter of the list, so exactly the tasks of that status, in list order |
| IndexPage.StatusTabsCoverAll | src/pages/Index.tsx:59-62 | the three status tabs together show every task exactly once |
| IndexPage.CountsAfterAdd | src/pages/Index.tsx:55-57 | putting an open task in front raises the open count by one and leaves the other two |
| IndexPage.Dashboard.Valid | src/pages/Index.tsx:40-57 | the page's invariant: every task in the list has a completion date exactly when it is completed |
| IndexPage.Dashboard.constructor | src/pages/Index.tsx:26-27 | the page starts with the mock tasks on the "all" tab, and the invariant holds |
| IndexPage.Dashboard.HandleStatusChange | src/pages/Index.tsx:40-53 | the list becomes its status-updated version, the tab is kept, and the invariant is preserved |
| IndexPage.Dashboard.HandleAddTask | src/pages/Index.tsx:55-57 | the new task is put in front of the list, and a task whose completion date agrees with its status keeps the invariant |
| IndexPage.Dashboard.SetActiveTab | src/pages/Index.tsx:103 | a tab change switches the tab and leaves the list alone |
| IndexPage.Dashboard.Visible | src/pages/Index.tsx:121-127 | the cards shown are `getFilteredTasks()` for the active tab: on a status tab exactly the tasks of that status; never more copies than the list holds |
| IndexPage.Dashboard.SubmitForm | src/pages/Index.tsx:83 | a complete form adds its open task in front, raises the open count by one and resets the form; an incomplete form changes neither the list nor the form |
| IndexPage.Dashboard.PressCard | src/pages/Index.tsx:126 | a card's button press applies the card's forward step to every task with the card's id, and the card's own status takes the same step; a completed card has no button, so neither the list nor the card changes |
| IndexPage.ProfileTasks | src/pages/Index.tsx:30-31 | the profile card's tasks are exactly the static mock tasks assigned to the first mock user |
| IndexPage.InitialCounts | src/pages/Index.tsx:64-66 | the badges start at 3 open, 3 in progress and 2 completed |
| IndexPage.TeamProgress | src/pages/Index.tsx:88-90 | the bar shows 94 (2350 of a 2500 target) |
| IndexPage.ProfileTasksAre | src/pages/Index.tsx:30-31 | the profile card's tasks are mock tasks 1, 3 and 5, taken from the static data |
| IndexPage.ProfileFigures | src/pages/Index.tsx:97 | whatever the list holds, the profile card shows 2 open, 0 in progress and 1 completed, a 33% completion rate and 100 in rewards |
| IndexPage.FiguresOf | src/components/UserProfile.tsx:15-21 | two open tasks around one completed task worth 100 give counts 2/0/1, a 33% rate and 100 in rewards |

## Left out

- Rendering: the JSX markup, the icons and the `Navbar` component are not
  modelled. Neither are the values shown only as text, such as the upcoming
  payout date and the employee count.
- Toasts: only their kind is modelled, as the `Notice` and `Notification`
  values. Their texts are left out, and so is the welcome toast raised when
  the page mounts.
- Dates: `new Date().toISOString().split('T')[0]` becomes the `today`
  parameter. The dialog's `Date` is held as the day string it would be
  written as. `formatDistanceToNow` and `getDueDateDisplay`, with its
  "recently" and "Due date not set" fallbacks, are not modelled. They are
  clock-dependent display code.
- `Date.now().toString()`: the id of a new task is a parameter of
  `HandleSubmit`. Nothing ensures it differs from existing ids. So
  `IndexPage.SetStatusCounts` requires distinct ids, while
  `IndexPage.SetStatus` describes every task with a matching id.
- `averageCompletion` (`src/pages/Index.tsx:92`) is a display-only float
  passed to the rewards tracker. It is not modelled.
- Floating point:
  - `Math.round(a / b * 100)` is computed exactly on integers.
  - Rewards are unbounded integers. `Number(e.target.value)` on a non-numeric
    input (NaN) is not modelled.
  - Rewards are whole numbers. `Number(e.target.value)`
    (`src/components/AddTaskModal.tsx:172`) also accepts a fractional reward
    such as 12.5, which `Task.reward: int` cannot hold.
- Text.FirstChar: returns the whole first character. JavaScript strings are
  UTF-16, so `charAt(0)` (`src/components/TaskCard.tsx:106`) and `n[0]`
  (`src/components/UserProfile.tsx:33`) return the first code unit only. For
  a name that starts outside the Basic Multilingual Plane, the source shows a
  lone surrogate where the model has the full character.
- RewardsTracker.ProgressPercentage: requires a non-zero target. A zero
  target gives an infinite or NaN percentage in JavaScript, and the page
  always passes 2500.
- Text.UpperAscii: upper-cases only a-z. It does not model Unicode case
  mapping, which the status literals never need.
- The inputs' `onChange` / `onValueChange` handlers of the dialog only write
  one field each. They are modelled as direct writes to the `Form` fields,
  with no method of their own.
- React's scheduling is not modelled. State updates are taken to apply
  immediately, in order, with no batching and no stale closures.
- Copies and sharing: the model works on values. So the copy
  `[...users]` that the leaderboard and `getUserRanking` sort cannot alias
  `MOCK_USERS`. That the mock users are never reordered holds by
  construction and has no lemma of its own.
- Card and list stay separate: `IndexPage.Dashboard.PressCard` does not
  re-synchronise the card's local status with the list. The source does not
  either, since `useState` reads its initial value once.
