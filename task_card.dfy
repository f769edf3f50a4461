/** One task card (`src/components/TaskCard.tsx`): a local copy of the
    task's status, the single forward step its footer button offers, the
    notification a status change raises, and the status chip's colour and
    label. */
module TaskCard {
  import opened Collections
  import opened Data
  import opened Text

  /** The position of a status on the open → in-progress → completed path. */
  function Stage(s: Status): nat
  {
    match s
    case Open => 0
    case InProgress => 1
    case Completed => 2
  }

  /** The status the footer button moves to: "Start Task" for an open task,
      "Complete Task" for one in progress, and no button once completed. */
  function OfferedTransition(s: Status): (next: Option<Status>)
    ensures next.None? <==> s == Completed
    ensures next.Some? ==> Stage(next.value) == Stage(s) + 1
  {
    match s
    case Open => Some(InProgress)
    case InProgress => Some(Completed)
    case Completed => None
  }

  /** Following the offered buttons from any status reaches completed after
      `2 - Stage(s)` presses, and never moves backwards on the way. */
  function PressesToComplete(s: Status): (n: nat)
    ensures n == 2 - Stage(s)
    decreases 2 - Stage(s)
  {
    match OfferedTransition(s)
    case None => 0
    case Some(next) => 1 + PressesToComplete(next)
  }

  /** The toast a status change raises. */
  datatype Notification = TaskCompletedToast | TaskStartedToast

  /** "Task Completed!" for completed, "Task Started" for in progress, and
      nothing for open. */
  function NotificationFor(s: Status): (n: Option<Notification>)
    ensures n.None? <==> s == Open
    ensures n.Some? ==> (n.value == TaskCompletedToast <==> s == Completed)
    ensures n.Some? ==> (n.value == TaskStartedToast <==> s == InProgress)
  {
    match s
    case Completed => Some(TaskCompletedToast)
    case InProgress => Some(TaskStartedToast)
    case Open => None
  }

  /** Every step the card offers raises a notification. */
  lemma OfferedStepsNotify(s: Status)
    requires OfferedTransition(s).Some?
    ensures NotificationFor(OfferedTransition(s).value).Some?
  {
  }

  const DefaultColor: string := "bg-gray-500"

  /** `getStatusColor`, a switch over any string with a default class. */
  function StatusColor(status: string): (color: string)
    ensures status != "open" && status != "in-progress" && status != "completed" ==>
      color == DefaultColor
  {
    if status == "open" then "bg-blue-500"
    else if status == "in-progress" then "bg-progress"
    else if status == "completed" then "bg-success"
    else DefaultColor
  }

  /** The three statuses get three different classes, none of them the
      default. */
  lemma StatusColorsDistinct(s: Status, t: Status)
    ensures StatusColor(StatusName(s)) != DefaultColor
    ensures StatusColor(StatusName(s)) == StatusColor(StatusName(t)) <==> s == t
  {
    StatusNameInjective(s, t);
  }

  /** The chip text: `status.charAt(0).toUpperCase() + status.slice(1)`. */
  function StatusLabel(s: Status): (chip: string)
    ensures |chip| == |StatusName(s)|
    ensures chip[1..] == StatusName(s)[1..]
    ensures chip[0] == UpperAscii(StatusName(s)[0])
  {
    Capitalize(StatusName(s))
  }

  lemma StatusLabels()
    ensures StatusLabel(Open) == "Open"
    ensures StatusLabel(InProgress) == "In-progress"
    ensures StatusLabel(Completed) == "Completed"
  {
    assert "open"[1..] == "pen";
    assert "in-progress"[1..] == "n-progress";
    assert "completed"[1..] == "ompleted";
  }

  /** The avatar fallback of the assignee: `user.name.charAt(0)`. */
  function AvatarFallback(name: string): (r: string)
    ensures name != [] ==> r == [name[0]]
    ensures name == [] ==> r == ""
  {
    FirstChar(name)
  }

  /** A mounted card. `hasCallback` says whether `onStatusChange` was passed. */
  class Card {
    const task: Task
    const hasCallback: bool
    var currentStatus: Status

    /** `useState(task.status)`: the local status starts as the task's. */
    constructor (task: Task, hasCallback: bool)
      ensures this.task == task && this.hasCallback == hasCallback
      ensures currentStatus == task.status
    {
      this.task := task;
      this.hasCallback := hasCallback;
      currentStatus := task.status;
    }

    /** `handleStatusChange`: sets the local status, then reports
        `(task.id, newStatus)` to the callback when there is one, and
        chooses the notification. */
    method HandleStatusChange(newStatus: Status)
      returns (callback: Option<(string, Status)>, notification: Option<Notification>)
      modifies this
      ensures currentStatus == newStatus
      ensures callback == if hasCallback then Some((task.id, newStatus)) else None
      ensures notification == NotificationFor(newStatus)
    {
      currentStatus := newStatus;
      callback := None;
      if hasCallback {
        callback := Some((task.id, newStatus));
      }
      notification := NotificationFor(newStatus);
    }

    /** A press of the footer button, which exists only while the local
        status is not completed. */
    method PressFooterButton()
      returns (callback: Option<(string, Status)>, notification: Option<Notification>)
      modifies this
      ensures OfferedTransition(old(currentStatus)).None? ==>
        currentStatus == old(currentStatus) && callback.None? && notification.None?
      ensures OfferedTransition(old(currentStatus)).Some? ==>
        var next := OfferedTransition(old(currentStatus)).value;
        currentStatus == next && Stage(currentStatus) == Stage(old(currentStatus)) + 1 &&
        callback == (if hasCallback then Some((task.id, next)) else None) &&
        notification == NotificationFor(next) && notification.Some?
    {
      match OfferedTransition(currentStatus)
      case None =>
        callback, notification := None, None;
      case Some(next) =>
        callback, notification := HandleStatusChange(next);
    }
  }
}
