/** The `assign_renewal_task_to_other` action of `EmployeeUploadAdmin` in admin.py: one to-do task per
    selected upload that has a renewal date, assigned to the chosen employee. */
module AdminRenewal {
  import opened Wrappers
  import opened Strings
  import opened Tables
  import opened Models

  /** 23:59 on the renewal day, the due time of the task. */
  const DueTimeOfDay: int := 23 * MicrosPerHour + 59 * MicrosPerMinute

  /** The file part of the description: an HTML link when the file has a URL, else its name or
      `No file`. */
  function FileLinkText(f: StoredFile): (t: string)
  {
    var fileUrl := if f.name != "" then f.url else "";
    var fileName := if f.name != "" then LastField(f.name, '/') else "No file";
    if fileUrl != "" then "<a href=\"" + fileUrl + "\" target=\"_blank\">" + fileName + "</a>" else fileName
  }

  /** The task description for an upload. */
  function TaskDescription(u: EmployeeUpload): string
  {
    "Renewal required for: " + u.serviceName.GetOr("Uncategorized") + " | " +
    "File: " + FileLinkText(u.file) + " | " + Take(u.description, 40)
  }

  predicate HasRenewal(u: EmployeeUpload)
  {
    u.renewalDate.Some?
  }

  function Renewable(): EmployeeUpload -> bool
  {
    (u: EmployeeUpload) => HasRenewal(u)
  }

  /** The task created for an upload with a renewal date. */
  function RenewalTask(u: EmployeeUpload, assignee: int): TodoTask
    requires HasRenewal(u)
  {
    TodoTask(assignee, TaskDescription(u), u.renewalDate.value * MicrosPerDay + DueTimeOfDay)
  }

  /** The tasks the action creates, in the order of the selection. */
  function RenewalTasks(uploads: seq<EmployeeUpload>, assignee: int): (tasks: seq<TodoTask>)
    ensures |tasks| <= |uploads|
    ensures forall k :: 0 <= k < |tasks| ==> tasks[k].employeeId == assignee
  {
    if uploads == [] then []
    else
      var u := uploads[|uploads| - 1];
      RenewalTasks(uploads[..|uploads| - 1], assignee) + (if HasRenewal(u) then [RenewalTask(u, assignee)] else [])
  }

  /** The confirmation step: the employee form was posted with `apply` and names `assignee`. */
  datatype Confirmation = NotApplied | InvalidChoice | Apply(assignee: Employee)

  datatype Outcome = ShowForm | Done(message: string)

  /** The action on the selected `uploads`; `tasks` is the TodoTask table. */
  method AssignRenewalTaskToOther(confirmation: Confirmation, uploads: seq<EmployeeUpload>, tasks: seq<TodoTask>)
    returns (tasks': seq<TodoTask>, outcome: Outcome)
    ensures !confirmation.Apply? ==> tasks' == tasks && outcome == ShowForm
    ensures confirmation.Apply? ==>
              var created := RenewalTasks(uploads, confirmation.assignee.employeeId);
              && tasks' == tasks + created
              && outcome == Done(NatToString(|created|) + " renewal task(s) assigned to " + confirmation.assignee.display + ".")
  {
    if !confirmation.Apply? {
      return tasks, ShowForm;
    }
    var selectedEmployee := confirmation.assignee;
    var created := 0;
    tasks' := tasks;
    var i := 0;
    while i < |uploads|
      invariant 0 <= i <= |uploads|
      invariant tasks' == tasks + RenewalTasks(uploads[..i], selectedEmployee.employeeId)
      invariant created == |RenewalTasks(uploads[..i], selectedEmployee.employeeId)|
    {
      var upload := uploads[i];
      assert uploads[..i + 1][..i] == uploads[..i];
      if upload.renewalDate.None? {
        i := i + 1;
        continue;
      }
      var desc := TaskDescription(upload);
      var dueTime := upload.renewalDate.value * MicrosPerDay + DueTimeOfDay;
      tasks' := tasks' + [TodoTask(selectedEmployee.employeeId, desc, dueTime)];
      created := created + 1;
      i := i + 1;
    }
    assert uploads[..i] == uploads;
    outcome := Done(NatToString(created) + " renewal task(s) assigned to " + selectedEmployee.display + ".");
  }

  /** The created tasks correspond one to one, in order, to the selected uploads that have a renewal
      date; uploads without a date are skipped. */
  lemma {:induction false} TasksFollowSelection(uploads: seq<EmployeeUpload>, assignee: int)
    ensures var tasks, dated := RenewalTasks(uploads, assignee), Filter(uploads, Renewable());
            && |tasks| == |dated| == Count(uploads, Renewable())
            && forall k :: 0 <= k < |tasks| ==> HasRenewal(dated[k]) && tasks[k] == RenewalTask(dated[k], assignee)
    decreases |uploads|
  {
    if uploads != [] {
      var n := |uploads| - 1;
      TasksFollowSelection(uploads[..n], assignee);
      FilterAppend(uploads[..n], uploads[n], Renewable());
      assert uploads[..n] + [uploads[n]] == uploads;
    }
  }

  /** A task is due on its renewal day, at 23:59. */
  lemma DueOnRenewalDay(u: EmployeeUpload, assignee: int)
    requires HasRenewal(u)
    ensures DateOf(RenewalTask(u, assignee).dueTime) == u.renewalDate.value
    ensures RenewalTask(u, assignee).dueTime - u.renewalDate.value * MicrosPerDay == DueTimeOfDay
    ensures RenewalTask(u, assignee).employeeId == assignee
  {
  }

  /** The description keeps only the first 40 characters of the upload's description. */
  lemma DescriptionCut(u: EmployeeUpload)
    requires |u.description| >= 40
    ensures TaskDescription(u) ==
            "Renewal required for: " + u.serviceName.GetOr("Uncategorized") + " | File: " + FileLinkText(u.file)
            + " | " + u.description[..40]
  {
  }
}
