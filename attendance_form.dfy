/** The mark-attendance form: a draft (employee, date, status) with the
    `loading`, `error` and `success` banners. A submit sends one
    `markAttendance` call; its outcome and the expiry of the post-success
    timer arrive as separate events. The day the draft defaults to stands
    for the browser's clock. */
module AttendanceForm {

  import opened Common
  import opened Text
  import opened Calendar
  import opened Schemas
  import opened Api

  /** The form's `formData`: every field as the widgets hold it, as text. */
  datatype Draft = Draft(employeeId: string, date: string, status: string)

  /** The fields edited through `handleChange` (the `name` of the select and
      of the date input). */
  datatype Field = EmployeeIdField | DateField

  /** The body sent to `markAttendance`: the draft with the employee
      parsed to an integer (`None` for `NaN`). */
  datatype AttendancePayload = AttendancePayload(employeeId: Option<int>, date: string, status: string)

  const SuccessMessage := "Attendance marked successfully! The form will reset shortly."
  const LoadEmployeesError := "Failed to load employees. Please try again."

  /** A fresh draft on day `today`. */
  function DefaultDraft(today: Date): (d: Draft)
    ensures d.employeeId == "" && d.date == FormatDate(today) && d.status == Present
  {
    Draft("", FormatDate(today), Present)
  }

  /** `{ ...formData, [name]: value }`. */
  function WithField(d: Draft, f: Field, value: string): (d': Draft)
    ensures f == EmployeeIdField ==> d' == d.(employeeId := value)
    ensures f == DateField ==> d' == d.(date := value)
    ensures d'.status == d.status
  {
    match f
    case EmployeeIdField => d.(employeeId := value)
    case DateField => d.(date := value)
  }

  /** `{ ...formData, employee_id: parseInt(formData.employee_id) }`. */
  function Payload(d: Draft): (p: AttendancePayload)
    ensures p.date == d.date && p.status == d.status
    ensures p.employeeId == ParseInt(d.employeeId)
  {
    AttendancePayload(ParseInt(d.employeeId), d.date, d.status)
  }

  /** The select offers each employee's key as its value, so choosing an
      employee sends exactly that key. */
  lemma ChosenEmployeeIsSent(d: Draft, e: EmployeeResponse)
    ensures Payload(WithField(d, EmployeeIdField, IntText(e.id))).employeeId == Some(e.id)
  {
    ParseIntText(e.id);
  }

  class AttendanceForm {
    var employees: seq<EmployeeResponse>
    var formData: Draft
    var loading: bool
    var error: string
    var success: string
    /** The `markAttendance` calls made so far, in order. */
    var calls: seq<AttendancePayload>
    /** Reset timers scheduled and not yet fired. */
    var pendingResets: nat
    /** How often `onAttendanceMarked` has run. */
    var completions: nat
    /** Whether the page passed an `onAttendanceMarked` callback. */
    const hasCallback: bool

    /** The submit button is enabled when nothing is in flight and an
      employee is chosen. */
    predicate SubmitEnabled()
      reads this
    {
      !loading && formData.employeeId != ""
    }

    constructor (today: Date, hasCallback: bool)
      ensures this.hasCallback == hasCallback
      ensures employees == [] && formData == DefaultDraft(today)
      ensures !loading && error == "" && success == ""
      ensures calls == [] && pendingResets == 0 && completions == 0
      ensures !SubmitEnabled()
    {
      this.hasCallback := hasCallback;
      employees := [];
      formData := DefaultDraft(today);
      loading, error, success := false, "", "";
      calls, pendingResets, completions := [], 0, 0;
    }

    /** The effect that fills the employee select. */
    method EmployeesLoaded(outcome: Result<seq<EmployeeResponse>, CallFailure>)
      modifies this`employees, this`error
      ensures outcome.Ok? ==> employees == outcome.value && error == old(error)
      ensures outcome.Err? ==> employees == old(employees) && error == LoadEmployeesError
    {
      match outcome {
        case Ok(list) => employees := list;
        case Err(_) => error := LoadEmployeesError;
      }
    }

    /** `handleChange`: only the named field takes the new value. */
    method HandleChange(f: Field, value: string)
      modifies this`formData
      ensures formData == WithField(old(formData), f, value)
      ensures f == EmployeeIdField ==> formData.date == old(formData.date)
      ensures f == DateField ==> formData.employeeId == old(formData.employeeId)
    {
      formData := WithField(formData, f, value);
    }

    /** The Present and Absent buttons. */
    method ChooseStatus(status: string)
      requires IsStatus(status)
      modifies this`formData
      ensures formData == old(formData).(status := status)
    {
      formData := formData.(status := status);
    }

    /** `handleSubmit` up to the call: the banners are cleared, the form is
      busy, and exactly one `markAttendance` call goes out with the draft as
      it stands. The button is disabled until the call settles. */
    method HandleSubmit() returns (payload: AttendancePayload)
      requires SubmitEnabled()
      modifies this`loading, this`error, this`success, this`calls
      ensures loading && error == "" && success == ""
      ensures payload == Payload(formData)
      ensures calls == old(calls) + [payload]
      ensures !SubmitEnabled()
    {
      loading := true;
      error := "";
      success := "";
      payload := Payload(formData);
      calls := calls + [payload];
    }

    /** The call succeeded: the success banner shows and a reset is
      scheduled; the draft stays until the timer fires. */
    method SubmitSucceeded()
      requires loading
      modifies this`loading, this`success, this`pendingResets
      ensures !loading && success == SuccessMessage
      ensures pendingResets == old(pendingResets) + 1
    {
      success := SuccessMessage;
      pendingResets := pendingResets + 1;
      loading := false;
    }

    /** The call failed and the client rejected with `e`: the error banner
      shows the detail still reachable through `e`, or the fallback text,
      and the draft is left as it was for correction. With the interceptor
      as written `e` is `RejectAsWritten(f)` and the banner is always the
      fallback text (`FormsNeverSeeDetailAsWritten`); with `Reject(f)` it is
      the server's detail (`FormsShowDetail`). */
    method SubmitFailed(e: ClientError)
      requires loading
      modifies this`loading, this`error
      ensures !loading
      ensures error == FormErrorText(e)
      ensures Truthy(e.responseDetail) ==> error == e.responseDetail.value
      ensures !Truthy(e.responseDetail) ==> error == FormFallbackMessage
    {
      error := FormErrorText(e);
      loading := false;
    }

    /** A scheduled reset fires on day `today`: the draft returns to its
      defaults, the success banner goes, and `onAttendanceMarked` runs once
      if given. */
    method ResetTimerFires(today: Date)
      requires pendingResets > 0
      modifies this`formData, this`success, this`pendingResets, this`completions
      ensures formData == DefaultDraft(today) && success == ""
      ensures pendingResets == old(pendingResets) - 1
      ensures completions == old(completions) + (if hasCallback then 1 else 0)
    {
      formData := DefaultDraft(today);
      success := "";
      pendingResets := pendingResets - 1;
      if hasCallback {
        completions := completions + 1;
      }
    }
  }
}
