/** The add-employee form: the four fields of the new employee, the
    department choices (the server's list, or a fixed default list), and the
    same submit lifecycle as the attendance form. */
module AddEmployeeForm {

  import opened Common
  import opened Seqs
  import opened Schemas
  import opened Models
  import opened Api
  import EmployeeRepository

  /** The inputs edited through `handleChange`, by their `name`. */
  datatype EmployeeField = EmployeeIdInput | FullNameInput | EmailInput | DepartmentInput

  const EmptyDraft := EmployeeCreate("", "", "", "")

  const DefaultDepartments := ["Human Resources", "Engineering", "Marketing", "Sales", "Finance", "IT"]

  const EmployeeAddedMessage := "Employee added successfully! The form will reset shortly."

  /** The department choices after the fetch: a non-empty list as the
      server sent it; the default list when the answer is missing, empty, or
      the call failed. */
  function ResolveDepartments(fetched: Result<Option<seq<string>>, CallFailure>): (depts: seq<string>)
    ensures fetched.Ok? && fetched.value.Some? && |fetched.value.value| > 0 ==> depts == fetched.value.value
    ensures !(fetched.Ok? && fetched.value.Some? && |fetched.value.value| > 0) ==> depts == DefaultDepartments
    ensures |depts| > 0
  {
    match fetched
    case Ok(Some(list)) => if |list| > 0 then list else DefaultDepartments
    case Ok(None) => DefaultDepartments
    case Err(_) => DefaultDepartments
  }

  /** Against the backend's distinct-departments query: with employees
      stored, the form offers exactly the departments in use, each once;
      with none, it offers the six defaults. */
  lemma DepartmentsFromStore(t: Tables)
    ensures var depts := ResolveDepartments(Ok(Some(EmployeeRepository.Departments(t.employees))));
      |t.employees| > 0 ==>
        NoDuplicates(depts)
        && (forall j :: 0 <= j < |t.employees| ==> t.employees[j].department in depts)
        && (forall d :: d in depts ==> exists j :: 0 <= j < |t.employees| && t.employees[j].department == d)
    ensures |t.employees| == 0 ==>
      ResolveDepartments(Ok(Some(EmployeeRepository.Departments(t.employees)))) == DefaultDepartments
  {
    var listed := EmployeeRepository.Departments(t.employees);
    if |t.employees| > 0 {
      assert t.employees[0].department in listed;
    } else {
      assert t.employees == [] && Map(t.employees, EmployeeRepository.Department) == [];
    }
  }

  /** `{ ...formData, [name]: value }`. */
  function WithInput(d: EmployeeCreate, f: EmployeeField, value: string): (d': EmployeeCreate)
    ensures f == EmployeeIdInput ==> d' == d.(employeeId := value)
    ensures f == FullNameInput ==> d' == d.(fullName := value)
    ensures f == EmailInput ==> d' == d.(email := value)
    ensures f == DepartmentInput ==> d' == d.(department := value)
  {
    match f
    case EmployeeIdInput => d.(employeeId := value)
    case FullNameInput => d.(fullName := value)
    case EmailInput => d.(email := value)
    case DepartmentInput => d.(department := value)
  }

  class AddEmployeeForm {
    var formData: EmployeeCreate
    var departments: seq<string>
    var loading: bool
    var error: string
    var success: string
    /** The `create` calls made so far, in order. */
    var calls: seq<EmployeeCreate>
    /** Reset timers scheduled and not yet fired. */
    var pendingResets: nat
    /** How often `onEmployeeAdded` has run. */
    var completions: nat
    /** Whether the page passed an `onEmployeeAdded` callback. */
    const hasCallback: bool

    /** The submit button is enabled when nothing is in flight. */
    predicate SubmitEnabled()
      reads this
    {
      !loading
    }

    constructor (hasCallback: bool)
      ensures this.hasCallback == hasCallback
      ensures formData == EmptyDraft && departments == []
      ensures !loading && error == "" && success == ""
      ensures calls == [] && pendingResets == 0 && completions == 0
    {
      this.hasCallback := hasCallback;
      formData := EmptyDraft;
      departments := [];
      loading, error, success := false, "", "";
      calls, pendingResets, completions := [], 0, 0;
    }

    /** The effect that fetches the department choices. */
    method DepartmentsFetched(fetched: Result<Option<seq<string>>, CallFailure>)
      modifies this`departments
      ensures departments == ResolveDepartments(fetched)
      ensures |departments| > 0
    {
      departments := ResolveDepartments(fetched);
    }

    /** `handleChange`: only the named field takes the new value. */
    method HandleChange(f: EmployeeField, value: string)
      modifies this`formData
      ensures formData == WithInput(old(formData), f, value)
    {
      formData := WithInput(formData, f, value);
    }

    /** `handleSubmit` up to the call: the banners are cleared, the form is
      busy and exactly one `create` call goes out with the form data. */
    method HandleSubmit() returns (body: EmployeeCreate)
      requires SubmitEnabled()
      modifies this`loading, this`error, this`success, this`calls
      ensures loading && error == "" && success == ""
      ensures body == formData && calls == old(calls) + [body]
      ensures !SubmitEnabled()
    {
      loading := true;
      error := "";
      success := "";
      body := formData;
      calls := calls + [body];
    }

    /** The call succeeded: the success banner shows and a reset is
      scheduled. */
    method SubmitSucceeded()
      requires loading
      modifies this`loading, this`success, this`pendingResets
      ensures !loading && success == EmployeeAddedMessage
      ensures pendingResets == old(pendingResets) + 1
    {
      success := EmployeeAddedMessage;
      pendingResets := pendingResets + 1;
      loading := false;
    }

    /** The call failed and the client rejected with `e`: the error banner
      shows the detail still reachable through `e`, or the fallback text,
      and the form data is kept. With the interceptor as written `e` is
      `RejectAsWritten(f)` and the banner is always the fallback text
      (`FormsNeverSeeDetailAsWritten`); with `Reject(f)` it is the server's
      detail (`FormsShowDetail`). */
    method SubmitFailed(e: ClientError)
      requires loading
      modifies this`loading, this`error
      ensures !loading && SubmitEnabled()
      ensures error == FormErrorText(e)
      ensures Truthy(e.responseDetail) ==> error == e.responseDetail.value
      ensures !Truthy(e.responseDetail) ==> error == FormFallbackMessage
    {
      error := FormErrorText(e);
      loading := false;
    }

    /** A scheduled reset fires: every field is emptied, the success banner
      goes, and `onEmployeeAdded` runs once if given. */
    method ResetTimerFires()
      requires pendingResets > 0
      modifies this`formData, this`success, this`pendingResets, this`completions
      ensures formData == EmptyDraft && success == ""
      ensures pendingResets == old(pendingResets) - 1
      ensures completions == old(completions) + (if hasCallback then 1 else 0)
    {
      formData := EmptyDraft;
      success := "";
      pendingResets := pendingResets - 1;
      if hasCallback {
        completions := completions + 1;
      }
    }
  }
}
