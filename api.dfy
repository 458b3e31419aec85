/** The client's API layer: the base URL, the request paths of the
    attendance and employee calls, and the message the response interceptor
    puts on a failed call. Transport (axios, HTTP) is not modelled; a failed
    call is described by the two things the interceptor reads from it. */
module Api {

  import opened Common
  import opened Text
  import opened Http

  /** JavaScript truthiness of an optional string: `undefined`, `null` and
      `''` are falsy. */
  predicate Truthy(s: Option<string>)
  {
    s.Some? && s.value != ""
  }

  const DefaultBaseUrl := "http://localhost:8000"

  /** `import.meta.env.VITE_API_URL || 'http://localhost:8000'`. */
  function BaseUrl(viteApiUrl: Option<string>): (url: string)
    ensures Truthy(viteApiUrl) ==> url == viteApiUrl.value
    ensures !Truthy(viteApiUrl) ==> url == DefaultBaseUrl
    ensures url != ""
  {
    if Truthy(viteApiUrl) then viteApiUrl.value else DefaultBaseUrl
  }

  const EmployeesPath := "/api/employees"
  const AttendancePath := "/api/attendance"
  const DateQuery := "?date="

  /** `attendanceApi.getAll(dateFilter)`: the date goes into the query string
      when it is given and not empty. */
  function AttendanceListUrl(dateFilter: Option<string>): (url: string)
    ensures Truthy(dateFilter) ==> url == AttendancePath + DateQuery + dateFilter.value
    ensures !Truthy(dateFilter) ==> url == AttendancePath
  {
    if Truthy(dateFilter) then AttendancePath + DateQuery + dateFilter.value else AttendancePath
  }

  /** `attendanceApi.getByEmployee(id)`. */
  function EmployeeAttendanceUrl(id: int): string
  {
    AttendancePath + "/" + IntText(id)
  }

  /** `employeeApi.delete(id)`. */
  function EmployeeDeleteUrl(id: int): string
  {
    EmployeesPath + "/" + IntText(id)
  }

  /** The last path segment of `url` after `prefix` + `/`, read back as an
      integer, as the backend's path parameter does. */
  function PathKey(url: string, prefix: string): Option<int>
  {
    if |prefix| + 1 <= |url| && url[..|prefix| + 1] == prefix + "/" then ParseInt(url[|prefix| + 1..])
    else None
  }

  /** The two per-employee paths name the employee's key: the server reads
      back exactly the key the client wrote. */
  lemma PerEmployeeUrlsNameKey(id: int)
    ensures PathKey(EmployeeAttendanceUrl(id), AttendancePath) == Some(id)
    ensures PathKey(EmployeeDeleteUrl(id), EmployeesPath) == Some(id)
  {
    var a, e := EmployeeAttendanceUrl(id), EmployeeDeleteUrl(id);
    assert a[..|AttendancePath| + 1] == AttendancePath + "/";
    assert a[|AttendancePath| + 1..] == IntText(id);
    assert e[..|EmployeesPath| + 1] == EmployeesPath + "/";
    assert e[|EmployeesPath| + 1..] == IntText(id);
    ParseIntText(id);
  }

  /** Different keys address different employees. */
  lemma DeleteUrlInjective(a: int, b: int)
    requires EmployeeDeleteUrl(a) == EmployeeDeleteUrl(b)
    ensures a == b
  {
    PerEmployeeUrlsNameKey(a);
    PerEmployeeUrlsNameKey(b);
  }

  /** A date filter is read back from the query string exactly as written. */
  lemma AttendanceListUrlCarriesDate(d: string)
    requires d != ""
    ensures var url := AttendanceListUrl(Some(d));
      |url| > |AttendancePath + DateQuery| && url[|AttendancePath + DateQuery|..] == d
      && url[..|AttendancePath + DateQuery|] == AttendancePath + DateQuery
  {
  }

  /** What the interceptor reads from a failed call: the server's
      `response.data.detail`, when there is a response with one, and the
      transport error's own `message`. */
  datatype CallFailure = CallFailure(detail: Option<string>, message: Option<string>)

  /** The error a failed call rejects with, as the components see it:
      `message`, and the `response.data.detail` still reachable through it
      (`None` when the error has no `response`). */
  datatype ClientError = ClientError(message: string, responseDetail: Option<string>)

  const GenericApiMessage := "An error occurred"

  /** `error.response?.data?.detail || error.message || 'An error occurred'`. */
  function InterceptorMessage(f: CallFailure): (m: string)
    ensures Truthy(f.detail) ==> m == f.detail.value
    ensures !Truthy(f.detail) && Truthy(f.message) ==> m == f.message.value
    ensures !Truthy(f.detail) && !Truthy(f.message) ==> m == GenericApiMessage
    ensures m != ""
  {
    if Truthy(f.detail) then f.detail.value
    else if Truthy(f.message) then f.message.value
    else GenericApiMessage
  }

  /** The interceptor as written: `Promise.reject(new Error(message))`. The
      new error has no `response`. */
  function RejectAsWritten(f: CallFailure): ClientError
  {
    ClientError(InterceptorMessage(f), None)
  }

  /** The interceptor as the forms expect it: the rejected error still
      carries the server's detail under `response.data.detail`. */
  function Reject(f: CallFailure): (e: ClientError)
    ensures e.message == InterceptorMessage(f)
    ensures e.responseDetail == f.detail
  {
    ClientError(InterceptorMessage(f), f.detail)
  }

  const FormFallbackMessage := "An unexpected error occurred."

  /** The two forms' `err.response?.data?.detail || 'An unexpected error
      occurred.'`. */
  function FormErrorText(e: ClientError): (text: string)
    ensures Truthy(e.responseDetail) ==> text == e.responseDetail.value
    ensures !Truthy(e.responseDetail) ==> text == FormFallbackMessage
    ensures text != ""
  {
    if Truthy(e.responseDetail) then e.responseDetail.value else FormFallbackMessage
  }

  /** With the interceptor as written, a form never shows the server's
      detail: whatever the failure, it shows the fallback text. */
  lemma FormsNeverSeeDetailAsWritten(f: CallFailure)
    ensures FormErrorText(RejectAsWritten(f)) == FormFallbackMessage
  {
  }

  /** The input that shows it: the 404 the backend sends for an unknown
      employee 7, detail "Employee with ID 7 not found", is displayed as
      the fallback text. */
  lemma FormDetailLostExample()
    ensures var f := CallFailure(ServiceError(EmployeeNotFound(7)).detail, Some("Request failed with status code 404"));
      f.detail == Some("Employee with ID 7 not found")
      && FormErrorText(RejectAsWritten(f)) != f.detail.value
      && FormErrorText(Reject(f)) == f.detail.value
  {
    var f := CallFailure(ServiceError(EmployeeNotFound(7)).detail, Some("Request failed with status code 404"));
    assert IntText(7) == "7";
    assert "Employee with ID " + "7" + " not found" == "Employee with ID 7 not found";
    assert FormFallbackMessage[0] != f.detail.value[0];
  }

  /** With the interceptor keeping the response, a form shows the server's
      detail when there is one, and the fallback text otherwise; and it
      agrees with the interceptor's own message whenever the server sent a
      detail. */
  lemma FormsShowDetail(f: CallFailure)
    ensures Truthy(f.detail) ==> FormErrorText(Reject(f)) == f.detail.value == Reject(f).message
    ensures !Truthy(f.detail) ==> FormErrorText(Reject(f)) == FormFallbackMessage
  {
  }
}
