/** The backend's refusals and the HTTP errors they become. The services
    and the routers raise the same refusals with the same status codes; their
    detail texts differ in one case. */
module Http {

  import opened Common
  import opened Calendar
  import opened Text

  const BadRequest := 400
  const NotFound := 404
  const InternalServerError := 500

  /** A refusal as the client receives it: the status code and, for the
      refusals the code raises itself, the JSON body's `detail`. */
  datatype HttpError = HttpError(statusCode: int, detail: Option<string>)

  /** Why a request was refused. `StoreRefused` is the database turning down
      an insert, an unhandled integrity error: the server's error handler
      answers it with a plain-text body, so it carries no `detail`. */
  datatype Rejection =
    | EmployeeNotFound(key: int)
    | AlreadyMarked(employeeName: string, date: Date)
    | EmployeeIdTaken(employeeId: string)
    | EmailTaken(email: string)
    | StoreRefused

  function StatusCode(r: Rejection): int
  {
    match r
    case EmployeeNotFound(_) => NotFound
    case StoreRefused => InternalServerError
    case _ => BadRequest
  }

  /** The detail texts of the services' `HTTPException`s; the unhandled
      database refusal has none. */
  function ServiceDetail(r: Rejection): (d: Option<string>)
    ensures d.None? <==> r.StoreRefused?
    ensures d.Some? ==> d.value != ""
  {
    match r
    case EmployeeNotFound(key) => Some("Employee with ID " + IntText(key) + " not found")
    case AlreadyMarked(name, date) => Some("Attendance already marked for employee " + name + " on " + FormatDate(date))
    case EmployeeIdTaken(id) => Some("Employee with ID '" + id + "' already exists")
    case EmailTaken(email) => Some("Employee with email '" + email + "' already exists")
    case StoreRefused => None
  }

  /** The detail texts of the routers: the duplicate-identifier text names
      the field "Employee ID". */
  function RouterDetail(r: Rejection): (d: Option<string>)
    ensures d.None? <==> r.StoreRefused?
  {
    match r
    case EmployeeIdTaken(id) => Some("Employee with Employee ID '" + id + "' already exists")
    case _ => ServiceDetail(r)
  }

  function ServiceError(r: Rejection): HttpError
  {
    HttpError(StatusCode(r), ServiceDetail(r))
  }

  function RouterError(r: Rejection): HttpError
  {
    HttpError(StatusCode(r), RouterDetail(r))
  }

  /** Services and routers answer every refusal with the same status code and
      the same detail, except the duplicate employee identifier, whose
      details differ. */
  lemma ServiceAndRouterAgree(r: Rejection)
    ensures ServiceError(r).statusCode == RouterError(r).statusCode
    ensures ServiceError(r) == RouterError(r) <==> !r.EmployeeIdTaken?
  {
    if r.EmployeeIdTaken? {
      assert ServiceDetail(r).value[14] == 'I';
      assert RouterDetail(r).value[14] == 'E';
    }
  }

  /** The not-found detail names the key, so different keys give different
      texts. */
  lemma NotFoundDetailNamesKey(a: int, b: int)
    requires ServiceDetail(EmployeeNotFound(a)) == ServiceDetail(EmployeeNotFound(b))
    ensures a == b
  {
    var prefix := "Employee with ID ";
    var suffix := " not found";
    var sa, sb := IntText(a), IntText(b);
    assert prefix + sa + suffix == prefix + sb + suffix by {
      assert ServiceDetail(EmployeeNotFound(a)).value == ServiceDetail(EmployeeNotFound(b)).value;
    }
    assert |sa| == |sb|;
    assert sa == (prefix + sa + suffix)[|prefix|..|prefix| + |sa|];
    assert sb == (prefix + sb + suffix)[|prefix|..|prefix| + |sb|];
    ParseIntText(a);
    ParseIntText(b);
  }
}
