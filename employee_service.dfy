/** The employee service: the checks of `create_employee` and
    `delete_employee` on top of the employee repository, and the listings. */
module EmployeeService {

  import opened Common
  import opened Seqs
  import opened Schemas
  import opened Models
  import opened Storage
  import opened Http
  import opened EmployeeRules
  import EmployeeRepository

  class EmployeeService {
    const repository: EmployeeRepository.EmployeeRepository

    constructor (db: Session)
      ensures repository.db == db
    {
      repository := new EmployeeRepository.EmployeeRepository(db);
    }

    /** `create_employee`, with the service's detail texts. It is called
        with a body the framework has already checked against the schema. */
    method CreateEmployee(req: EmployeeCreate, now: int) returns (r: Result<EmployeeResponse, HttpError>)
      requires EmployeeBaseValid(req)
      modifies repository.db
      ensures r == MapErr(Create(old(repository.db.Snapshot()), req, now).0, ServiceError)
      ensures repository.db.Snapshot() == Create(old(repository.db.Snapshot()), req, now).1
      ensures old(repository.db.Valid()) ==> repository.db.Valid()
    {
      ghost var before := repository.db.Snapshot();
      if Consistent(before) {
        CreateConsistent(before, req, now);
      }
      var existing := repository.GetByEmployeeId(req.employeeId);
      if existing.Some? {
        return Err(ServiceError(EmployeeIdTaken(req.employeeId)));
      }
      var sameEmail := repository.GetByEmail(req.email);
      if sameEmail.Some? {
        return Err(ServiceError(EmailTaken(req.email)));
      }
      var stored := repository.Create(req, now);
      match stored
      case Ok(row) => r := Ok(ToEmployeeResponse(row));
      case Err(_) => r := Err(ServiceError(StoreRefused));
    }

    /** `get_all_employees`. */
    method GetAllEmployees() returns (r: seq<EmployeeResponse>)
      ensures r == AllEmployees(repository.db.Snapshot())
    {
      var employees := repository.GetAll();
      r := Map(employees, ToEmployeeResponse);
    }

    /** `delete_employee`. */
    method DeleteEmployee(key: int) returns (r: Result<(), HttpError>)
      modifies repository.db
      ensures r == MapErr(Delete(old(repository.db.Snapshot()), key).0, ServiceError)
      ensures repository.db.Snapshot() == Delete(old(repository.db.Snapshot()), key).1
      ensures old(repository.db.Valid()) ==> repository.db.Valid()
    {
      ghost var before := repository.db.Snapshot();
      if Consistent(before) {
        DeleteConsistent(before, key);
      }
      var employee := repository.GetById(key);
      if employee.None? {
        return Err(ServiceError(EmployeeNotFound(key)));
      }
      repository.Delete(employee.value);
      r := Ok(());
    }

    /** `get_all_departments`. */
    method GetAllDepartments() returns (r: seq<string>)
      ensures r == EmployeeRepository.Departments(repository.db.employees)
    {
      r := repository.GetAllDepartments();
    }
  }
}
