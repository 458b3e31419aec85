/** The request and response bodies of the backend and the field bounds the
    request validator enforces before a handler runs. */
module Schemas {

  import opened Calendar

  /** The body of `POST /api/employees`. */
  datatype EmployeeCreate = EmployeeCreate(employeeId: string, fullName: string, email: string, department: string)

  /** An employee as the API returns it: the stored row with its key and
      creation time. */
  datatype EmployeeResponse = EmployeeResponse(
    id: int, employeeId: string, fullName: string, email: string, department: string, createdAt: int)

  const Present := "Present"
  const Absent := "Absent"

  /** The two statuses an attendance record may have. */
  predicate IsStatus(s: string)
  {
    s == Present || s == Absent
  }

  /** The body of `POST /api/attendance`; `employeeId` is the employee's
      integer key. */
  datatype AttendanceCreate = AttendanceCreate(employeeId: int, date: Date, status: string)

  /** An attendance record as the API returns it: the base fields plus the
      row key, the employee's name and the creation time. */
  datatype AttendanceResponse = AttendanceResponse(
    id: int, employeeId: int, employeeName: string, date: Date, status: string, createdAt: int)

  const MaxEmployeeIdLength := 50
  const MaxFullNameLength := 200
  const MaxDepartmentLength := 100

  /** The length bounds of `EmployeeBase`; the e-mail format is not modelled. */
  predicate EmployeeBaseValid(e: EmployeeCreate)
  {
    1 <= |e.employeeId| <= MaxEmployeeIdLength
    && 1 <= |e.fullName| <= MaxFullNameLength
    && 1 <= |e.department| <= MaxDepartmentLength
  }

  /** `AttendanceBase`: a real calendar date within Python's `date` range
      and one of the two statuses. */
  predicate AttendanceBaseValid(a: AttendanceCreate)
  {
    IsValid(a.date) && a.date.year <= 9999 && IsStatus(a.status)
  }

  /** The validator's report on an employee body: the names of the fields
      that break their bounds, in declaration order. */
  function EmployeeErrors(e: EmployeeCreate): (fields: seq<string>)
    ensures fields == [] <==> EmployeeBaseValid(e)
    ensures "employee_id" in fields <==> !(1 <= |e.employeeId| <= MaxEmployeeIdLength)
    ensures "full_name" in fields <==> !(1 <= |e.fullName| <= MaxFullNameLength)
    ensures "department" in fields <==> !(1 <= |e.department| <= MaxDepartmentLength)
    ensures |fields| <= 3
  {
    (if 1 <= |e.employeeId| <= MaxEmployeeIdLength then [] else ["employee_id"])
    + (if 1 <= |e.fullName| <= MaxFullNameLength then [] else ["full_name"])
    + (if 1 <= |e.department| <= MaxDepartmentLength then [] else ["department"])
  }

  /** The validator's report on an attendance body. */
  function AttendanceErrors(a: AttendanceCreate): (fields: seq<string>)
    ensures fields == [] <==> AttendanceBaseValid(a)
    ensures "date" in fields <==> !(IsValid(a.date) && a.date.year <= 9999)
    ensures "status" in fields <==> !IsStatus(a.status)
    ensures |fields| <= 2
  {
    (if IsValid(a.date) && a.date.year <= 9999 then [] else ["date"])
    + (if IsStatus(a.status) then [] else ["status"])
  }
}
