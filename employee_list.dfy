/** The employee list: a case-insensitive search over four fields of each
    employee, and the delete confirmation (the employee awaiting
    confirmation, and the key of the delete in flight). */
module EmployeeList {

  import opened Common
  import opened Seqs
  import opened Text
  import opened Schemas

  /** The lower-cased search term occurs in the lower-cased `text`. */
  predicate FieldMatches(text: string, term: string)
  {
    Includes(Lower(text), Lower(term))
  }

  /** The per-employee test of `filteredEmployees`: name, identifier,
      e-mail or department. */
  predicate EmployeeMatches(e: EmployeeResponse, term: string)
  {
    FieldMatches(e.fullName, term) || FieldMatches(e.employeeId, term)
    || FieldMatches(e.email, term) || FieldMatches(e.department, term)
  }

  /** `filteredEmployees`. */
  function FilteredEmployees(employees: seq<EmployeeResponse>, term: string): seq<EmployeeResponse>
  {
    Keep(employees, (e: EmployeeResponse) => EmployeeMatches(e, term))
  }

  /** A field matches exactly when the lower-cased term occurs in it at
      some position. */
  lemma FieldMatchesOccurs(text: string, term: string)
    ensures FieldMatches(text, term) <==> exists i :: OccursAt(Lower(text), Lower(term), i)
  {
    var lt, lq := Lower(text), Lower(term);
    IncludesOccurs(lt, lq);
    if FieldMatches(text, term) {
      var i :| OccursAt(lt, lq, i);
      assert OccursAt(Lower(text), Lower(term), i);
      assert exists j :: OccursAt(Lower(text), Lower(term), j);
      assert FieldMatches(text, term);
    } else {
      forall i ensures !OccursAt(Lower(text), Lower(term), i) {
        assert !OccursAt(lt, lq, i);
      }
    }
  }

  /** The list keeps exactly the employees that match, in their original
      order. */
  lemma SearchExact(employees: seq<EmployeeResponse>, term: string)
    ensures IsSubseq(FilteredEmployees(employees, term), employees)
    ensures forall e :: e in FilteredEmployees(employees, term) <==> e in employees && EmployeeMatches(e, term)
  {
    KeepIsSubseq(employees, (e: EmployeeResponse) => EmployeeMatches(e, term));
  }

  /** An empty search lists every employee, in order. */
  lemma {:induction false} EmptySearchKeepsAll(employees: seq<EmployeeResponse>)
    ensures FilteredEmployees(employees, "") == employees
  {
    forall i | 0 <= i < |employees| ensures EmployeeMatches(employees[i], "") {
      IncludesTrivial(Lower(employees[i].fullName));
    }
    KeepAll(employees, (e: EmployeeResponse) => EmployeeMatches(e, ""));
  }

  /** The search does not depend on the case of the term. */
  lemma SearchIgnoresCase(employees: seq<EmployeeResponse>, term: string)
    ensures FilteredEmployees(employees, Lower(term)) == FilteredEmployees(employees, term)
  {
    LowerIdempotent(term);
    KeepSameVerdict(employees,
      (e: EmployeeResponse) => EmployeeMatches(e, Lower(term)),
      (e: EmployeeResponse) => EmployeeMatches(e, term));
  }

  class EmployeeList {
    var searchTerm: string
    var deletingId: Option<int>
    var employeeToDelete: Option<EmployeeResponse>
    /** The `delete` calls made so far, in order. */
    var deleteCalls: seq<int>
    /** How often `onEmployeeDeleted` has run. */
    var notifications: nat
    /** Whether the page passed an `onEmployeeDeleted` callback. */
    const hasCallback: bool

    /** The confirmation dialog is open. */
    predicate ModalOpen()
      reads this
    {
      employeeToDelete.Some?
    }

    /** The delete button of employee `e` is disabled. */
    predicate DeleteDisabled(e: EmployeeResponse)
      reads this
    {
      deletingId == Some(e.id)
    }

    constructor (hasCallback: bool)
      ensures this.hasCallback == hasCallback
      ensures searchTerm == "" && deletingId.None? && employeeToDelete.None?
      ensures deleteCalls == [] && notifications == 0
    {
      this.hasCallback := hasCallback;
      searchTerm := "";
      deletingId, employeeToDelete := None, None;
      deleteCalls, notifications := [], 0;
    }

    method SetSearchTerm(term: string)
      modifies this`searchTerm
      ensures searchTerm == term
    {
      searchTerm := term;
    }

    /** The delete button: `e` awaits confirmation. */
    method OpenDeleteModal(e: EmployeeResponse)
      modifies this`employeeToDelete
      ensures employeeToDelete == Some(e) && ModalOpen()
    {
      employeeToDelete := Some(e);
    }

    /** Cancel: nobody awaits confirmation. */
    method CloseDeleteModal()
      modifies this`employeeToDelete
      ensures employeeToDelete.None? && !ModalOpen()
    {
      employeeToDelete := None;
    }

    /** `handleDelete` up to the call. With nobody awaiting confirmation it
      does nothing. Otherwise it marks that employee as being deleted,
      closes the dialog and sends one `delete` call with that employee's
      key. */
    method HandleDelete() returns (call: Option<int>)
      modifies this`deletingId, this`employeeToDelete, this`deleteCalls
      ensures old(employeeToDelete).None? ==>
        call.None? && deletingId == old(deletingId) && employeeToDelete.None? && deleteCalls == old(deleteCalls)
      ensures old(employeeToDelete).Some? ==>
        call == Some(old(employeeToDelete).value.id) && deletingId == call
        && !ModalOpen() && DeleteDisabled(old(employeeToDelete).value)
        && deleteCalls == old(deleteCalls) + [call.value]
    {
      if employeeToDelete.None? {
        return None;
      }
      var target := employeeToDelete.value;
      deletingId := Some(target.id);
      CloseDeleteModal();
      call := Some(target.id);
      deleteCalls := deleteCalls + [target.id];
    }

    /** The delete settled: `onEmployeeDeleted` runs only on success, and
      no delete button stays disabled. */
    method DeleteSettled(succeeded: bool)
      modifies this`deletingId, this`notifications
      ensures deletingId.None? && forall e :: !DeleteDisabled(e)
      ensures notifications == old(notifications) + (if succeeded && hasCallback then 1 else 0)
    {
      if succeeded && hasCallback {
        notifications := notifications + 1;
      }
      deletingId := None;
    }

    /** The employees the list shows for the current search. */
    function Shown(employees: seq<EmployeeResponse>): (shown: seq<EmployeeResponse>)
      reads this
      ensures IsSubseq(shown, employees)
      ensures searchTerm == "" ==> shown == employees
    {
      SearchExact(employees, searchTerm);
      EmptySearchKeepsAll(employees);
      FilteredEmployees(employees, searchTerm)
    }
  }
}
