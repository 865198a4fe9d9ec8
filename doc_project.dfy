/** The project extension of the top-level `docproject` module: a budget
    amount, a department with its head, and a creation guard reserved to
    project managers. */
module DocProject {
  import opened Host
  import opened Hr

  const NO_MANAGER := "The department must have a manager to assign the Head of Department."
  const NOT_ALLOWED := "You are not allowed to create a project."

  class Project {
    var amount: int
    var departmentId: Option<DepartmentId>
    var hodId: Option<EmployeeId>     // derived: the department's manager
  }

  /** `_compute_hod`: the head of department is the department's manager, or
      unset when the department (or its manager) is missing. */
  method ComputeHod(dir: Directory, ps: seq<Project>)
    modifies ps`hodId
    ensures forall p <- ps :: p.hodId == Manager(dir, p.departmentId)
    ensures forall p <- ps :: p.amount == old(p.amount) && p.departmentId == old(p.departmentId)
  {
    var i := 0;
    while i < |ps|
      invariant 0 <= i <= |ps|
      invariant forall p <- ps[..i] :: p.hodId == Manager(dir, p.departmentId)
      invariant forall p <- ps :: p.amount == old(p.amount) && p.departmentId == old(p.departmentId)
    {
      var p := ps[i];
      if Manager(dir, p.departmentId).Some? {
        p.hodId := Manager(dir, p.departmentId);
      } else {
        p.hodId := None;
      }
      i := i + 1;
    }
  }

  /** `create`: only a member of the project-manager group may create a
      project; for such a caller the values reach the host's create as given. */
  function Create<V>(isProjectManager: bool, vals: V): (r: Result<V>)
    ensures r.Success? <==> isProjectManager
    ensures r.Success? ==> r.value == vals
    ensures r.Failure? ==> r.message == NOT_ALLOWED
  {
    if !isProjectManager then Failure(NOT_ALLOWED) else Success(vals)
  }

  /** `_check_department_manager`: a project is accepted only when its
      department has a manager, which also rejects a project without a
      department. */
  method CheckDepartmentManager(dir: Directory, ps: seq<Project>) returns (r: Outcome)
    ensures r == Ok || r == ValidationError(NO_MANAGER)
    ensures r == Ok <==> forall p <- ps :: Manager(dir, p.departmentId).Some?
  {
    var i := 0;
    while i < |ps|
      invariant 0 <= i <= |ps|
      invariant forall p <- ps[..i] :: Manager(dir, p.departmentId).Some?
    {
      if Manager(dir, ps[i].departmentId).None? {
        return ValidationError(NO_MANAGER);
      }
      i := i + 1;
    }
    return Ok;
  }
}
