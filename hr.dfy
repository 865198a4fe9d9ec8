/** The host's employee directory (departments, their managers, employees and
    the users they log in as). The models only read it, so it is a value
    passed to the operations that consult it. */
module Hr {
  import opened Host

  type UserId = nat
  type EmployeeId = nat
  type DepartmentId = nat

  datatype Directory = Directory(
    managerOf: map<DepartmentId, EmployeeId>,     // department -> its manager, if any
    userOf: map<EmployeeId, UserId>,              // employee -> the user they log in as, if any
    employeeOf: map<UserId, EmployeeId>,          // user -> their employee record, if any
    departmentOf: map<EmployeeId, DepartmentId>)  // employee -> their department, if any

  /** `department.manager_id`; an unset department has no manager either. */
  function Manager(dir: Directory, dept: Option<DepartmentId>): Option<EmployeeId> {
    if dept.Some? && dept.value in dir.managerOf then Some(dir.managerOf[dept.value]) else None
  }

  /** `employee.user_id`; an unset employee has no user. */
  function UserOf(dir: Directory, e: Option<EmployeeId>): Option<UserId> {
    if e.Some? && e.value in dir.userOf then Some(dir.userOf[e.value]) else None
  }

  /** `department.manager_id.user_id`: the user who heads a department. */
  function ManagerUser(dir: Directory, dept: Option<DepartmentId>): Option<UserId> {
    UserOf(dir, Manager(dir, dept))
  }

  /** `user.employee_id.department_id`: the department of a user's employee record. */
  function EmployeeDepartment(dir: Directory, u: UserId): Option<DepartmentId> {
    if u in dir.employeeOf && dir.employeeOf[u] in dir.departmentOf
    then Some(dir.departmentOf[dir.employeeOf[u]])
    else None
  }

  /** Whether `user` heads the department of the order's creator: false when
      the creator has no department or that department has no manager. */
  predicate IsHod(dir: Directory, creator: UserId, user: UserId) {
    ManagerUser(dir, EmployeeDepartment(dir, creator)) == Some(user)
  }
}
