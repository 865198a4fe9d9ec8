/** The head-of-department approval workflow of `av_purchase`: a draft order
    is submitted to the head of its department, who approves it (debiting
    the assigned project's budget, with no check of funds) or rejects it
    back to its purchase representative. */
module HodWorkflow {
  import opened Host
  import opened Hr
  import opened Orders
  import ProjectStatus

  const REVIEW_NOTE := "Please review and approve/reject the PO."
  const REJECTED_NOTE := "The PO has been rejected by HOD. Please revise and resubmit."

  /** `_compute_department`: the order's department is that of its creator's
      employee record, and unset when the creator has none. */
  method ComputeDepartment(dir: Directory, orders: seq<PurchaseOrder>)
    modifies orders`departmentId
    ensures forall o <- orders :: o.departmentId == EmployeeDepartment(dir, o.createUid)
    ensures forall o <- orders :: o.Rec() == old(o.Rec()).(departmentId := o.departmentId)
  {
    var i := 0;
    while i < |orders|
      invariant 0 <= i <= |orders|
      invariant forall o <- orders[..i] :: o.departmentId == EmployeeDepartment(dir, o.createUid)
      invariant forall o <- orders :: o.Rec() == old(o.Rec()).(departmentId := o.departmentId)
    {
      var o := orders[i];
      var employee := if o.createUid in dir.employeeOf then Some(dir.employeeOf[o.createUid]) else None;
      if employee.Some? && employee.value in dir.departmentOf {
        o.departmentId := Some(dir.departmentOf[employee.value]);
      } else {
        o.departmentId := None;
      }
      i := i + 1;
    }
  }

  /** `_check_products`: an order without lines is refused only while it
      waits for its head of department; in every other state it is accepted. */
  method CheckProducts(orders: seq<PurchaseOrder>) returns (r: Outcome)
    ensures r == Ok || r == ValidationError(NO_PRODUCTS)
    ensures r == Ok <==> forall o <- orders :: o.state == WaitingForHod ==> o.lines != []
  {
    var i := 0;
    while i < |orders|
      invariant 0 <= i <= |orders|
      invariant forall o <- orders[..i] :: o.state == WaitingForHod ==> o.lines != []
    {
      if orders[i].state == WaitingForHod && orders[i].lines == [] {
        return ValidationError(NO_PRODUCTS);
      }
      i := i + 1;
    }
    return Ok;
  }

  /** One order's part of `action_submit`. A draft is sent to its head of
      department by assigning its state, which is a write of that order, so
      the guard of `write` refuses a draft without lines; a sent order only
      gains followers and needs no lines. */
  function SubmitStep(dir: Directory, o: OrderRec): (r: Result<OrderRec>)
    ensures r.Failure? <==> o.state == Draft && o.lines == []
    ensures r.Failure? ==> r.message == NO_PRODUCTS
    ensures o.state != Draft && o.state != Sent ==> r == Success(o)
    ensures o.state == Sent ==> r.Success? && r.value == o.(followers := o.followers + {o.partnerId})
    ensures r.Success? && o.state == Draft ==>
      r.value == o.(state := WaitingForHod, followers := o.followers + {o.partnerId},
                    activities := o.activities + [Todo(ManagerUser(dir, o.departmentId), REVIEW_NOTE)])
  {
    if o.state != Draft && o.state != Sent then Success(o)
    else
      var followed := if o.partnerId !in o.followers then o.followers + {o.partnerId} else o.followers;
      if o.state == Draft then
        match LinesGuard([o.lines])
        case ValidationError(m) => Failure(m)
        case Ok =>
          Success(o.(state := WaitingForHod, followers := followed,
                     activities := o.activities + [Todo(ManagerUser(dir, o.departmentId), REVIEW_NOTE)]))
      else
        Success(o.(followers := followed))
  }

  /** One order's part of `action_submit`, on the record itself. The write
      guard is tested before the vendor is subscribed rather than after: a
      refused write rolls the subscription back, so the effect is the same. */
  method SubmitOne(dir: Directory, o: PurchaseOrder) returns (r: Outcome)
    modifies o`state, o`followers, o`activities
    ensures r == SubmitStep(dir, old(o.Rec())).ToOutcome()
    ensures o.Rec() == if r == Ok then SubmitStep(dir, old(o.Rec())).value else old(o.Rec())
  {
    r := Ok;
    if o.state == Draft || o.state == Sent {
      if o.state == Draft {
        r := LinesGuard([o.lines]);
        if r != Ok {
          return;
        }
      }
      if o.partnerId !in o.followers {
        o.followers := o.followers + {o.partnerId};
      }
      if o.state == Draft {
        o.state := WaitingForHod;
        var assignee := if Manager(dir, o.departmentId).Some? then ManagerUser(dir, o.departmentId) else None;
        o.activities := o.activities + [Todo(assignee, REVIEW_NOTE)];
      }
    }
  }

  /** The writes of `action_submit`, once every draft's write guard has
      passed. */
  method SubmitAll(dir: Directory, orders: seq<PurchaseOrder>)
    requires Distinct(orders)
    requires forall i :: 0 <= i < |orders| ==> SubmitStep(dir, orders[i].Rec()).Success?
    modifies orders`state, orders`followers, orders`activities
    ensures forall i :: 0 <= i < |orders| ==> orders[i].Rec() == SubmitStep(dir, old(orders[i].Rec())).value
  {
    var i := 0;
    while i < |orders|
      invariant 0 <= i <= |orders|
      invariant forall k :: 0 <= k < |orders| ==>
        orders[k].Rec() == if k < i then SubmitStep(dir, old(orders[k].Rec())).value else old(orders[k].Rec())
    {
      var written := SubmitOne(dir, orders[i]);
      i := i + 1;
    }
  }

  /** `action_submit`: skips orders that are neither draft nor sent; makes
      the vendor a follower of the others; and sends each draft to its head
      of department with one to-do, assigned to the department manager's
      user (to nobody when there is no manager). A draft without lines makes
      the whole call raise, and then nothing changes. */
  method ActionSubmit(dir: Directory, orders: seq<PurchaseOrder>) returns (r: Outcome)
    requires Distinct(orders)
    modifies orders`state, orders`followers, orders`activities
    ensures r == Ok || r == ValidationError(NO_PRODUCTS)
    ensures r == Ok <==> forall i :: 0 <= i < |orders| ==> SubmitStep(dir, old(orders[i].Rec())).Success?
    ensures forall i :: 0 <= i < |orders| ==>
      orders[i].Rec() == if r == Ok then SubmitStep(dir, old(orders[i].Rec())).value else old(orders[i].Rec())
  {
    var i := 0;
    while i < |orders|
      invariant 0 <= i <= |orders|
      invariant forall k :: 0 <= k < i ==> SubmitStep(dir, orders[k].Rec()).Success?
    {
      if SubmitStep(dir, orders[i].Rec()).Failure? {
        return ValidationError(NO_PRODUCTS);
      }
      i := i + 1;
    }
    SubmitAll(dir, orders);
    r := Ok;
  }

  /** One order's part of `action_confirm`: a waiting order is approved by a
      write of its state, which the guard of `write` refuses when it has no
      lines; any other order is left alone. */
  function ConfirmStep(o: OrderRec): (r: Result<OrderRec>)
    ensures r.Failure? <==> o.state == WaitingForHod && o.lines == []
    ensures r.Failure? ==> r.message == NO_PRODUCTS
    ensures r.Success? && o.state == WaitingForHod ==> r.value == o.(state := Approved)
    ensures o.state != WaitingForHod ==> r == Success(o)
  {
    if o.state != WaitingForHod then Success(o)
    else
      match LinesGuard([o.lines])
      case ValidationError(m) => Failure(m)
      case Ok => Success(o.(state := Approved))
  }

  /** What confirming the orders `rs` draws from project `q`: the amounts of
      those of them that wait for their head of department and are assigned
      to `q`. */
  function Claims(rs: seq<OrderRec>, q: ProjectStatus.Project): int {
    if rs == [] then 0
    else Claims(rs[..|rs| - 1], q) + Claim(rs[|rs| - 1], q)
  }

  function Claim(r: OrderRec, q: ProjectStatus.Project): int {
    if r.state == WaitingForHod && r.project == q then r.amount else 0
  }

  lemma ClaimsPrefix(rs: seq<OrderRec>, i: nat, q: ProjectStatus.Project)
    requires i < |rs|
    ensures Claims(rs[..i + 1], q) == Claims(rs[..i], q) + Claim(rs[i], q)
  {
    assert rs[..i + 1][..i] == rs[..i];
  }

  /** The `i`-th order's part of `action_confirm`, on the record itself:
      when its write is accepted, the projects' amounts go from what the
      first `i` orders drew from their `initial` amounts to what the first
      `i + 1` orders drew; when it is refused, nothing changes. */
  method ConfirmOne(o: PurchaseOrder, ghost projects: set<ProjectStatus.Project>,
                    ghost initial: map<ProjectStatus.Project, int>, ghost before: seq<OrderRec>, ghost i: nat)
    returns (r: Outcome)
    requires i < |before| && o.Rec() == before[i]
    requires o.project != null ==> o.project in projects
    requires projects <= initial.Keys
    requires forall q <- projects :: q.amount == initial[q] - Claims(before[..i], q)
    modifies o`state, projects`amount
    ensures r == ConfirmStep(old(o.Rec())).ToOutcome()
    ensures o.Rec() == if r == Ok then ConfirmStep(old(o.Rec())).value else old(o.Rec())
    ensures r == Ok ==> forall q <- projects :: q.amount == initial[q] - Claims(before[..i + 1], q)
    ensures r != Ok ==> forall q <- projects :: q.amount == old(q.amount)
    ensures forall q <- projects :: q.Rec() == old(q.Rec()).(amount := q.amount)
  {
    forall q <- projects ensures Claims(before[..i + 1], q) == Claims(before[..i], q) + Claim(before[i], q) {
      ClaimsPrefix(before, i, q);
    }
    r := Ok;
    if o.state == WaitingForHod {
      r := LinesGuard([o.lines]);
      if r != Ok {
        return;
      }
      o.state := Approved;
      if o.project != null {
        o.project.amount := o.project.amount - o.amount;
      }
    }
  }

  /** The writes of `action_confirm`, once every order's write guard has
      passed: approves every waiting order and debits its amount from its
      assigned project. */
  method ApproveWaiting(orders: seq<PurchaseOrder>)
    requires Distinct(orders)
    requires forall i :: 0 <= i < |orders| ==> ConfirmStep(orders[i].Rec()).Success?
    modifies orders`state, ProjectsOf(Recs(orders))`amount
    ensures forall i :: 0 <= i < |orders| ==> orders[i].Rec() == ConfirmStep(old(orders[i].Rec())).value
    ensures forall q <- ProjectsOf(old(Recs(orders))) :: q.amount == old(q.amount) - Claims(old(Recs(orders)), q)
    ensures forall q <- ProjectsOf(old(Recs(orders))) :: q.Rec() == old(q.Rec()).(amount := q.amount)
  {
    ghost var before := Recs(orders);
    ghost var projects := ProjectsOf(before);
    ghost var initial := Amounts(projects);
    var i := 0;
    while i < |orders|
      invariant 0 <= i <= |orders|
      invariant forall k :: 0 <= k < |orders| ==>
        orders[k].Rec() == if k < i then ConfirmStep(before[k]).value else before[k]
      invariant forall q <- projects :: q.amount == initial[q] - Claims(before[..i], q)
      invariant forall q <- projects :: q.Rec() == old(q.Rec()).(amount := q.amount)
    {
      var written := ConfirmOne(orders[i], projects, initial, before, i);
      i := i + 1;
    }
    assert before[..|orders|] == before;
  }

  /** `action_confirm`: approves every order that waits for its head of
      department and debits its amount from its assigned project, with no
      check that the project can afford it. Other orders, and projects no
      waiting order is assigned to, are left as they were. A waiting order
      without lines makes the whole call raise, and then nothing changes. */
  method ActionConfirm(orders: seq<PurchaseOrder>) returns (r: Outcome)
    requires Distinct(orders)
    modifies orders`state, ProjectsOf(Recs(orders))`amount
    ensures r == Ok || r == ValidationError(NO_PRODUCTS)
    ensures r == Ok <==> forall i :: 0 <= i < |orders| ==> ConfirmStep(old(orders[i].Rec())).Success?
    ensures forall i :: 0 <= i < |orders| ==>
      orders[i].Rec() == if r == Ok then ConfirmStep(old(orders[i].Rec())).value else old(orders[i].Rec())
    ensures r == Ok ==>
      forall q <- ProjectsOf(old(Recs(orders))) :: q.amount == old(q.amount) - Claims(old(Recs(orders)), q)
    ensures r != Ok ==> forall q <- ProjectsOf(old(Recs(orders))) :: q.amount == old(q.amount)
    ensures forall q <- ProjectsOf(old(Recs(orders))) :: q.Rec() == old(q.Rec()).(amount := q.amount)
  {
    var i := 0;
    while i < |orders|
      invariant 0 <= i <= |orders|
      invariant forall k :: 0 <= k < i ==> ConfirmStep(orders[k].Rec()).Success?
    {
      if ConfirmStep(orders[i].Rec()).Failure? {
        return ValidationError(NO_PRODUCTS);
      }
      i := i + 1;
    }
    ApproveWaiting(orders);
    r := Ok;
  }

  /** One order's part of `action_reject`: a waiting order is rejected by a
      write of its state, which the guard of `write` refuses when it has no
      lines, and its purchase representative gets a to-do; any other order
      is left alone. */
  function RejectStep(o: OrderRec): (r: Result<OrderRec>)
    ensures r.Failure? <==> o.state == WaitingForHod && o.lines == []
    ensures r.Failure? ==> r.message == NO_PRODUCTS
    ensures r.Success? && o.state == WaitingForHod ==>
      r.value == o.(state := Rejected, activities := o.activities + [Todo(o.userId, REJECTED_NOTE)])
    ensures o.state != WaitingForHod ==> r == Success(o)
  {
    if o.state != WaitingForHod then Success(o)
    else
      match LinesGuard([o.lines])
      case ValidationError(m) => Failure(m)
      case Ok => Success(o.(state := Rejected, activities := o.activities + [Todo(o.userId, REJECTED_NOTE)]))
  }

  /** The writes of `action_reject`, once every waiting order's write
      guard has passed. */
  method RejectWaiting(orders: seq<PurchaseOrder>)
    requires Distinct(orders)
    requires forall i :: 0 <= i < |orders| ==> RejectStep(orders[i].Rec()).Success?
    modifies orders`state, orders`activities
    ensures forall i :: 0 <= i < |orders| ==> orders[i].Rec() == RejectStep(old(orders[i].Rec())).value
  {
    var i := 0;
    while i < |orders|
      invariant 0 <= i <= |orders|
      invariant forall k :: 0 <= k < |orders| ==>
        orders[k].Rec() == if k < i then RejectStep(old(orders[k].Rec())).value else old(orders[k].Rec())
    {
      var o := orders[i];
      if o.state == WaitingForHod {
        o.state := Rejected;
        o.activities := o.activities + [Todo(o.userId, REJECTED_NOTE)];
      }
      i := i + 1;
    }
  }

  /** `action_reject`: rejects every order that waits for its head of
      department, with a to-do for its purchase representative. It restores
      no project's amount. A waiting order without lines makes the whole
      call raise, and then nothing changes. */
  method ActionReject(orders: seq<PurchaseOrder>) returns (r: Outcome)
    requires Distinct(orders)
    modifies orders`state, orders`activities
    ensures r == Ok || r == ValidationError(NO_PRODUCTS)
    ensures r == Ok <==> forall i :: 0 <= i < |orders| ==> RejectStep(old(orders[i].Rec())).Success?
    ensures forall i :: 0 <= i < |orders| ==>
      orders[i].Rec() == if r == Ok then RejectStep(old(orders[i].Rec())).value else old(orders[i].Rec())
    ensures forall q <- ProjectsOf(old(Recs(orders))) :: q.Rec() == old(q.Rec())
  {
    var i := 0;
    while i < |orders|
      invariant 0 <= i <= |orders|
      invariant forall k :: 0 <= k < i ==> RejectStep(orders[k].Rec()).Success?
    {
      if RejectStep(orders[i].Rec()).Failure? {
        return ValidationError(NO_PRODUCTS);
      }
      i := i + 1;
    }
    RejectWaiting(orders);
    r := Ok;
  }

  /** Only orders that wait for their head of department draw on a project. */
  lemma {:induction false} ClaimsWithoutWaiting(rs: seq<OrderRec>, q: ProjectStatus.Project)
    requires forall r <- rs :: r.state != WaitingForHod
    ensures Claims(rs, q) == 0
  {
    if rs != [] {
      assert forall r <- rs[..|rs| - 1] :: r in rs;
      ClaimsWithoutWaiting(rs[..|rs| - 1], q);
    }
  }

  /** Confirming the orders `cs` that one successful confirmation of `rs`
      left behind is accepted again, changes no order and debits nothing:
      each project is debited once. */
  lemma ConfirmTwiceDrawsNothing(rs: seq<OrderRec>, cs: seq<OrderRec>, q: ProjectStatus.Project)
    requires forall k :: 0 <= k < |rs| ==> ConfirmStep(rs[k]).Success?
    requires |cs| == |rs| && forall k :: 0 <= k < |rs| ==> cs[k] == ConfirmStep(rs[k]).value
    ensures forall k :: 0 <= k < |cs| ==> ConfirmStep(cs[k]) == Success(cs[k])
    ensures Claims(cs, q) == 0
  {
    ClaimsWithoutWaiting(cs, q);
  }

  /** With amounts of zero or more, what the orders `rs` draw from a project
      is zero or more. */
  lemma {:induction false} ClaimsNonNegative(rs: seq<OrderRec>, q: ProjectStatus.Project)
    requires forall r <- rs :: r.amount >= 0
    ensures Claims(rs, q) >= 0
  {
    if rs != [] {
      assert forall r <- rs[..|rs| - 1] :: r in rs;
      ClaimsNonNegative(rs[..|rs| - 1], q);
    }
  }

  /** With amounts of zero or more, what the orders `rs` draw from project
      `q` covers the whole amount of each of them that waits and is assigned
      to `q`, however large. */
  lemma {:induction false} ClaimsCoverEach(rs: seq<OrderRec>, q: ProjectStatus.Project, k: nat)
    requires k < |rs| && rs[k].state == WaitingForHod && rs[k].project == q
    requires forall r <- rs :: r.amount >= 0
    ensures Claims(rs, q) >= rs[k].amount
  {
    var init := rs[..|rs| - 1];
    assert forall r <- init :: r in rs;
    if k == |rs| - 1 {
      ClaimsNonNegative(init, q);
    } else {
      assert init[k] == rs[k];
      ClaimsCoverEach(init, q, k);
    }
  }

  /** Confirmation checks no funds: when one waiting order costs more than
      its project holds (and no amount is negative, as the positive-amount
      constraint demands), the project is left with a negative amount. */
  lemma ConfirmOverdraws(rs: seq<OrderRec>, q: ProjectStatus.Project, k: nat, amount: int)
    requires k < |rs| && rs[k].state == WaitingForHod && rs[k].project == q
    requires forall r <- rs :: r.amount >= 0
    requires amount < rs[k].amount
    ensures amount - Claims(rs, q) < 0
  {
    ClaimsCoverEach(rs, q, k);
  }

  /** The path of a draft order: submitting sends it to the head of
      department exactly when it has lines, and the head then approves it
      or rejects it; rejecting it again changes nothing. */
  lemma SubmitThenDecide(dir: Directory, r: OrderRec)
    requires r.state == Draft
    ensures SubmitStep(dir, r).Success? <==> r.lines != []
    ensures r.lines != [] ==>
      var w := SubmitStep(dir, r).value;
      w.state == WaitingForHod &&
      ConfirmStep(w) == Success(w.(state := Approved)) &&
      RejectStep(w).Success? && RejectStep(w).value.state == Rejected &&
      RejectStep(RejectStep(w).value) == RejectStep(w)
  {
  }

  /** The state changes of the workflow keep the products constraint: an
      order that satisfies it before a successful submit, confirm or reject
      satisfies it after. */
  lemma StepsKeepProductsConstraint(dir: Directory, o: OrderRec)
    requires o.state == WaitingForHod ==> o.lines != []
    ensures SubmitStep(dir, o).Success? ==>
      (SubmitStep(dir, o).value.state == WaitingForHod ==> SubmitStep(dir, o).value.lines != [])
    ensures ConfirmStep(o).Success? ==>
      (ConfirmStep(o).value.state == WaitingForHod ==> ConfirmStep(o).value.lines != [])
    ensures RejectStep(o).Success? ==>
      (RejectStep(o).value.state == WaitingForHod ==> RejectStep(o).value.lines != [])
  {
  }
}
