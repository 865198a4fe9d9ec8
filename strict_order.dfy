/** The stricter purchase order rules of `av_purchase`: positive amounts,
    orders that always keep at least one line, a submission that needs a
    positive total, a confirmation that checks the assigned project's funds
    and stage before debiting it, editability flags for the head of
    department, and an authorised cancellation. */
module StrictOrder {
  import opened Host
  import opened Hr
  import opened Orders
  import ProjectStatus

  const NOT_POSITIVE := "The amount must be strictly positive. Please enter a valid amount."
  const NO_PRODUCT_TO_CONFIRM := "You must add at least one product to the order before submitting."
  const NO_FUNDS := "The assigned project does not have enough funds to cover this purchase order amount. Please adjust the budget or choose another project."
  const NOT_STARTED := "Please start or resume this project first."
  const NO_QUANTITIES := "You must add products and some quantities to the order before submitting."

  /** `_check_positive_amount`: every order's amount is strictly positive. */
  function CheckPositiveAmount(orders: seq<PurchaseOrder>): (r: Outcome)
    reads set o | o in orders
    ensures r == Ok || r == ValidationError(NOT_POSITIVE)
    ensures r == Ok <==> forall o <- orders :: o.amount > 0
  {
    if orders == [] then Ok
    else if orders[0].amount <= 0 then ValidationError(NOT_POSITIVE)
    else CheckPositiveAmount(orders[1..])
  }

  /** The lines of each order of a recordset. */
  function LinesOf(orders: seq<PurchaseOrder>): (ls: seq<seq<int>>)
    reads set o | o in orders
    ensures |ls| == |orders| && forall i :: 0 <= i < |orders| ==> ls[i] == orders[i].lines
  {
    seq(|orders|, i requires 0 <= i < |orders| reads orders => orders[i].lines)
  }

  /** `write`, for a write of the state: it raises before changing anything
      when an order has no lines, and otherwise sets every order's state. */
  method Write(orders: seq<PurchaseOrder>, state: OrderState) returns (r: Outcome)
    modifies orders`state
    ensures r == old(LinesGuard(LinesOf(orders)))
    ensures forall o <- orders :: o.state == if r == Ok then state else old(o.state)
  {
    r := LinesGuard(LinesOf(orders));
    if r == Ok {
      var i := 0;
      while i < |orders|
        invariant 0 <= i <= |orders|
        invariant forall o <- orders :: o.state == if o in orders[..i] then state else old(o.state)
      {
        orders[i].state := state;
        i := i + 1;
      }
    }
  }

  /** The checks of `action_submit` over the orders still to visit (`rest`)
      of a recordset whose orders have the lines `all`: each order must have
      lines and a positive total, and the write of the state that follows
      each order's check runs the write guard over the whole recordset. */
  function SubmitCheck(all: seq<seq<int>>, rest: seq<seq<int>>): Outcome {
    if rest == [] then Ok
    else if rest[0] == [] || Total(rest[0]) <= 0 then ValidationError(NO_QUANTITIES)
    else if LinesGuard(all) != Ok then LinesGuard(all)
    else SubmitCheck(all, rest[1..])
  }

  /** `action_submit`: on success every order of the recordset is `Sent`,
      whatever state it was in. After the loop, the source tests whether
      the last order visited is a draft and then creates the review to-do
      for it; since that test follows the write of `Sent`, it never passes
      and no to-do is ever created. On an error nothing changes. An empty recordset is refused,
      since the source then reads a loop variable that was never bound. */
  method ActionSubmit(orders: seq<PurchaseOrder>) returns (r: Outcome)
    requires |orders| > 0
    modifies orders`state, orders`activities
    ensures r == old(SubmitCheck(LinesOf(orders), LinesOf(orders)))
    ensures forall o <- orders :: o.state == if r == Ok then Sent else old(o.state)
    ensures forall o <- orders :: o.activities == old(o.activities)
  {
    ghost var lineSets := LinesOf(orders);
    var i := 0;
    while i < |orders|
      invariant 0 <= i <= |orders|
      invariant SubmitCheck(lineSets, lineSets) == SubmitCheck(lineSets, lineSets[i..])
      invariant i > 0 ==> LinesGuard(lineSets) == Ok
    {
      var o := orders[i];
      if o.lines == [] || Total(o.lines) <= 0 {
        return ValidationError(NO_QUANTITIES);
      }
      var guard := LinesGuard(LinesOf(orders));
      if guard != Ok {
        return guard;
      }
      assert lineSets[i..][1..] == lineSets[i + 1..];
      i := i + 1;
    }
    r := Write(orders, Sent);
    if r != Ok {
      return;
    }
    if orders[|orders| - 1].state == Draft {
      // Here the source creates the review to-do for the department manager
      // of the creator; the write of `Sent` above makes this unreachable.
      assert false;
    }
  }

  lemma {:induction false} SubmitCheckAccepts(all: seq<seq<int>>, rest: seq<seq<int>>)
    ensures SubmitCheck(all, rest) == Ok <==>
      (rest == [] || LinesGuard(all) == Ok) && forall i :: 0 <= i < |rest| ==> Total(rest[i]) > 0
  {
    if rest != [] && Total(rest[0]) > 0 && LinesGuard(all) == Ok {
      SubmitCheckAccepts(all, rest[1..]);
      assert forall i :: 1 <= i < |rest| ==> rest[i] == rest[1..][i - 1];
    }
  }

  /** Submitting succeeds exactly when every order's lines add up to a
      positive total (which implies that it has lines). */
  lemma SubmitAcceptsPositiveTotals(lineSets: seq<seq<int>>)
    ensures SubmitCheck(lineSets, lineSets) == Ok <==>
      forall i :: 0 <= i < |lineSets| ==> Total(lineSets[i]) > 0
  {
    SubmitCheckAccepts(lineSets, lineSets);
  }

  /** Which error a refused submission raises: the submission's own when the
      first order fails its check, and otherwise the write guard's when some
      other order has no lines. */
  lemma SubmitErrors(lineSets: seq<seq<int>>)
    requires |lineSets| > 0
    ensures Total(lineSets[0]) <= 0 ==> SubmitCheck(lineSets, lineSets) == ValidationError(NO_QUANTITIES)
    ensures Total(lineSets[0]) > 0 && (exists i :: 0 <= i < |lineSets| && lineSets[i] == []) ==>
      SubmitCheck(lineSets, lineSets) == ValidationError(NO_PRODUCTS)
  {
  }

  /** What `button_confirm` does to the project amounts `balance` as it
      visits the orders `rs` in turn: an order without lines raises; an
      order without a project is skipped; otherwise its project must hold at
      least the order's total, then be in the "In Progress" stage, and is
      debited by that total before the next order is visited. */
  function Debit(rs: seq<OrderRec>, balance: map<ProjectStatus.Project, int>,
                 stages: map<ProjectStatus.Project, string>): (r: Result<map<ProjectStatus.Project, int>>)
    requires forall o <- rs :: o.project != null ==> o.project in balance && o.project in stages
    ensures r.Success? ==> r.value.Keys == balance.Keys
  {
    if rs == [] then Success(balance)
    else
      var o := rs[0];
      if o.lines == [] then Failure(NO_PRODUCT_TO_CONFIRM)
      else if o.project == null then Debit(rs[1..], balance, stages)
      else
        var total := Total(o.lines);
        if balance[o.project] < total then Failure(NO_FUNDS)
        else if stages[o.project] != ProjectStatus.IN_PROGRESS then Failure(NOT_STARTED)
        else Debit(rs[1..], balance[o.project := balance[o.project] - total], stages)
  }

  /** What the orders `rs` draw from project `q` when all are confirmed:
      the totals of those assigned to it. */
  function Drawn(rs: seq<OrderRec>, q: ProjectStatus.Project): int {
    if rs == [] then 0
    else (if rs[0].project == q then Total(rs[0].lines) else 0) + Drawn(rs[1..], q)
  }

  /** A successful confirmation debits each project by exactly the totals of
      the orders assigned to it; a project no order is assigned to keeps its
      amount. */
  lemma {:induction false} DebitExact(rs: seq<OrderRec>, balance: map<ProjectStatus.Project, int>,
                                      stages: map<ProjectStatus.Project, string>)
    requires forall o <- rs :: o.project != null ==> o.project in balance && o.project in stages
    requires Debit(rs, balance, stages).Success?
    ensures forall q <- balance.Keys :: Debit(rs, balance, stages).value[q] == balance[q] - Drawn(rs, q)
  {
    if rs != [] {
      var o := rs[0];
      if o.project == null {
        DebitExact(rs[1..], balance, stages);
      } else {
        DebitExact(rs[1..], balance[o.project := balance[o.project] - Total(o.lines)], stages);
      }
    }
  }

  /** Unlike the head-of-department workflow, a successful confirmation
      never overdraws a project: each project it debits ends with an amount
      of zero or more. */
  lemma {:induction false} DebitNeverOverdraws(rs: seq<OrderRec>, balance: map<ProjectStatus.Project, int>,
                                               stages: map<ProjectStatus.Project, string>)
    requires forall o <- rs :: o.project != null ==> o.project in balance && o.project in stages
    requires Debit(rs, balance, stages).Success?
    ensures forall q <- balance.Keys ::
      Debit(rs, balance, stages).value[q] == balance[q] || Debit(rs, balance, stages).value[q] >= 0
  {
    if rs != [] {
      var o := rs[0];
      if o.project == null {
        DebitNeverOverdraws(rs[1..], balance, stages);
      } else {
        DebitNeverOverdraws(rs[1..], balance[o.project := balance[o.project] - Total(o.lines)], stages);
      }
    }
  }

  /** One order without lines anywhere in the recordset makes the whole
      confirmation fail. */
  lemma {:induction false} DebitNeedsLines(rs: seq<OrderRec>, balance: map<ProjectStatus.Project, int>,
                                           stages: map<ProjectStatus.Project, string>, k: nat)
    requires forall o <- rs :: o.project != null ==> o.project in balance && o.project in stages
    requires k < |rs| && rs[k].lines == []
    ensures Debit(rs, balance, stages).Failure?
  {
    var o := rs[0];
    if k > 0 && o.lines != [] {
      if o.project == null {
        DebitNeedsLines(rs[1..], balance, stages, k - 1);
      } else if balance[o.project] >= Total(o.lines) && stages[o.project] == ProjectStatus.IN_PROGRESS {
        DebitNeedsLines(rs[1..], balance[o.project := balance[o.project] - Total(o.lines)], stages, k - 1);
      }
    }
  }

  /** A successful confirmation of any number of orders passed every order's
      checks: each has lines, and each project it debited is in the
      "In Progress" stage. */
  lemma {:induction false} DebitOnlyStarted(rs: seq<OrderRec>, balance: map<ProjectStatus.Project, int>,
                                            stages: map<ProjectStatus.Project, string>)
    requires forall o <- rs :: o.project != null ==> o.project in balance && o.project in stages
    requires Debit(rs, balance, stages).Success?
    ensures forall o <- rs :: o.lines != [] && (o.project != null ==> stages[o.project] == ProjectStatus.IN_PROGRESS)
  {
    if rs != [] {
      var o := rs[0];
      assert forall x <- rs :: x == o || x in rs[1..];
      if o.project == null {
        DebitOnlyStarted(rs[1..], balance, stages);
      } else {
        DebitOnlyStarted(rs[1..], balance[o.project := balance[o.project] - Total(o.lines)], stages);
      }
    }
  }

  /** For one order: funds are checked before the stage, and a project that
      holds exactly the order's total can pay for it. */
  lemma FundsBeforeStage(o: OrderRec, balance: map<ProjectStatus.Project, int>,
                         stages: map<ProjectStatus.Project, string>)
    requires o.lines != [] && o.project != null && o.project in balance && o.project in stages
    ensures balance[o.project] < Total(o.lines) ==> Debit([o], balance, stages) == Failure(NO_FUNDS)
    ensures balance[o.project] >= Total(o.lines) && stages[o.project] != ProjectStatus.IN_PROGRESS ==>
      Debit([o], balance, stages) == Failure(NOT_STARTED)
    ensures balance[o.project] == Total(o.lines) && stages[o.project] == ProjectStatus.IN_PROGRESS ==>
      Debit([o], balance, stages) == Success(balance[o.project := 0])
  {
    assert [o][1..] == [];
  }

  /** The loop of `button_confirm`, run over the orders' values and a copy
      of the project amounts: it computes the amounts `Debit` gives, raising
      where it raises. */
  method DebitLoop(rs: seq<OrderRec>, balance0: map<ProjectStatus.Project, int>,
                   stages: map<ProjectStatus.Project, string>) returns (r: Result<map<ProjectStatus.Project, int>>)
    requires forall o <- rs :: o.project != null ==> o.project in balance0 && o.project in stages
    ensures r == Debit(rs, balance0, stages)
  {
    var balance := balance0;
    var i := 0;
    while i < |rs|
      invariant 0 <= i <= |rs|
      invariant balance.Keys == balance0.Keys
      invariant Debit(rs, balance0, stages) == Debit(rs[i..], balance, stages)
    {
      var o := rs[i];
      assert rs[i..][1..] == rs[i + 1..];
      if o.lines == [] {
        return Failure(NO_PRODUCT_TO_CONFIRM);
      }
      if o.project != null {
        var total := Total(o.lines);
        if balance[o.project] < total {
          return Failure(NO_FUNDS);
        }
        if stages[o.project] != ProjectStatus.IN_PROGRESS {
          return Failure(NOT_STARTED);
        }
        balance := balance[o.project := balance[o.project] - total];
      }
      i := i + 1;
    }
    return Success(balance);
  }

  /** Writes the amounts `balance` to the projects `ps`. */
  method Commit(ps: set<ProjectStatus.Project>, balance: map<ProjectStatus.Project, int>)
    requires ps <= balance.Keys
    modifies ps`amount
    ensures forall q <- ps :: q.amount == balance[q]
  {
    var pending := ps;
    while pending != {}
      invariant pending <= ps
      invariant forall q <- ps - pending :: q.amount == balance[q]
      decreases |pending|
    {
      var q :| q in pending;
      q.amount := balance[q];
      pending := pending - {q};
    }
  }

  /** `button_confirm`, past the host's own confirmation: on success every
      assigned project is debited as `Debit` says; on an error no project
      changes. The orders' own state is the host's business. The checks run
      first and the amounts are written after, which has the effect of the
      source's debit-as-you-go loop inside a transaction that an error rolls
      back. */
  method ButtonConfirm(orders: seq<PurchaseOrder>) returns (r: Outcome)
    modifies ProjectsOf(Recs(orders))`amount
    ensures var rs := old(Recs(orders));
            var d := Debit(rs, old(Amounts(ProjectsOf(rs))), old(Stages(ProjectsOf(rs))));
            r == d.ToOutcome() &&
            forall q <- ProjectsOf(rs) :: q.amount == if d.Success? then d.value[q] else old(q.amount)
  {
    var rs := Recs(orders);
    var ps := ProjectsOf(rs);
    var d := DebitLoop(rs, Amounts(ps), Stages(ps));
    if d.Success? {
      Commit(ps, d.value);
    }
    r := d.ToOutcome();
  }

  /** `project_id_readonly`: the project can be changed only by the head of
      the creator's department, in the head-of-department group, while the
      order is `Sent`. */
  function ProjectIdReadonly(isHod: bool, hasHodGroup: bool, state: OrderState): bool {
    !(isHod && state == Sent && hasHodGroup)
  }

  /** `product_readonly`: as `project_id_readonly`, but the products of a
      draft can always be changed. */
  function ProductReadonly(isHod: bool, hasHodGroup: bool, state: OrderState): bool {
    !((isHod && hasHodGroup && state == Sent) || state == Draft)
  }

  lemma ReadonlyFlags(isHod: bool, hasHodGroup: bool, state: OrderState)
    ensures !ProjectIdReadonly(isHod, hasHodGroup, state) <==> isHod && hasHodGroup && state == Sent
    ensures ProductReadonly(isHod, hasHodGroup, state) ==> ProjectIdReadonly(isHod, hasHodGroup, state)
    ensures state == Draft ==> !ProductReadonly(isHod, hasHodGroup, state)
    ensures state != Draft ==>
      ProductReadonly(isHod, hasHodGroup, state) == ProjectIdReadonly(isHod, hasHodGroup, state)
  {
  }

  /** `_compute_project_id_readonly`: sets both flags of every order for the
      acting `user`, who heads the creator's department or not. */
  method ComputeProjectIdReadonly(dir: Directory, user: UserId, hasHodGroup: bool, orders: seq<PurchaseOrder>)
    modifies orders`projectIdReadonly, orders`productReadonly
    ensures forall o <- orders ::
      o.projectIdReadonly == ProjectIdReadonly(IsHod(dir, o.createUid, user), hasHodGroup, o.state) &&
      o.productReadonly == ProductReadonly(IsHod(dir, o.createUid, user), hasHodGroup, o.state)
  {
    var i := 0;
    while i < |orders|
      invariant 0 <= i <= |orders|
      invariant forall o <- orders[..i] ::
        o.projectIdReadonly == ProjectIdReadonly(IsHod(dir, o.createUid, user), hasHodGroup, o.state) &&
        o.productReadonly == ProductReadonly(IsHod(dir, o.createUid, user), hasHodGroup, o.state)
    {
      var o := orders[i];
      var creatorDepartment := EmployeeDepartment(dir, o.createUid);
      var isHod := if creatorDepartment.Some? && Manager(dir, creatorDepartment).Some?
                   then ManagerUser(dir, creatorDepartment) == Some(user)
                   else false;
      o.projectIdReadonly := !(isHod && o.state == Sent && hasHodGroup);
      o.productReadonly := !((isHod && hasHodGroup && o.state == Sent) || o.state == Draft);
      i := i + 1;
    }
  }

  /** How `button_cancel_execute` calls this module's `button_cancel`
      override: as superuser or plainly. */
  datatype CancelPath = SuperuserCancel | PlainCancel

  /** `button_cancel_execute`, on one order: the head of the creator's
      department in the head-of-department group, or anyone while the order
      is a draft, writes the `Cancel` state (through the guarded `write`,
      which refuses an order without lines) and then calls the `button_cancel`
      override as superuser; anyone else calls it plainly with the state
      unwritten. */
  method ButtonCancelExecute(dir: Directory, user: UserId, hasHodGroup: bool, order: PurchaseOrder)
    returns (r: Result<CancelPath>)
    modifies order`state
    ensures var authorized := (IsHod(dir, order.createUid, user) && hasHodGroup) || old(order.state) == Draft;
            (authorized && order.lines != [] ==> r == Success(SuperuserCancel) && order.state == Cancel) &&
            (authorized && order.lines == [] ==> r == Failure(NO_PRODUCTS) && order.state == old(order.state)) &&
            (!authorized ==> r == Success(PlainCancel) && order.state == old(order.state))
  {
    var creatorDepartment := EmployeeDepartment(dir, order.createUid);
    var isHod := if creatorDepartment.Some? && Manager(dir, creatorDepartment).Some?
                 then ManagerUser(dir, creatorDepartment) == Some(user)
                 else false;
    if (isHod && hasHodGroup) || order.state == Draft {
      var written := Write([order], Cancel);
      if written.ValidationError? {
        return Failure(written.message);
      }
      return Success(SuperuserCancel);
    } else {
      return Success(PlainCancel);
    }
  }
}
