/** The purchase order record as both `av_purchase` model files extend it:
    its state, its lines, the project it draws on, its department, and the
    followers and to-dos the workflow adds. */
module Orders {
  import opened Host
  import opened Hr
  import ProjectStatus

  /** The closed set of order states; a new order starts in `Draft`. */
  datatype OrderState =
    | Draft          // "RFQ"
    | Sent           // "RFQ Sent"
    | ToApprove      // "To Approve"
    | Purchase       // "Purchase Order"
    | WaitingForHod  // "Waiting for HOD"
    | Approved
    | Rejected
    | Done           // "Locked"
    | Cancel

  type PartnerId = nat

  /** A to-do activity attached to the order: the user it is assigned to
      (none when the assignee is unset) and its note. */
  datatype Todo = Todo(assignee: Option<UserId>, note: string)

  /** The values of a purchase order record. */
  datatype OrderRec = OrderRec(
    state: OrderState,
    lines: seq<int>,
    amount: int,
    project: ProjectStatus.Project?,
    departmentId: Option<DepartmentId>,
    createUid: UserId,
    userId: Option<UserId>,
    partnerId: PartnerId,
    followers: set<PartnerId>,
    activities: seq<Todo>,
    projectIdReadonly: bool,
    productReadonly: bool)

  class PurchaseOrder {
    var state: OrderState
    var lines: seq<int>                    // the subtotal of each order line
    var amount: int
    var project: ProjectStatus.Project?    // the assigned project, if any
    var departmentId: Option<DepartmentId>
    var createUid: UserId                  // the user who created the order
    var userId: Option<UserId>             // the purchase representative
    var partnerId: PartnerId               // the vendor
    var followers: set<PartnerId>          // partners following the order's messages
    var activities: seq<Todo>
    var projectIdReadonly: bool
    var productReadonly: bool

    /** A new order is a draft with no followers and no to-dos yet. Its
        department is that of its creator's employee record: the creator is
        the acting user, so the default and the compute of the department
        agree. */
    constructor (dir: Directory, createUid: UserId, userId: Option<UserId>, partnerId: PartnerId,
                 lines: seq<int>, amount: int, project: ProjectStatus.Project?)
      ensures state == Draft
      ensures this.createUid == createUid && this.userId == userId && this.partnerId == partnerId
      ensures this.lines == lines && this.amount == amount && this.project == project
      ensures departmentId == EmployeeDepartment(dir, createUid)
      ensures followers == {} && activities == []
    {
      state := Draft;
      this.lines := lines;
      this.amount := amount;
      this.project := project;
      departmentId := EmployeeDepartment(dir, createUid);
      this.createUid := createUid;
      this.userId := userId;
      this.partnerId := partnerId;
      followers := {};
      activities := [];
      projectIdReadonly := true;
      productReadonly := false;
    }

    function Rec(): OrderRec
      reads this
    {
      OrderRec(state, lines, amount, project, departmentId, createUid, userId,
               partnerId, followers, activities, projectIdReadonly, productReadonly)
    }
  }

  function Recs(orders: seq<PurchaseOrder>): (rs: seq<OrderRec>)
    reads set o | o in orders
    ensures |rs| == |orders| && forall i :: 0 <= i < |orders| ==> rs[i] == orders[i].Rec()
  {
    seq(|orders|, i requires 0 <= i < |orders| reads orders => orders[i].Rec())
  }

  /** The projects the orders `rs` are assigned to. */
  function ProjectsOf(rs: seq<OrderRec>): set<ProjectStatus.Project> {
    set r | r in rs && r.project != null :: r.project
  }

  /** The amounts of a set of projects. */
  function Amounts(ps: set<ProjectStatus.Project>): (m: map<ProjectStatus.Project, int>)
    reads ps
    ensures m.Keys == ps && forall q <- ps :: m[q] == q.amount
  {
    map q | q in ps :: q.amount
  }

  /** The stage names of a set of projects. */
  function Stages(ps: set<ProjectStatus.Project>): (m: map<ProjectStatus.Project, string>)
    reads ps
    ensures m.Keys == ps && forall q <- ps :: m[q] == q.stageName
  {
    map q | q in ps :: q.stageName
  }

  const NO_PRODUCTS := "You must add products to the order before submitting."

  /** The guard of the order's `write` override: it refuses the whole write
      as soon as one order of the recordset has no lines, whatever the write
      changes. Assigning a stored field of one saved order, as the
      head-of-department workflow does with the state, is a write of that
      one order and runs this guard too. */
  function LinesGuard(lineSets: seq<seq<int>>): (r: Outcome)
    ensures r == Ok || r == ValidationError(NO_PRODUCTS)
    ensures r == Ok <==> forall i :: 0 <= i < |lineSets| ==> lineSets[i] != []
  {
    if lineSets == [] then Ok
    else if lineSets[0] == [] then ValidationError(NO_PRODUCTS)
    else LinesGuard(lineSets[1..])
  }

  /** The sum of the line subtotals. */
  function Total(lines: seq<int>): int {
    if lines == [] then 0 else Total(lines[..|lines| - 1]) + lines[|lines| - 1]
  }
}
