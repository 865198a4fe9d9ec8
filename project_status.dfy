/** The project extension of the `av_project` module: a budget amount, a
    department with its head, and a status (draft, in progress, stopped) that
    follows the name of the project's stage and is driven by the start, stop
    and set-to-draft actions. */
module ProjectStatus {
  import opened Host
  import opened Hr

  datatype ProjectState = Draft | InProgress | Stopped

  const TO_DO := "To Do"
  const IN_PROGRESS := "In Progress"
  const DONE := "Done"
  const CANCELED := "Canceled"

  const NO_MANAGER := "The department must have a manager to assign the Head of Department."
  const ALREADY_IN_PROGRESS := "The project is already in progress."
  const NO_START_DATE := "Start date cannot be empty when the project is in progress."
  const ALREADY_STOPPED := "The project is already stopped."
  const NOT_STARTED := "You cannot stop a project that has not been started."
  const ALREADY_DRAFT := "The project is already in daft."

  /** The status a stage name stands for; every name has one. */
  function StatusOf(stageName: string): (s: ProjectState)
    ensures s == InProgress <==> stageName == IN_PROGRESS
    ensures s == Stopped <==> stageName == DONE
    ensures s == Draft <==> stageName != IN_PROGRESS && stageName != DONE
  {
    if stageName == TO_DO then Draft
    else if stageName == IN_PROGRESS then InProgress
    else if stageName == DONE then Stopped
    else Draft
  }

  /** The values of a project record. */
  datatype ProjectRec = ProjectRec(
    amount: int,
    departmentId: Option<DepartmentId>,
    hodId: Option<EmployeeId>,
    stageName: string,
    state: ProjectState,
    dateStart: Option<nat>)

  class Project {
    var amount: int                      // remaining budget, may go negative
    var departmentId: Option<DepartmentId>
    var hodId: Option<EmployeeId>        // derived: the department's manager
    var stageName: string                // the name of the project's stage
    var state: ProjectState
    var dateStart: Option<nat>           // start date, as a day number

    function Rec(): ProjectRec
      reads this
    {
      ProjectRec(amount, departmentId, hodId, stageName, state, dateStart)
    }
  }

  function Recs(ps: seq<Project>): (rs: seq<ProjectRec>)
    reads set p | p in ps
    ensures |rs| == |ps| && forall i :: 0 <= i < |ps| ==> rs[i] == ps[i].Rec()
  {
    seq(|ps|, i requires 0 <= i < |ps| reads ps => ps[i].Rec())
  }

  /** `_compute_status`: every project's state is the status of its stage name. */
  method ComputeStatus(ps: seq<Project>)
    modifies ps`state
    ensures forall p <- ps :: p.state == StatusOf(p.stageName)
    ensures forall p <- ps :: p.Rec() == old(p.Rec()).(state := p.state)
  {
    var i := 0;
    while i < |ps|
      invariant 0 <= i <= |ps|
      invariant forall p <- ps[..i] :: p.state == StatusOf(p.stageName)
      invariant forall p <- ps :: p.Rec() == old(p.Rec()).(state := p.state)
    {
      ps[i].state := StatusOf(ps[i].stageName);
      i := i + 1;
    }
  }

  /** `_compute_hod`: the head of department is the department's manager, or
      unset when the department (or its manager) is missing. */
  method ComputeHod(dir: Directory, ps: seq<Project>)
    modifies ps`hodId
    ensures forall p <- ps :: p.hodId == Manager(dir, p.departmentId)
    ensures forall p <- ps :: p.Rec() == old(p.Rec()).(hodId := p.hodId)
  {
    var i := 0;
    while i < |ps|
      invariant 0 <= i <= |ps|
      invariant forall p <- ps[..i] :: p.hodId == Manager(dir, p.departmentId)
      invariant forall p <- ps :: p.Rec() == old(p.Rec()).(hodId := p.hodId)
    {
      var p := ps[i];
      if Manager(dir, p.departmentId).Some? {
        p.hodId := Manager(dir, p.departmentId);
      } else {
        p.hodId := None;
      }
      i := i + 1;
    }
  }

  /** `_check_department_manager`: a project is accepted only when its
      department has a manager, which also rejects a project without a
      department. Once `ComputeHod` has run, that is: only when its head of
      department is set. */
  method CheckDepartmentManager(dir: Directory, ps: seq<Project>) returns (r: Outcome)
    ensures r == Ok || r == ValidationError(NO_MANAGER)
    ensures r == Ok <==> forall p <- ps :: Manager(dir, p.departmentId).Some?
  {
    var i := 0;
    while i < |ps|
      invariant 0 <= i <= |ps|
      invariant forall p <- ps[..i] :: Manager(dir, p.departmentId).Some?
    {
      if Manager(dir, ps[i].departmentId).None? {
        return ValidationError(NO_MANAGER);
      }
      i := i + 1;
    }
    return Ok;
  }

  /** The three buttons that move a project between statuses. */
  datatype Action = Start | Stop | SetToDraft

  /** One project's part of an action: its guards, in the order the source
      checks them, then the new stage name and state. */
  function Step(a: Action, p: ProjectRec): (r: Result<ProjectRec>)
    ensures r.Success? ==> r.value.state == StatusOf(r.value.stageName)
    ensures r.Success? ==> r.value == p.(stageName := r.value.stageName, state := r.value.state)
  {
    match a
    case Start =>
      if p.stageName == IN_PROGRESS then Failure(ALREADY_IN_PROGRESS)
      else if p.dateStart.None? then Failure(NO_START_DATE)
      else Success(p.(stageName := IN_PROGRESS, state := InProgress))
    case Stop =>
      if p.stageName == DONE then Failure(ALREADY_STOPPED)
      else if p.stageName == TO_DO then Failure(NOT_STARTED)
      else Success(p.(stageName := DONE, state := Stopped))
    case SetToDraft =>
      if p.state == Draft then Failure(ALREADY_DRAFT)
      else if p.dateStart.None? then Failure(NO_START_DATE)
      else Success(p.(stageName := CANCELED, state := Draft))
  }

  /** An action over a recordset: it succeeds when every project's step does,
      and otherwise raises the first failing project's error. */
  function StepAll(a: Action, ps: seq<ProjectRec>): (r: Result<seq<ProjectRec>>)
    ensures r.Success? <==> forall i :: 0 <= i < |ps| ==> Step(a, ps[i]).Success?
    ensures r.Success? ==>
      |r.value| == |ps| && forall i :: 0 <= i < |ps| ==> r.value[i] == Step(a, ps[i]).value
  {
    if ps == [] then Success([])
    else
      match Step(a, ps[0])
      case Failure(m) => Failure(m)
      case Success(q) =>
        match StepAll(a, ps[1..])
        case Failure(m) => Failure(m)
        case Success(qs) => Success([q] + qs)
  }

  /** The error an action raises is that of the first project whose guard fails. */
  lemma {:induction false} StepAllFirstFailure(a: Action, ps: seq<ProjectRec>, k: nat)
    requires k < |ps| && Step(a, ps[k]).Failure?
    requires forall i :: 0 <= i < k ==> Step(a, ps[i]).Success?
    ensures StepAll(a, ps) == Failure(Step(a, ps[k]).message)
  {
    if k > 0 {
      assert Step(a, ps[0]).Success?;
      StepAllFirstFailure(a, ps[1..], k - 1);
    }
  }

  /** Runs an action over distinct projects. Every guard is checked before any
      write; since a raising action rolls back the whole call, this has the
      effect of the source's check-then-write loop. */
  method Run(a: Action, ps: seq<Project>) returns (r: Outcome)
    requires Distinct(ps)
    modifies ps`stageName, ps`state
    ensures var s := StepAll(a, old(Recs(ps)));
            r == s.ToOutcome() && Recs(ps) == if s.Success? then s.value else old(Recs(ps))
  {
    ghost var before := Recs(ps);
    var i := 0;
    while i < |ps|
      invariant 0 <= i <= |ps|
      invariant Recs(ps) == before
      invariant forall k :: 0 <= k < i ==> Step(a, before[k]).Success?
    {
      var s := Step(a, ps[i].Rec());
      if s.Failure? {
        StepAllFirstFailure(a, before, i);
        return ValidationError(s.message);
      }
      i := i + 1;
    }
    i := 0;
    while i < |ps|
      invariant 0 <= i <= |ps|
      invariant forall k :: 0 <= k < |ps| ==>
        ps[k].Rec() == if k < i then Step(a, before[k]).value else before[k]
    {
      var q := Step(a, ps[i].Rec()).value;
      ps[i].stageName := q.stageName;
      ps[i].state := q.state;
      i := i + 1;
    }
    r := Ok;
  }

  /** `action_start_project`: raises when the stage is already "In Progress",
      then when there is no start date; otherwise moves to "In Progress". */
  method ActionStartProject(ps: seq<Project>) returns (r: Outcome)
    requires Distinct(ps)
    modifies ps`stageName, ps`state
    ensures var s := StepAll(Start, old(Recs(ps)));
            r == s.ToOutcome() && Recs(ps) == if s.Success? then s.value else old(Recs(ps))
  {
    r := Run(Start, ps);
  }

  /** `action_stop_project`: raises when the stage is "Done" or "To Do";
      otherwise moves to "Done". */
  method ActionStopProject(ps: seq<Project>) returns (r: Outcome)
    requires Distinct(ps)
    modifies ps`stageName, ps`state
    ensures var s := StepAll(Stop, old(Recs(ps)));
            r == s.ToOutcome() && Recs(ps) == if s.Success? then s.value else old(Recs(ps))
  {
    r := Run(Stop, ps);
  }

  /** `action_set_todraft`: raises when the state is already draft, then when
      there is no start date; otherwise renames the stage "Canceled". */
  method ActionSetToDraft(ps: seq<Project>) returns (r: Outcome)
    requires Distinct(ps)
    modifies ps`stageName, ps`state
    ensures var s := StepAll(SetToDraft, old(Recs(ps)));
            r == s.ToOutcome() && Recs(ps) == if s.Success? then s.value else old(Recs(ps))
  {
    r := Run(SetToDraft, ps);
  }

  /** Starting: which projects may start, the error that wins when both
      guards fail, and where a start leads. */
  lemma StartGuards(p: ProjectRec)
    ensures Step(Start, p).Success? <==> p.stageName != IN_PROGRESS && p.dateStart.Some?
    ensures p.stageName == IN_PROGRESS ==> Step(Start, p) == Failure(ALREADY_IN_PROGRESS)
    ensures Step(Start, p).Success? ==>
      Step(Start, p).value.stageName == IN_PROGRESS && Step(Start, p).value.state == InProgress
  {
  }

  /** Stopping looks at the stage name only, not at the state. */
  lemma StopGuards(p: ProjectRec)
    ensures Step(Stop, p).Success? <==> p.stageName != DONE && p.stageName != TO_DO
    ensures Step(Stop, p).Success? ==>
      Step(Stop, p).value.stageName == DONE && Step(Stop, p).value.state == Stopped
  {
  }

  /** Reverting looks at the state, then at the start date. */
  lemma SetToDraftGuards(p: ProjectRec)
    ensures Step(SetToDraft, p).Success? <==> p.state != Draft && p.dateStart.Some?
    ensures p.state == Draft ==> Step(SetToDraft, p) == Failure(ALREADY_DRAFT)
    ensures Step(SetToDraft, p).Success? ==>
      Step(SetToDraft, p).value.stageName == CANCELED && Step(SetToDraft, p).value.state == Draft
  {
  }

  /** A reverted project is in draft, yet it can be stopped: its stage is
      named "Canceled", which the stop guard does not refuse. */
  lemma StopAfterSetToDraft(p: ProjectRec)
    requires Step(SetToDraft, p).Success?
    ensures Step(SetToDraft, p).value.state == Draft
    ensures Step(Stop, Step(SetToDraft, p).value).Success?
  {
  }

  /** The status machine is cyclic: a started project can be stopped,
      reverted to draft and started again, and a stopped one can be started
      directly. */
  lemma StatusCycle(p: ProjectRec)
    requires p.stageName == TO_DO && p.dateStart.Some?
    ensures Step(Start, p).Success?
    ensures var started := Step(Start, p).value;
            Step(Stop, started).Success? &&
            var stopped := Step(Stop, started).value;
            Step(Start, stopped).Success? &&
            Step(SetToDraft, stopped).Success? &&
            Step(Start, Step(SetToDraft, stopped).value).Success?
  {
  }
}
