# Project budgets and purchase order approval, modelled in Dafny

This project models the business rules that three ERP add-on modules lay over
the host's Project and Purchase Order records:

* **`av_project`** gives a project a budget `amount`, a department with a
  derived head of department, and a status (`Draft`, `InProgress`, `Stopped`)
  that follows the project's stage name. Three buttons move it: start, stop
  and set to draft. Each guards on the stage name or the state, then renames
  the stage and sets the state. A department without a manager is refused.
* **`docproject`** gives a project the same department rules, and lets only
  project managers create projects.
* **`av_purchase`** extends the purchase order in two files, modelled as two
  variants over one shared record:
  * the head-of-department workflow (`av_purchase_order.py`): submit sends a
    draft to the head of its department, with a to-do for them. Confirm
    approves the order and debits its amount from the assigned project, with
    no check of funds. Reject sends the order back with a to-do for its
    purchase representative. Each of these state changes is a write of that
    order, so the `write` override of the other file refuses it when the
    order has no lines, and the whole call is rolled back.
  * the stricter rules (`purchase_order.py`): amounts must be positive. Every
    write needs at least one order line. Submit needs a positive total and
    writes `Sent`. Confirm checks the project's funds and stage, then debits
    the sum of the line subtotals. It also derives two editability flags and
    guards cancellation.

Modules: `Host` (options, outcomes, recordsets), `Hr` (the employee
directory), `ProjectStatus`, `DocProject`, `Orders` (the shared purchase
order record), `HodWorkflow` and `StrictOrder`.

How the model reads the host:

* A recordset is a `seq` of objects. The actions that write per record require
  the records to be distinct, which is what a recordset holds.
* A `ValidationError` aborts the whole call and the host rolls back what it
  wrote. The model therefore returns an `Outcome`/`Result` and leaves every
  record unchanged on an error. Where the source checks and writes in one
  loop, the model runs all checks first and writes afterwards. The two have
  the same effect, because a later error would undo the earlier writes.
* The acting user, the user's group memberships and the employee directory
  (`Hr.Directory`) are parameters.
* Both `av_purchase` files extend the one purchase order record, so the
  `write` override in `purchase_order.py` guards every write of an order,
  including the state assignments of the head-of-department workflow. The
  guard, `Orders.LinesGuard`, is shared by both variants.
* The to-dos created on an order are a log `activities` of (assignee, note)
  on the order. The partners following an order's messages are a set
  `followers`.
* Amounts and line subtotals are integers.

Where the source's error messages, docstrings and comments suggest one rule
and its code does another, the model follows the code:

* Stop refuses the stage names "Done" and "To Do", not the states. A project
  reverted to draft has the stage name "Canceled", so it can still be
  stopped (`ProjectStatus.StopAfterSetToDraft`). A stopped project can be
  started again directly (`ProjectStatus.StatusCycle`).
* The products constraint of the head-of-department workflow runs only when
  the lines change. It is still never broken by the workflow's own state
  changes, because the write guard refuses them for an order without lines
  (`HodWorkflow.StepsKeepProductsConstraint`).
* The stricter submit never creates the review to-do. It tests for a draft
  only after it has written `Sent`. It also writes `Sent` whatever state the
  order was in.
* The stricter `create` override checks nothing: it loops over the empty
  recordset it is called on, not over the values. It is left out.

## Model

| member | source | states |
|---|---|---|
| `ProjectStatus.StatusOf` | av_project/models/project.py:29-39 | every stage name has a status: "In Progress" exactly maps to in progress, "Done" exactly to stopped, every other name (including "To Do" and "Canceled") to draft |
| `ProjectStatus.ComputeStatus` | av_project/models/project.py:29-39 | every project's state becomes the status of its stage name; nothing else changes |
| `ProjectStatus.ComputeHod` | av_project/models/project.py:41-47 | every project's head of department becomes its department's manager, unset when there is none; nothing else changes |
| `ProjectStatus.CheckDepartmentManager` | av_project/models/project.py:57-63 | the constraint passes exactly when every project's department has a manager, so a project without a department is refused; otherwise it raises the manager error |
| `ProjectStatus.Step` | av_project/models/project.py:65-109 | after any successful start, stop or revert, the state is the status of the new stage name, and only the stage name and the state change |
| `ProjectStatus.StepAll` | av_project/models/project.py:70-79 | an action over a recordset succeeds exactly when every project's guards pass, and then gives each project its own step's result |
| `ProjectStatus.StepAllFirstFailure` | av_project/models/project.py:70-76 | a refused action raises the error of the first project whose guard fails |
| `ProjectStatus.Run` | av_project/models/project.py:65-109 | an action either moves every project as its step says or raises and leaves every project unchanged |
| `ProjectStatus.ActionStartProject` | av_project/models/project.py:65-79 | start moves all projects to "In Progress" or raises with every project unchanged |
| `ProjectStatus.ActionStopProject` | av_project/models/project.py:81-93 | stop moves all projects to "Done" or raises with every project unchanged |
| `ProjectStatus.ActionSetToDraft` | av_project/models/project.py:95-109 | set-to-draft moves all projects to "Canceled" and draft, or raises with every project unchanged |
| `ProjectStatus.StartGuards` | av_project/models/project.py:71-79 | start succeeds exactly when the stage is not "In Progress" and there is a start date; the stage error wins over the date error; it leads to "In Progress" |
| `ProjectStatus.StopGuards` | av_project/models/project.py:86-93 | stop succeeds exactly when the stage is neither "Done" nor "To Do", and leads to "Done" and stopped |
| `ProjectStatus.SetToDraftGuards` | av_project/models/project.py:101-109 | revert succeeds exactly when the state is not draft and there is a start date; the state error wins; it leads to "Canceled" and draft |
| `ProjectStatus.StopAfterSetToDraft` | av_project/models/project.py:86-109 | a reverted project is in draft and can still be stopped, since its stage is named "Canceled" |
| `ProjectStatus.StatusCycle` | av_project/models/project.py:65-109 | from "To Do" with a start date: start, stop, revert and start again all succeed, and a stopped project can be started directly |
| `DocProject.ComputeHod` | models/docproject_project.py:13-19 | every project's head of department becomes its department's manager, unset when there is none |
| `DocProject.Create` | models/docproject_project.py:21-25 | creation succeeds exactly for a project manager, and then passes the values on unchanged; anyone else gets the not-allowed error |
| `DocProject.CheckDepartmentManager` | models/docproject_project.py:27-31 | the constraint passes exactly when every project's department has a manager, so a project without a department is refused |
| `Orders.PurchaseOrder.constructor` | av_purchase/models/av_purchase_order.py:10-47 | a new order is a draft whose department is its creator's employee's department (unset when there is none), with no followers and no to-dos |
| `HodWorkflow.ComputeDepartment` | av_purchase/models/av_purchase_order.py:40-47 | every order's department becomes its creator's employee's department, unset when the creator has no employee; nothing else changes |
| `HodWorkflow.CheckProducts` | av_purchase/models/av_purchase_order.py:49-55 | the constraint refuses an order without lines only in `WaitingForHod`; in every other state empty lines pass |
| `HodWorkflow.SubmitStep` | av_purchase/models/av_purchase_order.py:57-87 | fails with the write guard's error exactly for a draft without lines; orders neither draft nor sent are untouched; a sent order only gains the vendor as follower; a draft with lines also moves to `WaitingForHod` with exactly one new to-do for its department manager's user, or for nobody |
| `HodWorkflow.SubmitOne` | av_purchase/models/av_purchase_order.py:58-87 | submitting one order raises exactly when `SubmitStep` fails, leaving the order unchanged, and otherwise changes it as `SubmitStep` says |
| `HodWorkflow.ActionSubmit` | av_purchase/models/av_purchase_order.py:57-87 | raises the write guard's error exactly when some draft of the recordset has no lines, and then changes nothing; otherwise every order changes as `SubmitStep` says |
| `HodWorkflow.ConfirmStep` | av_purchase/models/av_purchase_order.py:89-92 | fails with the write guard's error exactly for a waiting order without lines; a waiting order with lines becomes approved; any other order is a no-op |
| `HodWorkflow.ConfirmOne` | av_purchase/models/av_purchase_order.py:90-95 | confirming one order raises exactly when `ConfirmStep` fails, changing nothing; otherwise it approves a waiting order and lowers its project's amount by the order's amount |
| `HodWorkflow.ActionConfirm` | av_purchase/models/av_purchase_order.py:89-95 | raises exactly when some waiting order has no lines, and then no order or project changes; otherwise every waiting order is approved and each project's amount drops by exactly the amounts of the waiting orders assigned to it, with no funds check; other fields are untouched |
| `HodWorkflow.RejectStep` | av_purchase/models/av_purchase_order.py:97-114 | fails with the write guard's error exactly for a waiting order without lines; a waiting order with lines becomes rejected with one new to-do for its purchase representative; any other order is a no-op |
| `HodWorkflow.ActionReject` | av_purchase/models/av_purchase_order.py:97-114 | raises exactly when some waiting order has no lines, and then changes nothing; otherwise every order changes as `RejectStep` says; no project amount is ever restored |
| `HodWorkflow.ClaimsWithoutWaiting` | av_purchase/models/av_purchase_order.py:91-95 | orders none of which wait for their head of department draw nothing from any project |
| `HodWorkflow.ConfirmTwiceDrawsNothing` | av_purchase/models/av_purchase_order.py:89-95 | after a successful confirmation, confirming the same orders again is accepted, changes no order and debits nothing more |
| `HodWorkflow.ClaimsCoverEach` | av_purchase/models/av_purchase_order.py:91-95 | with amounts of zero or more, a confirmation draws from a project at least the whole amount of each waiting order assigned to it, however large |
| `HodWorkflow.ConfirmOverdraws` | av_purchase/models/av_purchase_order.py:89-95 | with amounts of zero or more, a waiting order that costs more than its project holds leaves the project with a negative amount after confirmation |
| `HodWorkflow.SubmitThenDecide` | av_purchase/models/av_purchase_order.py:57-114 | a draft can be submitted exactly when it has lines; it then waits for its head of department and is approved by confirm or rejected by reject; rejecting twice changes nothing more |
| `HodWorkflow.StepsKeepProductsConstraint` | av_purchase/models/av_purchase_order.py:49-114 | an order that satisfies the products constraint (no lines only outside `WaitingForHod`) still satisfies it after any successful submit, confirm or reject |
| `StrictOrder.CheckPositiveAmount` | av_purchase/models/purchase_order.py:49-58 | the constraint passes exactly when every order's amount is strictly positive |
| `Orders.LinesGuard` | av_purchase/models/purchase_order.py:156-160 | the write guard passes exactly when every order of the recordset has lines, and otherwise raises the products error |
| `StrictOrder.Write` | av_purchase/models/purchase_order.py:148-165 | a state write raises before changing anything when an order has no lines, otherwise sets every order's state |
| `StrictOrder.ActionSubmit` | av_purchase/models/purchase_order.py:113-146 | on success every order is `Sent`, whatever its state; on an error nothing changes; the draft test after the loop comes after the write of `Sent`, so it never passes and no to-do is ever created |
| `StrictOrder.SubmitCheckAccepts` | av_purchase/models/purchase_order.py:120-127 | the submit checks over the orders still to visit pass exactly when all their totals are positive and, if any remain, the write guard passes |
| `StrictOrder.SubmitAcceptsPositiveTotals` | av_purchase/models/purchase_order.py:120-127 | submitting succeeds exactly when every order's line subtotals add up to a positive total |
| `StrictOrder.SubmitErrors` | av_purchase/models/purchase_order.py:120-127 | a first order without a positive total raises the submit error; otherwise an order without lines anywhere raises the write guard's error |
| `StrictOrder.Debit` | av_purchase/models/purchase_order.py:86-108 | a successful confirmation leaves a budget for exactly the projects it started with |
| `StrictOrder.DebitExact` | av_purchase/models/purchase_order.py:93-108 | on success each project's amount drops by exactly the totals of the orders assigned to it; orders without a project change nothing |
| `StrictOrder.DebitNeverOverdraws` | av_purchase/models/purchase_order.py:96-108 | on success every project is either untouched or left with an amount of zero or more |
| `StrictOrder.DebitNeedsLines` | av_purchase/models/purchase_order.py:86-91 | one order without lines anywhere in the recordset makes confirmation fail |
| `StrictOrder.DebitOnlyStarted` | av_purchase/models/purchase_order.py:86-108 | a successful confirmation of any number of orders found lines on every order and every debited project in the "In Progress" stage |
| `StrictOrder.FundsBeforeStage` | av_purchase/models/purchase_order.py:96-108 | funds are checked before the stage; a project holding exactly the total pays for it and is left with zero |
| `StrictOrder.DebitLoop` | av_purchase/models/purchase_order.py:86-108 | the confirmation loop computes the amounts `Debit` gives, raising where it raises |
| `StrictOrder.Commit` | av_purchase/models/purchase_order.py:107-108 | every debited project receives its new amount |
| `StrictOrder.ButtonConfirm` | av_purchase/models/purchase_order.py:80-111 | on success every assigned project's amount becomes what `Debit` gives; on an error no project changes |
| `StrictOrder.ReadonlyFlags` | av_purchase/models/purchase_order.py:193-209 | the project is editable exactly for the head of department in the HOD group while `Sent`; products read-only implies project read-only; products are never read-only in a draft |
| `StrictOrder.ComputeProjectIdReadonly` | av_purchase/models/purchase_order.py:180-209 | both flags of every order are set from the acting user's head-of-department status, group membership and the order's state |
| `StrictOrder.ButtonCancelExecute` | av_purchase/models/purchase_order.py:211-232 | the HOD in the HOD group, or anyone on a draft, writes `Cancel` through the guarded write and then calls the `button_cancel` override as superuser; anyone else calls it plainly with the state unwritten |

## Left out

- The host's own `button_confirm` is an opaque call, so `StrictOrder.ButtonConfirm` does not change the orders' state.
- The `button_cancel` override (av_purchase/models/purchase_order.py:60-78) is left out. It never reaches the host's cancellation. It runs the parent's `button_confirm` instead, so a sent order is confirmed rather than cancelled. It then logs a "rejected by HOD" to-do for each order's purchase representative. Both paths of `button_cancel_execute` hand over to this override, as `sudo().button_cancel()` or as `button_cancel()`. `StrictOrder.ButtonCancelExecute` therefore only reports which of the two calls it makes.
- `_validate_analytic_distribution` and `_add_supplier_to_product` are opaque host calls in the head-of-department submit (av_purchase/models/av_purchase_order.py:62-63). The first validates the lines' analytic distribution and may refuse a submission, of a draft or a sent order, for a reason the model does not capture. The second writes the vendor into the products' supplier lists, an effect on products that is left out.
- `_get_project_domain` and `_get_current_department` are host lookups with no rule of their own. The department default they give a new order is the one its constructor sets, since the creator is the acting user.
- Messaging plumbing is reduced to two fields: `message_subscribe` to the `followers` set, and `mail.activity` to the `activities` log (no activity type or model id). The cancellation-message wizard and `message_post` are left out.
- The `create` override in `av_purchase/models/purchase_order.py` loops over the empty recordset a create runs on, so it checks nothing.
- `_compute_amount` in `av_project/models/project.py` is bound to no field and never runs.
- Floating point: amounts and subtotals are integers, with no rounding. The funds error message omits the project name and the formatted total; its closing sentence is kept.
- Concurrent confirmations against one project depend on the host's transaction isolation.
- Stage names are per project. In the source, start, stop and revert rename the shared stage record, which also renames it for other projects in that stage. A stage name is also always set in the model. A project without a stage is not modelled: renaming its missing stage writes nothing, so the source lets such a project with a start date be started twice, where the model refuses the second start.
- The two `action_submit` definitions are modelled as separate variants (`HodWorkflow.ActionSubmit`, `StrictOrder.ActionSubmit`). Which one the host runs depends on import order.
- The actions that write per record require a recordset of distinct records. A recordset that repeats a record is not modelled.
- When the host runs the constraints (`_check_products`, `_check_positive_amount`, `_check_department_manager`) is not modelled. They are functions the host calls after a change to the fields they name.
- StrictOrder.ActionSubmit: an empty recordset is not modelled (the member requires at least one order). The source then reads a loop variable that was never bound and raises a host error that is not a validation error.
- `StrictOrder.Write` models only writes of the state, which is the only write the modelled code makes.
- `StrictOrder.ButtonCancelExecute` is modelled on one order. The host refuses its singleton reads on several.
- `DocProject.Create` does not model the host's record creation. It models only whether the values reach it.
- Start dates are day numbers.
- Manifests, views, security files and the domain in `av_project/models/purchase_order.py` hold no logic.
