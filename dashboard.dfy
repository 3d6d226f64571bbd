/** The dashboard menu (src/components/Dashboard.tsx): which actions a user is offered. */
module Dashboard {
  import opened Wrappers
  import opened Types

  /** A menu card; its id is the page it navigates to. */
  datatype Action = Action(id: string, title: string)

  const AdminActions: seq<Action> := [
    Action("members", "إدارة الأعضاء"),
    Action("attendance", "تتبع الحضور"),
    Action("reports", "التقارير والمدفوعات")
  ]

  const EmployeeActions: seq<Action> := [
    Action("attendance", "تسجيل الحضور")
  ]

  /** `user?.role === 'admin' ? adminActions : employeeActions`. */
  predicate IsAdmin(user: Option<User>)
  {
    user.Some? && user.value.role == Admin
  }

  function Ids(actions: seq<Action>): (ids: seq<string>)
    ensures |ids| == |actions|
    ensures forall i :: 0 <= i < |actions| ==> ids[i] == actions[i].id
  {
    if actions == [] then [] else [actions[0].id] + Ids(actions[1..])
  }

  /** The actions offered: the admin's three, or the single attendance action for anyone else, a missing user included. */
  function ActionsFor(user: Option<User>): (r: seq<Action>)
    ensures IsAdmin(user) ==> Ids(r) == ["members", "attendance", "reports"]
    ensures !IsAdmin(user) ==> Ids(r) == ["attendance"]
  {
    if IsAdmin(user) then AdminActions else EmployeeActions
  }

  /** Whatever the user, the ids offered are distinct and all among the admin's. */
  lemma OfferedIds(user: Option<User>)
    ensures forall i, j :: 0 <= i < j < |Ids(ActionsFor(user))| ==> Ids(ActionsFor(user))[i] != Ids(ActionsFor(user))[j]
    ensures forall id :: id in Ids(ActionsFor(user)) ==> id in Ids(AdminActions)
  {
    assert Ids(AdminActions) == ["members", "attendance", "reports"];
  }

  /** Choosing the `k`-th card navigates to that card's id. */
  function Choose(user: Option<User>, k: nat): (page: Option<string>)
    ensures k < |ActionsFor(user)| <==> page.Some?
    ensures page.Some? ==> page.value == ActionsFor(user)[k].id
    ensures page.Some? ==> page.value in Ids(ActionsFor(user))
  {
    if k < |ActionsFor(user)| then Some(ActionsFor(user)[k].id) else None
  }
}
