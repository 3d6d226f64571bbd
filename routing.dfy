/**
 * The application shell (src/pages/Index.tsx): the authentication gate, the
 * `currentPage` state and the page switch. The switch does not look at the
 * user's role; only the dashboard menu does.
 */
module Routing {
  import opened Wrappers
  import opened Types
  import Dashboard

  datatype Page = LoginPage | DashboardPage | MembersPage | AttendancePage | ReportsPage

  /** What `AppContent` renders. */
  function PageFor(isAuthenticated: bool, currentPage: string): (p: Page)
    ensures !isAuthenticated ==> p == LoginPage
    ensures isAuthenticated ==> p != LoginPage
    ensures isAuthenticated ==> (p == MembersPage <==> currentPage == "members")
    ensures isAuthenticated ==> (p == AttendancePage <==> currentPage == "attendance")
    ensures isAuthenticated ==> (p == ReportsPage <==> currentPage == "reports")
  {
    if !isAuthenticated then LoginPage
    else if currentPage == "members" then MembersPage
    else if currentPage == "attendance" then AttendancePage
    else if currentPage == "reports" then ReportsPage
    else DashboardPage
  }

  /** What a signed-in user can do on the rendered page: pick a dashboard card, or press a page's back button. */
  datatype Event = ChooseAction(k: nat) | Back

  /**
   * The page after one event: a card choice only acts on the dashboard (the
   * only page with the menu), and a back button only exists on the other pages.
   */
  function Step(user: Option<User>, currentPage: string, e: Event): (r: string)
    ensures r == currentPage || r == "dashboard" || r in Dashboard.Ids(Dashboard.ActionsFor(user))
    ensures e.Back? ==> PageFor(true, r) == DashboardPage
  {
    match e
    case ChooseAction(k) =>
      if PageFor(true, currentPage) == DashboardPage && Dashboard.Choose(user, k).Some?
      then Dashboard.Choose(user, k).value else currentPage
    case Back =>
      if PageFor(true, currentPage) != DashboardPage then "dashboard" else currentPage
  }

  function Run(user: Option<User>, currentPage: string, events: seq<Event>): string
    decreases |events|
  {
    if events == [] then currentPage else Run(user, Step(user, currentPage, events[0]), events[1..])
  }

  /** A user who is not an admin, moving only through the menu and back buttons, sees only the dashboard and the attendance page. */
  lemma {:induction false} NonAdminReach(user: Option<User>, currentPage: string, events: seq<Event>)
    requires !Dashboard.IsAdmin(user)
    requires currentPage == "dashboard" || currentPage == "attendance"
    ensures Run(user, currentPage, events) == "dashboard" || Run(user, currentPage, events) == "attendance"
    ensures PageFor(true, Run(user, currentPage, events)) in {DashboardPage, AttendancePage}
    decreases |events|
  {
    if events != [] {
      var next := Step(user, currentPage, events[0]);
      if events[0].ChooseAction? && Dashboard.Choose(user, events[0].k).Some? {
        assert Dashboard.Ids(Dashboard.ActionsFor(user)) == ["attendance"];
      }
      NonAdminReach(user, next, events[1..]);
    }
  }

  /** Any user, admin included, moving through the menu and back buttons stays on the dashboard and the three menu pages. */
  lemma {:induction false} MenuReach(user: Option<User>, currentPage: string, events: seq<Event>)
    requires currentPage in {"dashboard", "members", "attendance", "reports"}
    ensures Run(user, currentPage, events) in {"dashboard", "members", "attendance", "reports"}
    decreases |events|
  {
    if events != [] {
      StepStaysInMenu(user, currentPage, events[0]);
      MenuReach(user, Step(user, currentPage, events[0]), events[1..]);
    }
  }

  lemma StepStaysInMenu(user: Option<User>, currentPage: string, e: Event)
    requires currentPage in {"dashboard", "members", "attendance", "reports"}
    ensures Step(user, currentPage, e) in {"dashboard", "members", "attendance", "reports"}
  {
    Dashboard.OfferedIds(user);
    assert Dashboard.Ids(Dashboard.AdminActions) == ["members", "attendance", "reports"];
  }

  /** The `currentPage` state. */
  class AppContent {
    var currentPage: string

    constructor ()
      ensures currentPage == "dashboard"
    {
      currentPage := "dashboard";
    }

    method HandleNavigate(page: string)
      modifies this
      ensures currentPage == page
    {
      currentPage := page;
    }

    method HandleBack()
      modifies this
      ensures currentPage == "dashboard"
    {
      currentPage := "dashboard";
    }

    /** An event on the rendered page, routed to `handleNavigate` or `handleBack`. */
    method Handle(user: Option<User>, e: Event)
      modifies this
      ensures currentPage == Step(user, old(currentPage), e)
    {
      var onDashboard := PageFor(true, currentPage) == DashboardPage;
      match e
      case ChooseAction(k) =>
        if onDashboard && Dashboard.Choose(user, k).Some? {
          HandleNavigate(Dashboard.Choose(user, k).value);
        }
      case Back =>
        if !onDashboard {
          HandleBack();
        }
    }
  }

  /** Routing checks no role: an employee who calls `handleNavigate("reports")` gets the reports page. */
  method NavigationHasNoRoleCheck(employee: User)
    requires employee.role == Employee
  {
    var app := new AppContent();
    assert !Dashboard.IsAdmin(Some(employee));
    app.HandleNavigate("reports");
    assert PageFor(true, app.currentPage) == ReportsPage;
  }
}
