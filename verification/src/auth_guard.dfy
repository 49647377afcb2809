/**
 * The guard around the dashboards: while the session loads it shows a
 * spinner; afterwards it either renders the page or sends the visitor
 * elsewhere.  The redirect is issued by an effect and the page by the render;
 * both are modelled and shown to agree.
 */
module AuthGuard {
  import opened Wrappers
  import JsText

  /** What `useAuth` reports: still loading, whether there is a user, and the profile's role. */
  datatype Session = Session(loading: bool, signedIn: bool, role: Option<string>)

  const Home: string := "/"
  const RoleSelection: string := "/auth/role-selection"
  const DoctorDashboard: string := "/doctor/dashboard"
  const PatientDashboard: string := "/patient/dashboard"

  /** The role check fails: a role is required and the profile's role is another. */
  predicate WrongRole(s: Session, required: Option<string>) {
    JsText.Truthy(required) && s.role != required
  }

  /** The effect: where the visitor is sent, if anywhere. */
  function Redirect(s: Session, required: Option<string>): (r: Option<string>)
    ensures s.loading ==> r.None?
    ensures !s.loading && !s.signedIn ==> r == Some(Home)
    ensures !s.loading && s.signedIn && !JsText.Truthy(s.role) ==> r == Some(RoleSelection)
    ensures !s.loading && s.signedIn && JsText.Truthy(s.role) && WrongRole(s, required) ==>
              r == Some(if s.role == Some("doctor") then DoctorDashboard else PatientDashboard)
    ensures !s.loading && s.signedIn && JsText.Truthy(s.role) && !WrongRole(s, required) ==> r.None?
  {
    if s.loading then None
    else if !s.signedIn then Some(Home)
    else if !JsText.Truthy(s.role) then Some(RoleSelection)
    else if WrongRole(s, required) then Some(if s.role == Some("doctor") then DoctorDashboard else PatientDashboard)
    else None
  }

  datatype View = Spinner | Nothing | Children

  /** The render. */
  function Render(s: Session, required: Option<string>): (r: View)
    ensures r == Spinner <==> s.loading
    ensures r == Children <==> !s.loading && s.signedIn && JsText.Truthy(s.role)
                               && (!JsText.Truthy(required) || s.role == required)
  {
    if s.loading then Spinner
    else if !s.signedIn || !JsText.Truthy(s.role) || WrongRole(s, required) then Nothing
    else Children
  }

  /** The page is rendered exactly when no redirect is issued and the session has loaded. */
  lemma RenderOrRedirect(s: Session, required: Option<string>)
    ensures Render(s, required) == Children <==> !s.loading && Redirect(s, required).None?
    ensures Render(s, required) == Nothing <==> Redirect(s, required).Some?
  {
  }

  /** The role a dashboard's guard requires. */
  function RequiredAt(path: string): Option<string> {
    if path == DoctorDashboard then Some("doctor")
    else if path == PatientDashboard then Some("patient")
    else None
  }

  /**
   * A doctor or patient turned away for the wrong role is sent to their own
   * dashboard, whose guard lets them in: the redirects do not loop.
   */
  lemma WrongRoleLandsHome(s: Session, required: Option<string>)
    requires s.role == Some("doctor") || s.role == Some("patient")
    requires !s.loading && s.signedIn && WrongRole(s, required)
    ensures var target := Redirect(s, required).value;
            RequiredAt(target) == s.role && Render(s, RequiredAt(target)) == Children
  {
  }
}
