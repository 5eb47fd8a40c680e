/** The sidebar: which navigation links each role sees. */
module Layout {
  import opened Wrappers
  import opened Types

  /** A link: its label (`text`) and its target. */
  datatype MenuItem = MenuItem(text: string, href: string)

  /** Every link leads to a different page. */
  predicate DistinctHrefs(items: seq<MenuItem>) {
    forall i, j | 0 <= i < j < |items| :: items[i].href != items[j].href
  }

  /**
   * `Sidebar.getMenuItems`, a switch on the stored role string: a missing or
   * unknown role gets no links.
   */
  function MenuItems(role: Option<string>): (items: seq<MenuItem>)
    ensures DistinctHrefs(items)
    ensures items != [] <==> role.Some? && ParseRole(role.value).Some?
  {
    if role == Some(Student.Wire()) then
      [MenuItem("Dashboard", "/dashboard"), MenuItem("Submit", "/student/submit")]
    else if role == Some(Faculty.Wire()) then
      [MenuItem("Dashboard", "/dashboard"), MenuItem("View Students", "/faculty/queue")]
    else if role == Some(VerificationTeam.Wire()) then
      [MenuItem("Dashboard", "/verification/dashboard"), MenuItem("Verification Queue", "/verification/queue"),
       MenuItem("Approved List", "/verification/approved")]
    else if role == Some(Admin.Wire()) then
      [MenuItem("Dashboard", "/dashboard"), MenuItem("Users", "/admin/users"), MenuItem("Categories", "/admin/categories"),
       MenuItem("Reports", "/admin/reports"), MenuItem("Alerts", "/notifications")]
    else []
  }

  /** How many links each role sees, and where its first link leads. */
  lemma MenuPerRole(r: UserRole)
    ensures var items := MenuItems(Some(r.Wire()));
      |items| == (match r case Student => 2 case Faculty => 2 case VerificationTeam => 3 case Admin => 5)
      && items[0].text == "Dashboard"
      && items[0].href == (if r == VerificationTeam then "/verification/dashboard" else "/dashboard")
  {
  }

  /** Only the admin menu reaches the category page. */
  lemma CategoryPageIsAdminOnly(r: UserRole)
    ensures (exists i | 0 <= i < |MenuItems(Some(r.Wire()))| :: MenuItems(Some(r.Wire()))[i].href == "/admin/categories") <==> r == Admin
  {
    var items := MenuItems(Some(r.Wire()));
    if r == Admin {
      assert items[2].href == "/admin/categories";
    }
  }
}
