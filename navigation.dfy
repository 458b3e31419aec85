/** The navigation bar's choice of the active link. */
module Navigation {

  import opened Text

  const Root := "/"

  /** `isActive(path)`: the current pathname is the link's path, or, for
      any link but the root, starts with it. */
  function IsActive(pathname: string, path: string): (active: bool)
    ensures path == Root ==> (active <==> pathname == Root)
    ensures path != Root ==> (active <==> pathname == path || StartsWith(pathname, path))
  {
    pathname == path || (path != Root && StartsWith(pathname, path))
  }

  /** A link is always active on its own page. */
  lemma ActiveOnOwnPath(path: string)
    ensures IsActive(path, path)
  {
  }

  /** For a link other than the root, being active is exactly having its
      path as a prefix of the pathname. */
  lemma ActiveIsPrefix(pathname: string, path: string)
    requires path != Root
    ensures IsActive(pathname, path) <==> |path| <= |pathname| && pathname[..|path|] == path
  {
  }

  /** The prefix test looks at characters, not path segments: the page
      `/employeesX` activates the `/employees` link. */
  lemma PrefixIsNotSegmentAware()
    ensures IsActive("/employeesX", "/employees")
    ensures !IsActive("/employeesX", Root)
  {
    assert "/employeesX"[..|"/employees"|] == "/employees";
  }

  /** The three links of the bar are never active together on the two
      sections' pages: the root link is active only on the dashboard. */
  lemma RootOnlyOnDashboard(pathname: string)
    requires IsActive(pathname, "/employees") || IsActive(pathname, "/attendance")
    ensures !IsActive(pathname, Root)
  {
  }
}
