/** The site header: which navigation link is styled as active, the border
    classes chosen from that, and the mobile menu toggle. */
module Header {
  import opened Common

  /** The text class of the link for the current page. */
  const ActiveClass: string := "text-blue-600"
  /** The text class of every other link. */
  const InactiveClass: string := "text-gray-600 hover:text-gray-900"

  /** `pathname` is `path` itself or a path below it. */
  ghost predicate UnderPath(pathname: string, path: string)
  {
    pathname == path || exists rest :: pathname == path + "/" + rest
  }

  /** Being under `path` is being equal to it or starting with `path + "/"`. */
  lemma UnderPathIsPrefixTest(pathname: string, path: string)
    ensures UnderPath(pathname, path) <==> pathname == path || path + "/" <= pathname
  {
    if path + "/" <= pathname {
      assert pathname == path + "/" + pathname[|path| + 1..];
    }
    if pathname != path && UnderPath(pathname, path) {
      var rest :| pathname == path + "/" + rest;
      assert pathname[..|path| + 1] == path + "/";
    }
  }

  /** `isActive(path)`: `pathname === path || pathname?.startsWith(path + '/')`,
      choosing between the two text classes. `pathname` is null before the
      router knows it. */
  function IsActive(pathname: Option<string>, path: string): (c: string)
    ensures c == ActiveClass || c == InactiveClass
    ensures c != ""
    ensures c == ActiveClass <==> pathname.Some? && UnderPath(pathname.value, path)
  {
    if pathname.Some? then
      UnderPathIsPrefixTest(pathname.value, path);
      if pathname.value == path || path + "/" <= pathname.value then ActiveClass else InactiveClass
    else InactiveClass
  }

  /** A sibling that shares the prefix without the `/` boundary is not
      active. */
  lemma SiblingNotActive(pathname: string, path: string)
    requires |path| < |pathname| && pathname[..|path|] == path && pathname[|path|] != '/'
    ensures IsActive(Some(pathname), path) == InactiveClass
  {
    assert pathname[..|path| + 1][|path|] != (path + "/")[|path|];
    assert pathname != path;
  }

  lemma NewerIsNotNew()
    ensures IsActive(Some("/events/newer"), "/events/new") == InactiveClass
  {
    SiblingNotActive("/events/newer", "/events/new");
  }

  /** A null pathname makes no link active. */
  lemma NullPathnameNeverActive(path: string)
    ensures IsActive(None, path) == InactiveClass
  {
  }

  // ---------------------------------------------------------------------
  // The border ternaries
  // ---------------------------------------------------------------------

  const ActiveBorder: string := "border-blue-500"
  const ActiveMobileBorder: string := "border-blue-500 bg-blue-50"
  const NoBorder: string := "border-transparent"

  /** A string is truthy in a condition exactly when it is not empty. */
  predicate Truthy(s: string)
  {
    s != ""
  }

  /** The desktop link border as written: the ternary tests the class
      string returned by `isActive`. */
  function DesktopBorderClass(pathname: Option<string>, path: string): (c: string)
    ensures c == ActiveBorder || c == NoBorder
  {
    if Truthy(IsActive(pathname, path)) then ActiveBorder else NoBorder
  }

  /** The mobile link border as written, with the same test. */
  function MobileBorderClass(pathname: Option<string>, path: string): (c: string)
    ensures c == ActiveMobileBorder || c == NoBorder
  {
    if Truthy(IsActive(pathname, path)) then ActiveMobileBorder else NoBorder
  }

  /** Both class strings are truthy, so every link gets the active border
      on every page. */
  lemma BorderAlwaysActive(pathname: Option<string>, path: string)
    ensures DesktopBorderClass(pathname, path) == ActiveBorder
    ensures MobileBorderClass(pathname, path) == ActiveMobileBorder
  {
  }

  /** On the dashboard the link to `/events/new` is inactive in its text
      class yet still gets the active border. */
  lemma BorderActiveOnOtherPage()
    ensures IsActive(Some("/dashboard"), "/events/new") == InactiveClass
    ensures DesktopBorderClass(Some("/dashboard"), "/events/new") == ActiveBorder
    ensures MobileBorderClass(Some("/dashboard"), "/events/new") == ActiveMobileBorder
  {
    assert "/dashboard"[1] != "/events/new"[1];
  }

  /** The desktop border as intended: active exactly for the active link. */
  function IntendedDesktopBorderClass(pathname: Option<string>, path: string): (c: string)
    ensures c == ActiveBorder <==> pathname.Some? && UnderPath(pathname.value, path)
    ensures c == NoBorder <==> !(pathname.Some? && UnderPath(pathname.value, path))
  {
    if IsActive(pathname, path) == ActiveClass then ActiveBorder else NoBorder
  }

  /** The mobile border as intended. */
  function IntendedMobileBorderClass(pathname: Option<string>, path: string): (c: string)
    ensures c == ActiveMobileBorder <==> pathname.Some? && UnderPath(pathname.value, path)
    ensures c == NoBorder <==> !(pathname.Some? && UnderPath(pathname.value, path))
  {
    if IsActive(pathname, path) == ActiveClass then ActiveMobileBorder else NoBorder
  }

  // ---------------------------------------------------------------------
  // The mobile menu
  // ---------------------------------------------------------------------

  /** `setIsMenuOpen(!isMenuOpen)`. */
  function ToggleMenu(open: bool): (r: bool)
    ensures r != open
  {
    !open
  }

  lemma ToggleTwiceRestores(open: bool)
    ensures ToggleMenu(ToggleMenu(open)) == open
  {
  }
}
