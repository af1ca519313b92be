/**
 * Page chrome: the title every page view carries, and which navigation link is
 * highlighted for the current page.
 */
module Pages {
  import opened Prelude

  /** `ViewPage`: a page's title prefix and its content. */
  datatype ViewPage<Content> = ViewPage(title_prefix: string, content: Content)

  const TitleHead := "Gifts - "

  /** `ViewPage::new`. */
  function New<Content>(title_prefix: string, content: Content): (v: ViewPage<Content>)
    ensures v.title_prefix == title_prefix && v.content == content
  {
    ViewPage(title_prefix, content)
  }

  /** `ViewPage::title`: the fixed head, then the page's prefix. */
  function Title<Content>(v: ViewPage<Content>): (t: string)
    ensures |t| == |TitleHead| + |v.title_prefix|
    ensures t[..|TitleHead|] == TitleHead && t[|TitleHead|..] == v.title_prefix
  {
    TitleHead + v.title_prefix
  }

  /** `ViewPage::into_content`: the content, which with the prefix rebuilds the view. */
  function IntoContent<Content>(v: ViewPage<Content>): (c: Content)
    ensures New(v.title_prefix, c) == v
  {
    v.content
  }

  /** A view built by `new` shows "Gifts - " and its prefix as title, and hands its content back unchanged. */
  lemma NewTitleAndContent<Content>(title_prefix: string, content: Content)
    ensures Title(New(title_prefix, content)) == "Gifts - " + title_prefix
    ensures IntoContent(New(title_prefix, content)) == content
  {
  }

  /** Distinct prefixes give distinct titles. */
  lemma TitleInjective<Content>(v: ViewPage<Content>, w: ViewPage<Content>)
    requires Title(v) == Title(w)
    ensures v.title_prefix == w.title_prefix
  {
    assert v.title_prefix == Title(v)[|TitleHead|..];
  }

  /** The page kinds the client renders. */
  datatype Page = Other | HomePage | LoginPage | RegisterPage | ProfilePage | GiftIdeasPage | AddGiftIdeaPage

  /**
   * The route kinds the navigation links name: the routes of `Routes.Route` plus an
   * add-gift-idea route, with the profile route taken without its username.
   */
  datatype NavRoute = NavHome | NavLogin | NavLogout | NavRegister | NavProfile | NavGiftIdeas | NavAddGiftIdea

  /** The page on which the link for `route` is highlighted, if any: the page of the same name. */
  function HighlightedOn(route: NavRoute): Option<Page>
  {
    match route
    case NavHome => Some(HomePage)
    case NavLogin => Some(LoginPage)
    case NavLogout => None
    case NavRegister => Some(RegisterPage)
    case NavProfile => Some(ProfilePage)
    case NavGiftIdeas => Some(GiftIdeasPage)
    case NavAddGiftIdea => Some(AddGiftIdeaPage)
  }

  /** `Page::is_active`: the link for `route` is highlighted on `page` exactly for the six same-named pairs. */
  function IsActive(page: Page, route: NavRoute): (active: bool)
    ensures active <==> HighlightedOn(route) == Some(page)
  {
    match (page, route)
    case (HomePage, NavHome) => true
    case (LoginPage, NavLogin) => true
    case (RegisterPage, NavRegister) => true
    case (ProfilePage, NavProfile) => true
    case (GiftIdeasPage, NavGiftIdeas) => true
    case (AddGiftIdeaPage, NavAddGiftIdea) => true
    case _ => false
  }

  /** `Other` highlights nothing, and the logout link is never highlighted. */
  lemma NeverActive(page: Page, route: NavRoute)
    ensures !IsActive(Other, route)
    ensures !IsActive(page, NavLogout)
  {
  }

  /** Each route but logout has exactly one page that highlights it. */
  lemma OneActivePage(route: NavRoute)
    requires route != NavLogout
    ensures exists page :: IsActive(page, route)
    ensures forall p, q | IsActive(p, route) && IsActive(q, route) :: p == q
  {
    match route
    case NavHome => assert IsActive(HomePage, route);
    case NavLogin => assert IsActive(LoginPage, route);
    case NavRegister => assert IsActive(RegisterPage, route);
    case NavProfile => assert IsActive(ProfilePage, route);
    case NavGiftIdeas => assert IsActive(GiftIdeasPage, route);
    case NavAddGiftIdea => assert IsActive(AddGiftIdeaPage, route);
  }
}
