/** The client's session: a logged-in viewer or a guest. */
module Session {
  import opened Prelude

  /** The user the client keeps after logging in. */
  datatype LoggedUser = LoggedUser(id: int, email: string, first_name: string, last_name: string)

  datatype Session = LoggedIn(viewer: LoggedUser) | Guest

  /** `Default for Session`. */
  function Default(): (s: Session)
    ensures s.Guest?
  {
    Guest
  }

  /** `Session::new`: logged in exactly when a viewer is given. */
  function New(viewer: Option<LoggedUser>): (s: Session)
    ensures s.LoggedIn? <==> viewer.Some?
    ensures s.LoggedIn? ==> s.viewer == viewer.value
  {
    match viewer
    case Some(v) => LoggedIn(v)
    case None => Guest
  }

  /** `Session::viewer`: the logged-in user, `None` for a guest. */
  function Viewer(s: Session): (v: Option<LoggedUser>)
    ensures v.Some? <==> s.LoggedIn?
    ensures v.Some? ==> v.value == s.viewer
  {
    match s
    case LoggedIn(v) => Some(v)
    case Guest => None
  }

  /** `new` and `viewer` are inverse to each other. */
  lemma NewViewerRoundTrip(viewer: Option<LoggedUser>, s: Session)
    ensures Viewer(New(viewer)) == viewer
    ensures New(Viewer(s)) == s
  {
  }

  /** The default session has no viewer. */
  lemma DefaultHasNoViewer()
    ensures Viewer(Default()) == None
  {
  }
}
