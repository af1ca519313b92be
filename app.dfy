/** The client's application-wide messages, shared by every page. */
module App {
  import Routes
  import opened Session

  /** What a failed fetch reports; the client only logs it. */
  datatype FetchError = FetchError(message: string)

  /** The messages every page receives: a route was pushed, or the session changed. */
  datatype GMsg = RoutePushed(route: Routes.Route) | SessionChanged(session: Session)
}
