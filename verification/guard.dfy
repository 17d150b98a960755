/** The route guard (`ProtectedRoute`) placed around every page that needs
    a signed-in user. */
module Guard {
  import opened Js

  const LoginRoute: string := "/login"

  /** What the guard renders: the loading spinner, a redirect, or the
      protected page itself. */
  datatype Decision<T> = Spinner | Redirect(to: string, replace: bool) | Render(page: T)

  /** The guard's decision on the session's loading flag and user. While
      loading it always shows the spinner; once settled, a missing user is
      sent to the login route with the history entry replaced, and a
      present user sees the page unchanged. Exactly one of the three
      applies to every pair. */
  function ProtectedRoute<U, T>(loading: bool, user: Option<U>, page: T): (d: Decision<T>)
    ensures d.Spinner? <==> loading
    ensures d.Redirect? <==> !loading && user.None?
    ensures d.Render? <==> !loading && user.Some?
    ensures d.Redirect? ==> d.to == LoginRoute && d.replace
    ensures d.Render? ==> d.page == page
  {
    if loading then Spinner
    else if user.None? then Redirect(LoginRoute, true)
    else Render(page)
  }
}
