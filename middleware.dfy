/** middleware/authMiddleware.js: the gate in front of every protected route. */
module AuthMiddleware {
  import opened Common
  import opened Store

  /** `req.session && req.session.userId`: a session exists and carries a
      truthy user id (a number other than 0). */
  predicate SignedIn(session: Session?)
    reads session
  {
    session != null && session.userId.Some? && session.userId.value != 0
  }

  /** What one call of the middleware does: call `next()`, or redirect. */
  datatype Step = Step(callsNext: bool, redirectTo: Option<string>)

  /** `ensureAuthenticated(req, res, next)`. It is a function of the session
      (it only reads it), so it never changes the session. */
  function EnsureAuthenticated(session: Session?): (step: Step)
    reads session
    ensures step.callsNext <==> SignedIn(session)
    ensures step.callsNext <==> step.redirectTo.None?
    ensures step.redirectTo.Some? ==> step.redirectTo.value == "/auth/login"
  {
    if session != null && session.userId.Some? && session.userId.value != 0 then Step(true, None)
    else Step(false, Some("/auth/login"))
  }
}
