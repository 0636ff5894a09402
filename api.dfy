/** The one check the HTTP layer makes itself: a terminate request must name a pid. */
module Api {
  import opened Wrappers

  /** A JSON reply: the `success` flag, the optional `error` text and the HTTP status. */
  datatype Reply = Reply(success: bool, error: Option<string>, status: int)

  /** What POST /api/terminate answered, and the pid it asked the OS to terminate, if any. */
  datatype TerminateOutcome<V> = TerminateOutcome(reply: Reply, attempted: Option<V>)

  /**
   * The handler of POST /api/terminate for a JSON object `body`;
   * `terminate` is the manager's termination call, true when the OS
   * accepted the request.
   */
  function TerminateRoute<V>(body: map<string, V>, terminate: V -> bool): (o: TerminateOutcome<V>)
    ensures o.attempted.Some? <==> "pid" in body
    ensures o.attempted.Some? ==> o.attempted.value == body["pid"]
    ensures o.reply.status == 400 <==> o.attempted.None?
    ensures o.attempted.None? ==> !o.reply.success && o.reply.error == Some("PID not provided")
    ensures o.attempted.Some? ==> o.reply.success == terminate(o.attempted.value) && o.reply.error.None?
    ensures o.attempted.Some? ==> o.reply.status == 200
  {
    if "pid" !in body then
      TerminateOutcome(Reply(false, Some("PID not provided"), 400), None)
    else
      var pid := body["pid"];
      TerminateOutcome(Reply(terminate(pid), None, 200), Some(pid))
  }
}
