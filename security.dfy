/**
 * application/security.py: the `AccessDenied` error and the two guards that refuse a request
 * when the session holds no launched task.
 */
module Security {
  import opened Wrappers
  import opened JsonValues

  /** The class-level default of `AccessDenied.status_code`. */
  const DefaultStatusCode: int := 403

  /** The error raised for a request without a valid session. */
  datatype AccessDenied = AccessDenied(message: string, statusCode: int, payload: Option<map<string, Json>>)
  {
    /**
     * The JSON body of the error response: every payload entry, with `message` and `code`
     * always present and always the error's own values.
     */
    function ToView(): (view: map<string, Json>)
      ensures "message" in view && view["message"] == JStr(message)
      ensures "code" in view && view["code"] == JInt(statusCode)
      ensures payload.None? ==> view.Keys == {"message", "code"}
      ensures payload.Some? ==> view.Keys == payload.value.Keys + {"message", "code"}
      ensures payload.Some? ==>
                (forall k :: k in payload.value && k != "message" && k != "code" ==> view[k] == payload.value[k])
    {
      var data := if payload.Some? then payload.value else map[];
      data["message" := JStr(message)]["code" := JInt(statusCode)]
    }
  }

  /** `AccessDenied(message, status_code, payload)`: an explicit status code replaces the default. */
  function NewAccessDenied(message: string, statusCode: Option<int>, payload: Option<map<string, Json>>)
    : (e: AccessDenied)
    ensures e.message == message && e.payload == payload
    ensures statusCode.None? ==> e.statusCode == DefaultStatusCode
    ensures statusCode.Some? ==> e.statusCode == statusCode.value
  {
    AccessDenied(message, if statusCode.Some? then statusCode.value else DefaultStatusCode, payload)
  }

  /** The session's `task`, read as `session.get('task')`. */
  function SessionTask(session: map<string, Json>): Option<Json> {
    Get(session, "task")
  }

  /** What an HTML view answers: the view's own response, or an `abort(code, description)`. */
  datatype HtmlResponse<T> = Delegated(response: T) | Aborted(code: int, description: string)

  /**
   * The `require_session_json` guard around a view: without a task in the session it raises
   * `AccessDenied('Forbidden', 403)`; otherwise it answers what the view answers.
   */
  function RequireSessionJson<T>(session: map<string, Json>, view: () -> T): (r: Result<T, AccessDenied>)
    ensures r.Err? <==> SessionTask(session).None?
    ensures r.Err? ==> (r.error.message == "Forbidden" && r.error.statusCode == 403
                        && r.error.ToView() == map["message" := JStr("Forbidden"), "code" := JInt(403)])
    ensures r.Ok? ==> r.value == view()
  {
    if SessionTask(session).None? then Err(NewAccessDenied("Forbidden", Some(403), None))
    else Ok(view())
  }

  /**
   * The `require_session_html` guard around a view: without a task in the session it aborts
   * with 403; otherwise it answers what the view answers.
   */
  function RequireSessionHtml<T>(session: map<string, Json>, view: () -> T): (r: HtmlResponse<T>)
    ensures r.Aborted? <==> SessionTask(session).None?
    ensures r.Aborted? ==> r.code == 403 && r.description == "Forbidden"
    ensures r.Delegated? ==> r.response == view()
  {
    if SessionTask(session).None? then Aborted(403, "Forbidden") else Delegated(view())
  }

  /**
   * Logging in stores a task, logging out stores `None`: the guard refuses before the login
   * and after the logout, and delegates in between.
   */
  lemma GuardFollowsLogin<T>(session: map<string, Json>, task: Json, view: () -> T)
    requires task != JNull
    ensures RequireSessionJson(session - {"task"}, view).Err?
    ensures RequireSessionJson(session["task" := task], view) == Ok(view())
    ensures RequireSessionJson(session["task" := JNull], view).Err?
    ensures RequireSessionHtml(session["task" := task], view) == Delegated(view())
    ensures RequireSessionHtml(session["task" := JNull], view) == Aborted(403, "Forbidden")
  {
  }
}
