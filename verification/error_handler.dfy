/**
 * The application's exception handler: which requests it answers, and
 * the exception-kind to status mapping of `handleApiException`, where
 * the first matching `instanceof` test wins.
 */
module ErrorHandler {
  import opened Common

  /**
   * The exceptions the handler tells apart. `HttpError` stands for any
   * HttpException; `isNotFound` marks its NotFoundHttpException subclass.
   */
  datatype Throwable =
    | ModelNotFound
    | AuthorizationError(message: string)
    | ValidationError(errors: map<string, seq<string>>)
    | HttpError(status: nat, message: string, isNotFound: bool)
    | OtherError(message: string)

  /**
   * The JSON answer: status, `message`, and the `errors` / `error` members.
   * `errors` is present only for validation failures. The 500 answer always
   * carries an `error` member: `detail == None` there stands for
   * `"error": null`, not for an absent member.
   */
  datatype ApiResponse = ApiResponse(
    status: nat,
    message: string,
    errors: Option<map<string, seq<string>>>,
    detail: Option<string>
  )

  /** PHP truthiness of a string, as `?:` tests it. */
  predicate Falsy(s: string) {
    s == "" || s == "0"
  }

  /** handleApiException. */
  function HandleApiException(e: Throwable, debug: bool): (r: ApiResponse)
    ensures e == ModelNotFound ==> r.status == StatusNotFound && r.message == "Resource not found"
    ensures e.HttpError? && e.isNotFound ==> r.status == StatusNotFound && r.message == "Endpoint not found"
    ensures e.HttpError? && !e.isNotFound ==> r.status == e.status && r.message == e.message
    ensures e.AuthorizationError? ==>
      r.status == StatusForbidden && r.message == (if Falsy(e.message) then "Unauthorized" else e.message)
    ensures e.ValidationError? <==> r.errors.Some?
    ensures e.ValidationError? ==> r.status == StatusUnprocessable && r.errors == Some(e.errors)
    ensures e.OtherError? ==> r.status == StatusServerError && r.message == "Internal Server Error"
    ensures r.detail.Some? <==> e.OtherError? && debug
    ensures r.detail.Some? ==> r.detail.value == e.message
  {
    match e
    case ModelNotFound => ApiResponse(StatusNotFound, "Resource not found", None, None)
    case HttpError(status, message, isNotFound) =>
      if isNotFound then ApiResponse(StatusNotFound, "Endpoint not found", None, None)
      else ApiResponse(status, message, None, None)
    case AuthorizationError(message) =>
      ApiResponse(StatusForbidden, (if Falsy(message) then "Unauthorized" else message), None, None)
    case ValidationError(errors) => ApiResponse(StatusUnprocessable, "The given data was invalid.", Some(errors), None)
    case OtherError(message) =>
      ApiResponse(StatusServerError, "Internal Server Error", None, (if debug then Some(message) else None))
  }

  /**
   * The not-found test comes before the generic HttpException test: a
   * NotFoundHttpException loses its own message, while a plain
   * HttpException with status 404 keeps it.
   */
  lemma NotFoundCheckedFirst(message: string, debug: bool)
    requires message != "Endpoint not found"
    ensures HandleApiException(HttpError(404, message, true), debug).message == "Endpoint not found"
    ensures HandleApiException(HttpError(404, message, false), debug).message == message
  {
  }

  /** A 404 comes only from a missing model or an HTTP error carrying 404 (or its not-found subclass). */
  lemma NotFoundSources(e: Throwable, debug: bool)
    ensures HandleApiException(e, debug).status == StatusNotFound <==>
      e == ModelNotFound || (e.HttpError? && (e.isNotFound || e.status == StatusNotFound))
  {
  }

  /** Outside debug mode no exception message leaks through the 500 answer. */
  lemma NoDetailWithoutDebug(e: Throwable)
    ensures HandleApiException(e, false).detail == None
  {
  }

  /** The request path (without its leading slash) matches the pattern `api/` followed by anything. */
  predicate IsApiPath(path: string) {
    |path| >= 4 && path[..4] == "api/"
  }

  /** The renderable callback: API paths and JSON-wanting requests get the JSON answer; others fall through. */
  function Renderable(e: Throwable, path: string, wantsJson: bool, debug: bool): (r: Option<ApiResponse>)
    ensures r.None? <==> !IsApiPath(path) && !wantsJson
    ensures r.Some? ==> r.value == HandleApiException(e, debug)
  {
    if IsApiPath(path) || wantsJson then Some(HandleApiException(e, debug)) else None
  }

  /** A web page request that does not ask for JSON is left to the framework's default rendering. */
  lemma WebRequestsFallThrough(e: Throwable, debug: bool)
    ensures Renderable(e, "vehicles/3", false, debug) == None
    ensures Renderable(e, "api/vehicles/3", false, debug).Some?
  {
    assert "vehicles/3"[..4] == "vehi";
    assert "api/vehicles/3"[..4] == "api/";
  }
}
