/** The request-gating decorators. Each wraps a handler method: it either
    lets the method run and passes on what it does, or raises an HTTP error
    instead. The wrapped method's behaviour is an input (`inner`): what it
    would return or raise if it ran. */
module Decorators {
  import opened Errors
  import opened Text

  /** The database connection of a handler (`self.PGSQLConn`). Only the
      rollbacks it receives are observed here. */
  class Connection {
    var rollbacks: nat

    constructor ()
      ensures rollbacks == 0
    {
      rollbacks := 0;
    }

    /** `rollback()`: abandons the current transaction. */
    method Rollback()
      modifies this
      ensures rollbacks == old(rollbacks) + 1
    {
      rollbacks := rollbacks + 1;
    }
  }

  /** The message of the 500 error for a database failure. It opens with
      the error's class, holds the error's own text and ends with its code.
      The two classes are worded differently. */
  function DbErrorMessage(e: Exception): (r: string)
    requires e.IsDbError()
    ensures e.ProgrammingError? ==> "Psycopg2 error (psycopg2.ProgrammingError)" <= r
    ensures e.OtherDbError? ==> "Psycopg2 error (psycopg2.Error)" <= r
    ensures Contains(r, e.info)
    ensures EndsWith(r, "\npgcode: " + e.pgcode)
  {
    var kind := if e.ProgrammingError? then "Psycopg2 error (psycopg2.ProgrammingError)"
                else "Psycopg2 error (psycopg2.Error)";
    var lead := if e.ProgrammingError? then "\nInformation: " else "\n Information: ";
    var code := "\npgcode: " + e.pgcode;
    MessageShape(kind, ". Please, contact the administrator. " + lead, e.info, code);
    kind + (". Please, contact the administrator. " + lead) + e.info + code
  }

  /** A message built as a head, a middle, a text and a tail opens with the
      head, contains the text and ends with the tail. */
  lemma MessageShape(head: string, middle: string, text: string, tail: string)
    ensures head <= head + middle + text + tail
    ensures Contains(head + middle + text + tail, text)
    ensures EndsWith(head + middle + text + tail, tail)
  {
    ContainsMiddle(head + middle, text, tail);
    EndsWithAppended(head + middle + text, tail);
  }

  /** What `catch_generic_exception` makes of the wrapped method's outcome:
      a database failure becomes a 500 error carrying its text and code;
      anything else, returned value or other exception, passes unchanged. */
  function TranslateDbError<T>(inner: Outcome<T>): (r: Outcome<T>)
    ensures inner.Raised? && inner.error.IsDbError() ==>
      r.FailsWith(500) && r.error.message == DbErrorMessage(inner.error)
    ensures !(inner.Raised? && inner.error.IsDbError()) ==> r == inner
  {
    match inner
    case Raised(e) => if e.IsDbError() then Raised(HttpError(500, DbErrorMessage(e))) else inner
    case Returned(_) => inner
  }

  /** `catch_generic_exception`: runs the wrapped method; on a database
      failure it rolls the connection back once and then raises the 500
      error; otherwise it touches nothing. */
  method CatchGenericException<T>(conn: Connection, inner: Outcome<T>) returns (r: Outcome<T>)
    modifies conn
    ensures r == TranslateDbError(inner)
    ensures conn.rollbacks == old(conn.rollbacks) + (if inner.Raised? && inner.error.IsDbError() then 1 else 0)
  {
    match inner
    case Raised(e) =>
      if e.IsDbError() {
        conn.Rollback();
        return Raised(HttpError(500, DbErrorMessage(e)));
      }
      return inner;
    case Returned(_) =>
      return inner;
  }

  /** No database failure gets past the wrapper, and wrapping twice changes
      nothing more than wrapping once. */
  lemma TranslateDbErrorCloses<T>(inner: Outcome<T>)
    ensures var r := TranslateDbError(inner);
      && !(r.Raised? && r.error.IsDbError())
      && TranslateDbError(r) == r
      && (r.Returned? <==> inner.Returned?)
  {
  }

  /** `get_decoded_jwt_token`: the signature library's verdict on a token
      (`jwt_decode`), with its two token errors turned into a 400 error.
      Any other exception the library raises passes unchanged. */
  function GetDecodedJwtToken(decoded: Outcome<Claims>): (r: Outcome<Claims>)
    ensures decoded.Returned? ==> r == decoded
    ensures decoded.Raised? && (decoded.error.DecodeError? || decoded.error.InvalidAlgorithmError?) ==>
      r == Raised(HttpError(400, "Invalid Token. (error: " + decoded.error.info + ")"))
    ensures decoded.Raised? && !(decoded.error.DecodeError? || decoded.error.InvalidAlgorithmError?) ==>
      r == decoded
  {
    match decoded
    case Raised(DecodeError(info)) => Raised(HttpError(400, "Invalid Token. (error: " + info + ")"))
    case Raised(InvalidAlgorithmError(info)) => Raised(HttpError(400, "Invalid Token. (error: " + info + ")"))
    case _ => decoded
  }

  /** The signature library raises its own exceptions, never a tornado
      HTTPError. */
  predicate IsLibraryVerdict(decoded: Outcome<Claims>) {
    decoded.Raised? ==> !decoded.error.HttpError?
  }

  const MissingHeaderMessage := "It is necessary an Authorization header valid."

  /** `str(error)` for the exceptions the authentication wrapper turns into
      a 500 error; a tornado HTTPError is re-raised and never reaches it. */
  function ExceptionText(e: Exception): string
    requires !e.HttpError?
  {
    e.info
  }

  /** `auth_non_browser_based`. `authorization` is the `Authorization`
      header, if the request has one; `jwtDecode` is the signature library's
      verdict on a token. The wrapped method runs only when the token
      decodes. */
  function AuthNonBrowserBased<T>(authorization: Option<string>, jwtDecode: string -> Outcome<Claims>,
                                  inner: Outcome<T>): (r: Outcome<T>)
    ensures authorization.None? ==> r == Raised(HttpError(401, MissingHeaderMessage))
    ensures authorization.Some? && jwtDecode(authorization.value).Returned? ==> r == inner
    ensures authorization.Some? && jwtDecode(authorization.value).Raised? ==>
      var e := jwtDecode(authorization.value).error;
      if e.DecodeError? || e.InvalidAlgorithmError? || e.HttpError? then
        // the HTTP error of `get_decoded_jwt_token` is re-raised unchanged
        r == Raised(GetDecodedJwtToken(jwtDecode(authorization.value)).error)
      else
        r == Raised(HttpError(500, "Problem when authorize a resource. Please, contact the administrator. ("
                                   + ExceptionText(e) + ")"))
  {
    match authorization
    case None => Raised(HttpError(401, MissingHeaderMessage))
    case Some(token) =>
      match GetDecodedJwtToken(jwtDecode(token))
      case Returned(_) => inner
      case Raised(e) =>
        if e.HttpError? then Raised(e)
        else Raised(HttpError(500, "Problem when authorize a resource. Please, contact the administrator. ("
                                   + ExceptionText(e) + ")"))
  }

  /** The authentication wrapper lets the request through to the wrapped
      method only with a header whose token decodes; a bad token is never
      reported as a missing header. */
  lemma AuthProceedsOnlyWithValidToken<T>(authorization: Option<string>, jwtDecode: string -> Outcome<Claims>,
                                          inner: Outcome<T>)
    requires inner.Returned?
    requires authorization.Some? ==> IsLibraryVerdict(jwtDecode(authorization.value))
    ensures AuthNonBrowserBased(authorization, jwtDecode, inner).Returned? <==>
      authorization.Some? && jwtDecode(authorization.value).Returned?
    ensures AuthNonBrowserBased(authorization, jwtDecode, inner).FailsWith(401) <==> authorization.None?
  {
  }

  /** `auth_just_admin_can_use`: a 403 error unless the current user is an
      administrator, whose request runs the wrapped method. */
  function AuthJustAdminCanUse<T>(isAdministrator: bool, inner: Outcome<T>): (r: Outcome<T>)
    ensures !isAdministrator ==> r == Raised(HttpError(403, "The administrator is who can use this resource."))
    ensures isAdministrator ==> r == inner
  {
    if !isAdministrator then Raised(HttpError(403, "The administrator is who can use this resource."))
    else inner
  }

  /** `just_run_on_debug_mode`: outside debug mode the route answers 404, as
      an unknown URL does; in debug mode the wrapped method runs. */
  function JustRunOnDebugMode<T>(debugMode: bool, inner: Outcome<T>): (r: Outcome<T>)
    ensures !debugMode ==> r == Raised(HttpError(404, "Invalid URL."))
    ensures debugMode ==> r == inner
  {
    if !debugMode then Raised(HttpError(404, "Invalid URL.")) else inner
  }

  /** The gating wrappers are blind to the wrapped method: when they refuse,
      their answer is the same whatever the method would have done. */
  lemma GatesIgnoreInnerWhenRefusing<T>(authorization: Option<string>, jwtDecode: string -> Outcome<Claims>,
                                        isAdministrator: bool, debugMode: bool, a: Outcome<T>, b: Outcome<T>)
    ensures !debugMode ==> JustRunOnDebugMode(debugMode, a) == JustRunOnDebugMode(debugMode, b)
    ensures !isAdministrator ==> AuthJustAdminCanUse(isAdministrator, a) == AuthJustAdminCanUse(isAdministrator, b)
    ensures !(authorization.Some? && jwtDecode(authorization.value).Returned?) ==>
      AuthNonBrowserBased(authorization, jwtDecode, a) == AuthNonBrowserBased(authorization, jwtDecode, b)
  {
  }

  /** A handler stacked as error translation, authentication, administrator
      check and debug gate, outermost first. Outside debug mode it never
      reaches the wrapped method; a caller who passes authentication and the
      administrator check gets 404, while the outer wrappers still answer
      first for a caller who does not (401, 400, 500 or 403). */
  lemma StackedDebugRouteHidden<T>(authorization: Option<string>, jwtDecode: string -> Outcome<Claims>,
                                   isAdministrator: bool, inner: Outcome<T>)
    requires authorization.Some? ==> IsLibraryVerdict(jwtDecode(authorization.value))
    ensures var r := TranslateDbError(AuthNonBrowserBased(authorization, jwtDecode,
                       AuthJustAdminCanUse(isAdministrator, JustRunOnDebugMode(false, inner))));
      && r.Raised? && r.error.HttpError?
      && r.error.status in {400, 401, 403, 404, 500}
      && (authorization.Some? && jwtDecode(authorization.value).Returned? && isAdministrator ==> r.FailsWith(404))
      && (authorization.None? ==> r.FailsWith(401))
  {

  }
}
