/**
 * The API building block's helpers: the configured logging level,
 * `HasScope` over a principal's claims, the validation error string, and
 * the exception handler that turns exceptions into problem responses.
 */
module Api {
  import opened Wrappers
  import opened Int32
  import opened Linq
  import opened Text

  // ---------------------------------------------------------------------
  // LoggerHelper
  // ---------------------------------------------------------------------

  /** Serilog's `LogEventLevel`, least severe first. */
  datatype LogEventLevel = Verbose | Debug | Information | Warning | Error | Fatal

  /** The numeric value of a level. */
  function Severity(l: LogEventLevel): nat
  {
    match l
    case Verbose => 0
    case Debug => 1
    case Information => 2
    case Warning => 3
    case Error => 4
    case Fatal => 5
  }

  /** `GetLoggingLevel`: the level whose value is `level`, and `Information` for any other number. */
  function GetLoggingLevel(level: int32): (r: LogEventLevel)
    ensures 0 <= level <= 5 ==> Severity(r) == level
    ensures !(0 <= level <= 5) ==> r == Information
  {
    match level
    case 0 => Verbose
    case 1 => Debug
    case 2 => Information
    case 3 => Warning
    case 4 => Error
    case 5 => Fatal
    case _ => Information
  }

  /** On 0 to 5 the table is injective and follows severity. */
  lemma LoggingLevelsOrdered(a: int32, b: int32)
    requires 0 <= a < b <= 5
    ensures GetLoggingLevel(a) != GetLoggingLevel(b)
    ensures Severity(GetLoggingLevel(a)) < Severity(GetLoggingLevel(b))
  {
  }

  /** Every level is configured by exactly its own value. */
  lemma EveryLevelReachable(l: LogEventLevel)
    ensures GetLoggingLevel(Severity(l)) == l
  {
  }

  // ---------------------------------------------------------------------
  // AuthorizationHelper
  // ---------------------------------------------------------------------

  /** A claim of a principal: its type and its value. */
  datatype Claim = Claim(claimType: string, value: string)

  /** Claim types compare without regard to letter case, as `FindFirst` does. */
  predicate SameType(a: string, b: string)
  {
    ToLowerInvariant(a) == ToLowerInvariant(b)
  }

  function OfType(claimType: string): Claim -> bool
  {
    (c: Claim) => SameType(c.claimType, claimType)
  }

  /** `FindFirst(type)?.Value`: the value of the first claim of that type. */
  function FindFirst(claims: seq<Claim>, claimType: string): (r: Option<string>)
    ensures r.None? <==> forall c :: c in claims ==> !SameType(c.claimType, claimType)
    ensures r.Some? ==>
      exists i :: 0 <= i < |claims| && claims[i].value == r.value && SameType(claims[i].claimType, claimType) &&
                  (forall j :: 0 <= j < i ==> !SameType(claims[j].claimType, claimType))
  {
    match FirstWhere(claims, OfType(claimType))
    case Some(c) => Some(c.value)
    case None => None
  }

  const ScpType: string := "scp"
  const MicrosoftScopeType: string := "http://schemas.microsoft.com/identity/claims/scope"
  const ScopeType: string := "scope"

  /** The scope string: `scp`, else the Microsoft scope claim, else `scope`, else empty. */
  function RawScope(claims: seq<Claim>): string
  {
    match FindFirst(claims, ScpType)
    case Some(v) => v
    case None =>
      match FindFirst(claims, MicrosoftScopeType)
      case Some(v) => v
      case None =>
        match FindFirst(claims, ScopeType)
        case Some(v) => v
        case None => ""
  }

  /** `HasScope`: the scope is one of the non-empty space-separated tokens of the scope string. */
  predicate HasScope(claims: seq<Claim>, scope: string)
  {
    scope in SplitNonEmpty(RawScope(claims), ' ')
  }

  /** A scope is granted exactly when it is a non-empty piece of the scope string split at spaces. */
  lemma HasScopeMeaning(claims: seq<Claim>, scope: string)
    ensures HasScope(claims, scope) <==> scope != "" && scope in Split(RawScope(claims), ' ')
  {
  }

  /** The empty scope is never granted, and nothing is granted without a scope string. */
  lemma EmptyScopesGrantNothing(claims: seq<Claim>, scope: string)
    ensures !HasScope(claims, "")
    ensures RawScope(claims) == "" ==> !HasScope(claims, scope)
  {
    if RawScope(claims) == "" {
      SplitWithoutSeparator("", ' ');
    }
  }

  /** An `scp` claim first in line decides alone, even when its value is empty: later claims are not read. */
  lemma ScpClaimShadows(v: string, rest: seq<Claim>, scope: string)
    ensures HasScope([Claim(ScpType, v)] + rest, scope) <==> scope in SplitNonEmpty(v, ' ')
    ensures v == "" ==> !HasScope([Claim(ScpType, v)] + rest, scope)
  {
    var claims := [Claim(ScpType, v)] + rest;
    assert claims[0] == Claim(ScpType, v);
    assert SameType(claims[0].claimType, ScpType);
    assert FindFirst(claims, ScpType) == Some(v);
    if v == "" {
      SplitWithoutSeparator("", ' ');
    }
  }

  /** Scopes written space-separated into an `scp` claim are granted, and nothing else is. */
  lemma JoinedScopesGranted(tokens: seq<string>, scope: string)
    requires tokens != []
    requires forall i :: 0 <= i < |tokens| ==> tokens[i] != "" && ' ' !in tokens[i]
    ensures HasScope([Claim(ScpType, Join([' '], tokens))], scope) <==> scope in tokens
  {
    var raw := Join([' '], tokens);
    ScpClaimShadows(raw, [], scope);
    assert [Claim(ScpType, raw)] + [] == [Claim(ScpType, raw)];
    SplitJoin(tokens, ' ');
    WhereAll(tokens, NonEmpty);
  }

  // ---------------------------------------------------------------------
  // ValidationsHelper
  // ---------------------------------------------------------------------

  /** One validation error: the property and the message. */
  datatype ValidationFailure = ValidationFailure(propertyName: string, errorMessage: string)

  /** `$"[{PropertyName} : {ErrorMessage}]"`. */
  function ErrorText(e: ValidationFailure): string
  {
    "[" + e.propertyName + " : " + e.errorMessage + "]"
  }

  /** The texts of the errors, one after the other; at least five characters per error. */
  function ErrorString(errors: seq<ValidationFailure>): (r: string)
    ensures |r| >= 5 * |errors|
    decreases |errors|
  {
    if errors == [] then "" else ErrorString(errors[..|errors| - 1]) + ErrorText(errors[|errors| - 1])
  }

  /** The string for two runs of errors is the string of the first followed by that of the second. */
  lemma {:induction false} ErrorStringConcat(a: seq<ValidationFailure>, b: seq<ValidationFailure>)
    ensures ErrorString(a + b) == ErrorString(a) + ErrorString(b)
    decreases |b|
  {
    if b == [] {
      assert a + b == a;
    } else {
      var init := b[..|b| - 1];
      assert (a + b)[..|a + b| - 1] == a + init;
      assert (a + b)[|a + b| - 1] == b[|b| - 1];
      ErrorStringConcat(a, init);
      var x, y, z := ErrorString(a), ErrorString(init), ErrorText(b[|b| - 1]);
      assert ErrorString(a + b) == (x + y) + z;
      assert ErrorString(b) == y + z;
      assert (x + y) + z == x + (y + z);
    }
  }

  /**
   * `Validations` on the errors the validator reported: none for a valid
   * item, otherwise the error string built in a `StringBuilder`.
   */
  method Validations(errors: seq<ValidationFailure>) returns (r: Option<string>)
    ensures r.None? <==> errors == []
    ensures r.Some? ==> r.value == ErrorString(errors) && r.value != ""
  {
    var validationErrors := "";
    if |errors| == 0 {
      return None;
    }
    var i := 0;
    while i < |errors|
      invariant 0 <= i <= |errors|
      invariant validationErrors == ErrorString(errors[..i])
    {
      assert errors[..i + 1][..i] == errors[..i];
      validationErrors := validationErrors + ErrorText(errors[i]);
      i := i + 1;
    }
    assert errors[..i] == errors;
    r := Some(validationErrors);
  }

  // ---------------------------------------------------------------------
  // ApiExceptionHandler
  // ---------------------------------------------------------------------

  /**
   * The exception types the handler tells apart; `TaskCanceled` derives
   * from `OperationCanceled`, and `Validation` is the DataAnnotations one.
   */
  datatype ExceptionKind =
    | UnauthorizedAccess
    | OperationCanceled
    | TaskCanceled
    | Validation
    | BadRequest
    | Conflict
    | NotFound
    | Other

  datatype Exception = Exception(kind: ExceptionKind, message: string)

  /** The status, title and detail of the problem response. */
  datatype Problem = Problem(status: int, title: string, detail: string)

  predicate IsCancellation(k: ExceptionKind)
  {
    k == OperationCanceled || k == TaskCanceled
  }

  /** The kinds whose message is shown to the client. */
  predicate ShowsMessage(k: ExceptionKind)
  {
    k == Validation || k == BadRequest || k == Conflict || k == NotFound
  }

  /** The `switch` on the exception, first matching case first. */
  function ProblemOf(e: Exception): (p: Problem)
    ensures p.status >= 500 <==> e.kind == Other
    ensures IsCancellation(e.kind) <==> p.status == 499
    ensures 400 <= p.status < 500 <==> e.kind != Other
    ensures ShowsMessage(e.kind) ==> p.detail == e.message
    ensures p.status == 401 <==> e.kind == UnauthorizedAccess
    ensures p.status == 400 <==> e.kind == Validation || e.kind == BadRequest
    ensures p.status == 409 <==> e.kind == Conflict
    ensures p.status == 404 <==> e.kind == NotFound
    ensures p.status == 500 <==> e.kind == Other
    ensures p.title == "Unauthorized" <==> e.kind == UnauthorizedAccess
    ensures p.title == "Cancelled" <==> IsCancellation(e.kind)
    ensures p.title == "Validation Error" <==> e.kind == Validation
    ensures p.title == "Bad Request" <==> e.kind == BadRequest
    ensures p.title == "Conflict" <==> e.kind == Conflict
    ensures p.title == "Not Found" <==> e.kind == NotFound
    ensures p.title == "Internal Server Error" <==> e.kind == Other
    ensures e.kind == UnauthorizedAccess ==> p.detail == "Authentication required."
    ensures IsCancellation(e.kind) ==> p.detail == "The request was cancelled."
    ensures e.kind == Other ==> p.detail == "An unexpected error occurred."
  {
    match e.kind
    case UnauthorizedAccess => Problem(401, "Unauthorized", "Authentication required.")
    case OperationCanceled => Problem(499, "Cancelled", "The request was cancelled.")
    case TaskCanceled => Problem(499, "Cancelled", "The request was cancelled.")
    case Validation => Problem(400, "Validation Error", e.message)
    case BadRequest => Problem(400, "Bad Request", e.message)
    case Conflict => Problem(409, "Conflict", e.message)
    case NotFound => Problem(404, "Not Found", e.message)
    case Other => Problem(500, "Internal Server Error", "An unexpected error occurred.")
  }

  /** For the other kinds the message never reaches the client: the problem does not depend on it. */
  lemma HiddenMessage(e: Exception, message: string)
    requires !ShowsMessage(e.kind)
    ensures ProblemOf(e.(message := message)) == ProblemOf(e)
  {
  }

  /** Error level for server errors, warning otherwise. */
  function LogLevelOf(p: Problem): (l: LogEventLevel)
    ensures l == Error || l == Warning
  {
    if p.status >= 500 then Error else Warning
  }

  /** Only unexpected exceptions are logged as errors; cancellations and client errors are warnings. */
  lemma ErrorLoggedOnlyForUnexpected(e: Exception)
    ensures LogLevelOf(ProblemOf(e)) == Error <==> e.kind == Other
    ensures IsCancellation(e.kind) ==> LogLevelOf(ProblemOf(e)) == Warning
  {
  }

  /** The `ProblemDetails` the handler writes: the problem, the request path and the trace identifier. */
  datatype ProblemDetails = ProblemDetails(status: int, title: string, detail: string, instance: string, traceId: string)

  const ProblemContentType: string := "application/problem+json"

  /** The parts of the HTTP response the handler sets. */
  class HttpResponse {
    var statusCode: int
    var contentType: string
    var body: Option<ProblemDetails>

    constructor ()
      ensures statusCode == 200 && contentType == "" && body == None
    {
      statusCode := 200;
      contentType := "";
      body := None;
    }
  }

  /**
   * `TryHandleAsync`: choose the problem, log at the level it calls for
   * (returned as `logged`), set the status and content type, write the
   * problem as the body, and report the exception handled.
   */
  method TryHandle(response: HttpResponse, e: Exception, path: string, traceId: string)
    returns (handled: bool, logged: LogEventLevel)
    modifies response
    ensures handled
    ensures logged == LogLevelOf(ProblemOf(e))
    ensures response.statusCode == ProblemOf(e).status && response.contentType == ProblemContentType
    ensures response.body == Some(ProblemDetails(ProblemOf(e).status, ProblemOf(e).title, ProblemOf(e).detail, path, traceId))
  {
    var problem := ProblemOf(e);
    if problem.status >= 500 {
      logged := Error;
    } else {
      logged := Warning;
    }
    var details := ProblemDetails(problem.status, problem.title, problem.detail, path, traceId);
    response.statusCode := problem.status;
    response.contentType := ProblemContentType;
    response.body := Some(details);
    handled := true;
  }
}
