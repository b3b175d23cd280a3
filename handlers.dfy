/**
 * The HTTP error plumbing of the server (src/utils/handlers.ts): the error handler that
 * turns whatever a route throws into a status and an `{error: ...}` body, the handler for
 * unknown routes, and the choice of schema compiler per part of a request.
 *
 * The error classes and the error-code table are those of the api edition
 * (api/src/utils/custom-errors.ts, api/src/constants/error-code.ts); NODE_ENV is a
 * parameter.
 */
module Handlers {
  import opened Wrappers
  import opened ErrorCodes
  import opened HttpErrors

  /** One entry of a validation report. */
  datatype Issue = Issue(instancePath: string, message: string)

  /** The `validation` value of a reply: `true`, a list of issues, or `{}`. */
  datatype Validation = ValidationFlag | ValidationIssues(issues: seq<Issue>) | EmptyValidation

  /**
   * What a route can throw:
   * - an `HttpError`;
   * - ajv's `ValidationError`, whose `validation` property is `true` and which has no code;
   * - a `CustomValidationError` with the issues of a failed parse;
   * - any other error, seen through its `code`, `name`, `message`, `statusCode` and
   *   `validation` properties (Fastify's own errors among them).
   */
  datatype Thrown =
    | Http(err: HttpError)
    | AjvValidation(ajvErrors: seq<Issue>)
    | CustomValidation(errors: seq<Issue>)
    | Plain(code: Option<string>, name: string, message: string, statusCode: int, validation: Option<seq<Issue>>)

  /**
   * A `code` property: a code of the table, or another string. The handler compares codes
   * only with Fastify's codes, none of which is in the table (`TableCodesAreNotFastifyCodes`),
   * so keeping the two apart loses nothing.
   */
  datatype Code = TableCode(code: ErrorCode) | RawCode(text: string) | NoCode

  /** The JSON spelling of a code, if it has one (`undefined` is left out of a reply). */
  function Spelling(c: Code): Option<string> {
    match c
    case TableCode(e) => Some(Name(e))
    case RawCode(s) => Some(s)
    case NoCode => None
  }

  /** `error.code`. */
  function CodeOf(t: Thrown): Code {
    match t
    case Http(err) => TableCode(err.code)
    case AjvValidation(_) => NoCode
    case CustomValidation(_) => NoCode
    case Plain(code, _, _, _, _) => if code.Some? then RawCode(code.value) else NoCode
  }

  /** `error.message`. */
  function MessageOf(t: Thrown): string {
    match t
    case Http(err) => err.message
    case AjvValidation(_) => "validation failed"
    case CustomValidation(_) => "Validation error"
    case Plain(_, _, message, _, _) => message
  }

  /** `error.validation ?? {}` for the errors the validation branch takes. */
  function ValidationOf(t: Thrown): Validation {
    match t
    case AjvValidation(_) => ValidationFlag
    case Plain(_, _, _, _, Some(issues)) => ValidationIssues(issues)
    case _ => EmptyValidation
  }

  /** What the `cause` property of a reply holds. */
  datatype CauseValue = ErrorCause(cause: Option<Cause>) | WholeError(error: Thrown)

  /** The `error` object of a reply; `NoDetails` and `None` are properties left out. */
  datatype ErrorBody = ErrorBody(
    code: Code,
    message: string,
    details: Details,
    validation: Option<Validation>,
    cause: Option<CauseValue>)

  datatype Reply = Reply(status: int, body: ErrorBody)

  const InvalidJsonBody: string := "FST_ERR_CTP_INVALID_JSON_BODY"
  const FastifyValidation: string := "FST_ERR_VALIDATION"
  const InvalidJsonCode: Code := RawCode(InvalidJsonBody)
  const ValidationCode: Code := RawCode(FastifyValidation)

  /** `DISPLAY_CAUSE_ENVIRONMENTS.includes(env.NODE_ENV)`. */
  predicate DisplaysCause(nodeEnv: string) {
    nodeEnv == "test" || nodeEnv == "development"
  }

  /** The branch of the cascade an error takes, tested in the handler's order. */
  datatype Branch = InvalidJson | HttpBranch | ValidationBranch | CustomValidationBranch | FastifyBranch | Uncaught

  function BranchOf(t: Thrown): (b: Branch)
    ensures b == InvalidJson <==> CodeOf(t) == InvalidJsonCode
    ensures b == HttpBranch <==> t.Http?
    ensures b == ValidationBranch <==> CodeOf(t) != InvalidJsonCode && (t.AjvValidation? || CodeOf(t) == ValidationCode)
    ensures b == CustomValidationBranch <==> t.CustomValidation?
    ensures b == FastifyBranch <==> t.Plain? && CodeOf(t) != InvalidJsonCode && CodeOf(t) != ValidationCode && t.name == "FastifyError"
  {
    if CodeOf(t) == InvalidJsonCode then InvalidJson
    else if t.Http? then HttpBranch
    else if t.AjvValidation? || CodeOf(t) == ValidationCode then ValidationBranch
    else if t.CustomValidation? then CustomValidationBranch
    else if t.name == "FastifyError" then FastifyBranch
    else Uncaught
  }

  /** No code of the table is one of Fastify's codes, so an `HttpError` never takes the first branch. */
  lemma TableCodesAreNotFastifyCodes(c: ErrorCode)
    ensures Name(c) != InvalidJsonBody && Name(c) != FastifyValidation
  {
  }

  /** `errorHandler(error, req, reply)`: the status and body sent back. */
  function ErrorHandler(t: Thrown, nodeEnv: string): (r: Reply)
    ensures BranchOf(t) == InvalidJson ==>
      r == Reply(400, ErrorBody(TableCode(ErrorCode.InvalidBody), GetErrorMessage(ErrorCode.InvalidBody, map[]), Fields(map["message" := Text(MessageOf(t))]), None, None))
    ensures BranchOf(t) == HttpBranch ==>
      r.status == t.err.statusCode && r.body.code == TableCode(t.err.code) && r.body.message == t.err.message
      && r.body.details == t.err.details && r.body.validation.None?
      && r.body.cause == (if DisplaysCause(nodeEnv) then Some(ErrorCause(t.err.cause)) else None)
    ensures BranchOf(t) == ValidationBranch ==>
      r == Reply(400, ErrorBody(TableCode(ErrorCode.ValidationError), GetErrorMessage(ErrorCode.ValidationError, map[]), NoDetails, Some(ValidationOf(t)), None))
    ensures BranchOf(t) == CustomValidationBranch ==>
      r == Reply(400, ErrorBody(TableCode(ErrorCode.ValidationError), GetErrorMessage(ErrorCode.ValidationError, map[]), NoDetails, Some(ValidationIssues(t.errors)), None))
    ensures BranchOf(t) == FastifyBranch ==>
      r == Reply(t.statusCode, ErrorBody(CodeOf(t), t.message, NoDetails, None, None))
    ensures BranchOf(t) == Uncaught ==>
      r.status == 500 && r.body.code == TableCode(ErrorCode.InternalServerError)
      && r.body.message == (if DisplaysCause(nodeEnv) then MessageOf(t) else GetErrorMessage(ErrorCode.InternalServerError, map[]))
      && r.body.cause == (if DisplaysCause(nodeEnv) then Some(WholeError(t)) else None)
  {
    var display := DisplaysCause(nodeEnv);
    match BranchOf(t)
    case InvalidJson =>
      Reply(400, ErrorBody(TableCode(ErrorCode.InvalidBody), GetErrorMessage(ErrorCode.InvalidBody, map[]),
                           Fields(map["message" := Text(MessageOf(t))]), None, None))
    case HttpBranch =>
      Reply(t.err.statusCode, ErrorBody(TableCode(t.err.code), t.err.message, t.err.details, None,
                                        if display then Some(ErrorCause(t.err.cause)) else None))
    case ValidationBranch =>
      Reply(400, ErrorBody(TableCode(ErrorCode.ValidationError), GetErrorMessage(ErrorCode.ValidationError, map[]),
                           NoDetails, Some(ValidationOf(t)), None))
    case CustomValidationBranch =>
      Reply(400, ErrorBody(TableCode(ErrorCode.ValidationError), GetErrorMessage(ErrorCode.ValidationError, map[]),
                           NoDetails, Some(ValidationIssues(t.errors)), None))
    case FastifyBranch =>
      Reply(t.statusCode, ErrorBody(CodeOf(t), t.message, NoDetails, None, None))
    case Uncaught =>
      Reply(500, ErrorBody(TableCode(ErrorCode.InternalServerError),
                           if display then MessageOf(t) else GetErrorMessage(ErrorCode.InternalServerError, map[]),
                           NoDetails, None, if display then Some(WholeError(t)) else None))
  }

  /**
   * The serialized reply has a `cause` key: JSON serialization drops a property whose value
   * is `undefined`, so an `HttpError` without a cause sends none even where causes are shown.
   */
  predicate CauseSent(b: ErrorBody) {
    b.cause.Some? && (b.cause.value.ErrorCause? ==> b.cause.value.cause.Some?)
  }

  /**
   * The reply object carries a `cause` property only in the display environments, and there it does for
   * every `HttpError` and every uncaught error; the body sent holds the key when the property's
   * value is defined.
   */
  lemma CauseOnlyWhenDisplayed(t: Thrown, nodeEnv: string)
    ensures ErrorHandler(t, nodeEnv).body.cause.Some? ==> DisplaysCause(nodeEnv)
    ensures DisplaysCause(nodeEnv) && BranchOf(t) in {HttpBranch, Uncaught} ==> ErrorHandler(t, nodeEnv).body.cause.Some?
    ensures CauseSent(ErrorHandler(t, nodeEnv).body) <==>
      DisplaysCause(nodeEnv) && (BranchOf(t) == Uncaught || (BranchOf(t) == HttpBranch && t.err.cause.Some?))
  {
  }

  /** An `HttpError` built by its constructor: the status is the table's for its code. */
  predicate FromTable(err: HttpError) {
    err.statusCode == Status(err.code)
  }

  /**
   * Every reply except one for a Fastify error carries a code of the table and that
   * code's status, provided the `HttpError`s thrown were built by their constructor.
   */
  lemma {:induction false} RepliesFollowTable(t: Thrown, nodeEnv: string)
    requires t.Http? ==> FromTable(t.err)
    requires BranchOf(t) != FastifyBranch
    ensures ErrorHandler(t, nodeEnv).body.code.TableCode?
    ensures ErrorHandler(t, nodeEnv).status == Status(ErrorHandler(t, nodeEnv).body.code.code)
  {
    var r := ErrorHandler(t, nodeEnv);
    match BranchOf(t)
    case InvalidJson => assert r.body.code == TableCode(ErrorCode.InvalidBody);
    case HttpBranch => assert r.body.code == TableCode(t.err.code);
    case ValidationBranch => assert r.body.code == TableCode(ErrorCode.ValidationError);
    case CustomValidationBranch => assert r.body.code == TableCode(ErrorCode.ValidationError);
    case Uncaught => assert r.body.code == TableCode(ErrorCode.InternalServerError);
  }

  /** Every reply is an error reply: a status of 400 or more for the table's codes and Fastify's. */
  lemma RepliesAreErrors(t: Thrown, nodeEnv: string)
    requires t.Http? ==> FromTable(t.err)
    requires BranchOf(t) == FastifyBranch ==> t.statusCode >= 400
    ensures ErrorHandler(t, nodeEnv).status >= 400
  {
  }

  /** `notFoundHandler(req, reply)` for a request to `url`. */
  function NotFoundHandler(url: string): (r: Reply)
    ensures r.status == 404 && r.status == Status(ErrorCode.NotFound)
    ensures r.body.code == TableCode(ErrorCode.NotFound) && r.body.message == GetErrorMessage(ErrorCode.NotFound, map[])
    ensures r.body.details.Fields? && r.body.details.fields.Keys == {"resource", "alias"}
    ensures r.body.details.fields["resource"] == Text("route") && r.body.details.fields["alias"] == Text(url)
    ensures r.body.validation.None? && r.body.cause.None?
  {
    Reply(404, ErrorBody(TableCode(ErrorCode.NotFound), GetErrorMessage(ErrorCode.NotFound, map[]),
                         Fields(map["resource" := Text("route"), "alias" := Text(url)]), None, None))
  }

  /** The two schema compilers: one that coerces types, and one that does not. */
  datatype SchemaCompiler = Coercing | NonCoercing

  /** `schemaCompilers[part]`. */
  function CompilerFor(part: string): Option<SchemaCompiler> {
    if part == "body" then Some(NonCoercing)
    else if part == "params" || part == "querystring" || part == "headers" then Some(Coercing)
    else None
  }

  /**
   * `validatorCompiler(routeSchema)`: the compiler that compiles the schema of a request
   * part, or the error it throws; an absent or empty part is missing.
   */
  function ValidatorCompiler(httpPart: Option<string>): (r: Result<SchemaCompiler, string>)
    ensures (httpPart.None? || httpPart == Some("")) ==> r == Err("Missing httpPart")
    ensures r.Ok? <==> httpPart.Some? && httpPart.value in {"body", "params", "querystring", "headers"}
    ensures r == Ok(NonCoercing) <==> httpPart == Some("body")
    ensures r == Ok(Coercing) <==> httpPart.Some? && httpPart.value in {"params", "querystring", "headers"}
    ensures r.Err? && httpPart.Some? && httpPart.value != "" ==> r.error == "Missing compiler for " + httpPart.value
  {
    match httpPart
    case None => Err("Missing httpPart")
    case Some(part) =>
      if part == "" then Err("Missing httpPart")
      else match CompilerFor(part)
        case Some(c) => Ok(c)
        case None => Err("Missing compiler for " + part)
  }
}
