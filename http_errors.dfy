/**
 * The HTTP error type of the api (api/src/utils/custom-errors.ts): an error carrying a
 * code of the table, its status, an optional cause, optional details and a message that
 * is either the caller's or the table's, with the details as replacements.
 */
module HttpErrors {
  import opened Wrappers
  import opened ErrorCodes

  /** A value inside the details object. */
  datatype DetailValue =
    | Text(text: string)
    | Number(number: int)
    | Texts(texts: seq<string>)
    | Missing                        // a property whose value is `undefined`

  /** `details`: absent, a plain object, or a value that is not an object. */
  datatype Details =
    | NoDetails
    | Fields(fields: map<string, DetailValue>)
    | Primitive(text: string)

  /**
   * The cause of an error. Causes are arbitrary values; the model keeps a description of
   * one, which is enough to say where it goes.
   */
  datatype Cause = Cause(description: string)

  datatype HttpError = HttpError(
    code: ErrorCode,
    cause: Option<Cause>,
    message: string,
    statusCode: int,
    details: Details)

  /** The decimal spelling of an integer, as `String(n)` gives it. */
  function Decimal(n: int): (r: string)
    ensures |r| > 0
    decreases if n < 0 then 1 - n else n
  {
    if n < 0 then "-" + Decimal(-n)
    else if n < 10 then ["0123456789"[n]]
    else Decimal(n / 10) + ["0123456789"[n % 10]]
  }

  /** `xs.join(',')`, which is how an array is spelled when it replaces a placeholder. */
  function JoinComma(xs: seq<string>): string
    decreases |xs|
  {
    if xs == [] then ""
    else if |xs| == 1 then xs[0]
    else JoinComma(xs[..|xs| - 1]) + "," + xs[|xs| - 1]
  }

  /** The text a detail value puts in place of a placeholder, if any. */
  function Render(v: DetailValue): Option<string> {
    match v
    case Text(s) => Some(s)
    case Number(n) => Some(Decimal(n))
    case Texts(xs) => Some(JoinComma(xs))
    case Missing => None
  }

  /**
   * The replacements the details supply: the defined properties of an object, none for
   * anything else (`_.isObject(details) ? details : {}`).
   */
  function Replacements(d: Details): (r: map<string, string>)
    ensures d.Fields? ==> forall k :: k in r <==> k in d.fields && d.fields[k] != Missing
    ensures !d.Fields? ==> r == map[]
  {
    match d
    case Fields(fs) => map k | k in fs && fs[k] != Missing :: Render(fs[k]).value
    case _ => map[]
  }

  /** The protected constructor, which `HttpError.of` calls with the same arguments. */
  function Of(code: ErrorCode, cause: Option<Cause>, customMessage: Option<string>, details: Details): (r: HttpError)
    ensures r.code == code && r.cause == cause && r.details == details
    ensures r.statusCode == Status(code)
    ensures customMessage.Some? ==> r.message == customMessage.value
    ensures customMessage.None? ==> r.message == GetErrorMessage(code, Replacements(details))
  {
    var message := match customMessage
      case Some(m) => m
      case None => GetErrorMessage(code, Replacements(details));
    HttpError(code, cause, message, Status(code), details)
  }

  /** `HttpError.get(code)`: the table's message and status, with no cause and no details. */
  function GetError(code: ErrorCode): (r: HttpError)
    ensures r.code == code && r.cause.None? && r.details.NoDetails?
    ensures r.statusCode == Status(code) && r.message == GetErrorMessage(code, map[])
  {
    Of(code, None, None, NoDetails)
  }

  /** The alias of a missing resource: a handle or a numeric id. */
  datatype Alias = TextAlias(text: string) | NumberAlias(number: int)

  function AliasValue(a: Alias): DetailValue {
    match a
    case TextAlias(s) => Text(s)
    case NumberAlias(n) => Number(n)
  }

  /** `HttpErrors.notFound(resource, alias)`. */
  function NotFoundError(resource: string, alias: Alias): (r: HttpError)
    ensures r.code == ErrorCode.NotFound && r.statusCode == 404 && r.cause.None?
    ensures r.details == Fields(map["resource" := Text(resource), "alias" := AliasValue(alias)])
    ensures r.message == GetErrorMessage(ErrorCode.NotFound, map["resource" := resource, "alias" := Render(AliasValue(alias)).value])
  {
    var fields := map["resource" := Text(resource), "alias" := AliasValue(alias)];
    assert Replacements(Fields(fields)) == map["resource" := resource, "alias" := Render(AliasValue(alias)).value];
    Of(ErrorCode.NotFound, None, None, Fields(fields))
  }

  /** The `role_required` detail: the roles when given, `undefined` otherwise. */
  function RolesValue(validRoles: Option<seq<string>>): DetailValue {
    match validRoles
    case Some(rs) => Texts(rs)
    case None => Missing
  }

  /** `HttpErrors.forbidden(resource, alias, validRoles)`. */
  function ForbiddenError(resource: string, alias: string, validRoles: Option<seq<string>>): (r: HttpError)
    ensures r.code == ErrorCode.Forbidden && r.statusCode == 403 && r.cause.None?
    ensures r.details == Fields(map["resource" := Text(resource), "alias" := Text(alias), "role_required" := RolesValue(validRoles)])
    ensures r.message == GetErrorMessage(ErrorCode.Forbidden, Replacements(r.details))
  {
    Of(ErrorCode.Forbidden, None, None, Fields(map["resource" := Text(resource), "alias" := Text(alias), "role_required" := RolesValue(validRoles)]))
  }

  /** The roles replace a `{{role_required}}` placeholder only when they are given. */
  lemma RolesReplaceOnlyWhenGiven(resource: string, alias: string, validRoles: Option<seq<string>>)
    ensures "role_required" in Replacements(ForbiddenError(resource, alias, validRoles).details) <==> validRoles.Some?
  {
    var fs := ForbiddenError(resource, alias, validRoles).details.fields;
    assert fs["role_required"] == RolesValue(validRoles);
    assert "role_required" in fs;
  }
}
