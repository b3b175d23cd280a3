/**
 * The error-code table of the HTTP layer (api/src/constants/error-code.ts): one status and
 * one message per code, and the message lookup that replaces each `{{key}}` placeholder
 * with the caller's replacement for `key`, or with `unknown`.
 */
module ErrorCodes {
  import opened Wrappers

  datatype ErrorCode =
    | InternalServerError
    | Unauthorized
    | Forbidden
    | ForbiddenCreatorOnly
    | InvalidToken
    | InvalidCredentials
    | FederatedUserPassword
    | NotFound
    | RouteNotFound
    | ValidationError
    | InvalidBody
    | UserExists
    | UserHasEncryptionKeys
    | ResourceExists

  /** The key of the code in the table, which is what responses carry. */
  function Name(code: ErrorCode): string {
    match code
    case InternalServerError => "internal_server_error"
    case Unauthorized => "unauthorized"
    case Forbidden => "forbidden"
    case ForbiddenCreatorOnly => "forbidden_creator_only"
    case InvalidToken => "invalid_token"
    case InvalidCredentials => "invalid_credentials"
    case FederatedUserPassword => "federated_user_password"
    case NotFound => "not_found"
    case RouteNotFound => "route_not_found"
    case ValidationError => "validation_error"
    case InvalidBody => "invalid_body"
    case UserExists => "user_exists"
    case UserHasEncryptionKeys => "user_has_encryption_keys"
    case ResourceExists => "resource_exists"
  }

  /** The HTTP status of a code: an error status, grouped by the kind of failure. */
  function Status(code: ErrorCode): (r: int)
    ensures 400 <= r < 600
    ensures r == 500 <==> code == InternalServerError
    ensures r == 404 <==> code == NotFound || code == RouteNotFound
    ensures r == 400 <==> code == ValidationError || code == InvalidBody
    ensures r == 409 <==> code == UserExists || code == UserHasEncryptionKeys || code == ResourceExists
    ensures r == 403 <==> code == Forbidden || code == ForbiddenCreatorOnly
  {
    match code
    case InternalServerError => 500
    case Unauthorized => 401
    case Forbidden => 403
    case ForbiddenCreatorOnly => 403
    case InvalidToken => 401
    case InvalidCredentials => 401
    case FederatedUserPassword => 401
    case NotFound => 404
    case RouteNotFound => 404
    case ValidationError => 400
    case InvalidBody => 400
    case UserExists => 409
    case UserHasEncryptionKeys => 409
    case ResourceExists => 409
  }

  /** The message template of a code. */
  function Message(code: ErrorCode): string {
    match code
    case InternalServerError => "An internal error occurred. The server cannot complete this request at this moment."
    case Unauthorized => "You are not authorized to access this resource."
    case Forbidden => "You are not authorized to access this resource."
    case ForbiddenCreatorOnly => "Only owners and administrators can modify resources created by other users."
    case InvalidToken => "The OIDC token provided is invalid."
    case InvalidCredentials => "The user credentials provided are invalid."
    case FederatedUserPassword => "The user is federated and cannot be authenticated with a password."
    case NotFound => "The requested resource was not found."
    case RouteNotFound => "The requested route does not exist."
    case ValidationError => "The body or parameters of this request are invalid."
    case InvalidBody => "The body of this request is invalid."
    case UserExists => "A user with this email or username already exists."
    case UserHasEncryptionKeys => "This user already has encryption keys."
    case ResourceExists => "The requested resource already exists."
  }

  // ---------------------------------------------------------------------------------------
  // Placeholder substitution: `replaceAll(/{{(\w+)}}/g, (_, key) => replacements[key] ?? 'unknown')`

  /** A character of the regular-expression class `\w`. */
  predicate IsWordChar(c: char) {
    ('a' <= c <= 'z') || ('A' <= c <= 'Z') || ('0' <= c <= '9') || c == '_'
  }

  /** The length of the longest run of word characters at the start of `s`. */
  function WordLen(s: string): (n: nat)
    ensures n <= |s|
    ensures forall i :: 0 <= i < n ==> IsWordChar(s[i])
    ensures n < |s| ==> !IsWordChar(s[n])
  {
    if s != [] && IsWordChar(s[0]) then 1 + WordLen(s[1..]) else 0
  }

  /**
   * The key of the placeholder `{{key}}` that starts `s`, if one does. The run of word
   * characters is the longest one: `}` is not a word character, so a shorter run could
   * never be followed by `}}`.
   */
  function PlaceholderAt(s: string): (r: Option<string>)
    ensures r.Some? ==>
      (|r.value| > 0 && |r.value| + 4 <= |s|
       && s[..2] == "{{" && s[2..2 + |r.value|] == r.value && s[2 + |r.value|..4 + |r.value|] == "}}"
       && forall i :: 0 <= i < |r.value| ==> IsWordChar(r.value[i]))
    ensures r.None? && |s| >= 2 && s[..2] == "{{" ==>
      WordLen(s[2..]) == 0 || 4 + WordLen(s[2..]) > |s| || s[2 + WordLen(s[2..])..4 + WordLen(s[2..])] != "}}"
  {
    if |s| >= 2 && s[0] == '{' && s[1] == '{' then
      var n := WordLen(s[2..]);
      if n > 0 && 4 + n <= |s| && s[2 + n] == '}' && s[3 + n] == '}' then Some(s[2..2 + n]) else None
    else None
  }

  /** `replacements[key] ?? 'unknown'`. */
  function Lookup(replacements: map<string, string>, key: string): string {
    Get(replacements, key).GetOr("unknown")
  }

  /** One left-to-right pass over `s`, replacing every placeholder it meets. */
  function Substitute(s: string, replacements: map<string, string>): string
    decreases |s|
  {
    match PlaceholderAt(s)
    case Some(key) => Lookup(replacements, key) + Substitute(s[|key| + 4..], replacements)
    case None => if s == [] then [] else [s[0]] + Substitute(s[1..], replacements)
  }

  /** `getErrorMessage(code, replacements)`. */
  function GetErrorMessage(code: ErrorCode, replacements: map<string, string>): string {
    Substitute(Message(code), replacements)
  }

  /** The `{code, message}` object of a code. */
  datatype ErrorObject = ErrorObject(code: ErrorCode, message: string)

  /** `getErrorObject(code, replacements)`. */
  function GetErrorObject(code: ErrorCode, replacements: map<string, string>): (r: ErrorObject)
    ensures r.code == code
  {
    ErrorObject(code, GetErrorMessage(code, replacements))
  }

  // ---------------------------------------------------------------------------------------
  // Properties of the substitution

  /** A text without `{` has no placeholder and comes back unchanged. */
  lemma {:induction false} NoBraceUnchanged(s: string, replacements: map<string, string>)
    requires '{' !in s
    ensures Substitute(s, replacements) == s
    decreases |s|
  {
    if s != [] {
      assert s[0] != '{';
      assert PlaceholderAt(s).None?;
      assert s == [s[0]] + s[1..];
      NoBraceUnchanged(s[1..], replacements);
    }
  }

  /**
   * A placeholder is replaced by its value, which is emitted as it is and not scanned
   * again; the scan resumes after the closing braces.
   */
  lemma PlaceholderReplaced(key: string, rest: string, replacements: map<string, string>)
    requires |key| > 0 && forall i :: 0 <= i < |key| ==> IsWordChar(key[i])
    ensures Substitute("{{" + key + "}}" + rest, replacements) == Lookup(replacements, key) + Substitute(rest, replacements)
  {
    var s := "{{" + key + "}}" + rest;
    WordLenOfWord(key, "}}" + rest);
    assert s[2..] == key + ("}}" + rest);
    assert s[0] == '{' && s[1] == '{';
    assert s[2 + |key|] == '}' && s[3 + |key|] == '}';
    assert s[2..2 + |key|] == key;
    assert PlaceholderAt(s) == Some(key);
    assert s[|key| + 4..] == rest;
  }

  lemma {:induction false} WordLenOfWord(w: string, t: string)
    requires forall i :: 0 <= i < |w| ==> IsWordChar(w[i])
    requires t != [] && !IsWordChar(t[0])
    ensures WordLen(w + t) == |w|
    decreases |w|
  {
    if w != [] {
      assert (w + t)[1..] == w[1..] + t;
      WordLenOfWord(w[1..], t);
    } else {
      assert w + t == t;
    }
  }

  /** A text that does not start a placeholder keeps its first character. */
  lemma LiteralKept(s: string, replacements: map<string, string>)
    requires s != [] && s[0] != '{'
    ensures Substitute(s, replacements) == [s[0]] + Substitute(s[1..], replacements)
  {
  }

  /** A missing replacement is spelled `unknown`. */
  lemma MissingKeyUnknown(key: string, rest: string, replacements: map<string, string>)
    requires |key| > 0 && forall i :: 0 <= i < |key| ==> IsWordChar(key[i])
    requires key !in replacements
    ensures Substitute("{{" + key + "}}" + rest, replacements) == "unknown" + Substitute(rest, replacements)
  {
    PlaceholderReplaced(key, rest, replacements);
  }

}
