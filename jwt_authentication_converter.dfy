/** Turning a request into an authentication
    (Config/JwtAuthenticationConverter.java). Public paths are skipped, the
    token must follow the `Bearer ` scheme of section 2.1 of RFC 6750, the
    role claim becomes a single `ROLE_` authority, and every failure means
    no authentication. */
module AuthenticationConverter {
  import opened Wrappers
  import opened Strings
  import opened KeyRegistry
  import opened JwtUtil

  const BearerPrefix: string := "Bearer "
  const DefaultRole: string := "USER"
  const RolePrefix: string := "ROLE_"

  /** The principal handed to the security layer: email (the subject),
      userId, role (absent when the claim held a null), and the granted
      authorities. */
  datatype Authentication = Authentication(email: Option<string>, userId: Option<string>, role: Option<string>,
                                           authorities: seq<string>)

  /** The claim could not be read as the type the code asks for. */
  datatype ClaimError = WrongType

  /** Paths that never need a token. */
  predicate IsPublicPath(path: string)
    ensures StartsWith(path, "/api/v1/") && !StartsWith(path, "/api/v1/auth/") ==> !IsPublicPath(path)
    ensures IsPublicPath(path) ==> |path| > 1 && path[0] == '/'
    ensures StartsWith(path, "/actuator/") || StartsWith(path, "/api/v1/auth/") || path == "/.well-known/jwks.json"
      ==> IsPublicPath(path)
  {
    assert StartsWith(path, "/api/v1/") ==> path[1] == 'a' && path[2] == 'p';
    StartsWith(path, "/actuator/") || StartsWith(path, "/api/v1/auth/") || path == "/.well-known/jwks.json"
  }

  /** claims.get("userId", String.class): a string, absent when missing or
      null, and an error for any other type. */
  function UserIdOf(c: ClaimValue): (r: Result<Option<string>, ClaimError>)
    ensures r.Success? && r.value.Some? <==> c.Str?
    ensures c.Str? ==> r == Success(Some(c.text))
    ensures c.Missing? || c.Null? ==> r == Success(None)
    ensures r.Failure? <==> c.Arr? || c.Other?
  {
    match c
    case Str(s) => Success(Some(s))
    case Missing => Success(None)
    case Null => Success(None)
    case _ => Failure(WrongType)
  }

  /** The role: the first element of a non-empty list, a string itself,
      "USER" otherwise. A first element that is not a string fails the cast
      to String; a null one gives a null role. */
  function RoleOf(c: ClaimValue): (r: Result<Option<string>, ClaimError>)
    ensures c.Str? ==> r == Success(Some(c.text))
    ensures c.Missing? || c.Null? || c.Other? || c == Arr([]) ==> r == Success(Some(DefaultRole))
    ensures c.Arr? && c.items != [] && c.items[0].Str? ==> r == Success(Some(c.items[0].text))
    ensures c.Arr? && c.items != [] && c.items[0].Null? ==> r == Success(None)
    ensures r.Failure? <==> c.Arr? && c.items != [] && !c.items[0].Str? && !c.items[0].Null?
  {
    match c
    case Arr(items) =>
      if |items| == 0 then Success(Some(DefaultRole))
      else
        (match items[0]
         case Str(s) => Success(Some(s))
         case Null => Success(None)
         case _ => Failure(WrongType))
    case Str(s) => Success(Some(s))
    case _ => Success(Some(DefaultRole))
  }

  /** "ROLE_" + role, where Java renders a null role as "null". */
  function RoleAuthority(role: Option<string>): string {
    RolePrefix + (if role.Some? then role.value else "null")
  }

  /** convert(exchange): `authorization` holds the values of the
      Authorization header, of which only the first is read. */
  function Convert(path: string, authorization: seq<string>, decode: Decoder, lookup: KeyLookup, verify: Verifier)
    : (r: Option<Authentication>)
    ensures r.Some? ==> !IsPublicPath(path) && authorization != [] && StartsWith(authorization[0], BearerPrefix)
    ensures r.Some? ==> r.value.authorities == [RoleAuthority(r.value.role)]
    ensures r.Some? ==>
      var parsed := ParseClaims(authorization[0][|BearerPrefix|..], decode, lookup, verify);
      && parsed.Success?
      && RoleOf(parsed.value.role) == Success(r.value.role)
      && UserIdOf(parsed.value.userId) == Success(r.value.userId)
      && r.value.email == parsed.value.subject
  {
    if IsPublicPath(path) then None
    else if authorization == [] || !StartsWith(authorization[0], BearerPrefix) then None
    else
      var token := authorization[0][|BearerPrefix|..];
      match ParseClaims(token, decode, lookup, verify)
      case Failure(_) => None
      case Success(claims) =>
        match UserIdOf(claims.userId)
        case Failure(_) => None
        case Success(userId) =>
          match RoleOf(claims.role)
          case Failure(_) => None
          case Success(role) => Some(Authentication(claims.subject, userId, role, [RoleAuthority(role)]))
  }

  // ---- Properties -------------------------------------------------------

  /** A public path is skipped whatever the headers hold. */
  lemma PublicPathSkipsHeaders(path: string, authorization: seq<string>, decode: Decoder, lookup: KeyLookup, verify: Verifier)
    requires IsPublicPath(path)
    ensures Convert(path, authorization, decode, lookup, verify) == None
  {
  }

  /** The scheme is matched exactly: a lower-case scheme, or no space after
      it, gives no authentication. */
  lemma BearerIsCaseSensitive(path: string, rest: string, decode: Decoder, lookup: KeyLookup, verify: Verifier)
    ensures Convert(path, ["bearer " + rest], decode, lookup, verify) == None
    ensures Convert(path, ["Bearer"], decode, lookup, verify) == None
  {
    assert ("bearer " + rest)[0] == 'b';
  }

  /** Exactly when authentication succeeds: a private path, a Bearer
      header, a token that parses, and userId and role claims of usable
      types; the email is then the subject. */
  lemma ConvertSucceedsIff(path: string, authorization: seq<string>, decode: Decoder, lookup: KeyLookup, verify: Verifier)
    ensures var r := Convert(path, authorization, decode, lookup, verify);
      r.Some? <==>
        && !IsPublicPath(path)
        && authorization != [] && StartsWith(authorization[0], BearerPrefix)
        && var parsed := ParseClaims(authorization[0][|BearerPrefix|..], decode, lookup, verify);
           parsed.Success? && UserIdOf(parsed.value.userId).Success? && RoleOf(parsed.value.role).Success?
    ensures var r := Convert(path, authorization, decode, lookup, verify);
      r.Some? ==> r.value.email == ParseClaims(authorization[0][|BearerPrefix|..], decode, lookup, verify).value.subject
  {
  }

  /** Before the registry has any key, every protected request is left
      unauthenticated rather than failing. */
  lemma NoKeysNoAuthentication(path: string, authorization: seq<string>, decode: Decoder, lookup: KeyLookup, verify: Verifier)
    requires RegistryLookup(map[], lookup)
    ensures Convert(path, authorization, decode, lookup, verify) == None
  {
    if !IsPublicPath(path) && authorization != [] && StartsWith(authorization[0], BearerPrefix) {
      KeysNotLoadedIffEmptyCache(map[], lookup, authorization[0][|BearerPrefix|..], decode, verify);
    }
  }

  /** A role list grants exactly its first role, whatever follows. */
  lemma FirstListedRoleGranted(path: string, authorization: seq<string>, decode: Decoder, lookup: KeyLookup, verify: Verifier,
                               role: string, others: seq<ClaimValue>)
    requires Convert(path, authorization, decode, lookup, verify).Some?
    requires ParseClaims(authorization[0][|BearerPrefix|..], decode, lookup, verify).value.role == Arr([Str(role)] + others)
    ensures Convert(path, authorization, decode, lookup, verify).value.authorities == [RolePrefix + role]
  {
    assert ([Str(role)] + others)[0] == Str(role);
  }
}
