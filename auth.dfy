/**
 * The `authorized` decorator: the request carries a token in the
 * `Authorization` header or the `_authToken` argument (the argument wins when
 * both are there), and it is accepted iff that token equals the configured
 * `VALID_TOKEN`; otherwise it is aborted with 401 before the view runs.
 */
module Auth {
  import opened Wrappers
  import opened Http

  const AuthorizationHeader := "Authorization"
  const AuthTokenArg := "_authToken"

  /** The process-wide `CONF` dictionary. */
  datatype Config = Config(database: string, debug: bool, validToken: string)

  const CONF := Config("dbname=gonzalo user=username", true, "superSecretToken")

  /** `isValidToken`: `CONF['VALID_TOKEN'] == access_token`. */
  function IsValidToken(conf: Config, token: string): (ok: bool)
    ensures ok <==> token == conf.validToken
  {
    conf.validToken == token
  }

  /** The local `token` of `_wrap`: the header first, then overwritten by the argument if present. */
  function ChosenToken(headers: Headers, args: Args): (t: Option<string>)
    ensures t.None? <==> AuthorizationHeader !in headers && AuthTokenArg !in args
    ensures AuthTokenArg in args ==> t == Some(args[AuthTokenArg])
    ensures AuthTokenArg !in args && AuthorizationHeader in headers ==> t == Some(headers[AuthorizationHeader])
  {
    var token := if AuthorizationHeader in headers then Some(headers[AuthorizationHeader]) else None;
    if AuthTokenArg in args then Some(args[AuthTokenArg]) else token
  }

  /** Whether `_wrap` calls the view (true) or aborts with 401 (false). */
  function Authorized(conf: Config, headers: Headers, args: Args): (ok: bool)
    ensures ok <==> ChosenToken(headers, args).Some? && ChosenToken(headers, args).value == conf.validToken
  {
    if AuthorizationHeader !in headers && AuthTokenArg !in args then false
    else
      var token := ChosenToken(headers, args);
      IsValidToken(conf, token.value)
  }

  /** Independent statement of the rule, case by case on which credentials are present. */
  lemma AuthorizedCases(conf: Config, headers: Headers, args: Args)
    ensures Authorized(conf, headers, args) <==>
      || (AuthTokenArg in args && args[AuthTokenArg] == conf.validToken)
      || (AuthTokenArg !in args && AuthorizationHeader in headers && headers[AuthorizationHeader] == conf.validToken)
  {
  }

  /** With neither credential the request is rejected, whatever the secret. */
  lemma NoCredentialsRejected(conf: Config, headers: Headers, args: Args)
    requires AuthorizationHeader !in headers && AuthTokenArg !in args
    ensures !Authorized(conf, headers, args)
  {
  }

  /** When the argument is present the header's value plays no part in the decision. */
  lemma ArgumentTakesPrecedence(conf: Config, headers: Headers, args: Args, other: string)
    requires AuthTokenArg in args
    ensures Authorized(conf, headers[AuthorizationHeader := other], args) == Authorized(conf, headers, args)
  {
  }

  /** A correct header does not rescue a wrong `_authToken`: such a request is rejected. */
  lemma WrongArgumentOverridesValidHeader()
    ensures !Authorized(CONF, map[AuthorizationHeader := "superSecretToken"], map[AuthTokenArg := "wrong"])
  {
  }

  /** The argument alone is enough, exactly as the header alone is. */
  lemma EitherCredentialAloneSuffices(conf: Config)
    ensures Authorized(conf, map[], map[AuthTokenArg := conf.validToken])
    ensures Authorized(conf, map[AuthorizationHeader := conf.validToken], map[])
  {
  }
}
