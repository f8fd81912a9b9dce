/** The HTTP Basic authentication gate in front of the application
    (section 2 of RFC 7617): the enable flag, the paths that bypass it and
    the credential check. */
module BasicAuth {
  import opened Common
  import opened Text

  /** `is_basic_auth_enabled`: `BASIC_AUTH_ENABLED` is "true" in any case,
      or "1"; unset means disabled. */
  function Enabled(env: Option<string>): (on: bool)
    ensures env.None? ==> !on
  {
    env.Some? && (Lower(env.value) == "true" || env.value == "1")
  }

  lemma EnabledValues()
    ensures Enabled(Some("true")) && Enabled(Some("TRUE")) && Enabled(Some("True")) && Enabled(Some("1"))
    ensures !Enabled(Some("yes")) && !Enabled(Some("0")) && !Enabled(Some("")) && !Enabled(None)
  {
    assert Lower("TRUE") == "true" && Lower("True") == "true";
    assert Lower("yes") != "true" by { assert |Lower("yes")| == 3; }
    assert Lower("0") != "true" by { assert |Lower("0")| == 1; }
  }

  /** `EXCLUDED_PATHS`. */
  const ExcludedPaths: seq<string> :=
    ["/health", "/api/auth/github", "/api/auth/google", "/login/oauth2/code/github", "/login/oauth2/code/google"]

  /** A path is excluded when it starts with one of the prefixes. */
  predicate IsExcluded(path: string) {
    exists p :: p in ExcludedPaths && StartsWith(path, p)
  }

  /** Prefix matching lets every longer path through as well, such as
      "/healthz" and "/api/auth/github/callback". */
  lemma HealthzBypasses(i: nat, rest: string)
    requires i < |ExcludedPaths|
    ensures IsExcluded(ExcludedPaths[i] + rest)
    ensures IsExcluded("/healthz") && IsExcluded("/api/auth/github/callback")
  {
    assert (ExcludedPaths[i] + rest)[..|ExcludedPaths[i]|] == ExcludedPaths[i];
    assert StartsWith(ExcludedPaths[i] + rest, ExcludedPaths[i]);
    assert "/healthz" == ExcludedPaths[0] + "z";
    assert "/api/auth/github/callback" == ExcludedPaths[1] + "/callback";
    assert "/healthz"[..7] == ExcludedPaths[0];
    assert StartsWith("/healthz", ExcludedPaths[0]);
    assert "/api/auth/github/callback"[..16] == ExcludedPaths[1];
    assert StartsWith("/api/auth/github/callback", ExcludedPaths[1]);
  }

  const User: string := "fithub"
  const Password: string := "timpo"

  /** `str::split_once(':')`: the text before and after the first colon. */
  function SplitOnce(s: string, c: char): (r: Option<(string, string)>)
    ensures r.None? <==> c !in s
    ensures r.Some? ==> c !in r.value.0 && s == r.value.0 + [c] + r.value.1
  {
    if c !in s then None
    else
      var i := IndexOf(s, c);
      assert s == s[..i] + [c] + s[i + 1..];
      Some((s[..i], s[i + 1..]))
  }

  /** The decoded `user:password` text matches the fixed credentials. */
  predicate CredentialsMatch(credentials: string) {
    match SplitOnce(credentials, ':')
    case None => false
    case Some((user, pass)) => user == User && pass == Password
  }

  /** Since the user id holds no colon, the credentials match exactly when
      the decoded text is "fithub:timpo". */
  lemma CredentialsExact(credentials: string)
    ensures CredentialsMatch(credentials) <==> credentials == User + ":" + Password
  {
    if credentials == User + ":" + Password {
      assert ':' in credentials by { assert credentials[6] == ':'; }
      var r := SplitOnce(credentials, ':');
      assert ':' !in User;
      SplitUnique(r.value.0, r.value.1, User, Password);
    }
  }

  /** Splitting at a colon absent from the first part is unambiguous. */
  lemma SplitUnique(a: string, b: string, c: string, d: string)
    requires ':' !in a && ':' !in c
    requires a + ":" + b == c + ":" + d
    ensures a == c && b == d
  {
    var s := a + ":" + b;
    assert |a| == |c| by {
      assert s[|a|] == ':' && s[|c|] == ':';
    }
    assert a == s[..|a|] && c == s[..|c|];
    assert b == s[|a| + 1..] && d == s[|c| + 1..];
  }

  /** The gate's answer: forward the request, or answer 401 with a
      challenge naming the realm. */
  datatype Decision = PassThrough | Challenge(status: int, wwwAuthenticate: string, body: string)

  const Realm401: Decision := Challenge(401, "Basic realm=\"FithubFast\"", "Unauthorized")

  /** `BasicAuthMiddleware::call`. `authorization` is the header when it is
      present and readable as text; `decode` is standard Base64 decoding
      (section 4 of RFC 4648) followed by UTF-8 validation, absent on
      failure. */
  function Gate(enabled: bool, path: string, authorization: Option<string>,
                decode: string -> Option<string>): (d: Decision)
    ensures d.PassThrough? <==>
      !enabled || IsExcluded(path)
      || (authorization.Some? && StartsWith(authorization.value, "Basic ")
          && decode(authorization.value[6..]).Some? && CredentialsMatch(decode(authorization.value[6..]).value))
    ensures d.Challenge? ==> d == Realm401
  {
    if !enabled then PassThrough
    else if IsExcluded(path) then PassThrough
    else if authorization.Some? && StartsWith(authorization.value, "Basic ") then
      match decode(authorization.value[6..])
      case Some(credentials) => if CredentialsMatch(credentials) then PassThrough else Realm401
      case None => Realm401
    else Realm401
  }

  /** A request is let through by the credential check exactly when the
      header carries "Basic " and an encoding of "fithub:timpo". */
  lemma GateAcceptsOnlyTheCredentials(path: string, header: string, decode: string -> Option<string>)
    requires !IsExcluded(path)
    ensures Gate(true, path, Some(header), decode).PassThrough? <==>
      StartsWith(header, "Basic ") && decode(header[6..]) == Some(User + ":" + Password)
  {
    if StartsWith(header, "Basic ") && decode(header[6..]).Some? {
      CredentialsExact(decode(header[6..]).value);
    }
  }

  /** With the gate off, every request goes through; without any header,
      every protected path is challenged. */
  lemma DisabledOrMissing(path: string, authorization: Option<string>, decode: string -> Option<string>)
    ensures Gate(false, path, authorization, decode) == PassThrough
    ensures !IsExcluded(path) ==> Gate(true, path, None, decode) == Realm401
  {}
}
