/** Authentication rules: redirect URLs, registration checks, the password
    hash scheme, login ids for OAuth users and the refresh of an OAuth
    user's profile. Hashing, verification and the Unicode alphanumeric
    table are parameters. */
module Auth {
  import opened Common
  import Text

  // ---- redirects ----

  /** `get_redirect_url`: the path alone without a frontend URL, otherwise
      the frontend URL without trailing slashes followed by the path. */
  function RedirectUrl(frontendUrl: string, path: string): (url: string)
    ensures frontendUrl == [] ==> url == path
    ensures frontendUrl != [] ==>
      url == Text.TrimEndChar(frontendUrl, '/') + path
  {
    if frontendUrl == [] then path else Text.TrimEndChar(frontendUrl, '/') + path
  }

  /** The result always ends with the path, and extra trailing slashes on
      a configured frontend URL make no difference. */
  lemma RedirectIgnoresTrailingSlashes(frontendUrl: string, path: string)
    ensures var url := RedirectUrl(frontendUrl, path);
      |path| <= |url| && url[|url| - |path|..] == path
    ensures frontendUrl != [] ==> RedirectUrl(frontendUrl + "/", path) == RedirectUrl(frontendUrl, path)
  {
    if frontendUrl != [] {
      var f := frontendUrl + "/";
      assert f[..|f| - 1] == frontendUrl;
    }
  }

  // ---- registration ----

  const PasswordMismatch: string := "パスワードが一致しません。"
  const LoginIdLengthError: string := "ユーザーIDは4〜20文字で入力してください。"
  const LoginIdTaken: string := "このユーザーIDは既に使用されています。別のIDを選択してください。"

  datatype RegisterResult = RegisterRejected(message: string) | RegisterPending(loginId: string)

  /** The checks of `register`, in order: matching passwords, a login id
      of 4..20 bytes, and an id nobody uses. */
  function Register(loginId: string, password: string, confirmPassword: string, idTaken: bool)
    : (r: RegisterResult)
    ensures r.RegisterPending? <==>
      password == confirmPassword && 4 <= Text.Utf8Len(loginId) <= 20 && !idTaken
    ensures r.RegisterPending? ==> r.loginId == loginId
  {
    if password != confirmPassword then RegisterRejected(PasswordMismatch)
    else if Text.Utf8Len(loginId) < 4 || Text.Utf8Len(loginId) > 20 then RegisterRejected(LoginIdLengthError)
    else if idTaken then RegisterRejected(LoginIdTaken)
    else RegisterPending(loginId)
  }

  /** A mismatch is reported before anything about the id, and a bad id
      length before the lookup. */
  lemma RegisterCheckOrder(loginId: string, password: string, confirmPassword: string, idTaken: bool)
    ensures password != confirmPassword ==>
      Register(loginId, password, confirmPassword, idTaken) == RegisterRejected(PasswordMismatch)
    ensures password == confirmPassword && !(4 <= Text.Utf8Len(loginId) <= 20) ==>
      Register(loginId, password, confirmPassword, idTaken) == RegisterRejected(LoginIdLengthError)
  {}

  // ---- login ----

  datatype HashScheme = Bcrypt | Argon2

  /** Hashes with a bcrypt prefix go to bcrypt, everything else to Argon2. */
  function SchemeOf(storedHash: string): (s: HashScheme)
    ensures s == Bcrypt <==>
      Text.StartsWith(storedHash, "$2a$") || Text.StartsWith(storedHash, "$2b$") || Text.StartsWith(storedHash, "$2y$")
  {
    if Text.StartsWith(storedHash, "$2a$") || Text.StartsWith(storedHash, "$2b$") || Text.StartsWith(storedHash, "$2y$")
    then Bcrypt else Argon2
  }

  const BadCredentials: string := "ユーザーIDまたはパスワードが正しくありません。"
  const SocialOnly: string := "このアカウントはソーシャルログインで登録されています。"

  datatype LoginResult = LoggedIn | Unauthorized(message: string)

  /** `login`. `stored` is the user's password column if the user exists;
      `bcryptVerify`, `argonParses` and `argonVerify` stand for the
      libraries. */
  function Login(stored: Option<Option<string>>, password: string,
                 bcryptVerify: (string, string) -> bool, argonParses: string -> bool,
                 argonVerify: (string, string) -> bool): (r: LoginResult)
    ensures r.LoggedIn? <==>
      stored.Some? && stored.value.Some? && stored.value.value != []
      && var h := stored.value.value;
         if SchemeOf(h) == Bcrypt then bcryptVerify(password, h) else argonParses(h) && argonVerify(password, h)
    ensures stored.None? ==> r == Unauthorized(BadCredentials)
  {
    match stored
    case None => Unauthorized(BadCredentials)
    case Some(column) =>
      if column.None? || column.value == [] then Unauthorized(SocialOnly)
      else
        var h := column.value;
        if SchemeOf(h) == Bcrypt then
          (if bcryptVerify(password, h) then LoggedIn else Unauthorized(BadCredentials))
        else if !argonParses(h) then Unauthorized(BadCredentials)
        else if argonVerify(password, h) then LoggedIn else Unauthorized(BadCredentials)
  }

  /** An account without a password is told to use social login, and no
      failure reveals whether the id or the password was wrong. */
  lemma LoginMessages(stored: Option<Option<string>>, password: string,
                      bcryptVerify: (string, string) -> bool, argonParses: string -> bool,
                      argonVerify: (string, string) -> bool)
    ensures var r := Login(stored, password, bcryptVerify, argonParses, argonVerify);
      (stored.Some? && (stored.value.None? || stored.value.value == []) ==> r == Unauthorized(SocialOnly))
      && (r.Unauthorized? ==> r.message == BadCredentials || r.message == SocialOnly)
  {}

  // ---- OAuth login ids ----

  /** The part of the email before the first '@'. */
  function LocalPart(email: string): (local: string)
    ensures '@' !in local
    ensures |local| <= |email| && local == email[..|local|]
  {
    if '@' in email then email[..Text.IndexOf(email, '@')] else email
  }

  /** The characters of `s` that satisfy `keep`, in order. */
  function Filter(s: string, keep: char -> bool): (r: string)
    ensures |r| <= |s|
    ensures forall c :: c in r <==> c in s && keep(c)
  {
    if s == [] then [] else (if keep(s[0]) then [s[0]] else []) + Filter(s[1..], keep)
  }

  /** Filtering works character by character and keeps the order: it
      distributes over concatenation, and one character is kept exactly
      when it passes the test. */
  lemma {:induction false} FilterConcat(a: string, b: string, keep: char -> bool)
    ensures Filter(a + b, keep) == Filter(a, keep) + Filter(b, keep)
    ensures |a| == 1 ==> Filter(a, keep) == if keep(a[0]) then a else []
    decreases |a|
  {
    if a == [] {
      assert a + b == b;
    } else {
      assert (a + b)[0] == a[0] && (a + b)[1..] == a[1..] + b;
      FilterConcat(a[1..], b, keep);
      if |a| == 1 {
        assert a[1..] == [] && a == [a[0]];
      }
    }
  }

  function Take(s: string, n: nat): (r: string)
    ensures |r| == Min(n, |s|) && r == s[..|r|]
  {
    if |s| <= n then s else s[..n]
  }

  /** `generate_login_id`. `isAlphanumeric` is `char::is_alphanumeric`. */
  function GenerateLoginId(provider: string, oauthId: string, email: Option<string>,
                           isAlphanumeric: char -> bool): (id: string)
    ensures Text.Utf8Len(id) >= 6
  {
    if email.Some? && email.value != [] then
      var local := LocalPart(email.value);
      if Text.Utf8Len(local) >= 6 then local else Text.PadRightZeros(local, 6)
    else
      var base := Filter(provider + oauthId, isAlphanumeric);
      if Text.Utf8Len(base) < 6 then Text.PadRightZeros(base, 6)
      else
        var id := Take(base, 20);
        TakeKeepsBytes(base, 20);
        id
  }

  /** Cutting to `n` characters keeps at least `min(n, bytes)` bytes. */
  lemma TakeKeepsBytes(s: string, n: nat)
    ensures Text.Utf8Len(Take(s, n)) >= Min(n, Text.Utf8Len(s))
  {
    if |s| > n {
      Text.Utf8LenAppend(s[..n], s[n..]);
      assert s == s[..n] + s[n..];
    }
  }

  /** With an email, a local part of at least six bytes is the id as it
      is, and a shorter one is padded with '0' to six characters. Without
      one, the alphanumeric characters of `provider ++ oauth_id` are the id
      cut to their first 20 when they take six bytes or more, and padded
      with '0' to six characters otherwise. */
  lemma LoginIdShape(provider: string, oauthId: string, email: Option<string>, isAlphanumeric: char -> bool)
    ensures var id := GenerateLoginId(provider, oauthId, email, isAlphanumeric);
      if email.Some? && email.value != [] then
        var local := LocalPart(email.value);
        (Text.Utf8Len(local) >= 6 ==> id == local)
        && (Text.Utf8Len(local) < 6 ==>
              |id| == Max(6, |local|) && id[..|local|] == local
              && forall i :: |local| <= i < |id| ==> id[i] == '0')
      else
        var base := Filter(provider + oauthId, isAlphanumeric);
        (Text.Utf8Len(base) >= 6 ==> |id| == Min(20, |base|) && id == base[..|id|])
        && (Text.Utf8Len(base) < 6 ==>
              |id| == Max(6, |base|) && id[..|base|] == base
              && forall i :: |base| <= i < |id| ==> id[i] == '0')
  {}

  /** For ASCII input every generated id has at least six characters. */
  lemma AsciiLoginIdLength(provider: string, oauthId: string, email: Option<string>, isAlphanumeric: char -> bool)
    requires Text.IsAscii(provider) && Text.IsAscii(oauthId)
    requires email.Some? ==> Text.IsAscii(email.value)
    ensures |GenerateLoginId(provider, oauthId, email, isAlphanumeric)| >= 6
  {
    var id := GenerateLoginId(provider, oauthId, email, isAlphanumeric);
    if email.Some? && email.value != [] {
      var local := LocalPart(email.value);
      assert forall i :: 0 <= i < |local| ==> local[i] == email.value[i];
      Text.AsciiUtf8Len(local);
    } else {
      var base := Filter(provider + oauthId, isAlphanumeric);
      assert Text.IsAscii(base) by {
        forall i | 0 <= i < |base| ensures base[i] as int < 0x80 {
          assert base[i] in base;
        }
      }
      Text.AsciiUtf8Len(base);
    }
  }

  /** `format!("{}_{}", base, i)`. */
  function Suffixed(base: string, i: int): string {
    base + "_" + Text.IntToString(i)
  }

  /** The first suffix in `from..=999` whose id is free. */
  function FirstFree(base: string, taken: set<string>, from: int): (r: Option<int>)
    ensures r.Some? ==>
      from <= r.value <= 999 && Suffixed(base, r.value) !in taken
      && forall j :: from <= j < r.value ==> Suffixed(base, j) in taken
    ensures r.None? ==> forall j :: from <= j <= 999 ==> Suffixed(base, j) in taken
    decreases 1000 - from
  {
    if from > 999 then None
    else if Suffixed(base, from) !in taken then Some(from)
    else FirstFree(base, taken, from + 1)
  }

  /** `generate_unique_login_id`: the base id if free, otherwise the first
      free `base_i` for `i` in 1..999, otherwise `base_` and a random
      suffix (`uuidSuffix`). */
  method GenerateUniqueLoginId(base: string, taken: set<string>, uuidSuffix: string) returns (id: string)
    ensures base !in taken ==> id == base
    ensures base in taken ==>
      id == match FirstFree(base, taken, 1)
            case Some(i) => Suffixed(base, i)
            case None => base + "_" + uuidSuffix
    ensures base in taken && FirstFree(base, taken, 1).Some? ==> id !in taken
  {
    if base !in taken {
      return base;
    }
    var i := 1;
    while i < 1000
      invariant 1 <= i <= 1000
      invariant FirstFree(base, taken, 1) == FirstFree(base, taken, i)
    {
      var candidate := base + "_" + Text.IntToString(i);
      if candidate !in taken {
        return candidate;
      }
      i := i + 1;
    }
    id := base + "_" + uuidSuffix;
  }

  // ---- OAuth profile refresh ----

  datatype Profile = Profile(email: Option<string>, displayName: Option<string>, imageUrl: Option<string>)

  /** The profile after a login that brought `email`, `name` and `image`:
      each field takes the incoming value when there is one. */
  function Refreshed(p: Profile, email: Option<string>, name: Option<string>, image: Option<string>): Profile {
    Profile(if email.Some? then email else p.email,
            if name.Some? then name else p.displayName,
            if image.Some? then image else p.imageUrl)
  }

  /** The field updates of `find_or_create_oauth_user` for an existing
      user: a field is replaced when the incoming value is present and
      different, and `updated` says whether anything changed. */
  method RefreshProfile(p: Profile, email: Option<string>, name: Option<string>, image: Option<string>)
    returns (q: Profile, updated: bool)
    ensures q == Refreshed(p, email, name, image)
    ensures updated <==> q != p
  {
    q := p;
    updated := false;
    if email.Some? && q.email != email {
      q := q.(email := email);
      updated := true;
    }
    if name.Some? && q.displayName != name {
      q := q.(displayName := name);
      updated := true;
    }
    if image.Some? && q.imageUrl != image {
      q := q.(imageUrl := image);
      updated := true;
    }
  }

  /** Logging in twice with the same data writes only the first time. */
  lemma RefreshIdempotent(p: Profile, email: Option<string>, name: Option<string>, image: Option<string>)
    ensures var q := Refreshed(p, email, name, image);
      Refreshed(q, email, name, image) == q
    ensures email.None? && name.None? && image.None? ==> Refreshed(p, email, name, image) == p
  {}
}
