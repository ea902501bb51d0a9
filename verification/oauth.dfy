/** Credentials in auth.json under the Composer home (pkg/composer/oauth.go).
    The home directory is asked of composer itself (`config --global home`)
    on every read and every save, so each operation here returns the
    commands it issued; the file system is a `Store.Disk` and JSON coding is
    a parameter (`Codec`). */
module OAuth {
  import opened Wrappers
  import opened Errors
  import opened Text
  import opened Store
  import opened Core
  import GoMaps
  import Config
  import Args

  /** auth.json: one domain-to-credential map per authentication type; a
      nil map is None. */
  datatype AuthConfig = AuthConfig(
    github: Option<map<string, string>>,         // "github-oauth"
    gitlab: Option<map<string, string>>,         // "gitlab-oauth"
    gitlabToken: Option<map<string, string>>,    // "gitlab-token"
    bitbucket: Option<map<string, string>>,      // "bitbucket-oauth"
    bearer: Option<map<string, string>>,         // "bearer"
    httpBasic: Option<map<string, string>>,      // "http-basic"
    awsAccessKey: Option<map<string, string>>)   // "aws-access-key"

  /** `&AuthConfig{}`: what a missing auth.json reads as. */
  const EmptyAuthConfig: AuthConfig := AuthConfig(None, None, None, None, None, None, None)

  /** The types RemoveToken and GetToken accept; gitlab-token and
      aws-access-key are carried along but no method reaches them. */
  datatype AuthType = GitHubOAuth | GitLabOAuth | BitbucketOAuth | Bearer | HTTPBasic

  function AuthTypeName(t: AuthType): string {
    match t
    case GitHubOAuth => "github-oauth"
    case GitLabOAuth => "gitlab-oauth"
    case BitbucketOAuth => "bitbucket-oauth"
    case Bearer => "bearer"
    case HTTPBasic => "http-basic"
  }

  /** The switch of RemoveToken and GetToken; None is their default case. */
  function ParseAuthType(s: string): Option<AuthType> {
    match s
    case "github-oauth" => Some(GitHubOAuth)
    case "gitlab-oauth" => Some(GitLabOAuth)
    case "bitbucket-oauth" => Some(BitbucketOAuth)
    case "bearer" => Some(Bearer)
    case "http-basic" => Some(HTTPBasic)
    case _ => None
  }

  /** Names and types correspond one to one: every type's name is accepted
      as that type, and only the five names are accepted. */
  lemma AuthTypeNames(t: AuthType, s: string)
    ensures ParseAuthType(AuthTypeName(t)) == Some(t)
    ensures ParseAuthType(s).Some? ==> s == AuthTypeName(ParseAuthType(s).value)
  {
  }

  /** The map for a type. */
  function Section(cfg: AuthConfig, t: AuthType): Option<map<string, string>> {
    match t
    case GitHubOAuth => cfg.github
    case GitLabOAuth => cfg.gitlab
    case BitbucketOAuth => cfg.bitbucket
    case Bearer => cfg.bearer
    case HTTPBasic => cfg.httpBasic
  }

  /** Replaces the map for one type and nothing else. */
  function WithSection(cfg: AuthConfig, t: AuthType, m: Option<map<string, string>>): (r: AuthConfig)
    ensures Section(r, t) == m
    ensures forall u :: u != t ==> Section(r, u) == Section(cfg, u)
    ensures r.gitlabToken == cfg.gitlabToken && r.awsAccessKey == cfg.awsAccessKey
  {
    match t
    case GitHubOAuth => cfg.(github := m)
    case GitLabOAuth => cfg.(gitlab := m)
    case BitbucketOAuth => cfg.(bitbucket := m)
    case Bearer => cfg.(bearer := m)
    case HTTPBasic => cfg.(httpBasic := m)
  }

  /** What the Add methods store, by method. */
  datatype Credential =
    | GitHubToken(token: string)
    | GitLabToken(token: string)
    | BitbucketToken(consumer: string, token: string)
    | BearerToken(token: string)
    | HTTPBasicAuth(username: string, password: string)

  function CredentialType(cr: Credential): AuthType {
    match cr
    case GitHubToken(_) => GitHubOAuth
    case GitLabToken(_) => GitLabOAuth
    case BitbucketToken(_, _) => BitbucketOAuth
    case BearerToken(_) => Bearer
    case HTTPBasicAuth(_, _) => HTTPBasic
  }

  /** The stored string: the token itself, or the two parts joined by ':'
      (`fmt.Sprintf("%s:%s", ...)`), which split back apart at the first
      ':' when the first part has none. */
  function StoredValue(cr: Credential): (s: string)
    ensures cr.BitbucketToken? && ':' !in cr.consumer ==> CutFirst(s, ':') == Some((cr.consumer, cr.token))
    ensures cr.HTTPBasicAuth? && ':' !in cr.username ==> CutFirst(s, ':') == Some((cr.username, cr.password))
    ensures cr.GitHubToken? || cr.GitLabToken? || cr.BearerToken? ==> s == cr.token
  {
    match cr
    case BitbucketToken(consumer, token) =>
      assert ':' !in consumer ==> CutFirst(consumer + ":" + token, ':') == Some((consumer, token)) by {
        if ':' !in consumer { Args.CutFirstUnique(consumer + ":" + token, ':', consumer, token); }
      }
      consumer + ":" + token
    case HTTPBasicAuth(username, password) =>
      assert ':' !in username ==> CutFirst(username + ":" + password, ':') == Some((username, password)) by {
        if ':' !in username { Args.CutFirstUnique(username + ":" + password, ':', username, password); }
      }
      username + ":" + password
    case GitHubToken(token) => token
    case GitLabToken(token) => token
    case BearerToken(token) => token
  }

  /** The in-memory change of an Add method: the domain maps to the stored
      value in its type's map (made when nil); nothing else changes. */
  function AddTo(cfg: AuthConfig, domain: string, cr: Credential): (r: AuthConfig)
    ensures Section(r, CredentialType(cr)) == Some(Section(cfg, CredentialType(cr)).GetOr(map[])[domain := StoredValue(cr)])
    ensures forall u :: u != CredentialType(cr) ==> Section(r, u) == Section(cfg, u)
    ensures r.gitlabToken == cfg.gitlabToken && r.awsAccessKey == cfg.awsAccessKey
  {
    var t := CredentialType(cr);
    WithSection(cfg, t, GoMaps.Put(Section(cfg, t), domain, StoredValue(cr)))
  }

  /** The in-memory change of RemoveToken for an accepted type. */
  function RemoveFrom(cfg: AuthConfig, t: AuthType, domain: string): (r: AuthConfig)
    ensures Section(r, t).None? <==> Section(cfg, t).None?
    ensures Section(r, t).Some? ==> Section(r, t).value == Section(cfg, t).value - {domain}
    ensures forall u :: u != t ==> Section(r, u) == Section(cfg, u)
    ensures r.gitlabToken == cfg.gitlabToken && r.awsAccessKey == cfg.awsAccessKey
  {
    WithSection(cfg, t, GoMaps.Delete(Section(cfg, t), domain))
  }

  /** GetToken's lookup: "" when the map is nil or lacks the domain. */
  function TokenOf(cfg: AuthConfig, t: AuthType, domain: string): (s: string)
    ensures Section(cfg, t).Some? && domain in Section(cfg, t).value ==> s == Section(cfg, t).value[domain]
    ensures Section(cfg, t).None? || domain !in Section(cfg, t).value ==> s == ""
  {
    GoMaps.Get(Section(cfg, t), domain, "")
  }

  /** A credential reads back as what was stored for it; the other domains
      and types read as before. */
  lemma TokenAfterAdd(cfg: AuthConfig, domain: string, cr: Credential, t: AuthType, other: string)
    ensures TokenOf(AddTo(cfg, domain, cr), CredentialType(cr), domain) == StoredValue(cr)
    ensures t != CredentialType(cr) || other != domain ==>
      TokenOf(AddTo(cfg, domain, cr), t, other) == TokenOf(cfg, t, other)
  {
  }

  /** A removed credential reads back as "". */
  lemma TokenAfterRemove(cfg: AuthConfig, t: AuthType, domain: string)
    ensures TokenOf(RemoveFrom(cfg, t, domain), t, domain) == ""
  {
  }

  // ---------------------------------------------------------------------
  // auth.json on disk

  /** json.Unmarshal and json.MarshalIndent for auth.json. */
  datatype Codec = Codec(decode: string -> Result<AuthConfig>, encode: AuthConfig -> Result<string>)

  const FileName: string := "auth.json"

  /** GetAuthConfig: the home's error; an empty configuration when the file
      does not exist; otherwise the read or decoding error, or the decoded
      file. None stands for the nil result that goes with an error. */
  function GetAuthConfig(run: Runner, disk: Disk, codec: Codec): (r: Reply<Option<AuthConfig>>)
    ensures r.issued == Config.GetComposerHome(run).issued
    ensures r.value.None? <==> r.err.Some?
    ensures Config.GetComposerHome(run).err.Some? ==> r.err == Config.GetComposerHome(run).err
    ensures Config.GetComposerHome(run).err.None? && PathJoin(Config.GetComposerHome(run).value, FileName) !in disk
      ==> r.value == Some(EmptyAuthConfig)
    ensures r.value.Some? && r.value != Some(EmptyAuthConfig) ==>
      var path := PathJoin(Config.GetComposerHome(run).value, FileName);
      path in disk && disk[path].Ok? && codec.decode(disk[path].value) == Ok(r.value.value)
    ensures Config.GetComposerHome(run).err.None? ==>
      var path := PathJoin(Config.GetComposerHome(run).value, FileName);
      path in disk ==>
        && (disk[path].Fail? ==> r.value.None? && r.err == Some(PlainError(disk[path].message)))
        && (disk[path].Ok? && codec.decode(disk[path].value).Fail? ==>
              r.value.None? && r.err == Some(PlainError(codec.decode(disk[path].value).message)))
        && (disk[path].Ok? && codec.decode(disk[path].value).Ok? ==>
              r.err.None? && r.value == Some(codec.decode(disk[path].value).value))
  {
    var home := Config.GetComposerHome(run);
    if home.err.Some? then Reply(None, home.err, home.issued)
    else
      var path := PathJoin(home.value, FileName);
      if path !in disk then Reply(Some(EmptyAuthConfig), None, home.issued)
      else
        var content := ReadFile(disk, path);
        if content.Fail? then Reply(None, Some(PlainError(content.message)), home.issued)
        else
          var decoded := codec.decode(content.value);
          if decoded.Fail? then Reply(None, Some(PlainError(decoded.message)), home.issued)
          else Reply(Some(decoded.value), None, home.issued)
  }

  /** SaveAuthConfig: asks for the home again, then writes the encoded
      configuration to auth.json there. On an error the disk is unchanged. */
  function SaveAuthConfig(run: Runner, disk: Disk, codec: Codec, cfg: AuthConfig): (r: (Disk, Reply<()>))
    ensures r.1.issued == Config.GetComposerHome(run).issued
    ensures r.1.err.Some? ==> r.0 == disk
    ensures r.1.err.None? <==> Config.GetComposerHome(run).err.None? && codec.encode(cfg).Ok?
    ensures r.1.err.None? ==>
      r.0 == disk[PathJoin(Config.GetComposerHome(run).value, FileName) := Ok(codec.encode(cfg).value)]
  {
    var home := Config.GetComposerHome(run);
    if home.err.Some? then (disk, Reply((), home.err, home.issued))
    else
      var content := codec.encode(cfg);
      if content.Fail? then (disk, Reply((), Some(PlainError(content.message)), home.issued))
      else (disk[PathJoin(home.value, FileName) := Ok(content.value)], Reply((), None, home.issued))
  }

  /** AddGitHubToken, AddGitLabToken, AddBitbucketToken, AddBearerToken and
      AddHTTPBasicAuth: read, add, save. A failed read saves nothing. */
  function AddCredential(run: Runner, disk: Disk, codec: Codec, domain: string, cr: Credential): (r: (Disk, Reply<()>))
    ensures GetAuthConfig(run, disk, codec).err.Some? ==>
      r == (disk, Reply((), GetAuthConfig(run, disk, codec).err, GetAuthConfig(run, disk, codec).issued))
    ensures GetAuthConfig(run, disk, codec).err.None? ==>
      var saved := SaveAuthConfig(run, disk, codec, AddTo(GetAuthConfig(run, disk, codec).value.value, domain, cr));
      r == (saved.0, Reply((), saved.1.err, GetAuthConfig(run, disk, codec).issued + saved.1.issued))
  {
    var got := GetAuthConfig(run, disk, codec);
    if got.err.Some? then (disk, Reply((), got.err, got.issued))
    else
      var saved := SaveAuthConfig(run, disk, codec, AddTo(got.value.value, domain, cr));
      (saved.0, Reply((), saved.1.err, got.issued + saved.1.issued))
  }

  const InvalidAuthType: Error := Error(Errors.InvalidAuthType, InvalidAuthTypeText)

  /** RemoveToken: the configuration is read before the type is looked at,
      so a read error wins over ErrInvalidAuthType; an unknown type saves
      nothing. */
  function RemoveToken(run: Runner, disk: Disk, codec: Codec, authType: string, domain: string): (r: (Disk, Reply<()>))
    ensures GetAuthConfig(run, disk, codec).err.Some? ==>
      r == (disk, Reply((), GetAuthConfig(run, disk, codec).err, GetAuthConfig(run, disk, codec).issued))
    ensures GetAuthConfig(run, disk, codec).err.None? && ParseAuthType(authType).None? ==>
      r == (disk, Reply((), Some(InvalidAuthType), GetAuthConfig(run, disk, codec).issued))
    ensures GetAuthConfig(run, disk, codec).err.None? && ParseAuthType(authType).Some? ==>
      var saved := SaveAuthConfig(run, disk, codec,
        RemoveFrom(GetAuthConfig(run, disk, codec).value.value, ParseAuthType(authType).value, domain));
      r == (saved.0, Reply((), saved.1.err, GetAuthConfig(run, disk, codec).issued + saved.1.issued))
  {
    var got := GetAuthConfig(run, disk, codec);
    if got.err.Some? then (disk, Reply((), got.err, got.issued))
    else
      match ParseAuthType(authType)
      case None => (disk, Reply((), Some(InvalidAuthType), got.issued))
      case Some(t) =>
        var saved := SaveAuthConfig(run, disk, codec, RemoveFrom(got.value.value, t, domain));
        (saved.0, Reply((), saved.1.err, got.issued + saved.1.issued))
  }

  /** GetToken: "" with the read error, "" with ErrInvalidAuthType for an
      unknown type, otherwise the stored value ("" when there is none). */
  function GetToken(run: Runner, disk: Disk, codec: Codec, authType: string, domain: string): (r: Reply<string>)
    ensures r.issued == Config.GetComposerHome(run).issued
    ensures r.err.Some? ==> r.value == ""
    ensures GetAuthConfig(run, disk, codec).err.Some? ==> r.err == GetAuthConfig(run, disk, codec).err
    ensures GetAuthConfig(run, disk, codec).err.None? ==>
      (r.err == Some(InvalidAuthType) <==> ParseAuthType(authType).None?)
    ensures r.err.None? ==>
      r.value == TokenOf(GetAuthConfig(run, disk, codec).value.value, ParseAuthType(authType).value, domain)
  {
    var got := GetAuthConfig(run, disk, codec);
    if got.err.Some? then Reply("", got.err, got.issued)
    else
      match ParseAuthType(authType)
      case None => Reply("", Some(InvalidAuthType), got.issued)
      case Some(t) => Reply(TokenOf(got.value.value, t, domain), None, got.issued)
  }

  /** The two configurations hold the same credentials. */
  ghost predicate SameTokens(a: AuthConfig, b: AuthConfig) {
    forall t, domain :: TokenOf(a, t, domain) == TokenOf(b, t, domain)
  }

  /** Decoding what was encoded gives back the same credentials (JSON may
      turn an empty map into a nil one, which reads the same). */
  ghost predicate KeepsTokens(codec: Codec) {
    forall cfg :: codec.encode(cfg).Ok? ==>
      codec.decode(codec.encode(cfg).value).Ok? && SameTokens(codec.decode(codec.encode(cfg).value).value, cfg)
  }

  /** Reading after a successful save gives back the saved credentials. */
  lemma {:induction false} ReadAfterSave(run: Runner, disk: Disk, codec: Codec, cfg: AuthConfig)
    requires KeepsTokens(codec)
    requires SaveAuthConfig(run, disk, codec, cfg).1.err.None?
    ensures GetAuthConfig(run, SaveAuthConfig(run, disk, codec, cfg).0, codec).value.Some?
    ensures SameTokens(GetAuthConfig(run, SaveAuthConfig(run, disk, codec, cfg).0, codec).value.value, cfg)
  {
    var home := Config.GetComposerHome(run);
    var text := codec.encode(cfg).value;
    var disk' := SaveAuthConfig(run, disk, codec, cfg).0;
    assert disk' == disk[PathJoin(home.value, FileName) := Ok(text)];
    assert codec.decode(text).Ok? && SameTokens(codec.decode(text).value, cfg);
    assert GetAuthConfig(run, disk', codec).value == Some(codec.decode(text).value);
  }

  /** After a successful Add, GetToken for that type and domain gives the
      stored value: the home the save asked for is the one the next read
      asks for. */
  lemma {:induction false} GetTokenAfterAdd(run: Runner, disk: Disk, codec: Codec, domain: string, cr: Credential)
    requires KeepsTokens(codec)
    requires AddCredential(run, disk, codec, domain, cr).1.err.None?
    ensures GetToken(run, AddCredential(run, disk, codec, domain, cr).0, codec,
      AuthTypeName(CredentialType(cr)), domain) == Reply(StoredValue(cr), None, Config.GetComposerHome(run).issued)
  {
    var cfg := AddTo(GetAuthConfig(run, disk, codec).value.value, domain, cr);
    ReadAfterSave(run, disk, codec, cfg);
    AuthTypeNames(CredentialType(cr), "");
  }

  /** After a successful RemoveToken, GetToken for that type and domain gives
      "". */
  lemma {:induction false} GetTokenAfterRemove(run: Runner, disk: Disk, codec: Codec, t: AuthType, domain: string)
    requires KeepsTokens(codec)
    requires RemoveToken(run, disk, codec, AuthTypeName(t), domain).1.err.None?
    ensures GetToken(run, RemoveToken(run, disk, codec, AuthTypeName(t), domain).0, codec, AuthTypeName(t), domain)
      == Reply("", None, Config.GetComposerHome(run).issued)
  {
    AuthTypeNames(t, "");
    var cfg := RemoveFrom(GetAuthConfig(run, disk, codec).value.value, t, domain);
    ReadAfterSave(run, disk, codec, cfg);
  }
}
