/**
 What the authentication configuration turns into: the text of the managed block, and the
 process environment.
 */
module AuthBlock {
  import opened Options
  import opened EnvFile
  import opened ConfigCache

  /** The `auth_provider` values the code tells apart; `Other` is `local` and anything unknown. */
  datatype Provider = Ldap | Oidc | DingDing | Cas | Common | Other

  datatype DbKey =
    | LdapServerUri | LdapBindDn | LdapBindPassword | LdapUserDnTemplate
    | LdapUserSearchBase | LdapUserSearchFilter | LdapUserAttrMap
    | OidcWellknownUrl | OidcClientId | OidcClientSecret | OidcScopes | OidcSignAlgo | OidcUserAttrMap
    | OidcButtonName | AuthProvider
    | DingAppKey | DingAppSecret | DingCallbackUrl
    | CasServerUrl | CasVersion | CasVerifySsl

  datatype AuthConfig = AuthConfig(provider: Provider, params: map<DbKey, Value>)

  const NOTE := "# 本段由「认证配置」页面自动维护，请勿手动编辑；手动配置请写在本段之外。"

  const LDAP_KEYS := [LdapServerUri, LdapBindDn, LdapBindPassword, LdapUserDnTemplate,
                      LdapUserSearchBase, LdapUserSearchFilter, LdapUserAttrMap]
  const OIDC_KEYS := [OidcWellknownUrl, OidcClientId, OidcClientSecret, OidcScopes, OidcSignAlgo,
                      OidcUserAttrMap, OidcButtonName]
  const DINGDING_KEYS := [DingAppKey, DingAppSecret, DingCallbackUrl]
  const CAS_KEYS := [CasServerUrl, CasVersion, CasVerifySsl]

  /** `SysConfig.AUTH_PROVIDER_KEYS`. */
  function ProviderKeys(p: Provider): seq<DbKey> {
    match p
    case Ldap => LDAP_KEYS
    case Oidc => OIDC_KEYS
    case DingDing => DINGDING_KEYS
    case Cas => CAS_KEYS
    case Common => [AuthProvider, OidcButtonName]
    case Other => []
  }

  /** `_DBKEY_TO_ENV`: two keys have no environment variable. */
  function EnvName(key: DbKey): Option<string> {
    match key
    case LdapServerUri => Some("AUTH_LDAP_SERVER_URI")
    case LdapBindDn => Some("AUTH_LDAP_BIND_DN")
    case LdapBindPassword => Some("AUTH_LDAP_BIND_PASSWORD")
    case LdapUserDnTemplate => Some("AUTH_LDAP_USER_DN_TEMPLATE")
    case LdapUserSearchBase => Some("AUTH_LDAP_USER_SEARCH_BASE")
    case LdapUserSearchFilter => Some("AUTH_LDAP_USER_SEARCH_FILTER")
    case LdapUserAttrMap => Some("AUTH_LDAP_USER_ATTR_MAP")
    case OidcWellknownUrl => Some("OIDC_RP_WELLKNOWN_URL")
    case OidcClientId => Some("OIDC_RP_CLIENT_ID")
    case OidcClientSecret => Some("OIDC_RP_CLIENT_SECRET")
    case OidcScopes => Some("OIDC_RP_SCOPES")
    case OidcSignAlgo => Some("OIDC_RP_SIGN_ALGO")
    case OidcUserAttrMap => Some("OIDC_USER_ATTR_MAP")
    case DingAppKey => Some("AUTH_DINGDING_APP_KEY")
    case DingAppSecret => Some("AUTH_DINGDING_APP_SECRET")
    case DingCallbackUrl => Some("AUTH_DINGDING_AUTHENTICATION_CALLBACK_URL")
    case CasServerUrl => Some("CAS_SERVER_URL")
    case CasVersion => Some("CAS_VERSION")
    case CasVerifySsl => Some("CAS_VERIFY_SSL_CERTIFICATE")
    case OidcButtonName => None
    case AuthProvider => None
  }

  const ENABLE_LDAP := "ENABLE_LDAP"
  const ENABLE_OIDC := "ENABLE_OIDC"
  const ENABLE_DINGDING := "ENABLE_DINGDING"
  const ENABLE_CAS := "ENABLE_CAS"

  type Environ = map<string, string>

  /** One `name=value` line. */
  datatype Pair = Pair(name: string, value: string)

  function OnOff(on: bool): string {
    if on then "true" else "false"
  }

  function FlagPairs(p: Provider): seq<Pair> {
    [Pair(ENABLE_LDAP, OnOff(p == Ldap)), Pair(ENABLE_OIDC, OnOff(p == Oidc)),
     Pair(ENABLE_DINGDING, OnOff(p == DingDing)), Pair(ENABLE_CAS, OnOff(p == Cas))]
  }

  function Param(cfg: AuthConfig, key: DbKey): Value {
    if key in cfg.params then cfg.params[key] else Text("")
  }

  /** `str(value)`. */
  function Show(v: Value): string {
    match v
    case Text(s) => s
    case Flag(b) => if b then "True" else "False"
  }

  predicate IsWritten(cfg: AuthConfig, key: DbKey) {
    EnvName(key).Some? && Param(cfg, key) != Text("")
  }

  function ParamPairs(cfg: AuthConfig, keys: seq<DbKey>): seq<Pair> {
    if keys == [] then []
    else if IsWritten(cfg, keys[0]) then
      [Pair(EnvName(keys[0]).value, Show(Param(cfg, keys[0])))] + ParamPairs(cfg, keys[1..])
    else ParamPairs(cfg, keys[1..])
  }

  function Pairs(cfg: AuthConfig): seq<Pair> {
    FlagPairs(cfg.provider) + ParamPairs(cfg, ProviderKeys(cfg.provider))
  }

  function Line(p: Pair): string {
    p.name + "=" + p.value + "\n"
  }

  function Lines(ps: seq<Pair>): string {
    if ps == [] then "" else Line(ps[0]) + Lines(ps[1..])
  }

  const HEADER := BEGIN + "\n" + NOTE + "\n"

  function Block(cfg: AuthConfig): string {
    HEADER + Lines(Pairs(cfg)) + (END + "\n")
  }

  lemma {:induction false} LinesExtend(ps: seq<Pair>, p: Pair)
    ensures Lines(ps + [p]) == Lines(ps) + Line(p)
  {
    if ps == [] {
      assert ps + [p] == [p] && [p][1..] == [];
    } else {
      assert (ps + [p])[0] == ps[0] && (ps + [p])[1..] == ps[1..] + [p];
      LinesExtend(ps[1..], p);
    }
  }

  lemma {:induction false} ParamPairsConcat(cfg: AuthConfig, a: seq<DbKey>, b: seq<DbKey>)
    ensures ParamPairs(cfg, a + b) == ParamPairs(cfg, a) + ParamPairs(cfg, b)
  {
    if a == [] {
      assert a + b == b;
    } else {
      assert (a + b)[0] == a[0] && (a + b)[1..] == a[1..] + b;
      ParamPairsConcat(cfg, a[1..], b);
    }
  }

  lemma AppendLine(header: string, text: string, done: seq<Pair>, p: Pair)
    requires text == header + Lines(done)
    ensures text + p.name + "=" + p.value + "\n" == header + Lines(done + [p])
  {
    LinesExtend(done, p);
    assert text + p.name + "=" + p.value + "\n" == text + Line(p);
  }

  lemma ParamPairsStep(cfg: AuthConfig, keys: seq<DbKey>, i: nat)
    requires i < |keys|
    ensures ParamPairs(cfg, keys[..i + 1])
         == ParamPairs(cfg, keys[..i])
            + if IsWritten(cfg, keys[i]) then [Pair(EnvName(keys[i]).value, Show(Param(cfg, keys[i])))] else []
  {
    assert keys[..i + 1] == keys[..i] + [keys[i]];
    ParamPairsConcat(cfg, keys[..i], [keys[i]]);
  }

  method WriteFlags(text0: string, p: Provider) returns (text: string)
    ensures text == text0 + Lines(FlagPairs(p))
  {
    text := text0;
    var flags := FlagPairs(p);
    for i := 0 to |flags|
      invariant text == text0 + Lines(flags[..i])
    {
      AppendLine(text0, text, flags[..i], flags[i]);
      assert flags[..i + 1] == flags[..i] + [flags[i]];
      text := text + flags[i].name + "=" + flags[i].value + "\n";
    }
    assert flags[..|flags|] == flags;
  }

  method WriteParams(header: string, text0: string, flags: seq<Pair>, cfg: AuthConfig, keys: seq<DbKey>)
    returns (text: string)
    requires text0 == header + Lines(flags)
    ensures text == header + Lines(flags + ParamPairs(cfg, keys))
  {
    text := text0;
    ghost var done := flags;
    assert flags + ParamPairs(cfg, keys[..0]) == flags;
    for i := 0 to |keys|
      invariant text == header + Lines(done)
      invariant done == flags + ParamPairs(cfg, keys[..i])
    {
      var name := EnvName(keys[i]);
      var value := Param(cfg, keys[i]);
      ParamPairsStep(cfg, keys, i);
      if name.Some? && value != Text("") {
        AppendLine(header, text, done, Pair(name.value, Show(value)));
        done := done + [Pair(name.value, Show(value))];
        text := text + name.value + "=" + Show(value) + "\n";
      }
    }
    assert keys[..|keys|] == keys;
  }

  /** The block, line by line into a buffer. */
  method BuildManagedBlock(cfg: AuthConfig) returns (text: string)
    ensures text == Block(cfg)
  {
    text := BEGIN + "\n" + NOTE + "\n";
    text := WriteFlags(text, cfg.provider);
    text := WriteParams(HEADER, text, FlagPairs(cfg.provider), cfg, ProviderKeys(cfg.provider));
    text := text + (END + "\n");
  }

  /** Assigning every pair in turn. */
  function Assign(env: Environ, ps: seq<Pair>): Environ
    decreases |ps|
  {
    if ps == [] then env else Assign(env[ps[0].name := ps[0].value], ps[1..])
  }

  datatype Applied = Applied(env: Environ, raised: bool)

  /** The parameter loop: an unmapped key makes `pop(None)` raise. */
  function ApplyParams(env: Environ, cfg: AuthConfig, keys: seq<DbKey>): Applied
    decreases |keys|
  {
    if keys == [] then Applied(env, false)
    else if IsWritten(cfg, keys[0]) then
      ApplyParams(env[EnvName(keys[0]).value := Show(Param(cfg, keys[0]))], cfg, keys[1..])
    else if EnvName(keys[0]).None? then Applied(env, true)
    else ApplyParams(env - {EnvName(keys[0]).value}, cfg, keys[1..])
  }

  /** The environment after `_apply_to_environ`, and whether it raised half-way. */
  function ApplyTo(env: Environ, cfg: AuthConfig): Applied {
    ApplyParams(Assign(env, FlagPairs(cfg.provider)), cfg, ProviderKeys(cfg.provider))
  }

  predicate FullyMapped(p: Provider) {
    forall k :: k in ProviderKeys(p) ==> EnvName(k).Some?
  }

  lemma FullyMappedIff(p: Provider)
    ensures FullyMapped(p) <==> p != Oidc && p != Common
  {
    match p {
      case Oidc => assert OIDC_KEYS[6] == OidcButtonName && OidcButtonName in ProviderKeys(p);
      case Common => assert AuthProvider in ProviderKeys(p);
      case _ =>
    }
  }

  lemma {:induction false} ParamsRaiseIff(env: Environ, cfg: AuthConfig, keys: seq<DbKey>)
    ensures ApplyParams(env, cfg, keys).raised <==> exists k :: k in keys && EnvName(k).None?
    decreases |keys|
  {
    if keys != [] {
      assert forall k :: k in keys <==> k == keys[0] || k in keys[1..];
      if IsWritten(cfg, keys[0]) {
        ParamsRaiseIff(env[EnvName(keys[0]).value := Show(Param(cfg, keys[0]))], cfg, keys[1..]);
      } else if EnvName(keys[0]).Some? {
        ParamsRaiseIff(env - {EnvName(keys[0]).value}, cfg, keys[1..]);
      }
    }
  }

  /** Applying the configuration raises for exactly two provider values: oidc, and the bogus `common`. */
  lemma ApplyRaisesIff(env: Environ, cfg: AuthConfig)
    ensures ApplyTo(env, cfg).raised <==> cfg.provider == Oidc || cfg.provider == Common
  {
    ParamsRaiseIff(Assign(env, FlagPairs(cfg.provider)), cfg, ProviderKeys(cfg.provider));
    FullyMappedIff(cfg.provider);
  }

  // ---- The tracked variables -------------------------------------------------------------------

  const ALL_KEYS := LDAP_KEYS + OIDC_KEYS + DINGDING_KEYS + CAS_KEYS + [AuthProvider]

  const FLAG_NAMES: set<string> := {ENABLE_LDAP, ENABLE_OIDC, ENABLE_DINGDING, ENABLE_CAS}

  /** The variables `_snapshot_environ` records. */
  const TRACKED: set<string> := (set k | k in ALL_KEYS && EnvName(k).Some? :: EnvName(k).value) + FLAG_NAMES

  /** The variables one provider writes or clears. */
  function ProviderNames(keys: seq<DbKey>): set<string> {
    set k | k in keys && EnvName(k).Some? :: EnvName(k).value
  }

  lemma ProviderKeysAreListed(p: Provider)
    ensures forall k :: k in ProviderKeys(p) ==> k in ALL_KEYS
  {
  }

  lemma {:induction false} ApplyParamsFrame(env: Environ, cfg: AuthConfig, keys: seq<DbKey>, name: string)
    requires name !in ProviderNames(keys)
    ensures var env' := ApplyParams(env, cfg, keys).env;
            (name in env' <==> name in env) && (name in env ==> env'[name] == env[name])
    decreases |keys|
  {
    if keys != [] {
      assert keys[0] in keys && forall k :: k in keys[1..] ==> k in keys;
      if IsWritten(cfg, keys[0]) {
        assert EnvName(keys[0]).value in ProviderNames(keys);
        ApplyParamsFrame(env[EnvName(keys[0]).value := Show(Param(cfg, keys[0]))], cfg, keys[1..], name);
      } else if EnvName(keys[0]).Some? {
        assert EnvName(keys[0]).value in ProviderNames(keys);
        ApplyParamsFrame(env - {EnvName(keys[0]).value}, cfg, keys[1..], name);
      }
    }
  }

  /** Assigning the flags sets exactly the four of them. */
  lemma AssignFlags(env: Environ, p: Provider)
    ensures var env' := Assign(env, FlagPairs(p));
            && env'.Keys == env.Keys + FLAG_NAMES
            && (forall n :: n in env && n !in FLAG_NAMES ==> env'[n] == env[n])
            && env'[ENABLE_LDAP] == OnOff(p == Ldap) && env'[ENABLE_OIDC] == OnOff(p == Oidc)
            && env'[ENABLE_DINGDING] == OnOff(p == DingDing) && env'[ENABLE_CAS] == OnOff(p == Cas)
  {
    var ps := FlagPairs(p);
    var e1 := env[ENABLE_LDAP := ps[0].value];
    var e2 := e1[ENABLE_OIDC := ps[1].value];
    var e3 := e2[ENABLE_DINGDING := ps[2].value];
    assert ps[1..][1..][1..] == [ps[3]];
    assert Assign(e3, [ps[3]]) == e3[ENABLE_CAS := ps[3].value];
    assert Assign(env, ps) == Assign(e1, ps[1..]) == Assign(e2, ps[1..][1..]) == Assign(e3, [ps[3]]);
    assert ENABLE_LDAP[7] != ENABLE_OIDC[7];
  }

  /** Applying touches tracked variables only, whether or not it raises. */
  lemma ApplyTouchesTrackedOnly(env: Environ, cfg: AuthConfig, name: string)
    requires name !in TRACKED
    ensures var env' := ApplyTo(env, cfg).env;
            (name in env' <==> name in env) && (name in env ==> env'[name] == env[name])
  {
    AssignFlags(env, cfg.provider);
    ProviderKeysAreListed(cfg.provider);
    ApplyParamsFrame(Assign(env, FlagPairs(cfg.provider)), cfg, ProviderKeys(cfg.provider), name);
  }

  // ---- Reading the block back ------------------------------------------------------------------

  function IndexOf(s: string, c: char): (n: nat)
    ensures n <= |s| && c !in s[..n]
    ensures n < |s| ==> s[n] == c
  {
    if s == "" || s[0] == c then 0
    else
      assert s[..1 + IndexOf(s[1..], c)] == [s[0]] + s[1..][..IndexOf(s[1..], c)];
      1 + IndexOf(s[1..], c)
  }

  lemma {:induction false} IndexOfAfter(a: string, c: char, b: string)
    requires c !in a
    ensures IndexOf(a + [c] + b, c) == |a|
  {
    var t := a + [c] + b;
    if a != "" {
      assert t[1..] == a[1..] + [c] + b;
      IndexOfAfter(a[1..], c, b);
    }
  }

  /** A `name=value` line, split at its first equals sign; comments and other lines carry nothing. */
  function ParseLine(line: string): seq<Pair> {
    var i := IndexOf(line, '=');
    if line == "" || line[0] == '#' || i == |line| then [] else [Pair(line[..i], line[i + 1..])]
  }

  function ParseLines(s: string): (ps: seq<Pair>)
    decreases |s|
  {
    if s == "" then []
    else
      var n := IndexOf(s, '\n');
      ParseLine(s[..n]) + if n == |s| then [] else ParseLines(s[n + 1..])
  }

  lemma {:induction false} ParsedValuesAreLines(s: string)
    ensures forall i :: 0 <= i < |ParseLines(s)| ==> '\n' !in ParseLines(s)[i].value
    decreases |s|
  {
    if s != "" {
      var n := IndexOf(s, '\n');
      if n < |s| {
        ParsedValuesAreLines(s[n + 1..]);
      }
    }
  }

  lemma ParseFirstLine(line: string, rest: string)
    requires '\n' !in line
    ensures ParseLines(line + "\n" + rest) == ParseLine(line) + ParseLines(rest)
  {
    var s := line + "\n" + rest;
    IndexOfAfter(line, '\n', rest);
    assert s[..|line|] == line && s[|line| + 1..] == rest;
  }

  predicate IsGoodName(n: string) {
    n != "" && '#' !in n && '=' !in n && '\n' !in n
  }

  lemma ParsePairLine(p: Pair)
    requires IsGoodName(p.name)
    ensures ParseLine(p.name + "=" + p.value) == [p]
  {
    var line := p.name + "=" + p.value;
    IndexOfAfter(p.name, '=', p.value);
    assert line[0] == p.name[0];
    assert line[..|p.name|] == p.name && line[|p.name| + 1..] == p.value;
  }

  ghost predicate Printable(ps: seq<Pair>) {
    forall i :: 0 <= i < |ps| ==> IsGoodName(ps[i].name) && '\n' !in ps[i].value
  }

  lemma ParseOneMore(p: Pair, tail: string, rest: string)
    requires IsGoodName(p.name) && '\n' !in p.value
    ensures ParseLines(Line(p) + tail + rest) == [p] + ParseLines(tail + rest)
  {
    var line := p.name + "=" + p.value;
    assert Line(p) + tail + rest == line + "\n" + (tail + rest);
    ParsePairLine(p);
    ParseFirstLine(line, tail + rest);
  }

  lemma ConcatIsAssociative(a: seq<Pair>, b: seq<Pair>, c: seq<Pair>)
    ensures a + (b + c) == (a + b) + c
  {
  }

  lemma {:induction false} ParsePrintedLines(ps: seq<Pair>, rest: string)
    requires Printable(ps)
    ensures ParseLines(Lines(ps) + rest) == ps + ParseLines(rest)
  {
    if ps == [] {
      assert Lines(ps) + rest == rest;
    } else {
      var first, others := ps[0], ps[1..];
      assert Lines(ps) == Line(first) + Lines(others);
      ParseOneMore(first, Lines(others), rest);
      ParsePrintedLines(others, rest);
      assert [first] + others == ps;
      ConcatIsAssociative([first], others, ParseLines(rest));
    }
  }

  lemma CommentIsSkipped(line: string, rest: string)
    requires line != "" && line[0] == '#' && '\n' !in line
    ensures ParseLines(line + "\n" + rest) == ParseLines(rest)
  {
    ParseFirstLine(line, rest);
  }

  lemma Framed(begin: string, note: string, lines: string, end: string)
    ensures begin + "\n" + note + "\n" + lines + (end + "\n")
         == begin + "\n" + (note + "\n" + (lines + (end + "\n" + "")))
  {
  }

  /** Three comment lines around the assignments. */
  lemma ParseFramed(begin: string, note: string, ps: seq<Pair>, end: string)
    requires begin != "" && begin[0] == '#' && '\n' !in begin
    requires note != "" && note[0] == '#' && '\n' !in note
    requires end != "" && end[0] == '#' && '\n' !in end
    requires Printable(ps)
    ensures ParseLines(begin + "\n" + note + "\n" + Lines(ps) + (end + "\n")) == ps
  {
    var last := end + "\n" + "";
    var body := Lines(ps) + last;
    Framed(begin, note, Lines(ps), end);
    CommentIsSkipped(begin, note + "\n" + body);
    CommentIsSkipped(note, body);
    ParsePrintedLines(ps, last);
    CommentIsSkipped(end, "");
    assert ps + [] == ps;
  }

  lemma BeginIsComment()
    ensures BEGIN != "" && BEGIN[0] == '#' && '\n' !in BEGIN
  {
    BeginIsOneLine();
  }

  lemma NoteIsOneLine()
    ensures NOTE != "" && NOTE[0] == '#' && '\n' !in NOTE
  {
  }

  lemma EndIsOneLine()
    ensures END != "" && END[0] == '#' && '\n' !in END
  {
  }
}
