/**
 The printed block and the applied environment say the same, and the printed block is one the
 file editor can find again.
 */
module AuthAgreement {
  import opened Options
  import opened ConfigCache
  import opened TextSearch
  import opened EnvFile
  import opened AuthBlock

  /** Every mapped key has its own printable variable, which is no enable flag; keys without a variable come last. */
  ghost predicate NamesFit(keys: seq<DbKey>) {
    && (forall i :: 0 <= i < |keys| && EnvName(keys[i]).Some? ==>
          IsGoodName(EnvName(keys[i]).value) && EnvName(keys[i]).value !in FLAG_NAMES)
    && (forall i, j :: 0 <= i < j < |keys| && EnvName(keys[j]).Some? ==>
          EnvName(keys[i]).Some? && EnvName(keys[i]) != EnvName(keys[j]))
  }

  lemma LdapNamesAreGood()
    ensures forall i :: 0 <= i < |LDAP_KEYS| ==>
              EnvName(LDAP_KEYS[i]).Some? && IsGoodName(EnvName(LDAP_KEYS[i]).value)
  {
    assert IsGoodName("AUTH_LDAP_SERVER_URI");
    assert IsGoodName("AUTH_LDAP_BIND_DN");
    assert IsGoodName("AUTH_LDAP_BIND_PASSWORD");
    assert IsGoodName("AUTH_LDAP_USER_DN_TEMPLATE");
    assert IsGoodName("AUTH_LDAP_USER_SEARCH_BASE");
    assert IsGoodName("AUTH_LDAP_USER_SEARCH_FILTER");
    assert IsGoodName("AUTH_LDAP_USER_ATTR_MAP");
  }

  lemma LdapNamesDiffer()
    ensures forall i, j :: 0 <= i < j < |LDAP_KEYS| ==> EnvName(LDAP_KEYS[i]) != EnvName(LDAP_KEYS[j])
    ensures forall i :: 0 <= i < |LDAP_KEYS| ==> EnvName(LDAP_KEYS[i]).value !in FLAG_NAMES
  {
    assert "AUTH_LDAP_BIND_PASSWORD"[10] != "AUTH_LDAP_USER_ATTR_MAP"[10];
    assert "AUTH_LDAP_USER_DN_TEMPLATE"[15] != "AUTH_LDAP_USER_SEARCH_BASE"[15];
  }

  lemma DingDingNamesFit()
    ensures NamesFit(DINGDING_KEYS)
  {
    assert IsGoodName("AUTH_DINGDING_APP_KEY");
    assert IsGoodName("AUTH_DINGDING_APP_SECRET");
    assert IsGoodName("AUTH_DINGDING_AUTHENTICATION_CALLBACK_URL");
  }

  lemma CasNamesFit()
    ensures NamesFit(CAS_KEYS)
  {
    assert IsGoodName("CAS_SERVER_URL");
    assert IsGoodName("CAS_VERSION");
    assert IsGoodName("CAS_VERIFY_SSL_CERTIFICATE");
    assert "CAS_VERSION"[0] != ENABLE_LDAP[0] && "CAS_VERSION"[0] != ENABLE_OIDC[0];
  }

  lemma OidcNamesAreGood()
    ensures forall i :: 0 <= i < |OIDC_KEYS| && EnvName(OIDC_KEYS[i]).Some? ==> IsGoodName(EnvName(OIDC_KEYS[i]).value)
  {
    assert IsGoodName("OIDC_RP_WELLKNOWN_URL");
    assert IsGoodName("OIDC_RP_CLIENT_ID");
    assert IsGoodName("OIDC_RP_CLIENT_SECRET");
    assert IsGoodName("OIDC_RP_SCOPES");
    assert IsGoodName("OIDC_RP_SIGN_ALGO");
    assert IsGoodName("OIDC_USER_ATTR_MAP");
  }

  lemma OidcNamesDiffer()
    ensures forall i, j :: 0 <= i < j < |OIDC_KEYS| && EnvName(OIDC_KEYS[j]).Some? ==>
              EnvName(OIDC_KEYS[i]).Some? && EnvName(OIDC_KEYS[i]) != EnvName(OIDC_KEYS[j])
    ensures forall i :: 0 <= i < |OIDC_KEYS| && EnvName(OIDC_KEYS[i]).Some? ==>
              EnvName(OIDC_KEYS[i]).value !in FLAG_NAMES
  {
    assert "OIDC_RP_WELLKNOWN_URL"[8] != "OIDC_RP_CLIENT_SECRET"[8];
    assert "OIDC_RP_CLIENT_ID"[8] != "OIDC_RP_SIGN_ALGO"[8];
  }

  lemma NamesFitProvider(p: Provider)
    ensures NamesFit(ProviderKeys(p))
  {
    match p {
      case Oidc =>
        OidcNamesAreGood();
        OidcNamesDiffer();
      case Common =>
      case Ldap =>
        LdapNamesAreGood();
        LdapNamesDiffer();
      case DingDing => DingDingNamesFit();
      case Cas => CasNamesFit();
      case Other =>
    }
  }

  lemma FlagNamesAreGood()
    ensures forall n :: n in FLAG_NAMES ==> IsGoodName(n)
  {
    assert IsGoodName(ENABLE_LDAP) && IsGoodName(ENABLE_OIDC) && IsGoodName(ENABLE_DINGDING) && IsGoodName(ENABLE_CAS);
  }

  // ---- Block and environment agree -------------------------------------------------------------

  /** No written value contains a line break. */
  ghost predicate WrittenOnOneLine(cfg: AuthConfig, keys: seq<DbKey>) {
    forall i :: 0 <= i < |keys| && IsWritten(cfg, keys[i]) ==> '\n' !in Show(Param(cfg, keys[i]))
  }

  lemma {:induction false} ParamPairsPrintable(cfg: AuthConfig, keys: seq<DbKey>)
    requires NamesFit(keys) && WrittenOnOneLine(cfg, keys)
    ensures Printable(ParamPairs(cfg, keys))
  {
    if keys != [] {
      assert forall i :: 0 <= i < |keys| - 1 ==> keys[1..][i] == keys[i + 1];
      ParamPairsPrintable(cfg, keys[1..]);
    }
  }

  lemma FlagPairsPrintable(p: Provider)
    ensures Printable(FlagPairs(p))
  {
    FlagNamesAreGood();
  }

  lemma BlockOnOneLine(cfg: AuthConfig)
    requires WrittenOnOneLine(cfg, ProviderKeys(cfg.provider))
    ensures ParseLines(Block(cfg)) == Pairs(cfg)
  {
    NamesFitProvider(cfg.provider);
    ParamPairsPrintable(cfg, ProviderKeys(cfg.provider));
    FlagPairsPrintable(cfg.provider);
    BeginIsComment();
    NoteIsOneLine();
    EndIsOneLine();
    ParseFramed(BEGIN, NOTE, Pairs(cfg), END);
  }

  /** A written value is the value of a printed pair. */
  lemma {:induction false} WrittenIsPrinted(cfg: AuthConfig, keys: seq<DbKey>, i: nat)
    requires i < |keys| && IsWritten(cfg, keys[i])
    ensures exists j :: 0 <= j < |ParamPairs(cfg, keys)| && ParamPairs(cfg, keys)[j].value == Show(Param(cfg, keys[i]))
    decreases |keys|
  {
    var ps := ParamPairs(cfg, keys);
    if i == 0 {
      assert ps[0].value == Show(Param(cfg, keys[0]));
    } else {
      WrittenIsPrinted(cfg, keys[1..], i - 1);
      var rest := ParamPairs(cfg, keys[1..]);
      var j :| 0 <= j < |rest| && rest[j].value == Show(Param(cfg, keys[i]));
      assert ps[j + if IsWritten(cfg, keys[0]) then 1 else 0] == rest[j];
    }
  }

  /** Reading the block gives back the assignments it was printed from exactly when no written value spans lines. */
  lemma BlockParsesToPairsIff(cfg: AuthConfig)
    ensures ParseLines(Block(cfg)) == Pairs(cfg) <==> WrittenOnOneLine(cfg, ProviderKeys(cfg.provider))
  {
    var keys := ProviderKeys(cfg.provider);
    if WrittenOnOneLine(cfg, keys) {
      BlockOnOneLine(cfg);
    } else {
      var i :| 0 <= i < |keys| && IsWritten(cfg, keys[i]) && '\n' in Show(Param(cfg, keys[i]));
      WrittenIsPrinted(cfg, keys, i);
      var j :| 0 <= j < |ParamPairs(cfg, keys)| && ParamPairs(cfg, keys)[j].value == Show(Param(cfg, keys[i]));
      assert Pairs(cfg)[|FlagPairs(cfg.provider)| + j] == ParamPairs(cfg, keys)[j];
      ParsedValuesAreLines(Block(cfg));
    }
  }

  lemma {:induction false} AssignFrame(env: Environ, ps: seq<Pair>, name: string)
    requires forall i :: 0 <= i < |ps| ==> ps[i].name != name
    ensures var env' := Assign(env, ps);
            (name in env' <==> name in env) && (name in env ==> env'[name] == env[name])
    decreases |ps|
  {
    if ps != [] {
      AssignFrame(env[ps[0].name := ps[0].value], ps[1..], name);
    }
  }

  lemma {:induction false} AssignConcat(env: Environ, a: seq<Pair>, b: seq<Pair>)
    ensures Assign(env, a + b) == Assign(Assign(env, a), b)
    decreases |a|
  {
    if a == [] {
      assert a + b == b;
    } else {
      assert (a + b)[0] == a[0] && (a + b)[1..] == a[1..] + b;
      AssignConcat(env[a[0].name := a[0].value], a[1..], b);
    }
  }

  lemma {:induction false} ParamPairNames(cfg: AuthConfig, keys: seq<DbKey>)
    ensures forall j :: 0 <= j < |ParamPairs(cfg, keys)| ==> ParamPairs(cfg, keys)[j].name in ProviderNames(keys)
  {
    if keys != [] {
      ParamPairNames(cfg, keys[1..]);
      assert keys[0] in keys && forall k :: k in keys[1..] ==> k in keys;
    }
  }

  lemma HeadNameIsNew(keys: seq<DbKey>)
    requires NamesFit(keys) && keys != [] && EnvName(keys[0]).Some?
    ensures EnvName(keys[0]).value !in ProviderNames(keys[1..]) && NamesFit(keys[1..])
  {
    forall i | 0 <= i < |keys| - 1
      ensures keys[1..][i] == keys[i + 1] && (EnvName(keys[i + 1]).Some? ==> EnvName(keys[i + 1]) != EnvName(keys[0]))
    {
    }
  }

  /** What the parameter loop leaves in the variable of one key. */
  lemma {:induction false} AppliedAt(env: Environ, cfg: AuthConfig, keys: seq<DbKey>, i: nat)
    requires NamesFit(keys) && i < |keys| && EnvName(keys[i]).Some?
    ensures var env', name := ApplyParams(env, cfg, keys).env, EnvName(keys[i]).value;
            (name in env' <==> IsWritten(cfg, keys[i])) && (name in env' ==> env'[name] == Show(Param(cfg, keys[i])))
    decreases |keys|
  {
    HeadNameIsNew(keys);
    var name := EnvName(keys[0]).value;
    var next := if IsWritten(cfg, keys[0]) then env[name := Show(Param(cfg, keys[0]))] else env - {name};
    if i == 0 {
      ApplyParamsFrame(next, cfg, keys[1..], name);
    } else {
      AppliedAt(next, cfg, keys[1..], i - 1);
    }
  }

  /** What assigning the printed pairs leaves there. */
  lemma {:induction false} AssignedAt(env: Environ, cfg: AuthConfig, keys: seq<DbKey>, i: nat)
    requires NamesFit(keys) && i < |keys| && EnvName(keys[i]).Some? && EnvName(keys[i]).value !in env
    ensures var env', name := Assign(env, ParamPairs(cfg, keys)), EnvName(keys[i]).value;
            (name in env' <==> IsWritten(cfg, keys[i])) && (name in env' ==> env'[name] == Show(Param(cfg, keys[i])))
    decreases |keys|
  {
    HeadNameIsNew(keys);
    ParamPairNames(cfg, keys[1..]);
    var ps := ParamPairs(cfg, keys);
    var name := EnvName(keys[0]).value;
    var next := if IsWritten(cfg, keys[0]) then env[name := Show(Param(cfg, keys[0]))] else env;
    assert Assign(env, ps) == Assign(next, ParamPairs(cfg, keys[1..])) by {
      if IsWritten(cfg, keys[0]) { assert ps[1..] == ParamPairs(cfg, keys[1..]); }
    }
    if i == 0 {
      AssignFrame(next, ParamPairs(cfg, keys[1..]), name);
    } else {
      AssignedAt(next, cfg, keys[1..], i - 1);
    }
  }

  lemma {:induction false} AssignKeys(env: Environ, ps: seq<Pair>)
    ensures Assign(env, ps).Keys == env.Keys + set i | 0 <= i < |ps| :: ps[i].name
    decreases |ps|
  {
    if ps != [] {
      AssignKeys(env[ps[0].name := ps[0].value], ps[1..]);
      assert forall i :: 0 <= i < |ps| - 1 ==> ps[1..][i] == ps[i + 1];
    }
  }

  /** Same variables present, same values, and nothing else read from the block. */
  ghost predicate Agree(parsed: Environ, env: Environ, names: set<string>) {
    && parsed.Keys <= names
    && forall n :: n in names ==> (n in parsed <==> n in env) && (n in parsed ==> parsed[n] == env[n])
  }

  lemma FlagsSurvive(env: Environ, cfg: AuthConfig, name: string)
    requires name in FLAG_NAMES
    ensures var keys := ProviderKeys(cfg.provider);
            var start := Assign(env, FlagPairs(cfg.provider));
            && name in start && name in ApplyParams(start, cfg, keys).env
            && name in Assign(start, ParamPairs(cfg, keys))
            && ApplyParams(start, cfg, keys).env[name] == start[name] == Assign(start, ParamPairs(cfg, keys))[name]
  {
    var keys := ProviderKeys(cfg.provider);
    NamesFitProvider(cfg.provider);
    AssignFlags(env, cfg.provider);
    ParamPairNames(cfg, keys);
    ApplyParamsFrame(Assign(env, FlagPairs(cfg.provider)), cfg, keys, name);
    AssignFrame(Assign(env, FlagPairs(cfg.provider)), ParamPairs(cfg, keys), name);
  }

  /** The variables assigned by flags and parameters, starting from nothing. */
  function Printed(cfg: AuthConfig): Environ {
    Assign(Assign(map[], FlagPairs(cfg.provider)), ParamPairs(cfg, ProviderKeys(cfg.provider)))
  }

  lemma PrintedKeys(cfg: AuthConfig)
    ensures Printed(cfg).Keys <= FLAG_NAMES + ProviderNames(ProviderKeys(cfg.provider))
  {
    var keys := ProviderKeys(cfg.provider);
    AssignFlags(map[], cfg.provider);
    ParamPairNames(cfg, keys);
    AssignKeys(Assign(map[], FlagPairs(cfg.provider)), ParamPairs(cfg, keys));
  }

  lemma FlagAgrees(cfg: AuthConfig, env: Environ, n: string)
    requires n in FLAG_NAMES
    ensures var applied := ApplyTo(env, cfg).env;
            n in Printed(cfg) && n in applied && Printed(cfg)[n] == applied[n]
  {
    AssignFlags(map[], cfg.provider);
    AssignFlags(env, cfg.provider);
    FlagsSurvive(map[], cfg, n);
    FlagsSurvive(env, cfg, n);
  }

  lemma ParamAgrees(cfg: AuthConfig, env: Environ, n: string)
    requires n in ProviderNames(ProviderKeys(cfg.provider))
    ensures var applied := ApplyTo(env, cfg).env;
            (n in Printed(cfg) <==> n in applied) && (n in Printed(cfg) ==> Printed(cfg)[n] == applied[n])
  {
    var keys := ProviderKeys(cfg.provider);
    NamesFitProvider(cfg.provider);
    var k :| k in keys && EnvName(k).Some? && n == EnvName(k).value;
    var i :| 0 <= i < |keys| && keys[i] == k;
    AssignFlags(map[], cfg.provider);
    AppliedAt(Assign(env, FlagPairs(cfg.provider)), cfg, keys, i);
    AssignedAt(Assign(map[], FlagPairs(cfg.provider)), cfg, keys, i);
  }

  lemma AgreementOnOneLine(cfg: AuthConfig, env: Environ)
    requires WrittenOnOneLine(cfg, ProviderKeys(cfg.provider))
    ensures var keys := ProviderKeys(cfg.provider);
            Agree(Assign(map[], ParseLines(Block(cfg))), ApplyTo(env, cfg).env, FLAG_NAMES + ProviderNames(keys))
  {
    var keys := ProviderKeys(cfg.provider);
    BlockParsesToPairsIff(cfg);
    AssignConcat(map[], FlagPairs(cfg.provider), ParamPairs(cfg, keys));
    assert Assign(map[], ParseLines(Block(cfg))) == Printed(cfg);
    PrintedKeys(cfg);
    forall n | n in FLAG_NAMES + ProviderNames(keys)
      ensures var applied := ApplyTo(env, cfg).env;
              (n in Printed(cfg) <==> n in applied) && (n in Printed(cfg) ==> Printed(cfg)[n] == applied[n])
    {
      if n in FLAG_NAMES {
        FlagAgrees(cfg, env, n);
      } else {
        ParamAgrees(cfg, env, n);
      }
    }
  }

  lemma {:induction false} AssignedValueIsListed(env: Environ, ps: seq<Pair>, name: string)
    requires name in Assign(env, ps)
    ensures (name in env && Assign(env, ps)[name] == env[name])
         || exists i :: 0 <= i < |ps| && ps[i].value == Assign(env, ps)[name]
    decreases |ps|
  {
    if ps != [] {
      var next := env[ps[0].name := ps[0].value];
      AssignedValueIsListed(next, ps[1..], name);
      if i :| 0 <= i < |ps[1..]| && ps[1..][i].value == Assign(env, ps)[name] {
        assert ps[i + 1].value == Assign(env, ps)[name];
      } else if name == ps[0].name {
        assert ps[0].value == Assign(env, ps)[name];
      }
    }
  }

  /**
   Reading the block line by line gives exactly the flags and parameters left in the environment, if
   and only if no written value spans lines. This holds for every provider, also where applying raises.
   */
  lemma BlockAgreesIff(cfg: AuthConfig, env: Environ)
    ensures var keys := ProviderKeys(cfg.provider);
            Agree(Assign(map[], ParseLines(Block(cfg))), ApplyTo(env, cfg).env, FLAG_NAMES + ProviderNames(keys))
            <==> WrittenOnOneLine(cfg, keys)
  {
    var keys := ProviderKeys(cfg.provider);
    if WrittenOnOneLine(cfg, keys) {
      AgreementOnOneLine(cfg, env);
    } else {
      var i :| 0 <= i < |keys| && IsWritten(cfg, keys[i]) && '\n' in Show(Param(cfg, keys[i]));
      NamesFitProvider(cfg.provider);
      AppliedAt(Assign(env, FlagPairs(cfg.provider)), cfg, keys, i);
      var name := EnvName(keys[i]).value;
      assert keys[i] in keys && name in ProviderNames(keys);
      var parsed := Assign(map[], ParseLines(Block(cfg)));
      if name in parsed {
        AssignedValueIsListed(map[], ParseLines(Block(cfg)), name);
        ParsedValuesAreLines(Block(cfg));
      }
    }
  }

  /** At most one enable flag reads `true`, the one of the configured provider, raised or not. */
  lemma OneFlagOn(env: Environ, cfg: AuthConfig)
    ensures var env' := ApplyTo(env, cfg).env;
            && FLAG_NAMES <= env'.Keys
            && env'[ENABLE_LDAP] == OnOff(cfg.provider == Ldap) && env'[ENABLE_OIDC] == OnOff(cfg.provider == Oidc)
            && env'[ENABLE_DINGDING] == OnOff(cfg.provider == DingDing)
            && env'[ENABLE_CAS] == OnOff(cfg.provider == Cas)
  {
    AssignFlags(env, cfg.provider);
    FlagsSurvive(env, cfg, ENABLE_LDAP);
    FlagsSurvive(env, cfg, ENABLE_OIDC);
    FlagsSurvive(env, cfg, ENABLE_DINGDING);
    FlagsSurvive(env, cfg, ENABLE_CAS);
    forall n | n in FLAG_NAMES ensures n in ApplyTo(env, cfg).env { FlagsSurvive(env, cfg, n); }
  }

  // ---- The printed block is well formed --------------------------------------------------------

  lemma OneLineSeam(a: string, b: string, p: string)
    requires p != "" && '\n' !in p
    ensures Contains(a + "\n" + b, p) <==> Contains(a, p) || Contains(b, p)
  {
    var t := a + "\n" + b;
    assert t == a + ("\n" + b) && t[|a|] == '\n';
    if Contains(a, p) {
      OccursInLeft(a, "\n" + b, p, Find(a, p));
    }
    if Contains(b, p) {
      assert t == (a + "\n") + b;
      OccursInRight(a + "\n", b, p, |a| + 1 + Find(b, p));
    }
    if Contains(t, p) {
      SeamCases(a, b, p, Find(t, p));
    }
  }

  lemma SeamCases(a: string, b: string, p: string, i: int)
    requires p != "" && '\n' !in p && OccursAt(a + "\n" + b, p, i)
    ensures Contains(a, p) || Contains(b, p)
  {
    var t := a + "\n" + b;
    assert t[|a|] == '\n' && forall k :: 0 <= k < |p| ==> p[k] != '\n';
    if i + |p| <= |a| {
      assert t == a + ("\n" + b);
      OccursInLeft(a, "\n" + b, p, i);
    } else if i > |a| {
      assert t == (a + "\n") + b;
      OccursInRight(a + "\n", b, p, i);
    } else {
      OccursIn(t, p, i, |a| - i);
    }
  }

  lemma NameHidesNothing(name: string, value: string, p: string)
    requires IsGoodName(name) && IsMarker(p) && p[0] == '#'
    ensures Contains(name + "=" + value, p) <==> Contains(value, p)
  {
    var front := name + "=";
    assert forall k :: 0 <= k < |front| ==> front[k] != '#';
    assert name + "=" + value == front + value;
    if Contains(front + value, p) {
      var i := Find(front + value, p);
      OccursIn(front + value, p, i, 0);
      if i >= |front| {
        OccursInRight(front, value, p, i);
      }
    }
    if Contains(value, p) {
      OccursInRight(front, value, p, |front| + Find(value, p));
    }
  }

  lemma EmptyHoldsNothing(p: string)
    requires p != ""
    ensures !Contains("", p)
  {
  }

  lemma {:induction false} LinesContain(ps: seq<Pair>, p: string)
    requires IsMarker(p) && p[0] == '#' && '\n' !in p
    requires forall i :: 0 <= i < |ps| ==> IsGoodName(ps[i].name)
    ensures Contains(Lines(ps), p) <==> exists i :: 0 <= i < |ps| && Contains(ps[i].value, p)
  {
    if ps == [] {
      EmptyHoldsNothing(p);
    } else {
      LinesContain(ps[1..], p);
      var line := ps[0].name + "=" + ps[0].value;
      assert Lines(ps) == line + "\n" + Lines(ps[1..]);
      OneLineSeam(line, Lines(ps[1..]), p);
      NameHidesNothing(ps[0].name, ps[0].value, p);
      if i :| 0 <= i < |ps| && Contains(ps[i].value, p) {
        assert i == 0 || ps[1..][i - 1] == ps[i];
      }
      if i :| 0 <= i < |ps[1..]| && Contains(ps[1..][i].value, p) {
        assert ps[i + 1] == ps[1..][i];
      }
    }
  }

  lemma CommentHoldsNoMarker(line: string, p: string, k: nat)
    requires IsMarker(line) && p != "" && p[0] == line[0]
    requires k < |line| && k < |p| && line[k] != p[k]
    ensures !Contains(line, p)
  {
    if Contains(line, p) {
      var i := Find(line, p);
      OccursIn(line, p, i, 0);
      OccursIn(line, p, i, k);
    }
  }

  lemma NoteIsMarkerLike()
    ensures IsMarker(NOTE) && |NOTE| > 2 && NOTE[0] == '#' && NOTE[2] != '='
    ensures END[2] == '='
  {
  }

  lemma PairNamesAreGood(cfg: AuthConfig)
    ensures forall i :: 0 <= i < |Pairs(cfg)| ==> IsGoodName(Pairs(cfg)[i].name)
  {
    FlagNamesAreGood();
    NamesFitProvider(cfg.provider);
    ParamPairNames(cfg, ProviderKeys(cfg.provider));
  }

  lemma FramedBy(m: Markers, rest: string, block: string)
    requires Fit(m) && block == m.begin + rest + (m.end + "\n")
    ensures IsFramed(m, block)
  {
    var pre := m.begin + rest;
    assert block == m.begin + (rest + (m.end + "\n"));
    assert OccursAt(m.begin, m.begin, 0) && OccursAt(m.end, m.end, 0);
    OccursInLeft(m.begin, rest + (m.end + "\n"), m.begin, 0);
    OccursInLeft(m.end, "\n", m.end, 0);
    OccursInRight(pre, m.end + "\n", m.end, |pre|);
  }

  lemma WellFormedFrame(m: Markers, rest: string, block: string)
    requires Fit(m) && block == m.begin + rest + (m.end + "\n")
    ensures IsFramed(m, block)
    ensures WellFormed(m, block) <==> !Contains(m.begin + rest, m.end)
  {
    FramedBy(m, rest, block);
    assert OccursAt(m.end, m.end, 0);
    OccursInLeft(m.end, "\n", m.end, 0);
    FindAcrossSeam(m.begin + rest, m.end + "\n", m.end);
  }

  /** Before its last line, the block holds an end marker exactly when some written value does. */
  lemma MarkerInBlock(cfg: AuthConfig)
    ensures Contains(HEADER + Lines(Pairs(cfg)), END)
       <==> exists i :: 0 <= i < |Pairs(cfg)| && Contains(Pairs(cfg)[i].value, END)
  {
    MarkersAreMarkers();
    EndIsOneLine();
    NoteIsMarkerLike();
    CommentHoldsNoMarker(BEGIN, END, 6);
    CommentHoldsNoMarker(NOTE, END, 2);
    PairNamesAreGood(cfg);
    HeaderContains(BEGIN, NOTE, Lines(Pairs(cfg)), END);
    LinesContain(Pairs(cfg), END);
  }

  lemma HeaderContains(begin: string, note: string, body: string, p: string)
    requires p != "" && '\n' !in p && !Contains(begin, p) && !Contains(note, p)
    ensures Contains(begin + "\n" + note + "\n" + body, p) <==> Contains(body, p)
  {
    assert begin + "\n" + note + "\n" + body == begin + "\n" + (note + "\n" + body);
    OneLineSeam(begin, note + "\n" + body, p);
    OneLineSeam(note, body, p);
  }

  ghost predicate NoValueHoldsEnd(cfg: AuthConfig) {
    forall i :: 0 <= i < |Pairs(cfg)| ==> !Contains(Pairs(cfg)[i].value, END)
  }

  /** The printed block's only end marker is its last line exactly when no written value contains one. */
  lemma BlockIsWellFormedIff(cfg: AuthConfig)
    ensures IsFramed(MARKERS, Block(cfg))
    ensures WellFormed(MARKERS, Block(cfg)) <==> NoValueHoldsEnd(cfg)
  {
    MarkersFit();
    MarkerInBlock(cfg);
    FramedBlock(BEGIN, NOTE, Lines(Pairs(cfg)), END);
    WellFormedFrame(MARKERS, "\n" + NOTE + "\n" + Lines(Pairs(cfg)), Block(cfg));
  }

  lemma FramedBlock(begin: string, note: string, lines: string, end: string)
    ensures var rest := "\n" + note + "\n" + lines;
            && begin + "\n" + note + "\n" + lines == begin + rest
            && begin + "\n" + note + "\n" + lines + (end + "\n") == begin + rest + (end + "\n")
  {
  }

  /**
   Saving any configuration in any file: it is read back whole exactly when the managed section of the
   file is orderly and no written value holds the end marker. Another configuration saved over it leaves
   nothing of it under the same two conditions, whatever the values of that other one.
   */
  lemma SavedBlockReadsBackIff(t: string, cfg: AuthConfig, later: AuthConfig)
    ensures Extract(MARKERS, Rewritten(MARKERS, t, Block(cfg))) == Block(cfg)[..|Block(cfg)| - 1]
       <==> IsOrderly(MARKERS, t) && NoValueHoldsEnd(cfg)
    ensures Rewritten(MARKERS, Rewritten(MARKERS, t, Block(cfg)), Block(later)) == Rewritten(MARKERS, t, Block(later))
       <==> IsOrderly(MARKERS, t) && NoValueHoldsEnd(cfg)
  {
    MarkersFit();
    BlockIsWellFormedIff(cfg);
    ExtractAfterRewriteIff(MARKERS, t, Block(cfg));
    SecondRewriteWinsIff(MARKERS, t, Block(cfg), Block(later));
  }

  /** A file that holds nothing but an end marker: whatever is saved is not read back from it. */
  lemma StrayEndHidesBlock(cfg: AuthConfig)
    ensures Extract(MARKERS, Rewritten(MARKERS, END, Block(cfg))) != Block(cfg)[..|Block(cfg)| - 1]
  {
    MarkersAreMarkers();
    assert OccursAt(END, END, 0);
    SavedBlockReadsBackIff(END, cfg, cfg);
  }

  // ---- In terms of variables and values ------------------------------------------------------------

  /** The variable of each key; two keys have none. */
  lemma VariablesOfKeys()
    ensures EnvName(LdapServerUri) == Some("AUTH_LDAP_SERVER_URI") && EnvName(LdapBindDn) == Some("AUTH_LDAP_BIND_DN")
    ensures EnvName(LdapBindPassword) == Some("AUTH_LDAP_BIND_PASSWORD")
    ensures EnvName(LdapUserDnTemplate) == Some("AUTH_LDAP_USER_DN_TEMPLATE")
    ensures EnvName(LdapUserSearchBase) == Some("AUTH_LDAP_USER_SEARCH_BASE")
    ensures EnvName(LdapUserSearchFilter) == Some("AUTH_LDAP_USER_SEARCH_FILTER")
    ensures EnvName(LdapUserAttrMap) == Some("AUTH_LDAP_USER_ATTR_MAP")
    ensures EnvName(OidcWellknownUrl) == Some("OIDC_RP_WELLKNOWN_URL")
    ensures EnvName(OidcClientId) == Some("OIDC_RP_CLIENT_ID")
    ensures EnvName(OidcClientSecret) == Some("OIDC_RP_CLIENT_SECRET") && EnvName(OidcScopes) == Some("OIDC_RP_SCOPES")
    ensures EnvName(OidcSignAlgo) == Some("OIDC_RP_SIGN_ALGO") && EnvName(OidcUserAttrMap) == Some("OIDC_USER_ATTR_MAP")
    ensures EnvName(DingAppKey) == Some("AUTH_DINGDING_APP_KEY")
    ensures EnvName(DingAppSecret) == Some("AUTH_DINGDING_APP_SECRET")
    ensures EnvName(DingCallbackUrl) == Some("AUTH_DINGDING_AUTHENTICATION_CALLBACK_URL")
    ensures EnvName(CasServerUrl) == Some("CAS_SERVER_URL") && EnvName(CasVersion) == Some("CAS_VERSION")
    ensures EnvName(CasVerifySsl) == Some("CAS_VERIFY_SSL_CERTIFICATE")
    ensures EnvName(OidcButtonName) == EnvName(AuthProvider) == None
  {
  }

  /** What the block is made of: its first and last line, the flags, and one line for each written value. */
  lemma BlockMeaning(cfg: AuthConfig, p: Pair)
    ensures BEGIN == "# === auth config (managed by DBShield) ===" && END == "# === end managed ==="
    ensures Block(cfg) == BEGIN + "\n" + NOTE + "\n" + Lines(Pairs(cfg)) + (END + "\n")
    ensures NOTE == "# 本段由「认证配置」页面自动维护，请勿手动编辑；手动配置请写在本段之外。"
    ensures Line(p) == p.name + "=" + p.value + "\n"
    ensures Pairs(cfg) == FlagPairs(cfg.provider) + ParamPairs(cfg, ProviderKeys(cfg.provider))
    ensures forall key :: key in ProviderKeys(cfg.provider) && EnvName(key).Some? && key in cfg.params
                          && cfg.params[key].Text? && cfg.params[key].text != "" ==>
              Pair(EnvName(key).value, cfg.params[key].text) in Pairs(cfg)
  {
    var keys := ProviderKeys(cfg.provider);
    forall key | key in keys && EnvName(key).Some? && key in cfg.params
                 && cfg.params[key].Text? && cfg.params[key].text != ""
      ensures Pair(EnvName(key).value, cfg.params[key].text) in Pairs(cfg)
    {
      var i :| 0 <= i < |keys| && keys[i] == key;
      WrittenPair(cfg, keys, i);
    }
  }

  lemma {:induction false} WrittenPair(cfg: AuthConfig, keys: seq<DbKey>, i: nat)
    requires i < |keys| && IsWritten(cfg, keys[i])
    ensures Pair(EnvName(keys[i]).value, Show(Param(cfg, keys[i]))) in ParamPairs(cfg, keys)
    decreases |keys|
  {
    if i > 0 {
      WrittenPair(cfg, keys[1..], i - 1);
    }
  }

  /** The keys of each provider. */
  lemma KeysOfProviders(key: DbKey)
    ensures key in ProviderKeys(Ldap) <==>
              key in {LdapServerUri, LdapBindDn, LdapBindPassword, LdapUserDnTemplate, LdapUserSearchBase,
                      LdapUserSearchFilter, LdapUserAttrMap}
    ensures key in ProviderKeys(Oidc) <==>
              key in {OidcWellknownUrl, OidcClientId, OidcClientSecret, OidcScopes, OidcSignAlgo, OidcUserAttrMap,
                      OidcButtonName}
    ensures key in ProviderKeys(DingDing) <==> key in {DingAppKey, DingAppSecret, DingCallbackUrl}
    ensures key in ProviderKeys(Cas) <==> key in {CasServerUrl, CasVersion, CasVerifySsl}
    ensures key in ProviderKeys(Common) <==> key in {AuthProvider, OidcButtonName}
    ensures key !in ProviderKeys(Other)
  {
  }

  /**
   After applying, the variable of a key of the current provider holds the configured value: text as it is,
   `True` or `False` for a flag; without a value, or with the empty text, the variable is gone.
   */
  lemma AppliedMeaning(env: Environ, cfg: AuthConfig, key: DbKey)
    requires key in ProviderKeys(cfg.provider) && EnvName(key).Some?
    ensures var env', name := ApplyTo(env, cfg).env, EnvName(key).value;
            if key !in cfg.params then name !in env'
            else match cfg.params[key]
                 case Text(s) => if s == "" then name !in env' else name in env' && env'[name] == s
                 case Flag(on) => name in env' && env'[name] == if on then "True" else "False"
  {
    var keys := ProviderKeys(cfg.provider);
    var i :| 0 <= i < |keys| && keys[i] == key;
    NamesFitProvider(cfg.provider);
    AppliedAt(Assign(env, FlagPairs(cfg.provider)), cfg, keys, i);
  }

  /** The enable flags are the variables of that name. */
  lemma FlagsMeaning(env: Environ, cfg: AuthConfig)
    ensures var env' := ApplyTo(env, cfg).env;
            && "ENABLE_LDAP" in env' && "ENABLE_OIDC" in env' && "ENABLE_DINGDING" in env' && "ENABLE_CAS" in env'
            && env'["ENABLE_LDAP"] == (if cfg.provider == Ldap then "true" else "false")
            && env'["ENABLE_OIDC"] == (if cfg.provider == Oidc then "true" else "false")
            && env'["ENABLE_DINGDING"] == (if cfg.provider == DingDing then "true" else "false")
            && env'["ENABLE_CAS"] == (if cfg.provider == Cas then "true" else "false")
  {
    OneFlagOn(env, cfg);
    assert {ENABLE_LDAP, ENABLE_OIDC, ENABLE_DINGDING, ENABLE_CAS} <= ApplyTo(env, cfg).env.Keys;
  }

  /** The snapshot records the variables of all keys, the four flags, and no others. */
  lemma TrackedMeaning(name: string)
    ensures name in TRACKED <==>
              (exists key :: EnvName(key) == Some(name))
              || name == "ENABLE_LDAP" || name == "ENABLE_OIDC" || name == "ENABLE_DINGDING" || name == "ENABLE_CAS"
  {
    forall key: DbKey ensures key in ALL_KEYS {
      KeyIsListed(key);
    }
  }

  lemma KeyIsListed(key: DbKey)
    ensures key in ALL_KEYS
  {
    KeysOfProviders(key);
    assert forall k :: k in LDAP_KEYS || k in OIDC_KEYS || k in DINGDING_KEYS || k in CAS_KEYS ==> k in ALL_KEYS;
  }
}
