/**
 The reload transaction: rewrite the file, snapshot and change the environment, re-execute the
 settings, and put everything back if that fails.
 */
module AuthReload {
  import opened Options
  import opened EnvFile
  import opened AuthBlock
  import opened AuthAgreement
  import opened EnvNames

  type Snapshot = map<string, Option<string>>

  /** One re-execution of the settings module: whether it got as far as reading `.env`, and whether it succeeded. */
  datatype Attempt = Attempt(readsEnv: bool, succeeds: bool)

  datatype Outcome = Busy | Raised | RolledBack | Reloaded

  function Content(file: Option<string>): string {
    if file.Some? then file.value else ""
  }

  /** Reading `.env` sets only what the environment does not have yet. */
  function Loaded(env: Environ, attempt: Attempt, fromFile: Environ): Environ {
    if attempt.readsEnv then fromFile + env else env
  }

  function SnapshotOf(env: Environ, names: set<string>): Snapshot {
    map k | k in names :: if k in env then Some(env[k]) else None
  }

  /** The named variables as they were in `before`, all others as they are in `env`. */
  function Restored(env: Environ, before: Environ, names: set<string>): Environ {
    (env - names) + map k | k in before && k in names :: before[k]
  }

  /** How a reload that got the lock ends. */
  function OutcomeOf(raised: bool, first: Attempt): Outcome {
    if raised then Raised else if first.succeeds then Reloaded else RolledBack
  }

  /** File and environment at the end, for each outcome. */
  ghost predicate EndsAs(outcome: Outcome, original: string, written: string, env: Environ, applied: Environ,
                         names: set<string>, first: Attempt, second: Attempt, loader: string -> Environ,
                         file: Option<string>, env': Environ) {
    match outcome
    case Busy => false
    case Raised => file == Some(written) && env' == applied
    case Reloaded => file == Some(written) && env' == Loaded(applied, first, loader(written))
    case RolledBack =>
      file == Some(original) &&
      env' == Loaded(Restored(Loaded(applied, first, loader(written)), env, names), second, loader(original))
  }

  lemma RestoredStep(env: Environ, before: Environ, names: set<string>, k: string)
    ensures Restored(env, before, names + {k})
         == if k in before then Restored(env, before, names)[k := before[k]] else Restored(env, before, names) - {k}
  {
  }

  /** Restoring key after key: one more of those still to come. */
  lemma RestoredNext(env: Environ, before: Environ, all: set<string>, left: set<string>, k: string)
    requires k in left && left <= all
    ensures Restored(env, before, all - (left - {k}))
         == var done := Restored(env, before, all - left); if k in before then done[k := before[k]] else done - {k}
  {
    assert all - (left - {k}) == (all - left) + {k};
    RestoredStep(env, before, all - left, k);
  }

  lemma NothingRestored(env: Environ, before: Environ, all: set<string>)
    ensures Restored(env, before, all - all) == env
  {
    assert all - all == {};
  }

  class Reloader {
    var file: Option<string>   // the `.env` file
    var environ: Environ
    var locked: bool           // the module lock

    constructor (file: Option<string>, environ: Environ)
      ensures this.file == file && this.environ == environ && !locked
    {
      this.file := file;
      this.environ := environ;
      locked := false;
    }

    method RewriteEnv(m: Markers, block: string) returns (original: string)
      modifies this`file
      ensures original == Content(old(file))
      ensures file == Some(Rewritten(m, original, block))
    {
      original := if file.Some? then file.value else "";
      var content := RewriteText(m, original, block);
      file := Some(content);
    }

    method RestoreEnv(original: string)
      modifies this`file
      ensures file == Some(original)
    {
      file := Some(original);
    }

    method SnapshotEnviron(names: set<string>) returns (snap: Snapshot)
      ensures snap == SnapshotOf(environ, names)
    {
      snap := map[];
      var keys := names;
      while keys != {}
        invariant keys <= names && snap.Keys == names - keys
        invariant forall k :: k in snap ==> snap[k] == if k in environ then Some(environ[k]) else None
        decreases |keys|
      {
        var k :| k in keys;
        if k in environ {
          snap := snap[k := Some(environ[k])];
        } else {
          snap := snap[k := None];
        }
        keys := keys - {k};
      }
    }

    method RestoreEnviron(snap: Snapshot, ghost before: Environ, ghost names: set<string>)
      requires snap == SnapshotOf(before, names)
      modifies this`environ
      ensures environ == Restored(old(environ), before, names)
    {
      ghost var start := environ;
      var keys := snap.Keys;
      NothingRestored(start, before, names);
      while keys != {}
        invariant keys <= names == snap.Keys
        invariant environ == Restored(start, before, names - keys)
        decreases |keys|
      {
        var k :| k in keys;
        RestoredNext(start, before, names, keys, k);
        match snap[k] {
          case None => environ := environ - {k};
          case Some(v) => environ := environ[k := v];
        }
        keys := keys - {k};
      }
      assert names - {} == names;
    }

    /** Re-executes the settings; on failure puts environment and file back and tries once more. */
    method ReloadOrRollBack(original: string, snap: Snapshot, ghost before: Environ, ghost names: set<string>,
                            first: Attempt, second: Attempt, loader: string -> Environ) returns (ok: bool)
      requires file.Some? && snap == SnapshotOf(before, names)
      modifies this`file, this`environ
      ensures ok == first.succeeds
      ensures var tried := Loaded(old(environ), first, loader(old(file).value));
              if ok then file == old(file) && environ == tried
              else file == Some(original) && environ == Loaded(Restored(tried, before, names), second, loader(original))
    {
      ok := ReloadSettings(first, loader);
      if !ok {
        RestoreEnviron(snap, before, names);
        RestoreEnv(original);
        var _ := ReloadSettings(second, loader);
      }
    }

    /** `pop(None)` of an unmapped key raises, leaving the environment half-way. */
    method ApplyToEnviron(cfg: AuthConfig) returns (raised: bool)
      modifies this`environ
      ensures Applied(environ, raised) == ApplyTo(old(environ), cfg)
    {
      var flags := FlagPairs(cfg.provider);
      for i := 0 to |flags|
        invariant Assign(environ, flags[i..]) == Assign(old(environ), flags)
      {
        assert flags[i..][0] == flags[i] && flags[i..][1..] == flags[i + 1..];
        environ := environ[flags[i].name := flags[i].value];
      }
      assert flags[|flags|..] == [];
      var keys := ProviderKeys(cfg.provider);
      ghost var start := environ;
      assert keys[0..] == keys;
      for i := 0 to |keys|
        invariant ApplyParams(environ, cfg, keys[i..]) == ApplyParams(start, cfg, keys)
      {
        assert keys[i..][0] == keys[i] && keys[i..][1..] == keys[i + 1..];
        var name := EnvName(keys[i]);
        var value := Param(cfg, keys[i]);
        if name.None? {
          return true;
        }
        if value == ConfigCache.Text("") {
          environ := environ - {name.value};
        } else {
          environ := environ[name.value := Show(value)];
        }
      }
      assert keys[|keys|..] == [];
      return false;
    }

    method ReloadSettings(attempt: Attempt, loader: string -> Environ) returns (ok: bool)
      requires file.Some?
      modifies this`environ
      ensures environ == Loaded(old(environ), attempt, loader(file.value))
      ensures ok == attempt.succeeds
    {
      if attempt.readsEnv {
        environ := loader(file.value) + environ;
      }
      return attempt.succeeds;
    }

    /** The body of the reload, between taking and releasing the lock. */
    method Transact(m: Markers, cfg: AuthConfig, block: string, names: set<string>, first: Attempt, second: Attempt,
                    loader: string -> Environ) returns (outcome: Outcome)
      modifies this`file, this`environ
      ensures outcome == OutcomeOf(ApplyTo(old(environ), cfg).raised, first)
      ensures var original := Content(old(file));
              EndsAs(outcome, original, Rewritten(m, original, block), old(environ),
                     ApplyTo(old(environ), cfg).env, names, first, second, loader, file, environ)
    {
      var original := RewriteEnv(m, block);
      var snapshot := SnapshotEnviron(names);
      ghost var before := environ;
      var raised := ApplyToEnviron(cfg);
      if raised {
        return Raised;
      }
      var ok := ReloadOrRollBack(original, snapshot, before, names, first, second, loader);
      return if ok then Reloaded else RolledBack;
    }

    method ReloadAuthConfig(cfg: AuthConfig, first: Attempt, second: Attempt, loader: string -> Environ)
      returns (outcome: Outcome)
      modifies this
      ensures locked == old(locked)
      ensures outcome == Busy <==> old(locked)
      ensures outcome == Busy ==> file == old(file) && environ == old(environ)
      ensures outcome == Raised <==> !old(locked) && (cfg.provider == Oidc || cfg.provider == Common)
      ensures outcome == Reloaded <==> !old(locked) && cfg.provider != Oidc && cfg.provider != Common && first.succeeds
      ensures var original := if old(file).Some? then old(file).value else "";
              var written := Rewritten(MARKERS, original, Block(cfg));
              && (outcome == Raised ==> file == Some(written) && environ == ApplyTo(old(environ), cfg).env)
              && (outcome == Reloaded ==>
                    file == Some(written) && environ == Loaded(ApplyTo(old(environ), cfg).env, first, loader(written)))
              && (outcome == RolledBack ==>
                    && file == Some(original)
                    && environ == RolledBackTo(old(environ), cfg, first, second, loader(written), loader(original)))
    {
      if locked {
        return Busy;
      }
      locked := true;
      ApplyRaisesIff(environ, cfg);
      var block := BuildManagedBlock(cfg);
      outcome := Transact(MARKERS, cfg, block, TRACKED, first, second, loader);
      locked := false;
    }
  }

  /** The environment a rolled-back reload leaves. */
  function RolledBackTo(env: Environ, cfg: AuthConfig, first: Attempt, second: Attempt,
                        fromWritten: Environ, fromOriginal: Environ): Environ {
    Loaded(Restored(Loaded(ApplyTo(env, cfg).env, first, fromWritten), env, TRACKED), second, fromOriginal)
  }

  /** Reading a file adds nothing to an environment that already has its variables. */
  ghost predicate AddsNothing(attempt: Attempt, fromFile: Environ, except: set<string>, env: Environ) {
    attempt.readsEnv ==> fromFile.Keys - except <= env.Keys
  }

  /** Restoring named variables after changes confined to them, with files read in between. */
  lemma RestoreIsExactIff(env: Environ, applied: Environ, names: set<string>, first: Attempt, second: Attempt,
                          fromWritten: Environ, fromOriginal: Environ)
    requires forall k :: k !in names ==> (k in applied <==> k in env) && (k in env ==> applied[k] == env[k])
    ensures Loaded(Restored(Loaded(applied, first, fromWritten), env, names), second, fromOriginal) == env
       <==> AddsNothing(first, fromWritten, names, env) && AddsNothing(second, fromOriginal, {}, env)
  {
    var tried := Loaded(applied, first, fromWritten);
    var back := Restored(tried, env, names);
    LoadedKeys(applied, first, fromWritten);
    RestoredKeys(tried, env, names);
    LoadedKeys(back, second, fromOriginal);
    var last := Loaded(back, second, fromOriginal);
    assert back.Keys == env.Keys + if first.readsEnv then fromWritten.Keys - names else {};
    assert last.Keys == back.Keys + if second.readsEnv then fromOriginal.Keys else {};
    assert last == env <==> last.Keys == env.Keys;
  }

  /** Reading the file adds the variables that are missing, with the file's values, and changes none. */
  lemma LoadedMeaning(env: Environ, attempt: Attempt, fromFile: Environ, name: string)
    ensures var env' := Loaded(env, attempt, fromFile);
            if name in env then name in env' && env'[name] == env[name]
            else if attempt.readsEnv && name in fromFile then name in env' && env'[name] == fromFile[name]
            else name !in env'
  {
  }

  /** Restoring puts the named variables back as they were, the absent ones included, and leaves the others. */
  lemma RestoredMeaning(env: Environ, before: Environ, names: set<string>, name: string)
    ensures var env' := Restored(env, before, names);
            var kept := if name in names then before else env;
            (name in env' <==> name in kept) && (name in kept ==> env'[name] == kept[name])
  {
  }

  lemma LoadedKeys(env: Environ, attempt: Attempt, fromFile: Environ)
    ensures var env' := Loaded(env, attempt, fromFile);
            && env'.Keys == env.Keys + (if attempt.readsEnv then fromFile.Keys else {})
            && forall k :: k in env ==> env'[k] == env[k]
  {
  }

  lemma RestoredKeys(env: Environ, before: Environ, names: set<string>)
    ensures var back := Restored(env, before, names);
            && back.Keys == (env.Keys - names) + (before.Keys * names)
            && (forall k :: k in before && k in names ==> back[k] == before[k])
            && (forall k :: k in env && k !in names ==> back[k] == env[k])
  {
  }

  /**
   A rolled-back reload restores every environment variable, tracked or not, exactly when the file
   assigns no variable the process had not loaded: the failed attempt may add untracked ones, the
   second attempt any.
   */
  lemma RollbackIsExactIff(env: Environ, cfg: AuthConfig, first: Attempt, second: Attempt,
                           fromWritten: Environ, fromOriginal: Environ)
    ensures RolledBackTo(env, cfg, first, second, fromWritten, fromOriginal) == env
       <==> AddsNothing(first, fromWritten, TRACKED, env) && AddsNothing(second, fromOriginal, {}, env)
  {
    forall k | k !in TRACKED
      ensures var applied := ApplyTo(env, cfg).env;
              (k in applied <==> k in env) && (k in env ==> applied[k] == env[k])
    {
      ApplyTouchesTrackedOnly(env, cfg, k);
    }
    RestoreIsExactIff(env, ApplyTo(env, cfg).env, TRACKED, first, second, fromWritten, fromOriginal);
  }

  /** If re-executing the settings reads nothing new, the rollback restores the environment exactly. */
  lemma RollbackIsExact(env: Environ, cfg: AuthConfig, first: Attempt, second: Attempt,
                        fromWritten: Environ, fromOriginal: Environ)
    requires first.readsEnv ==> fromWritten.Keys <= env.Keys + TRACKED
    requires second.readsEnv ==> fromOriginal.Keys <= env.Keys
    ensures RolledBackTo(env, cfg, first, second, fromWritten, fromOriginal) == env
  {
    RollbackIsExactIff(env, cfg, first, second, fromWritten, fromOriginal);
  }

  /** The environment a rolled-back reload leaves, with the file read line by line. */
  ghost function RolledBackFile(env: Environ, cfg: AuthConfig, original: string,
                                first: Attempt, second: Attempt): Environ {
    RolledBackTo(env, cfg, first, second, Reading(Rewritten(MARKERS, original, Block(cfg))), Reading(original))
  }

  /**
   For every file and configuration, and whether or not each attempt read the file: the rollback is
   exact if and only if the second attempt found only variables the process held, and the first only
   such and tracked ones, up to the begin marker, in the block's own lines and behind the end marker.
   */
  lemma ReadFileRollbackIff(env: Environ, cfg: AuthConfig, original: string, first: Attempt, second: Attempt)
    ensures RolledBackFile(env, cfg, original, first, second) == env
       <==> && (second.readsEnv ==> Names(original) <= env.Keys)
            && (first.readsEnv ==>
                  && Names(Head(MARKERS, original) + BEGIN) - TRACKED <= env.Keys
                  && Names(Lines(Pairs(cfg))) - TRACKED <= env.Keys
                  && NamesBehind(original) - TRACKED <= env.Keys)
  {
    var written := Rewritten(MARKERS, original, Block(cfg));
    ReadingKeys(written);
    ReadingKeys(original);
    RollbackIsExactIff(env, cfg, first, second, Reading(written), Reading(original));
    WrittenNamesAre(original, cfg);
    TailNamesAre(original);
  }

  /**
   When the second attempt reads the file: exact if and only if the process held every variable of the
   original file, and, should the first have read the rewritten one, every untracked one assigned by the
   block's own lines or behind the end marker.
   */
  lemma RereadRollbackIff(env: Environ, cfg: AuthConfig, original: string, first: Attempt, second: Attempt)
    requires second.readsEnv
    ensures RolledBackFile(env, cfg, original, first, second) == env
       <==> && Names(original) <= env.Keys
            && (first.readsEnv ==> Names(Lines(Pairs(cfg))) - TRACKED <= env.Keys)
            && (first.readsEnv ==> NamesBehind(original) - TRACKED <= env.Keys)
  {
    ReadFileRollbackIff(env, cfg, original, first, second);
    HeadNames(original);
  }

  /** For one-line values where the end marker ends its line, having loaded the original file is enough, and needed. */
  lemma TidyFileRollbackIff(env: Environ, cfg: AuthConfig, original: string, first: Attempt, second: Attempt)
    requires WrittenOnOneLine(cfg, ProviderKeys(cfg.provider)) && second.readsEnv
    requires HasBlock(MARKERS, original) ==>
               AfterBlock(MARKERS, original) == "" || AfterBlock(MARKERS, original)[0] == '\n'
    ensures RolledBackFile(env, cfg, original, first, second) == env <==> Names(original) <= env.Keys
  {
    RereadRollbackIff(env, cfg, original, first, second);
    OneLineNames(cfg);
    if HasBlock(MARKERS, original) {
      TailNames(original);
    }
  }

  /** What the failed attempt found in the rewritten file and is not tracked stays. */
  lemma UntrackedStays(env: Environ, cfg: AuthConfig, original: string, second: Attempt, name: string)
    requires name in Names(Rewritten(MARKERS, original, Block(cfg))) && name !in TRACKED
    ensures name in RolledBackFile(env, cfg, original, Attempt(true, false), second)
  {
    var first, applied := Attempt(true, false), ApplyTo(env, cfg).env;
    var fromWritten := Reading(Rewritten(MARKERS, original, Block(cfg)));
    ReadingKeys(Rewritten(MARKERS, original, Block(cfg)));
    var tried := Loaded(applied, first, fromWritten);
    LoadedKeys(applied, first, fromWritten);
    RestoredKeys(tried, env, TRACKED);
    LoadedKeys(Restored(tried, env, TRACKED), second, Reading(original));
  }

  /** Text on the line of the end marker: with any configuration, what it assigns is left in the environment. */
  lemma TextBehindMarkerStays(cfg: AuthConfig, second: Attempt)
    ensures var original := BEGIN + "\n" + END + "X=1";
            Names(original) == {} && "X" in RolledBackFile(map[], cfg, original, Attempt(true, false), second)
  {
    var original := BEGIN + "\n" + END + "X=1";
    MarkedLine("X=1");
    assert IsGoodName("X");
    ParsePairLine(Pair("X", "1"));
    assert "X" + "=" + "1" == "X=1";
    OneLine("X=1");
    assert ParseLines("X=1")[0].name == "X";
    WrittenNamesAre(original, cfg);
    TailNamesAre(original);
    ShortNamesAreUntracked("X");
    UntrackedStays(map[], cfg, original, second, "X");
  }

  lemma ShortNamesAreUntracked(name: string)
    requires |name| < 8
    ensures name !in TRACKED
  {
    forall k | EnvName(k).Some?
      ensures |EnvName(k).value| >= 8
    {
      MappedNameIsLong(k);
    }
  }

  lemma MappedNameIsLong(k: DbKey)
    requires EnvName(k).Some?
    ensures |EnvName(k).value| >= 8
  {
  }

  /** The configuration of a provider with one value that spans two lines. */
  const SPANNING := AuthConfig(Ldap, map[LdapServerUri := ConfigCache.Text("a\nEVIL=1")])

  /** A value that spans lines: in an empty file, the second line of the value is left in the environment. */
  lemma SpanningValueStays(second: Attempt)
    ensures "EVIL" in RolledBackFile(map[], SPANNING, "", Attempt(true, false), second)
  {
    SpanningPairs();
    SpanningNames();
    WrittenNamesAre("", SPANNING);
    ShortNamesAreUntracked("EVIL");
    UntrackedStays(map[], SPANNING, "", second, "EVIL");
  }

  lemma {:induction false} NothingWritten(cfg: AuthConfig, keys: seq<DbKey>)
    requires forall i :: 0 <= i < |keys| ==> !IsWritten(cfg, keys[i])
    ensures ParamPairs(cfg, keys) == []
  {
    if keys != [] {
      NothingWritten(cfg, keys[1..]);
    }
  }

  lemma SpanningPairs()
    ensures Pairs(SPANNING) == FlagPairs(Ldap) + [Pair("AUTH_LDAP_SERVER_URI", "a\nEVIL=1")]
  {
    NothingWritten(SPANNING, LDAP_KEYS[1..]);
    assert LDAP_KEYS[0] == LdapServerUri && IsWritten(SPANNING, LDAP_KEYS[0]);
  }

  /** The second line of a value that reads `name=rest` assigns that name. */
  lemma SecondLineAssigns(variable: string, first: string, name: string, rest: string)
    requires IsGoodName(name) && '\n' !in rest
    ensures name in Names(Line(Pair(variable, first + "\n" + (name + "=" + rest))))
  {
    var last := name + "=" + rest;
    assert Line(Pair(variable, first + "\n" + last)) == (variable + "=" + first) + "\n" + (last + "\n" + "");
    NamesAcross(variable + "=" + first, last + "\n" + "");
    NamesAcross(last, "");
    ParsePairLine(Pair(name, rest));
    OneLine(last);
    assert ParseLines(last)[0].name == name;
  }

  lemma SpanningNames()
    requires Pairs(SPANNING) == FlagPairs(Ldap) + [Pair("AUTH_LDAP_SERVER_URI", "a\nEVIL=1")]
    ensures "EVIL" in Names(Lines(Pairs(SPANNING)))
  {
    var p := Pair("AUTH_LDAP_SERVER_URI", "a\nEVIL=1");
    assert "a" + "\n" + ("EVIL" + "=" + "1") == "a\nEVIL=1";
    SecondLineAssigns("AUTH_LDAP_SERVER_URI", "a", "EVIL", "1");
    LinesExtend(FlagPairs(Ldap), p);
    NamesAfterLines(FlagPairs(Ldap), Line(p));
  }

  /** For provider oidc nothing is rolled back: the flag stays on although the reload reports failure. */
  lemma OidcLeavesFlagOn(env: Environ, cfg: AuthConfig)
    requires cfg.provider == Oidc
    requires ENABLE_OIDC !in env || env[ENABLE_OIDC] != "true"
    ensures ApplyTo(env, cfg).raised
    ensures var after := ApplyTo(env, cfg).env;
            ENABLE_OIDC in after && after[ENABLE_OIDC] == "true" && after != env
  {
    ApplyRaisesIff(env, cfg);
    AssignFlags(env, Oidc);
    OidcNamesAreNotFlags();
    ApplyParamsFrame(Assign(env, FlagPairs(Oidc)), cfg, OIDC_KEYS, ENABLE_OIDC);
  }

  lemma OidcNamesAreNotFlags()
    ensures ENABLE_OIDC !in ProviderNames(OIDC_KEYS)
  {
  }
}
