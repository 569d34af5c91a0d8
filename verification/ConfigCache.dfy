/**
 The configuration object: a table of item/value rows and a per-object cache in front of it.
 The question is when a cached object answers as a fresh one would.
 */
module ConfigCache {
  import opened Options

  /** A configuration value as callers see it. */
  datatype Value = Text(text: string) | Flag(on: bool)

  function Lower(c: char): char {
    if 'A' <= c <= 'Z' then (c as int + 32) as char else c
  }

  predicate Spells(s: string, word: string) {
    |s| == |word| && forall i :: 0 <= i < |s| ==> Lower(s[i]) == word[i]
  }

  predicate SpellsBoolean(s: string) {
    Spells(s, "true") || Spells(s, "false")
  }

  /** White space as `str.strip` knows it. */
  predicate IsSpace(c: char) {
    var n := c as int;
    0x09 <= n <= 0x0D || 0x1C <= n <= 0x20 || n == 0x85 || n == 0xA0 || n == 0x1680 ||
    0x2000 <= n <= 0x200A || n == 0x2028 || n == 0x2029 || n == 0x202F || n == 0x205F || n == 0x3000
  }

  function StripLeft(s: string): string {
    if s != "" && IsSpace(s[0]) then StripLeft(s[1..]) else s
  }

  function StripRight(s: string): string {
    if s != "" && IsSpace(s[|s| - 1]) then StripRight(s[..|s| - 1]) else s
  }

  function Strip(s: string): string {
    StripRight(StripLeft(s))
  }

  predicate IsBlank(s: string) {
    Strip(s) == ""
  }

  /** `filter_bool`: any capitalisation of true and false. */
  function FilterBool(s: string): Value {
    if Spells(s, "true") then Flag(true) else if Spells(s, "false") then Flag(false) else Text(s)
  }

  /** The narrower conversion `get_all_config` applies. */
  function LoadValue(s: string): Value {
    if s == "true" || s == "True" then Flag(true)
    else if s == "false" || s == "False" then Flag(false)
    else Text(s)
  }

  predicate Truthy(v: Value) {
    match v
    case Text(s) => s != ""
    case Flag(b) => b
  }

  /** What `set` writes to the table. */
  function Stored(v: Value): string {
    match v
    case Text(s) => s
    case Flag(true) => "true"
    case Flag(false) => "false"
  }

  type Table = map<string, string>
  type Cache = map<string, Value>

  /** What a newly created object answers, straight from the table. */
  function Fresh(table: Table, key: string, default: Value): Value {
    if key !in table then default
    else
      var v := FilterBool(table[key]);
      if v.Text? && IsBlank(v.text) then default else v
  }

  /** What an object with this cache answers. */
  function Lookup(cache: Cache, table: Table, key: string, default: Value): Value {
    var cached := if key in cache then Some(cache[key]) else None;
    if cached.Some? && Truthy(cached.value) then cached.value
    else
      var found := if key in table then Some(FilterBool(table[key])) else cached;
      if found.None? || (found.value.Text? && IsBlank(found.value.text)) then default else found.value
  }

  function LoadAll(table: Table): Cache {
    map key | key in table :: LoadValue(table[key])
  }

  datatype Item = Item(key: string, value: string)

  predicate DistinctKeys(items: seq<Item>) {
    forall i, j :: 0 <= i < j < |items| ==> Strip(items[i].key) != Strip(items[j].key)
  }

  /** The table after deleting every submitted key and inserting the rows. */
  function Written(table: Table, items: seq<Item>): Table {
    if items == [] then table
    else
      var last := items[|items| - 1];
      Written(table, items[..|items| - 1])[Strip(last.key) := Strip(last.value)]
  }

  function KeysOf(items: seq<Item>): set<string> {
    set i | 0 <= i < |items| :: Strip(items[i].key)
  }

  lemma KeysExtend(short: seq<Item>, last: Item)
    ensures KeysOf(short + [last]) == KeysOf(short) + {Strip(last.key)}
  {
    var longer := short + [last];
    assert longer[|short|] == last;
    assert forall j :: 0 <= j < |short| ==> longer[j] == short[j];
  }

  lemma DistinctExtends(short: seq<Item>, last: Item)
    ensures DistinctKeys(short + [last]) <==> DistinctKeys(short) && Strip(last.key) !in KeysOf(short)
  {
    var longer := short + [last];
    assert longer[|short|] == last;
    assert forall j :: 0 <= j < |short| ==> longer[j] == short[j];
  }

  lemma OneMoreRow(table: Table, items: seq<Item>, i: nat)
    requires i < |items|
    ensures var key := Strip(items[i].key);
            && (DistinctKeys(items[..i + 1]) <==> DistinctKeys(items[..i]) && key !in KeysOf(items[..i]))
            && KeysOf(items[..i + 1]) == KeysOf(items[..i]) + {key}
            && Written(table, items[..i + 1]) == Written(table, items[..i])[key := Strip(items[i].value)]
  {
    assert items[..i + 1] == items[..i] + [items[i]] && items[..i + 1][..i] == items[..i];
    KeysExtend(items[..i], items[i]);
    DistinctExtends(items[..i], items[i]);
  }

  /** `None` stands for a submission that is not a list of key/value objects. */
  function Replaced(table: Table, submitted: Option<seq<Item>>): Table {
    if submitted.Some? && DistinctKeys(submitted.value) then Written(table, submitted.value) else table
  }

  class SysConfig {
    var sysConfig: Cache
    var table: Table      // the Config table; this object is its only writer

    ghost function View(): Store
      reads this
    {
      Store(sysConfig, table)
    }

    constructor (table: Table)
      ensures this.table == table && sysConfig == map[]
    {
      this.table := table;
      sysConfig := map[];
    }

    method GetAllConfig()
      modifies this`sysConfig
      ensures sysConfig == LoadAll(table)
    {
      var loaded: Cache := map[];
      var rows := table.Keys;
      while rows != {}
        invariant rows <= table.Keys
        invariant loaded.Keys == table.Keys - rows
        invariant forall k :: k in loaded ==> loaded[k] == LoadValue(table[k])
        decreases |rows|
      {
        var key :| key in rows;
        var value := Text(table[key]);
        if table[key] in {"true", "True"} {
          value := Flag(true);
        } else if table[key] in {"false", "False"} {
          value := Flag(false);
        }
        loaded := loaded[key := value];
        rows := rows - {key};
      }
      sysConfig := loaded;
    }

    method Get(key: string, default: Value) returns (r: Value)
      modifies this`sysConfig
      ensures r == Lookup(old(sysConfig), table, key, default)
      ensures sysConfig == old(sysConfig) || sysConfig == old(sysConfig)[key := r]
      ensures forall k, d :: Lookup(sysConfig, table, k, d) == Lookup(old(sysConfig), table, k, d)
      ensures Step(old(View()), OpGet(key, default), View())
    {
      var value := if key in sysConfig then Some(sysConfig[key]) else None;
      if value.Some? && Truthy(value.value) {
        return value.value;
      }
      if key in table {
        value := Some(FilterBool(table[key]));
      }
      if value.Some? && value.value.Text? && IsBlank(value.value.text) {
        return default;
      }
      if value.Some? {
        sysConfig := sysConfig[key := value.value];
        return value.value;
      }
      return default;
    }

    method Set(key: string, value: Value)
      modifies this
      ensures table == old(table)[key := Stored(value)]
      ensures sysConfig == old(sysConfig)[key := value]
      ensures Step(old(View()), OpSet(key, value), View())
    {
      var dbValue := "";
      match value {
        case Flag(b) => dbValue := if b then "true" else "false";
        case Text(s) => dbValue := s;
      }
      table := table[key := dbValue];
      sysConfig := sysConfig[key := value];
    }

    /** The transaction: the submitted rows are deleted and inserted, and the unique index may refuse one. */
    method SaveAll(items: seq<Item>) returns (ok: bool)
      modifies this`table
      ensures ok == DistinctKeys(items)
      ensures table == if ok then Written(old(table), items) else old(table)
    {
      ok := true;
      var saved := table;
      var inserted: set<string> := {};
      for i := 0 to |items|
        invariant ok <==> DistinctKeys(items[..i])
        invariant ok ==> inserted == KeysOf(items[..i]) && table == Written(saved, items[..i])
      {
        var key := Strip(items[i].key);
        OneMoreRow(saved, items, i);
        if key in inserted {
          ok := false;
        }
        if ok {
          inserted := inserted + {key};
          table := table[key := Strip(items[i].value)];
        }
      }
      assert items[..|items|] == items;
      if !ok {
        table := saved;
      }
    }

    method Replace(submitted: Option<seq<Item>>) returns (ok: bool)
      modifies this
      ensures ok == (submitted.Some? && DistinctKeys(submitted.value))
      ensures table == Replaced(old(table), submitted)
      ensures sysConfig == LoadAll(table)
      ensures Step(old(View()), OpReplace(submitted), View())
    {
      ok := submitted.Some?;
      if ok {
        ok := SaveAll(submitted.value);
      }
      GetAllConfig();
    }
  }

  // ---- When the cache refines the table ------------------------------------------------------

  /** No caller can tell this cache from an empty one. */
  ghost predicate Coherent(cache: Cache, table: Table) {
    forall key, default :: Lookup(cache, table, key, default) == Fresh(table, key, default)
  }

  /** A string that loading and reading treat alike. */
  predicate IsUniform(s: string) {
    && (SpellsBoolean(s) ==> s in {"true", "True", "false", "False"})
    && (IsBlank(s) ==> s == "")
  }

  /** What may be passed to `set`: a boolean, or a string neither blank (but for empty) nor spelling one. */
  predicate IsSettable(v: Value) {
    v.Flag? || v.text == "" || (!IsBlank(v.text) && !SpellsBoolean(v.text))
  }

  lemma EmptyCacheIsCoherent(table: Table)
    ensures Coherent(map[], table)
  {
  }

  lemma UniformLookup(table: Table, key: string, default: Value)
    requires key in table && IsUniform(table[key])
    ensures Lookup(LoadAll(table), table, key, default) == Fresh(table, key, default)
  {
    assert LoadAll(table)[key] == LoadValue(table[key]);
  }

  lemma IrregularLookup(table: Table, key: string)
    requires key in table && !IsUniform(table[key])
    ensures Lookup(LoadAll(table), table, key, Flag(true)) != Fresh(table, key, Flag(true))
  {
    assert LoadAll(table)[key] == LoadValue(table[key]);
  }

  lemma LookupAfterLoad(table: Table, key: string)
    requires key in table
    ensures IsUniform(table[key]) <==>
            forall default :: Lookup(LoadAll(table), table, key, default) == Fresh(table, key, default)
  {
    if IsUniform(table[key]) {
      forall default
        ensures Lookup(LoadAll(table), table, key, default) == Fresh(table, key, default)
      {
        UniformLookup(table, key, default);
      }
    } else {
      IrregularLookup(table, key);
    }
  }

  /** After loading everything (every `replace` ends so) the object is coherent exactly when all rows are uniform. */
  lemma LoadedCacheIsCoherentIff(table: Table)
    ensures Coherent(LoadAll(table), table) <==> forall key :: key in table ==> IsUniform(table[key])
  {
    forall key | key in table
      ensures IsUniform(table[key]) <==>
              forall default :: Lookup(LoadAll(table), table, key, default) == Fresh(table, key, default)
    {
      LookupAfterLoad(table, key);
    }
    forall key, default | key !in table
      ensures Lookup(LoadAll(table), table, key, default) == Fresh(table, key, default)
    {
    }
  }

  /** `set` keeps a coherent object coherent exactly for the settable values. */
  lemma SetKeepsCoherenceIff(cache: Cache, table: Table, key: string, value: Value)
    requires Coherent(cache, table)
    ensures Coherent(cache[key := value], table[key := Stored(value)]) <==> IsSettable(value)
  {
    var cache', table' := cache[key := value], table[key := Stored(value)];
    forall k, default | k != key
      ensures Lookup(cache', table', k, default) == Fresh(table', k, default)
    {
      assert Lookup(cache, table, k, default) == Fresh(table, k, default);
    }
    if IsSettable(value) {
      forall default
        ensures Lookup(cache', table', key, default) == Fresh(table', key, default)
      {
      }
    } else {
      assert Lookup(cache', table', key, Flag(true)) != Fresh(table', key, Flag(true))
          || Lookup(cache', table', key, Flag(false)) != Fresh(table', key, Flag(false));
    }
  }

  predicate Submits(items: seq<Item>, key: string) {
    exists i :: 0 <= i < |items| && Strip(items[i].key) == key
  }

  /** `replace` leaves every key it does not submit as it was. */
  lemma {:induction false} WrittenKeepsOtherKeys(table: Table, items: seq<Item>, key: string)
    requires !Submits(items, key)
    ensures (key in Written(table, items)) <==> (key in table)
    ensures key in table ==> Written(table, items)[key] == table[key]
  {
    if items != [] {
      assert forall i :: 0 <= i < |items| - 1 ==> items[..|items| - 1][i] == items[i];
      WrittenKeepsOtherKeys(table, items[..|items| - 1], key);
      assert Strip(items[|items| - 1].key) != key;
    }
  }

  /** Every submitted key gets the stripped value submitted with it. */
  lemma {:induction false} WrittenHoldsSubmitted(table: Table, items: seq<Item>, i: nat)
    requires i < |items| && DistinctKeys(items)
    ensures Strip(items[i].key) in Written(table, items)
    ensures Written(table, items)[Strip(items[i].key)] == Strip(items[i].value)
  {
    var n := |items| - 1;
    var front := items[..n];
    if i < n {
      assert forall j :: 0 <= j < n ==> front[j] == items[j];
      WrittenHoldsSubmitted(table, front, i);
    }
  }

  // ---- Whole runs ----------------------------------------------------------------------------

  datatype Op =
    | OpGet(key: string, default: Value)
    | OpSet(key: string, value: Value)
    | OpReplace(submitted: Option<seq<Item>>)

  datatype Store = Store(cache: Cache, table: Table)

  /** One call: the cache and table it may leave. */
  ghost predicate Step(s: Store, op: Op, s': Store) {
    match op
    case OpGet(key, default) =>
      s'.table == s.table &&
      (s'.cache == s.cache || s'.cache == s.cache[key := Lookup(s.cache, s.table, key, default)]) &&
      forall k, d :: Lookup(s'.cache, s'.table, k, d) == Lookup(s.cache, s.table, k, d)
    case OpSet(key, value) => s' == Store(s.cache[key := value], s.table[key := Stored(value)])
    case OpReplace(submitted) =>
      s'.table == Replaced(s.table, submitted) && s'.cache == LoadAll(s'.table)
  }

  /** Values a caller should pass. */
  ghost predicate WellUsed(op: Op) {
    match op
    case OpGet(_, _) => true
    case OpSet(_, value) => IsSettable(value)
    case OpReplace(submitted) =>
      submitted.Some? ==> forall i :: 0 <= i < |submitted.value| ==> IsUniform(Strip(submitted.value[i].value))
  }

  ghost predicate IsRun(states: seq<Store>, ops: seq<Op>) {
    |states| == |ops| + 1 && forall i :: 0 <= i < |ops| ==> Step(states[i], ops[i], states[i + 1])
  }

  ghost predicate UniformTable(table: Table) {
    forall key :: key in table ==> IsUniform(table[key])
  }

  lemma UniformStored(v: Value)
    requires IsSettable(v)
    ensures IsUniform(Stored(v))
  {
  }

  /** Rows a `replace` keeps are uniform, and so are the values it writes; if it fails it keeps them all. */
  ghost predicate LeavesUniformRows(table: Table, submitted: Option<seq<Item>>) {
    if submitted.Some? && DistinctKeys(submitted.value) then
      && (forall key :: key in table && !Submits(submitted.value, key) ==> IsUniform(table[key]))
      && (forall i :: 0 <= i < |submitted.value| ==> IsUniform(Strip(submitted.value[i].value)))
    else
      UniformTable(table)
  }

  lemma ReplacedIsUniformIff(table: Table, submitted: Option<seq<Item>>)
    ensures UniformTable(Replaced(table, submitted)) <==> LeavesUniformRows(table, submitted)
  {
    if submitted.Some? && DistinctKeys(submitted.value) {
      WrittenIsUniformIff(table, submitted.value);
    }
  }

  lemma WrittenIsUniformIff(table: Table, items: seq<Item>)
    requires DistinctKeys(items)
    ensures UniformTable(Written(table, items)) <==> LeavesUniformRows(table, Some(items))
  {
    forall i | 0 <= i < |items|
      ensures Strip(items[i].key) in Written(table, items)
      ensures Written(table, items)[Strip(items[i].key)] == Strip(items[i].value)
    {
      WrittenHoldsSubmitted(table, items, i);
    }
    forall key | !Submits(items, key)
      ensures key in Written(table, items) <==> key in table
      ensures key in table ==> Written(table, items)[key] == table[key]
    {
      WrittenKeepsOtherKeys(table, items, key);
    }
  }

  /** What a caller can check before a call: the value to set, or the rows and values of a `replace`. */
  ghost predicate KeepsFresh(s: Store, op: Op) {
    match op
    case OpGet(_, _) => true
    case OpSet(_, value) => IsSettable(value)
    case OpReplace(submitted) => LeavesUniformRows(s.table, submitted)
  }

  /** One call on a coherent object leaves it coherent exactly under that condition. */
  lemma StepKeepsCoherenceIff(s: Store, op: Op, s': Store)
    requires Step(s, op, s') && Coherent(s.cache, s.table)
    ensures Coherent(s'.cache, s'.table) <==> KeepsFresh(s, op)
  {
    match op
    case OpGet(_, _) =>
      forall k, d ensures Lookup(s'.cache, s'.table, k, d) == Fresh(s'.table, k, d) {
        assert Lookup(s.cache, s.table, k, d) == Fresh(s.table, k, d);
      }
    case OpSet(key, value) => SetKeepsCoherenceIff(s.cache, s.table, key, value);
    case OpReplace(submitted) =>
      LoadedCacheIsCoherentIff(s'.table);
      ReplacedIsUniformIff(s.table, submitted);
  }

  /**
   Over any sequence of calls on one object: every answer all along is the one a fresh object would give
   if and only if every `set` passed a settable value, and every `replace` wrote uniform values and kept
   uniform rows.
   */
  lemma RunAnswersAsFreshIff(states: seq<Store>, ops: seq<Op>)
    requires IsRun(states, ops) && states[0].cache == map[]
    ensures (forall i :: 0 <= i < |states| ==> Coherent(states[i].cache, states[i].table))
       <==> (forall k :: 0 <= k < |ops| ==> KeepsFresh(states[k], ops[k]))
  {
    if forall i :: 0 <= i < |states| ==> Coherent(states[i].cache, states[i].table) {
      forall k | 0 <= k < |ops|
        ensures KeepsFresh(states[k], ops[k])
      {
        StepKeepsCoherenceIff(states[k], ops[k], states[k + 1]);
      }
    }
    if forall k :: 0 <= k < |ops| ==> KeepsFresh(states[k], ops[k]) {
      forall i | 0 <= i < |states|
        ensures Coherent(states[i].cache, states[i].table)
      {
        FreshSoFar(states, ops, i);
      }
    }
  }

  lemma {:induction false} FreshSoFar(states: seq<Store>, ops: seq<Op>, i: nat)
    requires IsRun(states, ops) && i < |states| && states[0].cache == map[]
    requires forall k :: 0 <= k < |ops| ==> KeepsFresh(states[k], ops[k])
    ensures Coherent(states[i].cache, states[i].table)
  {
    if i == 0 {
      EmptyCacheIsCoherent(states[0].table);
    } else {
      FreshSoFar(states, ops, i - 1);
      StepKeepsCoherenceIff(states[i - 1], ops[i - 1], states[i]);
    }
  }

  /** Well-used calls keep uniform rows uniform, and a coherent object coherent; only `replace` needs the rows. */
  lemma StepKeepsCoherence(s: Store, op: Op, s': Store)
    requires Step(s, op, s') && WellUsed(op) && Coherent(s.cache, s.table)
    requires op.OpReplace? ==> UniformTable(s.table)
    ensures Coherent(s'.cache, s'.table)
    ensures UniformTable(s.table) ==> UniformTable(s'.table)
  {
    match op {
      case OpGet(_, _) =>
      case OpSet(key, value) => UniformStored(value);
      case OpReplace(submitted) => ReplacedIsUniformIff(s.table, submitted);
    }
    StepKeepsCoherenceIff(s, op, s');
  }

  /** In particular over any sequence of well-used calls, from uniform rows if the sequence has a `replace`. */
  lemma {:induction false} RunAnswersAsFresh(states: seq<Store>, ops: seq<Op>, i: nat)
    requires IsRun(states, ops) && i < |states| && states[0].cache == map[]
    requires forall k :: 0 <= k < |ops| ==> WellUsed(ops[k])
    requires forall k :: 0 <= k < |ops| && ops[k].OpReplace? ==> UniformTable(states[0].table)
    ensures Coherent(states[i].cache, states[i].table)
    ensures UniformTable(states[0].table) ==> UniformTable(states[i].table)
  {
    if i == 0 {
      EmptyCacheIsCoherent(states[0].table);
    } else {
      RunAnswersAsFresh(states, ops, i - 1);
      StepKeepsCoherence(states[i - 1], ops[i - 1], states[i]);
    }
  }

  /** The use rules matter: `set("TRUE")` reads back as a string here and as a boolean elsewhere. */
  lemma ShoutedTrueIsIncoherent(cache: Cache, table: Table, key: string)
    requires Coherent(cache, table)
    ensures !Coherent(cache[key := Text("TRUE")], table[key := "TRUE"])
  {
    assert Spells("TRUE", "true");
    SetKeepsCoherenceIff(cache, table, key, Text("TRUE"));
  }

  // ---- In terms of the stored texts ------------------------------------------------------------------

  /** A text in which every letter is the given one, in either case. */
  predicate InEitherCase(s: string, lower: string, upper: string) {
    |s| == |lower| == |upper| && forall i :: 0 <= i < |s| ==> s[i] == lower[i] || s[i] == upper[i]
  }

  lemma SpellsMeaning(s: string)
    ensures Spells(s, "true") <==> InEitherCase(s, "true", "TRUE")
    ensures Spells(s, "false") <==> InEitherCase(s, "false", "FALSE")
  {
    assert "TRUE"[0] == 'T' && "TRUE"[1] == 'R' && "TRUE"[2] == 'U' && "TRUE"[3] == 'E';
  }

  /** What a new object answers: the default without a row or for a blank one, booleans in any case, else the text. */
  lemma FreshMeaning(table: Table, key: string, default: Value)
    ensures key !in table ==> Fresh(table, key, default) == default
    ensures key in table ==>
              var s := table[key];
              Fresh(table, key, default)
              == if InEitherCase(s, "true", "TRUE") then Flag(true)
                 else if InEitherCase(s, "false", "FALSE") then Flag(false)
                 else if IsBlank(s) then default
                 else Text(s)
  {
    if key in table {
      SpellsMeaning(table[key]);
    }
  }

  /** A settable value that is no empty text is answered by a new object after `set`, over whatever was there. */
  lemma SetIsReadBack(table: Table, key: string, value: Value, default: Value)
    requires IsSettable(value) && value != Text("")
    ensures Fresh(table[key := Stored(value)], key, default) == value
    ensures value.Flag? ==> Stored(value) == if value.on then "true" else "false"
    ensures value.Text? ==> Stored(value) == value.text
  {
    if value.Flag? {
      assert InEitherCase(Stored(value), if value.on then "true" else "false", if value.on then "TRUE" else "FALSE");
      FreshMeaning(table[key := Stored(value)], key, default);
    }
  }

  /** Loading turns exactly four spellings into booleans. */
  lemma LoadedMeaning(table: Table, key: string)
    requires key in table
    ensures LoadAll(table).Keys == table.Keys
    ensures var s, v := table[key], LoadAll(table)[key];
            && (v == Flag(true) <==> s == "true" || s == "True")
            && (v == Flag(false) <==> s == "false" || s == "False")
            && (v.Text? ==> v.text == s)
  {
  }

  lemma {:induction false} StripLeftMeaning(s: string)
    ensures var r := StripLeft(s);
            && |r| <= |s| && r == s[|s| - |r|..] && (forall i :: 0 <= i < |s| - |r| ==> IsSpace(s[i]))
            && (r != "" ==> !IsSpace(r[0]))
  {
    if s != "" && IsSpace(s[0]) {
      var rest := s[1..];
      var r := StripLeft(rest);
      StripLeftMeaning(rest);
      assert s[|s| - |r|..] == rest[|rest| - |r|..];
      forall i | 0 <= i < |s| - |r| ensures IsSpace(s[i]) {
        assert i > 0 ==> s[i] == rest[i - 1];
      }
    }
  }

  lemma {:induction false} StripRightMeaning(s: string)
    ensures var r := StripRight(s);
            && |r| <= |s| && r == s[..|r|] && (forall i :: |r| <= i < |s| ==> IsSpace(s[i]))
            && (r != "" ==> !IsSpace(r[|r| - 1]))
  {
    if s != "" && IsSpace(s[|s| - 1]) {
      StripRightMeaning(s[..|s| - 1]);
    }
  }

  /** Stripping takes white space from both ends, and nothing else; a text of nothing else is blank. */
  lemma StripMeaning(s: string) returns (from: nat, to: nat)
    ensures from <= to <= |s| && Strip(s) == s[from..to]
    ensures forall i :: 0 <= i < from || to <= i < |s| ==> IsSpace(s[i])
    ensures from < to ==> !IsSpace(s[from]) && !IsSpace(s[to - 1])
    ensures IsBlank(s) <==> forall i :: 0 <= i < |s| ==> IsSpace(s[i])
    ensures IsSpace(' ') && IsSpace('\t') && IsSpace('\n') && IsSpace('\r') && !IsSpace('a') && !IsSpace('0')
  {
    var left := StripLeft(s);
    StripLeftMeaning(s);
    StripRightMeaning(left);
    from := |s| - |left|;
    to := from + |StripRight(left)|;
    assert left[..|StripRight(left)|] == s[from..to];
    assert left != "" ==> s[from] == left[0];
  }
}
