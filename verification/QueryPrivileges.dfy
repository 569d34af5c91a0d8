/**
 Query privileges: the check that fetches a user's privilege rows once and matches them in memory,
 against the older form that queries the table for every database and table.
 */
module QueryPrivileges {
  import opened Options

  datatype PrivType = Database | Table | OtherType

  /** A row of the privilege table; `id` is its primary key. */
  datatype Row = Row(
    id: int,
    user: string,
    instance: int,
    db: string,
    table: string,
    validUntil: int,
    limit: int,
    kind: PrivType,
    isDeleted: int)

  /** Who asks, and what the settings say a superuser's limit is. */
  datatype Asker = Asker(user: string, instance: int, isSuperuser: bool, adminLimit: int, now: int)

  datatype TableRef = TableRef(schema: string, name: string)

  predicate IsValid(a: Asker, r: Row) {
    r.user == a.user && r.instance == a.instance && r.validUntil >= a.now && r.isDeleted == 0
  }

  // ---- The table queries -----------------------------------------------------------------------------

  /** Does the row grant database `db` (by name or wildcard)? */
  predicate GrantsDb(r: Row, db: string) {
    r.kind == Database && (r.db == db || r.db == "*")
  }

  predicate GrantsTable(r: Row, db: string, table: string) {
    r.kind == Table && r.db == db && r.table == table
  }

  /** Rows have distinct primary keys. */
  ghost predicate IsTable(rows: seq<Row>) {
    forall i, j :: 0 <= i < j < |rows| ==> rows[i].id != rows[j].id
  }

  /** `filter(..).first()`: among the selected rows, the one with the least primary key. */
  ghost predicate IsFirst(rows: seq<Row>, selected: Row -> bool, r: Row) {
    r in rows && selected(r) && forall q :: q in rows && selected(q) ==> r.id <= q.id
  }

  /** The limit of the first selected row; `False` in Python, 0 here, when there is none. */
  ghost predicate IsFirstLimit(rows: seq<Row>, selected: Row -> bool, limit: int) {
    if exists r :: r in rows && selected(r) then exists r :: IsFirst(rows, selected, r) && r.limit == limit
    else limit == 0
  }

  function SelectsDb(a: Asker, db: string): Row -> bool {
    (r: Row) => IsValid(a, r) && GrantsDb(r, db)
  }

  function SelectsTable(a: Asker, db: string, table: string): Row -> bool {
    (r: Row) => IsValid(a, r) && GrantsTable(r, db, table)
  }

  /** `_db_priv` may return this. */
  ghost predicate DbPriv(rows: seq<Row>, a: Asker, db: string, limit: int) {
    if a.isSuperuser then limit == a.adminLimit else IsFirstLimit(rows, SelectsDb(a, db), limit)
  }

  /** `_tb_priv` may return this. */
  ghost predicate TablePriv(rows: seq<Row>, a: Asker, db: string, table: string, limit: int) {
    if a.isSuperuser then limit == a.adminLimit else IsFirstLimit(rows, SelectsTable(a, db, table), limit)
  }

  function Min(a: int, b: int): int {
    if a <= b then a else b
  }

  /** The smaller of two limits where 0 means none. */
  function Tighter(a: int, b: int): int {
    if a != 0 && b != 0 then Min(a, b) else if a != 0 then a else b
  }

  datatype Verdict = Granted(limit: int) | Denied(db: string, table: string) | Raised

  /**
   The older check of one table: denied without any privilege, else the limit of `_priv_limit`,
   which looks at the table privilege only when the table has a name.
   */
  function SlowVerdict(t: TableRef, dbLimit: int, tableLimit: int): Verdict {
    if dbLimit == 0 && tableLimit == 0 then Denied(t.schema, t.name)
    else
      var limit := Tighter(dbLimit, if t.name != "" then tableLimit else 0);
      if limit == 0 then Raised else Granted(limit)
  }

  function FastVerdict(t: TableRef, dbLimit: int, tableLimit: int): Verdict {
    if dbLimit == 0 && tableLimit == 0 then Denied(t.schema, t.name) else Granted(Tighter(dbLimit, tableLimit))
  }

  /** For one table the two agree unless it has no name and a table privilege decides. */
  lemma VerdictsAgreeIff(t: TableRef, dbLimit: int, tableLimit: int)
    ensures FastVerdict(t, dbLimit, tableLimit) == SlowVerdict(t, dbLimit, tableLimit)
       <==> t.name != "" || tableLimit == 0 || (dbLimit != 0 && dbLimit <= tableLimit)
  {
  }

  /** Capping the requested limit, where 0 asks for no particular one. */
  function Cap(limit: int, requested: int): int {
    if requested != 0 then Min(limit, requested) else limit
  }

  // ---- Matching in memory ----------------------------------------------------------------------------

  predicate IsSorted(rows: seq<Row>) {
    forall i, j :: 0 <= i < j < |rows| ==> rows[i].id < rows[j].id
  }

  /** The valid rows of the user, by ascending key. */
  ghost predicate IsLoaded(rows: seq<Row>, a: Asker, loaded: seq<Row>) {
    IsSorted(loaded) && forall r :: r in loaded <==> r in rows && IsValid(a, r)
  }

  function Insert(sorted: seq<Row>, r: Row): seq<Row> {
    if sorted == [] || r.id < sorted[0].id then [r] + sorted else [sorted[0]] + Insert(sorted[1..], r)
  }

  lemma {:induction false} InsertMembers(sorted: seq<Row>, r: Row)
    ensures forall q :: q in Insert(sorted, r) <==> q == r || q in sorted
  {
    if sorted != [] && r.id >= sorted[0].id {
      InsertMembers(sorted[1..], r);
      assert forall q :: q in sorted <==> q == sorted[0] || q in sorted[1..];
    }
  }

  lemma PrependSorted(first: Row, rest: seq<Row>)
    requires IsSorted(rest) && forall q :: q in rest ==> first.id < q.id
    ensures IsSorted([first] + rest)
  {
    var all := [first] + rest;
    assert forall i :: 0 < i < |all| ==> all[i] == rest[i - 1] && rest[i - 1] in rest;
  }

  lemma RestIsLarger(sorted: seq<Row>)
    requires IsSorted(sorted) && sorted != []
    ensures IsSorted(sorted[1..]) && forall q :: q in sorted[1..] ==> sorted[0].id < q.id
  {
    assert forall i :: 0 <= i < |sorted| - 1 ==> sorted[1..][i] == sorted[i + 1];
  }

  lemma {:induction false} InsertSorts(sorted: seq<Row>, r: Row)
    requires IsSorted(sorted) && forall q :: q in sorted ==> q.id != r.id
    ensures IsSorted(Insert(sorted, r))
  {
    if sorted != [] {
      RestIsLarger(sorted);
      assert sorted[0] in sorted;
      if r.id < sorted[0].id {
        assert forall q :: q in sorted ==> q == sorted[0] || q in sorted[1..];
        PrependSorted(r, sorted);
      } else {
        assert forall q :: q in sorted[1..] ==> q in sorted;
        InsertSorts(sorted[1..], r);
        InsertMembers(sorted[1..], r);
        PrependSorted(sorted[0], Insert(sorted[1..], r));
      }
    }
  }

  /** One query with an order clause: selection, then sorting by key. */
  method LoadRows(rows: seq<Row>, a: Asker) returns (loaded: seq<Row>)
    requires IsTable(rows)
    ensures IsLoaded(rows, a, loaded)
  {
    loaded := [];
    for k := 0 to |rows|
      invariant IsSorted(loaded)
      invariant forall r :: r in loaded <==> r in rows[..k] && IsValid(a, r)
    {
      assert rows[..k + 1] == rows[..k] + [rows[k]];
      if IsValid(a, rows[k]) {
        forall q | q in loaded
          ensures q.id != rows[k].id
        {
          var i :| 0 <= i < k && rows[i] == q;
        }
        InsertSorts(loaded, rows[k]);
        InsertMembers(loaded, rows[k]);
        loaded := Insert(loaded, rows[k]);
      }
    }
    assert rows[..|rows|] == rows;
  }

  function GrantingDb(db: string): Row -> bool {
    (r: Row) => GrantsDb(r, db)
  }

  function GrantingTable(db: string, table: string): Row -> bool {
    (r: Row) => GrantsTable(r, db, table)
  }

  /** The search through the loaded rows: the limit of the first match, 0 without one. */
  function FirstLimit(loaded: seq<Row>, selected: Row -> bool): int {
    if loaded == [] then 0 else if selected(loaded[0]) then loaded[0].limit else FirstLimit(loaded[1..], selected)
  }

  /** `_match_db_priv`. */
  function MatchDb(loaded: seq<Row>, a: Asker, db: string): int {
    if a.isSuperuser then a.adminLimit else FirstLimit(loaded, GrantingDb(db))
  }

  /** `_match_tb_priv`. */
  function MatchTable(loaded: seq<Row>, a: Asker, db: string, table: string): int {
    if a.isSuperuser then a.adminLimit else FirstLimit(loaded, GrantingTable(db, table))
  }

  lemma FirstStaysFirst(first: Row, rest: seq<Row>, selected: Row -> bool, limit: int)
    requires !selected(first) && IsFirstLimit(rest, selected, limit)
    ensures IsFirstLimit([first] + rest, selected, limit)
  {
    var all := [first] + rest;
    assert forall q :: q in all <==> q == first || q in rest;
    if r :| r in rest && selected(r) {
      var f :| IsFirst(rest, selected, f) && f.limit == limit;
      assert IsFirst(all, selected, f);
    }
  }

  lemma {:induction false} FirstLimitIsFirst(loaded: seq<Row>, selected: Row -> bool)
    requires IsSorted(loaded)
    ensures IsFirstLimit(loaded, selected, FirstLimit(loaded, selected))
  {
    if loaded != [] {
      RestIsLarger(loaded);
      assert loaded == [loaded[0]] + loaded[1..];
      if selected(loaded[0]) {
        assert forall q :: q in loaded <==> q == loaded[0] || q in loaded[1..];
        assert IsFirst(loaded, selected, loaded[0]);
      } else {
        FirstLimitIsFirst(loaded[1..], selected);
        FirstStaysFirst(loaded[0], loaded[1..], selected, FirstLimit(loaded[1..], selected));
      }
    }
  }

  /** Selecting first and then the least key, or sorting by key and taking the first match, is the same. */
  lemma LoadedFirstIsTableFirst(rows: seq<Row>, a: Asker, loaded: seq<Row>,
                                inMemory: Row -> bool, inTable: Row -> bool, limit: int)
    requires IsLoaded(rows, a, loaded)
    requires forall r :: inTable(r) <==> IsValid(a, r) && inMemory(r)
    requires IsFirstLimit(loaded, inMemory, limit)
    ensures IsFirstLimit(rows, inTable, limit)
  {
    if r :| r in rows && inTable(r) {
      assert r in loaded && inMemory(r);
      var f :| IsFirst(loaded, inMemory, f) && f.limit == limit;
      assert IsFirst(rows, inTable, f);
    } else {
      assert forall r :: r in loaded ==> !inMemory(r);
    }
  }

  /** The in-memory match of a database privilege is what the table query returns. */
  lemma MatchDbRefines(rows: seq<Row>, a: Asker, loaded: seq<Row>, db: string)
    requires IsLoaded(rows, a, loaded)
    ensures DbPriv(rows, a, db, MatchDb(loaded, a, db))
  {
    FirstLimitIsFirst(loaded, GrantingDb(db));
    LoadedFirstIsTableFirst(rows, a, loaded, GrantingDb(db), SelectsDb(a, db), FirstLimit(loaded, GrantingDb(db)));
  }

  lemma MatchTableRefines(rows: seq<Row>, a: Asker, loaded: seq<Row>, db: string, table: string)
    requires IsLoaded(rows, a, loaded)
    ensures TablePriv(rows, a, db, table, MatchTable(loaded, a, db, table))
  {
    var granting := GrantingTable(db, table);
    FirstLimitIsFirst(loaded, granting);
    LoadedFirstIsTableFirst(rows, a, loaded, granting, SelectsTable(a, db, table), FirstLimit(loaded, granting));
  }

  /** Distinct keys make the queries answer one thing only. */
  lemma FirstLimitIsUnique(rows: seq<Row>, selected: Row -> bool, x: int, y: int)
    requires IsTable(rows) && IsFirstLimit(rows, selected, x) && IsFirstLimit(rows, selected, y)
    ensures x == y
  {
    if r :| r in rows && selected(r) {
      var p :| IsFirst(rows, selected, p) && p.limit == x;
      var q :| IsFirst(rows, selected, q) && q.limit == y;
      assert p.id == q.id;
      var i :| 0 <= i < |rows| && rows[i] == p;
      var j :| 0 <= j < |rows| && rows[j] == q;
      assert i == j by {
        assert !(i < j) && !(j < i);
      }
    }
  }

  // ---- The whole check -------------------------------------------------------------------------------

  /** The limits found for one table. */
  datatype Limits = Limits(db: int, table: int)

  function FastLimits(loaded: seq<Row>, a: Asker, t: TableRef): Limits {
    Limits(MatchDb(loaded, a, t.schema), MatchTable(loaded, a, t.schema, t.name))
  }

  /** Limits the table queries may return. */
  ghost predicate SlowLimits(rows: seq<Row>, a: Asker, t: TableRef, l: Limits) {
    DbPriv(rows, a, t.schema, l.db) && TablePriv(rows, a, t.schema, t.name, l.table)
  }

  /** The loop over the referenced tables, with a verdict for each. */
  function Fold(verdicts: seq<Verdict>, requested: int): Verdict {
    if verdicts == [] then Granted(requested)
    else if verdicts[0].Granted? then Fold(verdicts[1..], Cap(verdicts[0].limit, requested))
    else verdicts[0]
  }

  function FastVerdicts(loaded: seq<Row>, a: Asker, tables: seq<TableRef>): seq<Verdict> {
    if tables == [] then []
    else
      var l := FastLimits(loaded, a, tables[0]);
      [FastVerdict(tables[0], l.db, l.table)] + FastVerdicts(loaded, a, tables[1..])
  }

  /** A verdict the older queries for one table may give. */
  ghost predicate MayGive(rows: seq<Row>, a: Asker, t: TableRef, v: Verdict) {
    exists l :: SlowLimits(rows, a, t, l) && v == SlowVerdict(t, l.db, l.table)
  }

  ghost predicate AreSlowVerdicts(rows: seq<Row>, a: Asker, tables: seq<TableRef>, vs: seq<Verdict>) {
    |vs| == |tables| &&
    forall i :: 0 <= i < |tables| ==> MayGive(rows, a, tables[i], vs[i])
  }

  /** The MySQL branch of `query_priv_check`. */
  method CheckTables(rows: seq<Row>, a: Asker, tables: seq<TableRef>, requested: int) returns (verdict: Verdict)
    requires IsTable(rows)
    ensures exists loaded :: IsLoaded(rows, a, loaded)
    ensures forall loaded :: IsLoaded(rows, a, loaded) ==> verdict == Fold(FastVerdicts(loaded, a, tables), requested)
  {
    var loaded := LoadRows(rows, a);
    ghost var mine := loaded;
    forall other | IsLoaded(rows, a, other)
      ensures other == mine
    {
      LoadedIsUnique(rows, a, other, mine);
    }
    var limitNum := requested;
    assert tables[0..] == tables;
    for k := 0 to |tables|
      invariant Fold(FastVerdicts(loaded, a, tables[k..]), limitNum) == Fold(FastVerdicts(loaded, a, tables), requested)
    {
      var t := tables[k];
      assert tables[k..][0] == t && tables[k..][1..] == tables[k + 1..];
      var dbLimit := MatchDb(loaded, a, t.schema);
      var tableLimit := MatchTable(loaded, a, t.schema, t.name);
      ghost var vs := FastVerdicts(loaded, a, tables[k..]);
      assert vs[0] == FastVerdict(t, dbLimit, tableLimit) && vs[1..] == FastVerdicts(loaded, a, tables[k + 1..]);
      if dbLimit == 0 && tableLimit == 0 {
        return Denied(t.schema, t.name);
      }
      var privLimit;
      if dbLimit != 0 && tableLimit != 0 {
        privLimit := if dbLimit <= tableLimit then dbLimit else tableLimit;
      } else if dbLimit != 0 {
        privLimit := dbLimit;
      } else {
        privLimit := tableLimit;
      }
      limitNum := if limitNum != 0 then (if privLimit <= limitNum then privLimit else limitNum) else privLimit;
    }
    assert tables[|tables|..] == [];
    return Granted(limitNum);
  }

  lemma {:induction false} LoadedIsUnique(rows: seq<Row>, a: Asker, x: seq<Row>, y: seq<Row>)
    requires IsLoaded(rows, a, x) && IsLoaded(rows, a, y)
    ensures x == y
  {
    SortedIsUnique(x, y);
  }

  lemma {:induction false} SortedIsUnique(x: seq<Row>, y: seq<Row>)
    requires IsSorted(x) && IsSorted(y) && forall r :: r in x <==> r in y
    ensures x == y
  {
    assert (x != [] ==> x[0] in x) && (y != [] ==> y[0] in y);
    if x != [] && y != [] {
      RestIsLarger(x);
      RestIsLarger(y);
      assert forall r :: r in x <==> r == x[0] || r in x[1..];
      assert forall r :: r in y <==> r == y[0] || r in y[1..];
      assert x[0] in y && y[0] in x;
      SortedIsUnique(x[1..], y[1..]);
      assert x == [x[0]] + x[1..] && y == [y[0]] + y[1..];
    }
  }

  /** For a table with these limits the two forms agree. */
  predicate FormsAgree(t: TableRef, l: Limits) {
    t.name != "" || l.table == 0 || (l.db != 0 && l.db <= l.table)
  }

  /**
   The fast check refines the slow one: for one state of the table and one time, it gives every table
   the verdict and limit that querying per table gives, if and only if no table lacks a name while a
   table privilege decides about it.
   */
  lemma FastRefinesSlowIff(rows: seq<Row>, a: Asker, loaded: seq<Row>, tables: seq<TableRef>, vs: seq<Verdict>)
    requires IsTable(rows) && IsLoaded(rows, a, loaded) && AreSlowVerdicts(rows, a, tables, vs)
    ensures FastVerdicts(loaded, a, tables) == vs
       <==> forall i :: 0 <= i < |tables| ==> FormsAgree(tables[i], FastLimits(loaded, a, tables[i]))
  {
    FastVerdictsAt(loaded, a, tables);
    var fast := FastVerdicts(loaded, a, tables);
    forall i | 0 <= i < |tables|
      ensures fast[i] == vs[i] <==> FormsAgree(tables[i], FastLimits(loaded, a, tables[i]))
    {
      OneTableAgreesIff(rows, a, loaded, tables[i], vs[i]);
    }
  }

  /** In particular for tables with names, as a parsed statement has. */
  lemma FastRefinesSlow(rows: seq<Row>, a: Asker, loaded: seq<Row>, tables: seq<TableRef>, vs: seq<Verdict>,
                        requested: int)
    requires IsTable(rows) && IsLoaded(rows, a, loaded) && AreSlowVerdicts(rows, a, tables, vs)
    requires forall i :: 0 <= i < |tables| ==> tables[i].name != ""
    ensures Fold(FastVerdicts(loaded, a, tables), requested) == Fold(vs, requested)
  {
    FastRefinesSlowIff(rows, a, loaded, tables, vs);
  }

  lemma OneTableAgreesIff(rows: seq<Row>, a: Asker, loaded: seq<Row>, t: TableRef, v: Verdict)
    requires IsTable(rows) && IsLoaded(rows, a, loaded) && MayGive(rows, a, t, v)
    ensures FastVerdict(t, FastLimits(loaded, a, t).db, FastLimits(loaded, a, t).table) == v
       <==> FormsAgree(t, FastLimits(loaded, a, t))
  {
    var l :| SlowLimits(rows, a, t, l) && v == SlowVerdict(t, l.db, l.table);
    FastLimitsAreSlow(rows, a, loaded, t, l);
    VerdictsAgreeIff(t, l.db, l.table);
  }

  lemma FastLimitsAreSlow(rows: seq<Row>, a: Asker, loaded: seq<Row>, t: TableRef, l: Limits)
    requires IsTable(rows) && IsLoaded(rows, a, loaded) && SlowLimits(rows, a, t, l)
    ensures FastLimits(loaded, a, t) == l
  {
    MatchDbRefines(rows, a, loaded, t.schema);
    MatchTableRefines(rows, a, loaded, t.schema, t.name);
    if !a.isSuperuser {
      FirstLimitIsUnique(rows, SelectsDb(a, t.schema), l.db, FastLimits(loaded, a, t).db);
      FirstLimitIsUnique(rows, SelectsTable(a, t.schema, t.name), l.table, FastLimits(loaded, a, t).table);
    }
  }

  // ---- The limit of a grant --------------------------------------------------------------------------

  ghost predicate AllGranted(vs: seq<Verdict>) {
    forall i :: 0 <= i < |vs| ==> vs[i].Granted? && vs[i].limit != 0
  }

  /** `m` is the least of the per-table limits and of the request, if that is not 0. */
  ghost predicate IsLeastLimit(vs: seq<Verdict>, requested: int, m: int) {
    && (requested != 0 ==> m <= requested)
    && (forall i :: 0 <= i < |vs| ==> vs[i].Granted? ==> m <= vs[i].limit)
    && ((requested != 0 && m == requested) || exists i :: 0 <= i < |vs| && vs[i] == Granted(m))
  }

  lemma {:induction false} FoldGrantsLeast(vs: seq<Verdict>, requested: int)
    requires vs != [] && AllGranted(vs)
    ensures Fold(vs, requested).Granted? && IsLeastLimit(vs, requested, Fold(vs, requested).limit)
  {
    var next := Cap(vs[0].limit, requested);
    var r := Fold(vs, requested);
    if |vs| == 1 {
      assert vs[1..] == [];
      assert vs[0] == Granted(vs[0].limit);
    } else {
      FoldGrantsLeast(vs[1..], next);
      assert next != 0;
      forall i | 0 <= i < |vs|
        ensures r.limit <= vs[i].limit
      {
        if i > 0 { assert vs[i] == vs[1..][i - 1]; }
      }
      if r.limit != next {
        var i :| 0 <= i < |vs[1..]| && vs[1..][i] == Granted(r.limit);
        assert vs[i + 1] == Granted(r.limit);
      } else if requested == 0 || next != requested {
        assert vs[0] == Granted(next);
      }
    }
  }

  lemma {:induction false} FoldDeniesFirst(vs: seq<Verdict>, requested: int, i: nat)
    requires i < |vs| && !vs[i].Granted? && forall j :: 0 <= j < i ==> vs[j].Granted?
    ensures Fold(vs, requested) == vs[i]
  {
    if i > 0 {
      assert forall j :: 0 <= j < i - 1 ==> vs[1..][j] == vs[j + 1];
      FoldDeniesFirst(vs[1..], Cap(vs[0].limit, requested), i - 1);
    }
  }

  lemma {:induction false} FastVerdictsAt(loaded: seq<Row>, a: Asker, tables: seq<TableRef>)
    ensures var vs := FastVerdicts(loaded, a, tables);
            |vs| == |tables| &&
            forall i :: 0 <= i < |tables| ==>
              var l := FastLimits(loaded, a, tables[i]);
              vs[i] == FastVerdict(tables[i], l.db, l.table)
  {
    if tables != [] {
      FastVerdictsAt(loaded, a, tables[1..]);
    }
  }

  /** Some table has neither a database nor a table privilege. */
  ghost predicate SomeUncovered(loaded: seq<Row>, a: Asker, tables: seq<TableRef>) {
    exists t :: t in tables && FastLimits(loaded, a, t).db == 0 && FastLimits(loaded, a, t).table == 0
  }

  /**
   The check denies exactly when some referenced table is uncovered; otherwise, for any tables, it
   grants the least of the non-zero request and all per-table limits, negative ones included.
   */
  lemma CheckMeaning(loaded: seq<Row>, a: Asker, tables: seq<TableRef>, requested: int)
    ensures var r := Fold(FastVerdicts(loaded, a, tables), requested);
            && (r.Denied? <==> SomeUncovered(loaded, a, tables))
            && (!r.Denied? ==> r.Granted?)
            && (r.Granted? && tables != [] ==> IsLeastLimit(FastVerdicts(loaded, a, tables), requested, r.limit))
            && (tables == [] ==> r == Granted(requested))
  {
    var vs := FastVerdicts(loaded, a, tables);
    FastVerdictsAt(loaded, a, tables);
    if SomeUncovered(loaded, a, tables) {
      var t :| t in tables && FastLimits(loaded, a, t).db == 0 && FastLimits(loaded, a, t).table == 0;
      var k :| 0 <= k < |tables| && tables[k] == t;
      assert !vs[k].Granted?;
      var i := FirstUngranted(vs, k);
      FoldDeniesFirst(vs, requested, i);
    } else if tables != [] {
      forall i | 0 <= i < |vs|
        ensures vs[i].Granted? && vs[i].limit != 0
      {
        assert tables[i] in tables;
      }
      FoldGrantsLeast(vs, requested);
    }
  }

  lemma {:induction false} FirstUngranted(vs: seq<Verdict>, k: nat) returns (i: nat)
    requires k < |vs| && !vs[k].Granted?
    ensures i <= k && !vs[i].Granted? && forall j :: 0 <= j < i ==> vs[j].Granted?
  {
    if j :| 0 <= j < k && !vs[j].Granted? {
      i := FirstUngranted(vs, j);
    } else {
      i := k;
    }
  }

  /** Neither the order of the tables nor repeating some changes whether, or with what limit, access is granted. */
  lemma OrderDoesNotMatter(loaded: seq<Row>, a: Asker, xs: seq<TableRef>, ys: seq<TableRef>, requested: int)
    requires forall t :: t in xs <==> t in ys
    ensures var x, y := Fold(FastVerdicts(loaded, a, xs), requested), Fold(FastVerdicts(loaded, a, ys), requested);
            (x.Granted? <==> y.Granted?) && (x.Granted? ==> x == y)
  {
    CheckMeaning(loaded, a, xs, requested);
    CheckMeaning(loaded, a, ys, requested);
    var x, y := Fold(FastVerdicts(loaded, a, xs), requested), Fold(FastVerdicts(loaded, a, ys), requested);
    assert (xs != [] ==> xs[0] in xs) && (ys != [] ==> ys[0] in ys);
    if xs != [] && x.Granted? && y.Granted? {
      LeastIsAtMost(loaded, a, xs, ys, requested, x.limit, y.limit);
      LeastIsAtMost(loaded, a, ys, xs, requested, y.limit, x.limit);
    }
  }

  lemma LeastIsAtMost(loaded: seq<Row>, a: Asker, xs: seq<TableRef>, ys: seq<TableRef>, requested: int, x: int, y: int)
    requires forall t :: t in xs <==> t in ys
    requires IsLeastLimit(FastVerdicts(loaded, a, xs), requested, x)
    requires IsLeastLimit(FastVerdicts(loaded, a, ys), requested, y)
    ensures x <= y
  {
    var vx, vy := FastVerdicts(loaded, a, xs), FastVerdicts(loaded, a, ys);
    FastVerdictsAt(loaded, a, xs);
    FastVerdictsAt(loaded, a, ys);
    if !(requested != 0 && y == requested) {
      var j :| 0 <= j < |vy| && vy[j] == Granted(y);
      assert ys[j] in xs;
      var i :| 0 <= i < |xs| && xs[i] == ys[j];
      assert vx[i] == vy[j];
    }
  }

  // ---- Databases of other engines ----------------------------------------------------------------------

  /** The branch for engines checked by database only: every database first, then the limits. */
  method CheckDatabases(rows: seq<Row>, a: Asker, dbs: seq<string>, requested: int) returns (verdict: Verdict)
    requires IsTable(rows)
    ensures exists loaded :: IsLoaded(rows, a, loaded)
    ensures forall loaded :: IsLoaded(rows, a, loaded) ==> verdict == DbOutcome(loaded, a, dbs, requested)
  {
    var loaded := LoadRows(rows, a);
    forall other | IsLoaded(rows, a, other)
      ensures other == loaded
    {
      LoadedIsUnique(rows, a, other, loaded);
    }
    assert dbs[0..] == dbs;
    for k := 0 to |dbs|
      invariant FirstUncovered(loaded, a, dbs[k..]) == FirstUncovered(loaded, a, dbs)
    {
      assert dbs[k..][0] == dbs[k] && dbs[k..][1..] == dbs[k + 1..];
      if MatchDb(loaded, a, dbs[k]) == 0 {
        return Denied(dbs[k], "");
      }
    }
    var limitNum := requested;
    for k := 0 to |dbs|
      invariant Fold(DbVerdicts(loaded, a, dbs[k..]), limitNum) == Fold(DbVerdicts(loaded, a, dbs), requested)
    {
      assert dbs[k..][0] == dbs[k] && dbs[k..][1..] == dbs[k + 1..];
      ghost var vs := DbVerdicts(loaded, a, dbs[k..]);
      assert vs[0] == Granted(MatchDb(loaded, a, dbs[k])) && vs[1..] == DbVerdicts(loaded, a, dbs[k + 1..]);
      var privLimit := MatchDb(loaded, a, dbs[k]);
      limitNum := if limitNum != 0 then (if privLimit <= limitNum then privLimit else limitNum) else privLimit;
    }
    assert dbs[|dbs|..] == [];
    return Granted(limitNum);
  }

  function DbVerdicts(loaded: seq<Row>, a: Asker, dbs: seq<string>): (vs: seq<Verdict>)
    ensures |vs| == |dbs| && forall i :: 0 <= i < |dbs| ==> vs[i] == Granted(MatchDb(loaded, a, dbs[i]))
  {
    if dbs == [] then [] else [Granted(MatchDb(loaded, a, dbs[0]))] + DbVerdicts(loaded, a, dbs[1..])
  }

  function FirstUncovered(loaded: seq<Row>, a: Asker, dbs: seq<string>): Option<string> {
    if dbs == [] then None
    else if MatchDb(loaded, a, dbs[0]) == 0 then Some(dbs[0])
    else FirstUncovered(loaded, a, dbs[1..])
  }

  /** What the check by database answers. */
  function DbOutcome(loaded: seq<Row>, a: Asker, dbs: seq<string>, requested: int): Verdict {
    match FirstUncovered(loaded, a, dbs)
    case Some(db) => Denied(db, "")
    case None => Fold(DbVerdicts(loaded, a, dbs), requested)
  }

  lemma {:induction false} UncoveredIff(loaded: seq<Row>, a: Asker, dbs: seq<string>)
    ensures FirstUncovered(loaded, a, dbs).Some? <==> exists db :: db in dbs && MatchDb(loaded, a, db) == 0
    ensures var u := FirstUncovered(loaded, a, dbs); u.Some? ==> u.value in dbs && MatchDb(loaded, a, u.value) == 0
  {
    if dbs != [] {
      assert forall db :: db in dbs <==> db == dbs[0] || db in dbs[1..];
      UncoveredIff(loaded, a, dbs[1..]);
    }
  }

  /**
   The check by database denies exactly when some database has no privilege, naming such a one;
   otherwise it grants the least of the non-zero request and all database limits.
   */
  lemma DbOutcomeMeaning(loaded: seq<Row>, a: Asker, dbs: seq<string>, requested: int)
    ensures var r := DbOutcome(loaded, a, dbs, requested);
            && (r.Denied? <==> exists db :: db in dbs && MatchDb(loaded, a, db) == 0)
            && (r.Denied? ==> r.db in dbs && MatchDb(loaded, a, r.db) == 0)
            && (!r.Denied? ==> r.Granted?)
            && (r.Granted? && dbs != [] ==> IsLeastLimit(DbVerdicts(loaded, a, dbs), requested, r.limit))
            && (dbs == [] ==> r == Granted(requested))
  {
    UncoveredIff(loaded, a, dbs);
    if dbs != [] && FirstUncovered(loaded, a, dbs).None? {
      DatabaseGrantIsLeast(loaded, a, dbs, requested);
    }
  }

  /** With a privilege on every database, the limit is the least of the non-zero request and the database limits. */
  lemma DatabaseGrantIsLeast(loaded: seq<Row>, a: Asker, dbs: seq<string>, requested: int)
    requires dbs != [] && forall db :: db in dbs ==> MatchDb(loaded, a, db) != 0
    ensures var vs := DbVerdicts(loaded, a, dbs);
            Fold(vs, requested).Granted? && IsLeastLimit(vs, requested, Fold(vs, requested).limit)
  {
    var vs := DbVerdicts(loaded, a, dbs);
    forall i | 0 <= i < |vs|
      ensures vs[i].Granted? && vs[i].limit != 0
    {
      assert dbs[i] in dbs;
    }
    FoldGrantsLeast(vs, requested);
  }

  // ---- Granting never revokes ----------------------------------------------------------------------------

  lemma {:induction false} AppendedLimit(loaded: seq<Row>, r: Row, selected: Row -> bool)
    ensures FirstLimit(loaded, selected) != 0 ==> FirstLimit(loaded + [r], selected) == FirstLimit(loaded, selected)
  {
    if loaded != [] {
      var all := loaded + [r];
      assert all[0] == loaded[0] && all[1..] == loaded[1..] + [r];
      AppendedLimit(loaded[1..], r, selected);
    }
  }

  /** A later row changes a limit only where there was none. */
  lemma AppendedLimits(loaded: seq<Row>, a: Asker, r: Row, t: TableRef)
    ensures var before, after := FastLimits(loaded, a, t), FastLimits(loaded + [r], a, t);
            (before.db != 0 ==> after.db == before.db) && (before.table != 0 ==> after.table == before.table)
  {
    AppendedLimit(loaded, r, GrantingDb(t.schema));
    AppendedLimit(loaded, r, GrantingTable(t.schema, t.name));
  }

  /** The rows loaded after a row with a larger key was added. */
  lemma LoadedAfterAppend(rows: seq<Row>, a: Asker, r: Row, loaded: seq<Row>)
    requires IsLoaded(rows, a, loaded) && IsValid(a, r) && forall q :: q in rows ==> q.id < r.id
    ensures IsLoaded(rows + [r], a, loaded + [r])
  {
    assert forall i :: 0 <= i < |loaded| ==> loaded[i] in loaded;
  }

  lemma CoveredStays(loaded: seq<Row>, a: Asker, r: Row, tables: seq<TableRef>)
    ensures SomeUncovered(loaded + [r], a, tables) ==> SomeUncovered(loaded, a, tables)
  {
    if SomeUncovered(loaded + [r], a, tables) {
      var t :| t in tables && FastLimits(loaded + [r], a, t).db == 0 && FastLimits(loaded + [r], a, t).table == 0;
      AppendedLimits(loaded, a, r, t);
    }
  }

  /**
   Adding a valid privilege row with a larger key, of whatever kind and limit, never turns a granted
   query into a denied one and never raises the limit of a query already granted.
   */
  lemma GrantingNeverRevokes(loaded: seq<Row>, a: Asker, r: Row, tables: seq<TableRef>, requested: int)
    ensures var before := Fold(FastVerdicts(loaded, a, tables), requested);
            var after := Fold(FastVerdicts(loaded + [r], a, tables), requested);
            before.Granted? ==> after.Granted? && after.limit <= before.limit
  {
    var vb, va := FastVerdicts(loaded, a, tables), FastVerdicts(loaded + [r], a, tables);
    var before, after := Fold(vb, requested), Fold(va, requested);
    FastVerdictsAt(loaded, a, tables);
    FastVerdictsAt(loaded + [r], a, tables);
    CheckMeaning(loaded, a, tables, requested);
    CheckMeaning(loaded + [r], a, tables, requested);
    CoveredStays(loaded, a, r, tables);
    if before.Granted? && tables != [] {
      if !(requested != 0 && before.limit == requested) {
        var i :| 0 <= i < |vb| && vb[i] == Granted(before.limit);
        AppendedLimits(loaded, a, r, tables[i]);
        assert tables[i] in tables;
        assert va[i].Granted? && va[i].limit <= vb[i].limit;
      }
    }
  }

  /** In the check by database, such a row changes nothing for a query already granted: not even the limit. */
  lemma GrantingKeepsDbOutcome(loaded: seq<Row>, a: Asker, r: Row, dbs: seq<string>, requested: int)
    ensures DbOutcome(loaded, a, dbs, requested).Granted? ==>
              DbOutcome(loaded + [r], a, dbs, requested) == DbOutcome(loaded, a, dbs, requested)
  {
    UncoveredIff(loaded, a, dbs);
    if FirstUncovered(loaded, a, dbs).None? {
      forall db | db in dbs
        ensures MatchDb(loaded + [r], a, db) == MatchDb(loaded, a, db)
      {
        AppendedLimit(loaded, r, GrantingDb(db));
      }
      UncoveredIff(loaded + [r], a, dbs);
      forall i | 0 <= i < |dbs|
        ensures DbVerdicts(loaded + [r], a, dbs)[i] == DbVerdicts(loaded, a, dbs)[i]
      {
        assert dbs[i] in dbs;
      }
      assert DbVerdicts(loaded + [r], a, dbs) == DbVerdicts(loaded, a, dbs);
    }
  }

  /**
   For the privilege table itself, and both forms of the check: adding a valid row with a larger key
   revokes no grant, and raises no limit.
   */
  lemma AddedRowNeverRevokes(rows: seq<Row>, a: Asker, r: Row, before: seq<Row>, after: seq<Row>,
                             tables: seq<TableRef>, dbs: seq<string>, requested: int)
    requires IsLoaded(rows, a, before) && IsLoaded(rows + [r], a, after)
    requires IsValid(a, r) && forall q :: q in rows ==> q.id < r.id
    ensures var x := Fold(FastVerdicts(before, a, tables), requested);
            var y := Fold(FastVerdicts(after, a, tables), requested);
            x.Granted? ==> y.Granted? && y.limit <= x.limit
    ensures var x := DbOutcome(before, a, dbs, requested);
            x.Granted? ==> DbOutcome(after, a, dbs, requested) == x
  {
    LoadedAfterAppend(rows, a, r, before);
    LoadedIsUnique(rows + [r], a, after, before + [r]);
    GrantingNeverRevokes(before, a, r, tables, requested);
    GrantingKeepsDbOutcome(before, a, r, dbs, requested);
  }

  /** A table without a name: its privilege grants access in memory, and raises in the older form. */
  lemma NamelessTableDiffers()
    ensures var row := Row(1, "u", 1, "db", "", 10, 100, Table, 0);
            var a := Asker("u", 1, false, 5000, 0);
            var t := TableRef("db", "");
            && IsTable([row]) && IsLoaded([row], a, [row])
            && FastVerdicts([row], a, [t]) == [Granted(100)] && AreSlowVerdicts([row], a, [t], [Raised])
  {
    var row := Row(1, "u", 1, "db", "", 10, 100, Table, 0);
    var a := Asker("u", 1, false, 5000, 0);
    var t := TableRef("db", "");
    var l := FastLimits([row], a, t);
    assert [row][1..] == [] && [t][1..] == [];
    assert !GrantingDb("db")(row) && FirstLimit([row], GrantingDb("db")) == FirstLimit([], GrantingDb("db"));
    assert GrantingTable("db", "")(row) && FirstLimit([row], GrantingTable("db", "")) == 100;
    assert l == Limits(0, 100);
    MatchDbRefines([row], a, [row], "db");
    MatchTableRefines([row], a, [row], "db", "");
    assert SlowLimits([row], a, t, l) && SlowVerdict(t, l.db, l.table) == Raised;
  }

  /** The key order matters: a zero-limit row with a smaller key hides the privilege behind it. */
  lemma SmallerKeyCanRevoke()
    ensures var granting := Row(2, "u", 1, "db", "", 10, 100, Database, 0);
            var hiding := Row(1, "u", 1, "db", "", 10, 0, Database, 0);
            var selected := GrantingDb("db");
            FirstLimit([granting], selected) == 100 && FirstLimit([hiding, granting], selected) == 0
  {
  }

  // ---- In terms of the rows' own fields ------------------------------------------------------------------

  /** A row of this user and instance, unexpired and not deleted, that grants the database, by its name or all of
      them. */
  predicate CoversDb(r: Row, a: Asker, db: string) {
    && r.user == a.user && r.instance == a.instance && r.validUntil >= a.now && r.isDeleted == 0
    && r.kind == Database && (r.db == db || r.db == "*")
  }

  /** Such a row that grants the one table. */
  predicate CoversTable(r: Row, a: Asker, db: string, table: string) {
    && r.user == a.user && r.instance == a.instance && r.validUntil >= a.now && r.isDeleted == 0
    && r.kind == Table && r.db == db && r.table == table
  }

  /** Of the rows of a kind, the one with the least key gives its limit. */
  lemma MatchDbMeaning(rows: seq<Row>, a: Asker, loaded: seq<Row>, db: string)
    requires IsTable(rows) && IsLoaded(rows, a, loaded)
    ensures a.isSuperuser ==> MatchDb(loaded, a, db) == a.adminLimit
    ensures !a.isSuperuser && (forall r :: r in rows ==> !CoversDb(r, a, db)) ==> MatchDb(loaded, a, db) == 0
    ensures forall r :: !a.isSuperuser && r in rows && CoversDb(r, a, db)
                        && (forall q :: q in rows && CoversDb(q, a, db) ==> r.id <= q.id) ==>
              MatchDb(loaded, a, db) == r.limit
  {
    MatchDbRefines(rows, a, loaded, db);
    assert forall r :: SelectsDb(a, db)(r) <==> CoversDb(r, a, db);
    forall r | !a.isSuperuser && r in rows && CoversDb(r, a, db)
               && (forall q :: q in rows && CoversDb(q, a, db) ==> r.id <= q.id)
      ensures MatchDb(loaded, a, db) == r.limit
    {
      assert IsFirst(rows, SelectsDb(a, db), r);
      FirstLimitIsUnique(rows, SelectsDb(a, db), r.limit, MatchDb(loaded, a, db));
    }
  }

  lemma MatchTableMeaning(rows: seq<Row>, a: Asker, loaded: seq<Row>, db: string, table: string)
    requires IsTable(rows) && IsLoaded(rows, a, loaded)
    ensures a.isSuperuser ==> MatchTable(loaded, a, db, table) == a.adminLimit
    ensures !a.isSuperuser && (forall r :: r in rows ==> !CoversTable(r, a, db, table)) ==>
              MatchTable(loaded, a, db, table) == 0
    ensures forall r :: !a.isSuperuser && r in rows && CoversTable(r, a, db, table)
                        && (forall q :: q in rows && CoversTable(q, a, db, table) ==> r.id <= q.id) ==>
              MatchTable(loaded, a, db, table) == r.limit
  {
    MatchTableRefines(rows, a, loaded, db, table);
    assert forall r :: SelectsTable(a, db, table)(r) <==> CoversTable(r, a, db, table);
    forall r | !a.isSuperuser && r in rows && CoversTable(r, a, db, table)
               && (forall q :: q in rows && CoversTable(q, a, db, table) ==> r.id <= q.id)
      ensures MatchTable(loaded, a, db, table) == r.limit
    {
      assert IsFirst(rows, SelectsTable(a, db, table), r);
      FirstLimitIsUnique(rows, SelectsTable(a, db, table), r.limit, MatchTable(loaded, a, db, table));
    }
  }

  /** Of the rows covering the database, the one with the least key has a limit. */
  ghost predicate DbIsCovered(rows: seq<Row>, a: Asker, db: string) {
    exists r :: r in rows && CoversDb(r, a, db) && r.limit != 0
                && forall q :: q in rows && CoversDb(q, a, db) ==> r.id <= q.id
  }

  ghost predicate TableIsCovered(rows: seq<Row>, a: Asker, db: string, table: string) {
    exists r :: r in rows && CoversTable(r, a, db, table) && r.limit != 0
                && forall q :: q in rows && CoversTable(q, a, db, table) ==> r.id <= q.id
  }

  lemma DbCoveredIff(rows: seq<Row>, a: Asker, loaded: seq<Row>, db: string)
    requires IsTable(rows) && IsLoaded(rows, a, loaded) && !a.isSuperuser
    ensures MatchDb(loaded, a, db) != 0 <==> DbIsCovered(rows, a, db)
  {
    MatchDbMeaning(rows, a, loaded, db);
    MatchDbRefines(rows, a, loaded, db);
    assert forall r :: SelectsDb(a, db)(r) <==> CoversDb(r, a, db);
    if MatchDb(loaded, a, db) != 0 {
      var r :| IsFirst(rows, SelectsDb(a, db), r) && r.limit == MatchDb(loaded, a, db);
      assert CoversDb(r, a, db);
    }
  }

  lemma TableCoveredIff(rows: seq<Row>, a: Asker, loaded: seq<Row>, db: string, table: string)
    requires IsTable(rows) && IsLoaded(rows, a, loaded) && !a.isSuperuser
    ensures MatchTable(loaded, a, db, table) != 0 <==> TableIsCovered(rows, a, db, table)
  {
    MatchTableMeaning(rows, a, loaded, db, table);
    MatchTableRefines(rows, a, loaded, db, table);
    assert forall r :: SelectsTable(a, db, table)(r) <==> CoversTable(r, a, db, table);
    if MatchTable(loaded, a, db, table) != 0 {
      var r :| IsFirst(rows, SelectsTable(a, db, table), r) && r.limit == MatchTable(loaded, a, db, table);
      assert CoversTable(r, a, db, table);
    }
  }

  /** The check by table denies anyone but a superuser exactly when a table is covered neither by its database nor
      by itself. */
  lemma DeniedIffUncovered(rows: seq<Row>, a: Asker, loaded: seq<Row>, tables: seq<TableRef>, requested: int)
    requires IsTable(rows) && IsLoaded(rows, a, loaded) && !a.isSuperuser
    ensures Fold(FastVerdicts(loaded, a, tables), requested).Denied?
       <==> exists t :: t in tables && !DbIsCovered(rows, a, t.schema) && !TableIsCovered(rows, a, t.schema, t.name)
  {
    CheckMeaning(loaded, a, tables, requested);
    forall t: TableRef
      ensures MatchDb(loaded, a, t.schema) == 0 <==> !DbIsCovered(rows, a, t.schema)
      ensures MatchTable(loaded, a, t.schema, t.name) == 0 <==> !TableIsCovered(rows, a, t.schema, t.name)
    {
      DbCoveredIff(rows, a, loaded, t.schema);
      TableCoveredIff(rows, a, loaded, t.schema, t.name);
    }
    SomeUncoveredMeans(loaded, a, tables);
  }

  lemma SomeUncoveredMeans(loaded: seq<Row>, a: Asker, tables: seq<TableRef>)
    ensures SomeUncovered(loaded, a, tables) <==>
            exists t :: t in tables && MatchDb(loaded, a, t.schema) == 0 && MatchTable(loaded, a, t.schema, t.name) == 0
  {
    if t :| t in tables && MatchDb(loaded, a, t.schema) == 0 && MatchTable(loaded, a, t.schema, t.name) == 0 {
      assert FastLimits(loaded, a, t) == Limits(0, 0);
    }
  }

  /** The check by database denies exactly when a database is not covered, and names one that is not. */
  lemma DbDeniedIffUncovered(rows: seq<Row>, a: Asker, loaded: seq<Row>, dbs: seq<string>, requested: int)
    requires IsTable(rows) && IsLoaded(rows, a, loaded) && !a.isSuperuser
    ensures var verdict := DbOutcome(loaded, a, dbs, requested);
            && (verdict.Denied? <==> exists db :: db in dbs && !DbIsCovered(rows, a, db))
            && (verdict.Denied? ==> verdict.db in dbs && !DbIsCovered(rows, a, verdict.db))
  {
    DbOutcomeMeaning(loaded, a, dbs, requested);
    forall db ensures MatchDb(loaded, a, db) == 0 <==> !DbIsCovered(rows, a, db) {
      DbCoveredIff(rows, a, loaded, db);
    }
  }

  /** No limit that decides about one of the tables, and no non-zero request, is below the limit granted; it is one
      of them. */
  lemma GrantedLimitIsLeast(loaded: seq<Row>, a: Asker, tables: seq<TableRef>, requested: int)
    requires tables != []
    ensures var verdict := Fold(FastVerdicts(loaded, a, tables), requested);
            verdict.Granted? ==>
              && (requested != 0 ==> verdict.limit <= requested)
              && (forall t :: t in tables ==>
                    && (MatchDb(loaded, a, t.schema) != 0 ==> verdict.limit <= MatchDb(loaded, a, t.schema))
                    && (MatchTable(loaded, a, t.schema, t.name) != 0 ==>
                          verdict.limit <= MatchTable(loaded, a, t.schema, t.name)))
              && ((requested != 0 && verdict.limit == requested)
                  || exists t :: t in tables &&
                       (verdict.limit == MatchDb(loaded, a, t.schema)
                        || verdict.limit == MatchTable(loaded, a, t.schema, t.name)))
  {
    CheckMeaning(loaded, a, tables, requested);
    FastVerdictsAt(loaded, a, tables);
    var vs := FastVerdicts(loaded, a, tables);
    var verdict := Fold(vs, requested);
    if verdict.Granted? {
      forall t | t in tables
        ensures MatchDb(loaded, a, t.schema) != 0 ==> verdict.limit <= MatchDb(loaded, a, t.schema)
        ensures MatchTable(loaded, a, t.schema, t.name) != 0 ==>
                  verdict.limit <= MatchTable(loaded, a, t.schema, t.name)
      {
        var i :| 0 <= i < |tables| && tables[i] == t;
        assert vs[i] == FastVerdict(t, FastLimits(loaded, a, t).db, FastLimits(loaded, a, t).table);
      }
      if !(requested != 0 && verdict.limit == requested) {
        var i :| 0 <= i < |vs| && vs[i] == Granted(verdict.limit);
        assert tables[i] in tables;
      }
    }
  }

  /** A privilege on one database gives nothing on another. */
  lemma OtherDatabaseIsDenied()
    ensures var row := Row(1, "u", 1, "sales", "", 10, 100, Database, 0);
            var a := Asker("u", 1, false, 5000, 0);
            && IsLoaded([row], a, [row])
            && FastVerdicts([row], a, [TableRef("payroll", "salary")]) == [Denied("payroll", "salary")]
            && FastVerdicts([row], a, [TableRef("sales", "orders")]) == [Granted(100)]
  {
    var row := Row(1, "u", 1, "sales", "", 10, 100, Database, 0);
    var a := Asker("u", 1, false, 5000, 0);
    assert row.db[0] != "payroll"[0] && "sales" != "*";
    OneRowLimits(row, a, TableRef("payroll", "salary"));
    OneRowLimits(row, a, TableRef("sales", "orders"));
    OneTable([row], a, TableRef("payroll", "salary"));
    OneTable([row], a, TableRef("sales", "orders"));
  }

  lemma OneRowLimits(row: Row, a: Asker, t: TableRef)
    requires !a.isSuperuser && row.kind == Database
    ensures FastLimits([row], a, t) == Limits(if row.db == t.schema || row.db == "*" then row.limit else 0, 0)
  {
    assert [row][1..] == [];
    assert FirstLimit([], GrantingDb(t.schema)) == 0 && FirstLimit([], GrantingTable(t.schema, t.name)) == 0;
  }

  lemma OneTable(loaded: seq<Row>, a: Asker, t: TableRef)
    ensures var limits := FastLimits(loaded, a, t);
            FastVerdicts(loaded, a, [t]) == [FastVerdict(t, limits.db, limits.table)]
  {
    assert [t][1..] == [];
  }

  /** Who is given the rows: only the asker's own, for the instance, unexpired and not deleted. */
  lemma LoadedRowsMeaning(rows: seq<Row>, a: Asker, loaded: seq<Row>, r: Row)
    requires IsLoaded(rows, a, loaded)
    ensures r in loaded <==> r in rows && r.user == a.user && r.instance == a.instance && r.validUntil >= a.now
                             && r.isDeleted == 0
  {
  }
}
