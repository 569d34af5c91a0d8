/**
 The batch review parser: an array of per-statement reviews, in whatever order and with whatever
 junk a model returned, becomes a list aligned with the statements.
 */
module ReviewBatch {
  import opened Options

  /** A decoded JSON value. Python keeps `true` apart from integers only by an explicit test; here they differ. */
  datatype Json =
    | JNull
    | JBool(b: bool)
    | JInt(n: int)
    | JFloat(r: real)
    | JNan
    | JInfinite
    | JStr(s: string)
    | JArr(items: seq<Json>)
    | JObj(fields: map<string, Json>)

  /** Python's text operations; `show` is `str()` of anything but a string. */
  datatype TextLib = TextLib(
    lower: string -> string,
    strip: string -> string,
    stripEmoji: string -> string,
    parseInt: string -> Option<int>,
    show: Json -> string)

  datatype Level = Low | Medium | High | Unknown

  datatype LockRisk = NoLock | LowLock | MediumLock | HighLock

  datatype Review = Review(
    level: Level,
    score: int,
    summary: string,
    suggestion: string,
    lock: LockRisk,
    affectedRows: string,
    useOsc: bool)

  const DEFAULT_SUMMARY := "AI 审核完成"

  function Str(lib: TextLib, j: Json): string {
    if j.JStr? then j.s else lib.show(j)
  }

  predicate Truthy(j: Json) {
    match j
    case JNull => false
    case JBool(b) => b
    case JInt(n) => n != 0
    case JFloat(r) => r != 0.0
    case JNan => true
    case JInfinite => true
    case JStr(s) => s != ""
    case JArr(items) => items != []
    case JObj(fields) => fields != map[]
  }

  function Get(item: map<string, Json>, key: string, default: Json): Json {
    if key in item then item[key] else default
  }

  function NormalizeLevel(lib: TextLib, value: Json): Level {
    var level := lib.lower(if Truthy(value) then Str(lib, value) else "");
    if level == "low" then Low
    else if level == "medium" then Medium
    else if level == "high" then High
    else Unknown
  }

  function Clamp(n: int): (r: int)
    ensures 0 <= r <= 100
    ensures 0 <= n <= 100 ==> r == n
  {
    if n < 0 then 0 else if n > 100 then 100 else n
  }

  function Truncate(r: real): int {
    if r >= 0.0 then r.Floor else -(-r).Floor
  }

  /** `int(value)` clamped to 0..100; a value `int` refuses scores 0. */
  function NormalizeScore(lib: TextLib, value: Json): (r: int)
    ensures 0 <= r <= 100
  {
    match value
    case JInt(n) => Clamp(n)
    case JBool(b) => if b then 1 else 0
    case JFloat(r) => Clamp(Truncate(r))
    case JStr(s) => (match lib.parseInt(s) case Some(n) => Clamp(n) case None => 0)
    case _ => 0
  }

  function NormalizeLock(lib: TextLib, value: Json): LockRisk {
    var lock := lib.lower(Str(lib, value));
    if lock == "low" then LowLock
    else if lock == "medium" then MediumLock
    else if lock == "high" then HighLock
    else NoLock
  }

  /** `int()` of an infinite float raises an error that the scoring code does not catch. */
  predicate Explodes(item: map<string, Json>) {
    Get(item, "risk_score", JInt(0)).JInfinite?
  }

  function Normalize(lib: TextLib, item: map<string, Json>): Review {
    var summary := Str(lib, Get(item, "summary", JStr("")));
    var cleaned := lib.stripEmoji(if |summary| > 200 then summary[..200] else summary);
    var affected := Get(item, "affected_rows_estimate", JStr(""));
    var osc := Get(item, "use_osc", JBool(false));
    Review(
      NormalizeLevel(lib, Get(item, "risk_level", JNull)),
      NormalizeScore(lib, Get(item, "risk_score", JInt(0))),
      if cleaned == "" then DEFAULT_SUMMARY else cleaned,
      lib.stripEmoji(Str(lib, Get(item, "suggestion", JStr("")))),
      NormalizeLock(lib, Get(item, "ddl_lock_risk", JStr("none"))),
      lib.stripEmoji(if Truthy(affected) then Str(lib, affected) else ""),
      if osc.JStr? then lib.lower(lib.strip(osc.s)) in {"true", "1", "yes"} else Truthy(osc))
  }

  /** The slot an item claims: an object whose `index` is an integer within the batch. */
  function SlotOf(item: Json, count: int): Option<nat> {
    if !item.JObj? || "index" !in item.fields || !item.fields["index"].JInt? then None
    else
      var i := item.fields["index"].n;
      if 0 <= i < count then Some(i) else None
  }

  const WRAPPER_KEYS := ["reviews", "results", "items", "statements"]

  /** The list a reply carries: the reply itself, or the first wrapper field that is a list. */
  function Unwrap(data: Json, keys: seq<string>): Json {
    if !data.JObj? || keys == [] then data
    else if keys[0] in data.fields && data.fields[keys[0]].JArr? then data.fields[keys[0]]
    else Unwrap(data, keys[1..])
  }

  datatype Batch = Unparsable | Raised | Aligned(reviews: seq<Option<Review>>)

  /** Item `k` is the first to claim slot `i`. */
  ghost predicate IsFirst(items: seq<Json>, count: int, i: nat, k: nat) {
    k < |items| && SlotOf(items[k], count) == Some(i) &&
    forall j :: 0 <= j < k ==> SlotOf(items[j], count) != Some(i)
  }

  ghost predicate Claimed(items: seq<Json>, count: int, i: nat) {
    exists k: nat :: k < |items| && SlotOf(items[k], count) == Some(i)
  }

  ghost predicate NoFirstExplodes(items: seq<Json>, count: int) {
    forall i: nat, k: nat :: IsFirst(items, count, i, k) ==> !Explodes(items[k].fields)
  }

  /** Slot `i` of the aligned list: the first claim on it, normalised. */
  ghost predicate FillsSlot(lib: TextLib, items: seq<Json>, count: int, i: nat, slot: Option<Review>) {
    && (slot.None? <==> !Claimed(items, count, i))
    && forall k: nat :: IsFirst(items, count, i, k) ==> slot == Some(Normalize(lib, items[k].fields))
  }

  /** What a list of items becomes: an exception when some first claim explodes, else the aligned list. */
  ghost predicate Becomes(lib: TextLib, items: seq<Json>, count: int, r: Batch) {
    match r
    case Unparsable => false
    case Raised => !NoFirstExplodes(items, count)
    case Aligned(reviews) =>
      && NoFirstExplodes(items, count)
      && |reviews| == (if count < 0 then 0 else count)
      && forall i: nat :: i < |reviews| ==> FillsSlot(lib, items, count, i, reviews[i])
  }

  // ---- In terms of the items' own fields ------------------------------------------------------------

  /** The item is an object whose field `index` is the integer `i`. */
  predicate NamesIndex(item: Json, i: int) {
    item.JObj? && "index" in item.fields && item.fields["index"] == JInt(i)
  }

  ghost predicate IsFirstNamed(items: seq<Json>, i: int, k: nat) {
    k < |items| && NamesIndex(items[k], i) && forall j :: 0 <= j < k ==> !NamesIndex(items[j], i)
  }

  predicate HasInfiniteScore(item: Json) {
    item.JObj? && "risk_score" in item.fields && item.fields["risk_score"] == JInfinite
  }

  lemma FirstIsNamed(items: seq<Json>, count: int, i: nat, k: nat)
    ensures IsFirst(items, count, i, k) <==> i < count && IsFirstNamed(items, i, k)
    ensures IsFirst(items, count, i, k) ==> (Explodes(items[k].fields) <==> HasInfiniteScore(items[k]))
  {
    forall j | 0 <= j < |items|
      ensures SlotOf(items[j], count) == Some(i) <==> i < count && NamesIndex(items[j], i)
    {
    }
  }

  /** Entry `i` of an aligned list is the first item naming index `i`, normalised; without one it is empty. */
  lemma AlignedByIndex(lib: TextLib, items: seq<Json>, count: int, reviews: seq<Option<Review>>)
    requires Becomes(lib, items, count, Aligned(reviews))
    ensures forall i: nat, k: nat :: i < |reviews| && IsFirstNamed(items, i, k) ==>
              reviews[i] == Some(Normalize(lib, items[k].fields)) && !HasInfiniteScore(items[k])
    ensures forall i: nat :: i < |reviews| && (forall k: nat :: !IsFirstNamed(items, i, k)) ==> reviews[i] == None
  {
    forall i: nat, k: nat ensures IsFirst(items, count, i, k) <==> i < count && IsFirstNamed(items, i, k) {
      FirstIsNamed(items, count, i, k);
    }
    forall i: nat, k: nat | i < |reviews| && IsFirstNamed(items, i, k)
      ensures reviews[i] == Some(Normalize(lib, items[k].fields)) && !HasInfiniteScore(items[k])
    {
      FirstIsNamed(items, count, i, k);
      assert FillsSlot(lib, items, count, i, reviews[i]) && IsFirst(items, count, i, k);
    }
    forall i: nat | i < |reviews| && (forall k: nat :: !IsFirstNamed(items, i, k))
      ensures reviews[i] == None
    {
      assert FillsSlot(lib, items, count, i, reviews[i]);
      if Claimed(items, count, i) {
        var k: nat :| k < |items| && SlotOf(items[k], count) == Some(i);
        var f := FirstClaim(items, count, i, k);
      }
    }
  }

  /** Where the list is looked for: the reply itself, or the fields named, in this order. */
  lemma UnwrapMeaning(data: Json)
    ensures !data.JObj? ==> Unwrap(data, WRAPPER_KEYS) == data
    ensures data.JObj? ==>
              var f := data.fields;
              Unwrap(data, WRAPPER_KEYS)
              == if "reviews" in f && f["reviews"].JArr? then f["reviews"]
                 else if "results" in f && f["results"].JArr? then f["results"]
                 else if "items" in f && f["items"].JArr? then f["items"]
                 else if "statements" in f && f["statements"].JArr? then f["statements"]
                 else data
  {
    var last, two, three := ["statements"], ["items", "statements"], ["results", "items", "statements"];
    assert last[1..] == [] && two[1..] == last && three[1..] == two && WRAPPER_KEYS[1..] == three;
    assert data.JObj? ==> Unwrap(data, last) == UnwrapOne(data, "statements", data);
    assert data.JObj? ==> Unwrap(data, two) == UnwrapOne(data, "items", Unwrap(data, last));
    assert data.JObj? ==> Unwrap(data, three) == UnwrapOne(data, "results", Unwrap(data, two));
  }

  function UnwrapOne(data: Json, key: string, otherwise: Json): Json
    requires data.JObj?
  {
    if key in data.fields && data.fields[key].JArr? then data.fields[key] else otherwise
  }

  /** Scores: integers are clamped, fractions cut, booleans and numeric strings taken as numbers, all else is 0. */
  lemma ScoreMeaning(lib: TextLib, item: map<string, Json>)
    ensures var score := Normalize(lib, item).score;
            if "risk_score" !in item then score == 0
            else match item["risk_score"]
                 case JInt(n) => score == (if n < 0 then 0 else if n > 100 then 100 else n)
                 case JFloat(x) => if x < 1.0 then score == 0 else if x >= 100.0 then score == 100
                                   else score as real <= x < score as real + 1.0
                 case JBool(b) => score == (if b then 1 else 0)
                 case JStr(s) => (match lib.parseInt(s)
                                  case Some(n) => score == (if n < 0 then 0 else if n > 100 then 100 else n)
                                  case None => score == 0)
                 case _ => score == 0
  {
  }

  /** The enumerations: exactly three words count, read from the field of that name in lower case. */
  lemma LevelsMeaning(lib: TextLib, item: map<string, Json>, s: string)
    requires s != ""
    ensures "risk_level" in item && item["risk_level"] == JStr(s) ==>
              var level := Normalize(lib, item).level;
              && (level == Low <==> lib.lower(s) == "low") && (level == Medium <==> lib.lower(s) == "medium")
              && (level == High <==> lib.lower(s) == "high")
    ensures "ddl_lock_risk" in item && item["ddl_lock_risk"] == JStr(s) ==>
              var lock := Normalize(lib, item).lock;
              && (lock == LowLock <==> lib.lower(s) == "low") && (lock == MediumLock <==> lib.lower(s) == "medium")
              && (lock == HighLock <==> lib.lower(s) == "high")
    ensures "risk_level" !in item && lib.lower("") == "" ==> Normalize(lib, item).level == Unknown
    ensures "ddl_lock_risk" !in item && lib.lower("none") == "none" ==> Normalize(lib, item).lock == NoLock
  {
  }

  /** The texts: a summary of at most 200 characters, with a standard one for none; suggestion and row estimate. */
  lemma TextsMeaning(lib: TextLib, item: map<string, Json>, s: string)
    ensures "summary" in item && item["summary"] == JStr(s) ==>
              var kept := lib.stripEmoji(if |s| <= 200 then s else s[..200]);
              Normalize(lib, item).summary == (if kept != "" then kept else "AI 审核完成")
    ensures "suggestion" in item && item["suggestion"] == JStr(s) ==>
              Normalize(lib, item).suggestion == lib.stripEmoji(s)
    ensures "affected_rows_estimate" in item && item["affected_rows_estimate"] == JStr(s) ==>
              Normalize(lib, item).affectedRows == lib.stripEmoji(s)
    ensures lib.stripEmoji("") == "" ==>
              && ("summary" !in item ==> Normalize(lib, item).summary == "AI 审核完成")
              && ("suggestion" !in item ==> Normalize(lib, item).suggestion == "")
              && ("affected_rows_estimate" !in item ==> Normalize(lib, item).affectedRows == "")
  {
  }

  /** The online-change flag: a boolean as it is, three spellings of yes, any other value by its truth. */
  lemma OscMeaning(lib: TextLib, item: map<string, Json>)
    ensures var osc := Normalize(lib, item).useOsc;
            if "use_osc" !in item then !osc
            else match item["use_osc"]
                 case JBool(b) => osc == b
                 case JStr(s) => osc <==> var t := lib.lower(lib.strip(s)); t == "true" || t == "1" || t == "yes"
                 case JInt(n) => osc <==> n != 0
                 case JNull => !osc
                 case JFloat(x) => osc <==> x != 0.0
                 case JArr(xs) => osc <==> xs != []
                 case JObj(fields) => osc <==> fields != map[]
                 case JNan => osc
                 case JInfinite => osc
  {
  }

  /** Where a text is expected, other values are written out; the row estimate and the level drop those that are
      false. */
  lemma OtherKindsMeaning(lib: TextLib, item: map<string, Json>, j: Json)
    requires !j.JStr?
    ensures "suggestion" in item && item["suggestion"] == j ==>
              Normalize(lib, item).suggestion == lib.stripEmoji(lib.show(j))
    ensures "affected_rows_estimate" in item && item["affected_rows_estimate"] == j ==>
              Normalize(lib, item).affectedRows
              == lib.stripEmoji(if j in {JNull, JBool(false), JInt(0), JFloat(0.0), JArr([]), JObj(map[])} then ""
                                else lib.show(j))
    ensures "risk_level" in item && item["risk_level"] == j ==>
              var word := lib.lower(if j in {JNull, JBool(false), JInt(0), JFloat(0.0), JArr([]), JObj(map[])} then ""
                                    else lib.show(j));
              Normalize(lib, item).level
              == if word == "low" then Low
                 else if word == "medium" then Medium
                 else if word == "high" then High
                 else Unknown
  {
  }

  /** The slots after the items `seen`, none of whose first claims exploded. */
  ghost predicate Filled(lib: TextLib, seen: seq<Json>, count: int, slots: seq<Option<Review>>) {
    && NoFirstExplodes(seen, count)
    && |slots| == (if count < 0 then 0 else count)
    && forall i: nat :: i < |slots| ==> FillsSlot(lib, seen, count, i, slots[i])
  }

  method ParseReviewBatch(lib: TextLib, data: Option<Json>, expectedCount: int) returns (r: Batch)
    ensures r.Unparsable? <==> data.None? || !Unwrap(data.value, WRAPPER_KEYS).JArr?
    ensures !r.Unparsable? ==> Becomes(lib, Unwrap(data.value, WRAPPER_KEYS).items, expectedCount, r)
    ensures r.Aligned? ==>
              var items := Unwrap(data.value, WRAPPER_KEYS).items;
              && |r.reviews| == (if expectedCount < 0 then 0 else expectedCount)
              && (forall i: nat, k: nat :: i < |r.reviews| && IsFirstNamed(items, i, k) ==>
                    r.reviews[i] == Some(Normalize(lib, items[k].fields)))
              && (forall i: nat :: i < |r.reviews| && (forall k: nat :: !IsFirstNamed(items, i, k)) ==>
                    r.reviews[i] == None)
    ensures r.Raised? ==>
              var items := Unwrap(data.value, WRAPPER_KEYS).items;
              exists i: nat, k: nat :: i < expectedCount && IsFirstNamed(items, i, k) && HasInfiniteScore(items[k])
  {
    if data.None? {
      return Unparsable;
    }
    var list := Unwrap(data.value, WRAPPER_KEYS);
    if !list.JArr? {
      return Unparsable;
    }
    var items := list.items;
    var results := new Option<Review>[if expectedCount < 0 then 0 else expectedCount](_ => None);
    for k := 0 to |items|
      invariant Filled(lib, items[..k], expectedCount, results[..])
    {
      ItemTaken(lib, items[..k], items[k], expectedCount, results[..]);
      assert items[..k + 1] == items[..k] + [items[k]];
      var slot := SlotOf(items[k], expectedCount);
      if slot.Some? && results[slot.value].None? {
        if Explodes(items[k].fields) {
          FirstInPrefix(items, expectedCount, slot.value, k);
          FirstIsNamed(items, expectedCount, slot.value, k);
          return Raised;
        }
        results[slot.value] := Some(Normalize(lib, items[k].fields));
      }
    }
    assert items[..|items|] == items;
    AlignedByIndex(lib, items, expectedCount, results[..]);
    return Aligned(results[..]);
  }

  lemma FirstInPrefix(items: seq<Json>, count: int, i: nat, k: nat)
    requires k < |items| && IsFirst(items[..k + 1], count, i, k)
    ensures IsFirst(items, count, i, k)
  {
    assert forall j :: 0 <= j <= k ==> items[..k + 1][j] == items[j];
  }

  /** What one more item does to the slots: nothing, an exception, or one slot filled. */
  lemma ItemTaken(lib: TextLib, seen: seq<Json>, item: Json, count: int, slots: seq<Option<Review>>)
    requires Filled(lib, seen, count, slots)
    ensures var next, slot := seen + [item], SlotOf(item, count);
            if slot.None? || slots[slot.value].Some? then Filled(lib, next, count, slots)
            else if Explodes(item.fields) then IsFirst(next, count, slot.value, |seen|)
            else Filled(lib, next, count, slots[slot.value := Some(Normalize(lib, item.fields))])
  {
    var slot := SlotOf(item, count);
    forall i: nat, j: nat
      ensures IsFirst(seen + [item], count, i, j) <==>
              IsFirst(seen, count, i, j) || (j == |seen| && slot == Some(i) && !Claimed(seen, count, i))
    {
      FirstExtends(seen, item, count, i, j);
    }
    forall i: nat
      ensures Claimed(seen + [item], count, i) <==> Claimed(seen, count, i) || slot == Some(i)
    {
      ClaimedExtends(seen, item, count, i);
    }
  }

  lemma FirstExtends(seen: seq<Json>, item: Json, count: int, i: nat, j: nat)
    ensures IsFirst(seen + [item], count, i, j) <==>
            IsFirst(seen, count, i, j) || (j == |seen| && SlotOf(item, count) == Some(i) && !Claimed(seen, count, i))
  {
    var next := seen + [item];
    if j < |seen| {
      assert next[j] == seen[j] && forall m :: 0 <= m < j ==> next[m] == seen[m];
    } else if j == |seen| {
      assert forall m :: 0 <= m < j ==> next[m] == seen[m];
    }
  }

  lemma ClaimedExtends(seen: seq<Json>, item: Json, count: int, i: nat)
    ensures Claimed(seen + [item], count, i) <==> Claimed(seen, count, i) || SlotOf(item, count) == Some(i)
  {
    var next := seen + [item];
    if Claimed(seen, count, i) {
      var k: nat :| k < |seen| && SlotOf(seen[k], count) == Some(i);
      assert next[k] == seen[k];
    }
    if SlotOf(item, count) == Some(i) {
      assert next[|seen|] == item;
    }
  }

  /** A claimed slot has a first claim. */
  lemma {:induction false} FirstClaim(items: seq<Json>, count: int, i: nat, k: nat) returns (f: nat)
    requires k < |items| && SlotOf(items[k], count) == Some(i)
    ensures f <= k && IsFirst(items, count, i, f)
  {
    if j: nat :| j < k && SlotOf(items[j], count) == Some(i) {
      f := FirstClaim(items, count, i, j);
    } else {
      f := k;
    }
  }

  /** Every review the parser hands out is within range, whatever the model wrote. */
  lemma AlignedReviewsAreBounded(lib: TextLib, items: seq<Json>, count: int, i: nat, slot: Option<Review>)
    requires FillsSlot(lib, items, count, i, slot) && slot.Some?
    ensures 0 <= slot.value.score <= 100 && slot.value.summary != ""
    ensures exists k: nat :: IsFirst(items, count, i, k) && slot.value == Normalize(lib, items[k].fields)
  {
    var k: nat :| k < |items| && SlotOf(items[k], count) == Some(i);
    var f := FirstClaim(items, count, i, k);
  }

  /** Both lists hold the same claiming items, in any order and number, among any junk. */
  ghost predicate SameClaims(xs: seq<Json>, ys: seq<Json>, count: int) {
    forall item :: SlotOf(item, count).Some? ==> (item in xs <==> item in ys)
  }

  /** Items that claim one slot agree on what it becomes. */
  ghost predicate ClaimsAgree(lib: TextLib, xs: seq<Json>, count: int) {
    forall a, b :: a in xs && b in xs && SlotOf(a, count).Some? && SlotOf(a, count) == SlotOf(b, count) ==>
                     Normalize(lib, a.fields) == Normalize(lib, b.fields)
  }

  /** No item that claims a slot explodes. */
  ghost predicate NoneExplodes(xs: seq<Json>, count: int) {
    forall a :: a in xs && SlotOf(a, count).Some? ==> !Explodes(a.fields)
  }

  /** Some slot is claimed, and by exploding items only. */
  ghost predicate IsDoomed(xs: seq<Json>, count: int) {
    exists a :: a in xs && SlotOf(a, count).Some? &&
                forall b :: b in xs && SlotOf(b, count) == SlotOf(a, count) ==> Explodes(b.fields)
  }

  /** What a reader of the reply can check: the order in which the items come cannot matter. */
  ghost predicate OrderIsIdle(lib: TextLib, xs: seq<Json>, count: int) {
    IsDoomed(xs, count) || (NoneExplodes(xs, count) && ClaimsAgree(lib, xs, count))
  }

  lemma SlotsIgnoreOrder(lib: TextLib, xs: seq<Json>, ys: seq<Json>, count: int, i: nat,
                         x: Option<Review>, y: Option<Review>)
    requires SameClaims(xs, ys, count) && ClaimsAgree(lib, xs, count)
    requires FillsSlot(lib, xs, count, i, x) && FillsSlot(lib, ys, count, i, y)
    ensures x == y
  {
    if Claimed(xs, count, i) {
      var k: nat :| k < |xs| && SlotOf(xs[k], count) == Some(i);
      var f := FirstClaim(xs, count, i, k);
      assert xs[f] in ys;
      var m: nat :| m < |ys| && ys[m] == xs[f];
      var g := FirstClaim(ys, count, i, m);
      assert ys[g] in xs;
    }
  }

  lemma DoomedRaises(xs: seq<Json>, ys: seq<Json>, count: int)
    requires SameClaims(xs, ys, count) && IsDoomed(xs, count)
    ensures !NoFirstExplodes(ys, count)
  {
    var a :| a in xs && SlotOf(a, count).Some? &&
             forall b :: b in xs && SlotOf(b, count) == SlotOf(a, count) ==> Explodes(b.fields);
    assert a in ys;
    var m: nat :| m < |ys| && ys[m] == a;
    var g := FirstClaim(ys, count, SlotOf(a, count).value, m);
    assert ys[g] in xs;
  }

  lemma NoneExplodesAligns(xs: seq<Json>, ys: seq<Json>, count: int)
    requires SameClaims(xs, ys, count) && NoneExplodes(xs, count)
    ensures NoFirstExplodes(ys, count)
  {
    forall i: nat, k: nat | IsFirst(ys, count, i, k)
      ensures !Explodes(ys[k].fields)
    {
      assert ys[k] in ys && ys[k] in xs;
    }
  }

  /** Order, repetition, malformed items and out-of-range indices then make no difference to the outcome. */
  lemma AlignmentIgnoresOrder(lib: TextLib, xs: seq<Json>, ys: seq<Json>, count: int, x: Batch, y: Batch)
    requires SameClaims(xs, ys, count) && OrderIsIdle(lib, xs, count)
    requires Becomes(lib, xs, count, x) && Becomes(lib, ys, count, y)
    ensures x == y
  {
    if IsDoomed(xs, count) {
      DoomedRaises(xs, xs, count);
      DoomedRaises(xs, ys, count);
    } else {
      NoneExplodesAligns(xs, xs, count);
      NoneExplodesAligns(xs, ys, count);
      forall i: nat | i < |x.reviews|
        ensures x.reviews[i] == y.reviews[i]
      {
        SlotsIgnoreOrder(lib, xs, ys, count, i, x.reviews[i], y.reviews[i]);
      }
    }
  }

  lemma FirstFills(lib: TextLib, xs: seq<Json>, count: int, i: nat, f: nat)
    requires IsFirst(xs, count, i, f)
    ensures FillsSlot(lib, xs, count, i, Some(Normalize(lib, xs[f].fields)))
  {
    forall m: nat | IsFirst(xs, count, i, m)
      ensures m == f
    {
      assert !(m < f) && !(f < m);
    }
  }

  lemma SlotFilled(lib: TextLib, xs: seq<Json>, count: int, i: nat) returns (slot: Option<Review>)
    ensures FillsSlot(lib, xs, count, i, slot)
  {
    if Claimed(xs, count, i) {
      var k: nat :| k < |xs| && SlotOf(xs[k], count) == Some(i);
      var f := FirstClaim(xs, count, i, k);
      slot := Some(Normalize(lib, xs[f].fields));
      FirstFills(lib, xs, count, i, f);
    } else {
      slot := None;
    }
  }

  lemma {:induction false} SlotsFilled(lib: TextLib, xs: seq<Json>, count: int, n: nat)
    returns (slots: seq<Option<Review>>)
    ensures |slots| == n && forall i: nat :: i < n ==> FillsSlot(lib, xs, count, i, slots[i])
  {
    slots := [];
    if n > 0 {
      slots := SlotsFilled(lib, xs, count, n - 1);
      var last := SlotFilled(lib, xs, count, n - 1);
      slots := slots + [last];
    }
  }

  /** Every list becomes something. */
  lemma BecomesSomething(lib: TextLib, xs: seq<Json>, count: int) returns (r: Batch)
    ensures Becomes(lib, xs, count, r)
  {
    r := Raised;
    if NoFirstExplodes(xs, count) {
      var slots := SlotsFilled(lib, xs, count, if count < 0 then 0 else count);
      r := Aligned(slots);
    }
  }

  /** A reordering that lists `a` first. */
  lemma MovedToFront(xs: seq<Json>, count: int, a: Json) returns (ys: seq<Json>)
    requires a in xs && SlotOf(a, count).Some?
    ensures multiset(ys) == multiset(xs)
    ensures IsFirst(ys, count, SlotOf(a, count).value, 0) && ys[0] == a
  {
    var k: nat :| k < |xs| && xs[k] == a;
    ys := [a] + (xs[..k] + xs[k + 1..]);
    assert xs == xs[..k] + ([a] + xs[k + 1..]);
  }

  /** A reordering that lists every exploding claim behind the others. */
  lemma {:induction false} ExplodingLast(xs: seq<Json>, count: int) returns (good: seq<Json>, bad: seq<Json>)
    ensures multiset(good + bad) == multiset(xs)
    ensures NoneExplodes(good, count)
    ensures forall b :: b in bad ==> SlotOf(b, count).Some? && Explodes(b.fields)
    ensures forall item :: item in bad ==> item in xs
    ensures forall item :: item in xs && SlotOf(item, count).Some? && !Explodes(item.fields) ==> item in good
  {
    good, bad := [], [];
    if xs != [] {
      good, bad := ExplodingLast(xs[1..], count);
      assert xs == [xs[0]] + xs[1..];
      if SlotOf(xs[0], count).Some? && Explodes(xs[0].fields) {
        bad := bad + [xs[0]];
      } else {
        good := good + [xs[0]];
      }
    }
  }

  /** Some reordering makes a difference: to a slot, or to whether there is an exception. */
  ghost predicate Reorderable(lib: TextLib, xs: seq<Json>, count: int) {
    exists ys, x, y ::
      multiset(ys) == multiset(xs) && Becomes(lib, xs, count, x) && Becomes(lib, ys, count, y) && x != y
  }

  lemma SameItems(xs: seq<Json>, ys: seq<Json>)
    requires multiset(ys) == multiset(xs)
    ensures forall item :: item in xs <==> item in ys
  {
    assert forall item :: item in xs <==> item in multiset(xs);
    assert forall item :: item in ys <==> item in multiset(ys);
  }

  ghost predicate ClaimedBeside(good: seq<Json>, count: int, item: Json) {
    SlotOf(item, count).Some? && Claimed(good, count, SlotOf(item, count).value)
  }

  lemma GoodClaimsComeFirst(good: seq<Json>, bad: seq<Json>, count: int)
    requires NoneExplodes(good, count)
    requires forall k :: 0 <= k < |bad| ==> ClaimedBeside(good, count, bad[k])
    ensures NoFirstExplodes(good + bad, count)
  {
    var ys := good + bad;
    forall i: nat, k: nat
      ensures IsFirst(ys, count, i, k) ==> k < |good|
    {
      if |good| <= k < |ys| && SlotOf(ys[k], count) == Some(i) {
        assert ClaimedBeside(good, count, bad[k - |good|]);
        var m: nat :| m < |good| && SlotOf(good[m], count) == Some(i);
        assert ys[m] == good[m];
      }
    }
    forall i: nat, k: nat | IsFirst(ys, count, i, k)
      ensures !Explodes(ys[k].fields)
    {
      assert ys[k] == good[k] && good[k] in good;
    }
  }

  lemma BadClaimHasRival(xs: seq<Json>, good: seq<Json>, count: int, item: Json)
    requires !IsDoomed(xs, count) && item in xs && SlotOf(item, count).Some?
    requires forall b :: b in xs && SlotOf(b, count).Some? && !Explodes(b.fields) ==> b in good
    ensures ClaimedBeside(good, count, item)
  {
    var b :| b in xs && SlotOf(b, count) == SlotOf(item, count) && !Explodes(b.fields);
    var m: nat :| m < |good| && good[m] == b;
  }

  /** Unless a slot is doomed, some order raises nothing. */
  lemma SomeOrderAligns(xs: seq<Json>, count: int) returns (ys: seq<Json>)
    requires !IsDoomed(xs, count)
    ensures multiset(ys) == multiset(xs) && NoFirstExplodes(ys, count)
  {
    var good, bad := ExplodingLast(xs, count);
    ys := good + bad;
    forall k | 0 <= k < |bad|
      ensures ClaimedBeside(good, count, bad[k])
    {
      BadClaimHasRival(xs, good, count, bad[k]);
    }
    GoodClaimsComeFirst(good, bad, count);
  }

  /** Two orders of `xs` with different outcomes: one of them differs from that of `xs` itself. */
  lemma TwoOrdersDiffer(lib: TextLib, xs: seq<Json>, count: int, ys: seq<Json>, zs: seq<Json>, y: Batch, z: Batch)
    requires multiset(ys) == multiset(xs) == multiset(zs)
    requires Becomes(lib, ys, count, y) && Becomes(lib, zs, count, z) && y != z
    ensures Reorderable(lib, xs, count)
  {
    var x := BecomesSomething(lib, xs, count);
  }

  lemma ExplosionShows(lib: TextLib, xs: seq<Json>, count: int)
    requires !IsDoomed(xs, count) && !NoneExplodes(xs, count)
    ensures Reorderable(lib, xs, count)
  {
    var a :| a in xs && SlotOf(a, count).Some? && Explodes(a.fields);
    var ys := MovedToFront(xs, count, a);
    var zs := SomeOrderAligns(xs, count);
    var z := BecomesSomething(lib, zs, count);
    TwoOrdersDiffer(lib, xs, count, ys, zs, Raised, z);
  }

  lemma IdleIsNotReorderable(lib: TextLib, xs: seq<Json>, count: int)
    requires OrderIsIdle(lib, xs, count)
    ensures !Reorderable(lib, xs, count)
  {
    forall ys, x, y | multiset(ys) == multiset(xs) && Becomes(lib, xs, count, x) && Becomes(lib, ys, count, y)
      ensures x == y
    {
      SameItems(xs, ys);
      AlignmentIgnoresOrder(lib, xs, ys, count, x, y);
    }
  }

  lemma DisagreementShows(lib: TextLib, xs: seq<Json>, count: int)
    requires NoneExplodes(xs, count) && !ClaimsAgree(lib, xs, count)
    ensures Reorderable(lib, xs, count)
  {
    var a, b :| a in xs && b in xs && SlotOf(a, count).Some? && SlotOf(a, count) == SlotOf(b, count)
                && Normalize(lib, a.fields) != Normalize(lib, b.fields);
    var i := SlotOf(a, count).value;
    var ys := MovedToFront(xs, count, a);
    var zs := MovedToFront(xs, count, b);
    SameItems(xs, ys);
    SameItems(xs, zs);
    NoneExplodesAligns(xs, ys, count);
    NoneExplodesAligns(xs, zs, count);
    var y := BecomesSomething(lib, ys, count);
    var z := BecomesSomething(lib, zs, count);
    assert FillsSlot(lib, ys, count, i, y.reviews[i]) && FillsSlot(lib, zs, count, i, z.reviews[i]);
    TwoOrdersDiffer(lib, xs, count, ys, zs, y, z);
  }

  /**
   The whole outcome, exception or aligned list, is the same for every reordering of the items if and
   only if either some slot is claimed by exploding items alone, or no claim explodes and items
   claiming one slot agree on it (the first one listed wins).
   */
  lemma OrderMattersUnlessClaimsAgree(lib: TextLib, xs: seq<Json>, count: int)
    ensures OrderIsIdle(lib, xs, count) <==> !Reorderable(lib, xs, count)
  {
    if OrderIsIdle(lib, xs, count) {
      IdleIsNotReorderable(lib, xs, count);
    } else if !NoneExplodes(xs, count) {
      ExplosionShows(lib, xs, count);
    } else {
      DisagreementShows(lib, xs, count);
    }
  }

  /** An infinite score beside an ordinary one: the two reviews are alike, but in one order there is an exception. */
  lemma InfiniteScoreCanRaise(lib: TextLib)
    ensures var zero := JObj(map["index" := JInt(0), "risk_score" := JInt(0)]);
            var infinite := JObj(map["index" := JInt(0), "risk_score" := JInfinite]);
            && Normalize(lib, zero.fields) == Normalize(lib, infinite.fields)
            && Becomes(lib, [zero, infinite], 1, Aligned([Some(Normalize(lib, zero.fields))]))
            && Becomes(lib, [infinite, zero], 1, Raised)
  {
    var zero := JObj(map["index" := JInt(0), "risk_score" := JInt(0)]);
    var infinite := JObj(map["index" := JInt(0), "risk_score" := JInfinite]);
    assert SlotOf(zero, 1) == SlotOf(infinite, 1) == Some(0);
    assert IsFirst([zero, infinite], 1, 0, 0) && IsFirst([infinite, zero], 1, 0, 0);
    FirstFills(lib, [zero, infinite], 1, 0, 0);
    forall i: nat, k: nat | IsFirst([zero, infinite], 1, i, k)
      ensures k == 0
    {
    }
  }
}
