/** Rendering of integers for JavaScript readers (`bigint_safe`).

    A JavaScript reader turns every JSON integer into a double (section 6 of RFC 8259,
    section 21.1.2.6 of ECMA-262), so integers beyond 53 bits may change. */
module BigIntSafe {
  import opened DecimalText

  const MAX_SAFE_INTEGER: int := 9007199254740991

  /** What the renderer is given. `Other` is any value that is neither an integer, a string nor
      a container: a float, a date, a decimal. A `dict` is its entries in order. */
  datatype Json =
    | JNull
    | JBool(b: bool)
    | JInt(n: int)
    | JStr(s: string)
    | Other(name: string)
    | JList(items: seq<Json>)
    | JTuple(elements: seq<Json>)
    | JDict(entries: seq<(string, Json)>)

  function Abs(n: int): nat {
    if n < 0 then -n else n
  }

  function BigIntSafe(v: Json): Json {
    match v
    case JInt(n) => if Abs(n) > MAX_SAFE_INTEGER then JStr(IntText(n)) else v
    case JDict(es) =>
      JDict(seq(|es|, i requires 0 <= i < |es| => (es[i].0, BigIntSafe(es[i].1))))
    case JList(xs) => JList(seq(|xs|, i requires 0 <= i < |xs| => BigIntSafe(xs[i])))
    case JTuple(xs) => JList(seq(|xs|, i requires 0 <= i < |xs| => BigIntSafe(xs[i])))
    case _ => v
  }

  // ---------------------------------------------------------------------------------------
  // Integers as a JavaScript reader sees them
  // ---------------------------------------------------------------------------------------

  datatype Double = Finite(value: int) | Infinite(negative: bool)

  /** 2 to the power 53: the significands of doubles stay below it. */
  const SIGNIFICANDS: int := 9007199254740992

  /** How often `n` must be halved to fit 53 bits. */
  function Exponent(n: nat): nat {
    if n < SIGNIFICANDS then 0 else 1 + Exponent(n / 2)
  }

  /** The distance between neighbouring doubles around `n`: 2 to the power `Exponent(n)`. */
  function Unit(n: nat): (u: nat)
    ensures u >= 1
  {
    if n < SIGNIFICANDS then 1 else 2 * Unit(n / 2)
  }

  /** The nearest multiple of `u`; a tie goes to the even multiple. */
  function RoundHalfEven(n: nat, u: nat): nat
    requires u >= 1
  {
    var q, r := n / u, n % u;
    if 2 * r < u || (2 * r == u && q % 2 == 0) then q * u else (q + 1) * u
  }

  /** The double that an integer numeral denotes; the largest exponent is 971. */
  function ToDouble(n: int): Double {
    var m: nat := RoundHalfEven(Abs(n), Unit(Abs(n)));
    var signed: int := if n < 0 then 0 - m else m;
    if Exponent(m) > 971 then Infinite(n < 0) else Finite(signed)
  }

  /** What a JavaScript reader holds after parsing the rendered text: tuples were written as
      arrays, integers went through a double. */
  function JsRead(v: Json): Json {
    match v
    case JInt(n) =>
      (match ToDouble(n)
       case Finite(m) => JInt(m)
       case Infinite(negative) => Other(if negative then "-Infinity" else "Infinity"))
    case JDict(es) => JDict(seq(|es|, i requires 0 <= i < |es| => (es[i].0, JsRead(es[i].1))))
    case JList(xs) => JList(seq(|xs|, i requires 0 <= i < |xs| => JsRead(xs[i])))
    case JTuple(xs) => JList(seq(|xs|, i requires 0 <= i < |xs| => JsRead(xs[i])))
    case _ => v
  }

  /** The value the caller meant, with tuples as the arrays they are written as. */
  function Meant(v: Json): Json {
    match v
    case JDict(es) => JDict(seq(|es|, i requires 0 <= i < |es| => (es[i].0, Meant(es[i].1))))
    case JList(xs) => JList(seq(|xs|, i requires 0 <= i < |xs| => Meant(xs[i])))
    case JTuple(xs) => JList(seq(|xs|, i requires 0 <= i < |xs| => Meant(xs[i])))
    case _ => v
  }

  predicate SpellsBigInt(s: string) {
    var n := ParseInt(s);
    n.Some? && Abs(n.value) > MAX_SAFE_INTEGER && IntText(n.value) == s
  }

  /** A reader's inverse: strings that spell an unsafe integer become integers again. */
  function Restore(v: Json): Json {
    match v
    case JStr(s) => if SpellsBigInt(s) then JInt(ParseInt(s).value) else v
    case JDict(es) => JDict(seq(|es|, i requires 0 <= i < |es| => (es[i].0, Restore(es[i].1))))
    case JList(xs) => JList(seq(|xs|, i requires 0 <= i < |xs| => Restore(xs[i])))
    case JTuple(xs) => JList(seq(|xs|, i requires 0 <= i < |xs| => Restore(xs[i])))
    case _ => v
  }

  predicate NoStringSpellsBigInt(v: Json) {
    match v
    case JStr(s) => !SpellsBigInt(s)
    case JDict(es) => forall i :: 0 <= i < |es| ==> NoStringSpellsBigInt(es[i].1)
    case JList(xs) => forall i :: 0 <= i < |xs| ==> NoStringSpellsBigInt(xs[i])
    case JTuple(xs) => forall i :: 0 <= i < |xs| ==> NoStringSpellsBigInt(xs[i])
    case _ => true
  }

  predicate EveryIntIsDouble(v: Json) {
    match v
    case JInt(n) => ToDouble(n) == Finite(n)
    case JDict(es) => forall i :: 0 <= i < |es| ==> EveryIntIsDouble(es[i].1)
    case JList(xs) => forall i :: 0 <= i < |xs| ==> EveryIntIsDouble(xs[i])
    case JTuple(xs) => forall i :: 0 <= i < |xs| ==> EveryIntIsDouble(xs[i])
    case _ => true
  }

  // ---------------------------------------------------------------------------------------
  // The threshold
  // ---------------------------------------------------------------------------------------

  lemma {:induction false} UnitBounds(n: nat)
    requires n >= SIGNIFICANDS
    ensures Unit(n) >= 2
    ensures n >= 4503599627370496 * Unit(n)
  {
    if n / 2 >= SIGNIFICANDS {
      UnitBounds(n / 2);
    }
  }

  lemma SafeIsExact(n: int)
    requires Abs(n) <= MAX_SAFE_INTEGER
    ensures ToDouble(n) == Finite(n)
  {
  }

  lemma RoundedAtLeast(n: nat, u: nat, k: nat)
    requires u >= 1 && n >= k * u
    ensures RoundHalfEven(n, u) >= k * u
  {
    var q := n / u;
    assert n < (q + 1) * u;
    ProductOrder(k, q + 1, u);
    assert q >= k;
    ProductMonotone(k, q, u);
    ProductMonotone(q, q + 1, u);
  }

  lemma ProductMonotone(a: nat, b: nat, u: nat)
    requires a <= b
    ensures a * u <= b * u
  {
  }

  lemma ProductOrder(a: nat, b: nat, u: nat)
    requires a * u < b * u
    ensures a < b
  {
    if a >= b {
      ProductMonotone(b, a, u);
      assert false;
    }
  }

  /** An integer beyond the safe range never rounds into it. */
  lemma UnsafeStaysOutside(n: int)
    requires Abs(n) > MAX_SAFE_INTEGER
    ensures ToDouble(n).Finite? ==> Abs(ToDouble(n).value) > MAX_SAFE_INTEGER
  {
    var a, u := Abs(n), Unit(Abs(n));
    UnitBounds(a);
    RoundedAtLeast(a, u, 4503599627370496);
  }

  /** No other integer is read as the same number. */
  ghost predicate Unmistakable(n: int) {
    forall m: int :: m != n ==> ToDouble(m) != ToDouble(n)
  }

  lemma SafeIsUnmistakable(n: int)
    requires Abs(n) <= MAX_SAFE_INTEGER
    ensures Unmistakable(n)
  {
    SafeIsExact(n);
    forall m: int | m != n ensures ToDouble(m) != ToDouble(n) {
      if Abs(m) <= MAX_SAFE_INTEGER {
        SafeIsExact(m);
      } else {
        UnsafeStaysOutside(m);
      }
    }
  }

  lemma FirstCollision()
    ensures ToDouble(MAX_SAFE_INTEGER + 1) == ToDouble(MAX_SAFE_INTEGER + 2)
  {
    assert Unit(9007199254740992) == 2;
    assert Unit(9007199254740993) == 2;
  }

  /** `MAX_SAFE_INTEGER` is exactly the largest bound under which a reader cannot confuse an
      integer with another: a smaller threshold would convert without need, a larger one would
      let two integers collide. */
  lemma ThresholdIsExact(bound: nat)
    ensures (forall n: int :: Abs(n) <= bound ==> Unmistakable(n)) <==> bound <= MAX_SAFE_INTEGER
  {
    if bound <= MAX_SAFE_INTEGER {
      forall n: int | Abs(n) <= bound ensures Unmistakable(n) {
        SafeIsUnmistakable(n);
      }
    } else {
      FirstCollision();
      assert !Unmistakable(MAX_SAFE_INTEGER + 1);
    }
  }

  /** The double of an integer is a nearest one: no multiple of the unit, hence no double of its size, is nearer. */
  lemma RoundIsNearest(n: nat, u: nat, j: nat)
    requires u >= 1
    ensures Abs(RoundHalfEven(n, u) - n) <= Abs(j * u - n)
  {
    var low, other, chosen := RoundsToNeighbour(n, u, j);
    NearerNeighbour(n, u, low, other, chosen);
  }

  lemma RoundsToNeighbour(n: nat, u: nat, j: nat) returns (low: nat, other: nat, chosen: nat)
    requires u >= 1
    ensures other == j * u && chosen == RoundHalfEven(n, u)
    ensures low <= n < low + u && (other <= low || other >= low + u)
    ensures (chosen == low && 2 * (n - low) <= u) || (chosen == low + u && 2 * (n - low) >= u)
  {
    low, other, chosen := n / u * u, j * u, RoundHalfEven(n, u);
    Quotient(n, u);
    MultipleOutside(n / u, u, j);
  }

  lemma MultipleOutside(q: nat, u: nat, j: nat)
    ensures j * u <= q * u || j * u >= q * u + u
  {
    if j <= q {
      ProductMonotone(j, q, u);
    } else {
      ProductMonotone(q + 1, j, u);
      assert (q + 1) * u == q * u + u;
    }
  }

  lemma Quotient(n: nat, u: nat)
    requires u >= 1
    ensures n == n / u * u + n % u && 0 <= n % u < u && (n / u + 1) * u == n / u * u + u
  {
  }

  lemma NearerNeighbour(n: nat, u: nat, low: nat, other: nat, chosen: nat)
    requires low <= n < low + u && (other <= low || other >= low + u)
    requires (chosen == low && 2 * (n - low) <= u) || (chosen == low + u && 2 * (n - low) >= u)
    ensures Abs(chosen - n) <= Abs(other - n)
  {
  }

  /** Around 2 to the power 53: the even ones are doubles, and an odd one goes to the neighbour with an even half. */
  lemma AroundTheLimit()
    ensures ToDouble(9007199254740991) == Finite(9007199254740991)
    ensures ToDouble(9007199254740992) == ToDouble(9007199254740993) == Finite(9007199254740992)
    ensures ToDouble(9007199254740994) == Finite(9007199254740994)
    ensures ToDouble(9007199254740995) == ToDouble(9007199254740996) == Finite(9007199254740996)
    ensures ToDouble(-9007199254740993) == Finite(-9007199254740992)
  {
    EvenUnit(9007199254740992);
    EvenUnit(9007199254740993);
    EvenUnit(9007199254740994);
    EvenUnit(9007199254740995);
    EvenUnit(9007199254740996);
  }

  lemma EvenUnit(n: nat)
    requires SIGNIFICANDS <= n < 2 * SIGNIFICANDS
    ensures Unit(n) == 2 && Exponent(n) == 1
  {
  }

  /** What becomes of each kind of value, in terms of its parts: nothing is dropped, added or moved. */
  lemma RenderedMeaning(v: Json)
    ensures v.JInt? ==> BigIntSafe(v) == if -9007199254740991 <= v.n <= 9007199254740991 then v else JStr(IntText(v.n))
    ensures v.JNull? || v.JBool? || v.JStr? || v.Other? ==> BigIntSafe(v) == v
    ensures v.JDict? ==>
              var r := BigIntSafe(v);
              && r.JDict? && |r.entries| == |v.entries|
              && forall i :: 0 <= i < |v.entries| ==>
                   r.entries[i].0 == v.entries[i].0 && r.entries[i].1 == BigIntSafe(v.entries[i].1)
    ensures v.JList? || v.JTuple? ==>
              var xs := if v.JList? then v.items else v.elements;
              var r := BigIntSafe(v);
              && r.JList? && |r.items| == |xs|
              && forall i :: 0 <= i < |xs| ==> r.items[i] == BigIntSafe(xs[i])
  {
  }

  // ---------------------------------------------------------------------------------------
  // The whole tree
  // ---------------------------------------------------------------------------------------

  /** Every rendered tree is read exactly as it was sent. */
  lemma {:induction false} RenderedIsReadUnchanged(v: Json)
    ensures JsRead(BigIntSafe(v)) == BigIntSafe(v)
  {
    match v
    case JInt(n) =>
      if Abs(n) <= MAX_SAFE_INTEGER {
        SafeIsExact(n);
      }
    case JDict(es) =>
      forall i | 0 <= i < |es| ensures JsRead(BigIntSafe(es[i].1)) == BigIntSafe(es[i].1) {
        RenderedIsReadUnchanged(es[i].1);
      }
    case JList(xs) =>
      forall i | 0 <= i < |xs| ensures JsRead(BigIntSafe(xs[i])) == BigIntSafe(xs[i]) {
        RenderedIsReadUnchanged(xs[i]);
      }
    case JTuple(xs) =>
      forall i | 0 <= i < |xs| ensures JsRead(BigIntSafe(xs[i])) == BigIntSafe(xs[i]) {
        RenderedIsReadUnchanged(xs[i]);
      }
    case _ =>
  }

  /** Without the conversion a reader gets what was meant only if every integer is a double. */
  lemma {:induction false} UnrenderedIsReadIff(v: Json)
    ensures JsRead(v) == Meant(v) <==> EveryIntIsDouble(v)
  {
    match v
    case JDict(es) =>
      var read, meant := JsRead(v).entries, Meant(v).entries;
      forall i | 0 <= i < |es| ensures read[i] == meant[i] <==> EveryIntIsDouble(es[i].1) {
        UnrenderedIsReadIff(es[i].1);
      }
    case JList(xs) =>
      var read, meant := JsRead(v).items, Meant(v).items;
      forall i | 0 <= i < |xs| ensures read[i] == meant[i] <==> EveryIntIsDouble(xs[i]) {
        UnrenderedIsReadIff(xs[i]);
      }
    case JTuple(xs) =>
      var read, meant := JsRead(v).items, Meant(v).items;
      forall i | 0 <= i < |xs| ensures read[i] == meant[i] <==> EveryIntIsDouble(xs[i]) {
        UnrenderedIsReadIff(xs[i]);
      }
    case _ =>
  }

  /** A reader who turns the spelled-out integers back recovers the whole tree, exactly when no
      string of the original spells such an integer. */
  lemma {:induction false} ReaderRecoversIff(v: Json)
    ensures Restore(JsRead(BigIntSafe(v))) == Meant(v) <==> NoStringSpellsBigInt(v)
  {
    RenderedIsReadUnchanged(v);
    match v
    case JInt(n) => ParseIntOfIntText(n);
    case JDict(es) =>
      var got, meant := Restore(BigIntSafe(v)).entries, Meant(v).entries;
      forall i | 0 <= i < |es| ensures got[i] == meant[i] <==> NoStringSpellsBigInt(es[i].1) {
        ReaderRecoversIff(es[i].1);
        RenderedIsReadUnchanged(es[i].1);
      }
    case JList(xs) =>
      var got, meant := Restore(BigIntSafe(v)).items, Meant(v).items;
      forall i | 0 <= i < |xs| ensures got[i] == meant[i] <==> NoStringSpellsBigInt(xs[i]) {
        ReaderRecoversIff(xs[i]);
        RenderedIsReadUnchanged(xs[i]);
      }
    case JTuple(xs) =>
      var got, meant := Restore(BigIntSafe(v)).items, Meant(v).items;
      forall i | 0 <= i < |xs| ensures got[i] == meant[i] <==> NoStringSpellsBigInt(xs[i]) {
        ReaderRecoversIff(xs[i]);
        RenderedIsReadUnchanged(xs[i]);
      }
    case _ =>
  }

  /** The conversion leaves nothing for a second pass. */
  lemma {:induction false} BigIntSafeIsIdempotent(v: Json)
    ensures BigIntSafe(BigIntSafe(v)) == BigIntSafe(v)
  {
    match v
    case JDict(es) =>
      forall i | 0 <= i < |es| ensures BigIntSafe(BigIntSafe(es[i].1)) == BigIntSafe(es[i].1) {
        BigIntSafeIsIdempotent(es[i].1);
      }
    case JList(xs) =>
      forall i | 0 <= i < |xs| ensures BigIntSafe(BigIntSafe(xs[i])) == BigIntSafe(xs[i]) {
        BigIntSafeIsIdempotent(xs[i]);
      }
    case JTuple(xs) =>
      forall i | 0 <= i < |xs| ensures BigIntSafe(BigIntSafe(xs[i])) == BigIntSafe(xs[i]) {
        BigIntSafeIsIdempotent(xs[i]);
      }
    case _ =>
  }

  predicate EveryIntIsSafe(v: Json) {
    match v
    case JInt(n) => Abs(n) <= MAX_SAFE_INTEGER
    case JDict(es) => forall i :: 0 <= i < |es| ==> EveryIntIsSafe(es[i].1)
    case JList(xs) => forall i :: 0 <= i < |xs| ==> EveryIntIsSafe(xs[i])
    case JTuple(xs) => forall i :: 0 <= i < |xs| ==> EveryIntIsSafe(xs[i])
    case _ => true
  }

  /** The front end's numbers keep their type: a tree is rendered as it is, up to tuples,
      exactly when all its integers are safe. */
  lemma {:induction false} RenderedAsMeantIff(v: Json)
    ensures BigIntSafe(v) == Meant(v) <==> EveryIntIsSafe(v)
  {
    match v
    case JDict(es) =>
      var got, meant := BigIntSafe(v).entries, Meant(v).entries;
      forall i | 0 <= i < |es| ensures got[i] == meant[i] <==> EveryIntIsSafe(es[i].1) {
        RenderedAsMeantIff(es[i].1);
      }
    case JList(xs) =>
      var got, meant := BigIntSafe(v).items, Meant(v).items;
      forall i | 0 <= i < |xs| ensures got[i] == meant[i] <==> EveryIntIsSafe(xs[i]) {
        RenderedAsMeantIff(xs[i]);
      }
    case JTuple(xs) =>
      var got, meant := BigIntSafe(v).items, Meant(v).items;
      forall i | 0 <= i < |xs| ensures got[i] == meant[i] <==> EveryIntIsSafe(xs[i]) {
        RenderedAsMeantIff(xs[i]);
      }
    case _ =>
  }
}
