/** What rewriting a tuple schema to a plain array does to validation. */
module TupleSchema {

  /*
    The keywords mean what JSON Schema Core (draft 2020-12) says: `prefixItems`
    and `items` in sections 10.3.1.1 and 10.3.1.2, `anyOf` in section 10.2.1.2.
  */

  import opened Sequences
  import opened Wrappers

  datatype Json = Scalar(n: int) | Array(elements: seq<Json>) | Object(fields: map<string, Json>)

  /**
    A schema object; `check` names every assertion that has no subschema.
    `prefixItems`, `anyOf` and `allOf` are non-empty where they occur.
  */
  datatype Schema = Schema(
    check: nat, ref: Option<string>, prefix: seq<Schema>, items: Option<Schema>, maxItems: Option<nat>,
    anyOf: seq<Schema>, allOf: seq<Schema>, properties: seq<Property>)

  datatype Property = Property(name: string, schema: Schema)

  type Checks = (nat, Json) -> bool

  /** Validation that follows references to a depth. */
  predicate Valid(checks: Checks, defs: map<string, Schema>, depth: nat, s: Schema, v: Json)
    decreases depth, s, 1
  {
    && checks(s.check, v)
    && ValidRef(checks, defs, depth, s, v)
    && ValidAll(checks, defs, depth, s.allOf, v)
    && (s.anyOf != [] ==> ValidSome(checks, defs, depth, s.anyOf, v))
    && (v.Array? ==> ValidArray(checks, defs, depth, s, v.elements))
    && (v.Object? ==> ValidObject(checks, defs, depth, s.properties, v.fields))
  }

  predicate ValidRef(checks: Checks, defs: map<string, Schema>, depth: nat, s: Schema, v: Json)
    decreases depth, s, 0
  {
    s.ref.Some? && s.ref.value in defs && depth > 0 ==> Valid(checks, defs, depth - 1, defs[s.ref.value], v)
  }

  predicate ValidAll(checks: Checks, defs: map<string, Schema>, depth: nat, ss: seq<Schema>, v: Json)
    decreases depth, ss, 0
  {
    forall i | 0 <= i < |ss| :: Valid(checks, defs, depth, ss[i], v)
  }

  predicate ValidSome(checks: Checks, defs: map<string, Schema>, depth: nat, ss: seq<Schema>, v: Json)
    decreases depth, ss, 0
  {
    exists i | 0 <= i < |ss| :: Valid(checks, defs, depth, ss[i], v)
  }

  predicate ValidObject(checks: Checks, defs: map<string, Schema>, depth: nat, ps: seq<Property>, fields: map<string, Json>)
    decreases depth, ps, 0
  {
    forall i | 0 <= i < |ps| && ps[i].name in fields :: Valid(checks, defs, depth, ps[i].schema, fields[ps[i].name])
  }

  /** Positions by `prefixItems`, and only the elements beyond them by `items`. */
  predicate ValidArray(checks: Checks, defs: map<string, Schema>, depth: nat, s: Schema, vs: seq<Json>)
    decreases depth, s, 0
  {
    && (s.maxItems.Some? ==> |vs| <= s.maxItems.value)
    && (forall i | 0 <= i < |vs| && i < |s.prefix| :: Valid(checks, defs, depth, s.prefix[i], vs[i]))
    && (s.items.Some? ==> forall i | |s.prefix| <= i < |vs| :: Valid(checks, defs, depth, s.items.value, vs[i]))
  }

  // ------------------------------------------------------------------ rewriting

  method DistinctPositions(prefix: seq<Schema>) returns (distinct: seq<Schema>)
    ensures distinct == Dedup(prefix)
  {
    distinct := [];
    for i := 0 to |prefix|
      invariant distinct == Dedup(prefix[..i])
    {
      assert prefix[..i + 1][..i] == prefix[..i];
      if prefix[i] !in distinct {
        distinct := distinct + [prefix[i]];
      }
    }
    assert prefix[..|prefix|] == prefix;
  }

  function Choice(options: seq<Schema>): Schema {
    Schema(0, None, [], None, None, options, [], [])
  }

  /** Rewrite a list; elements stay in place. */
  function InlineAll(ss: seq<Schema>): (rs: seq<Schema>)
    ensures |rs| == |ss|
    decreases ss, 1
  {
    if ss == [] then [] else [Inline(ss[0])] + InlineAll(ss[1..])
  }

  function InlineProperties(ps: seq<Property>): (rs: seq<Property>)
    ensures |rs| == |ps|
    decreases ps, 1
  {
    if ps == [] then [] else [Property(ps[0].name, Inline(ps[0].schema))] + InlineProperties(ps[1..])
  }

  /** The positions whose schema is new, rewritten. */
  function InlineFrom(prefix: seq<Schema>, i: nat): seq<Schema>
    requires i <= |prefix|
    decreases prefix, 0, |prefix| - i
  {
    if i == |prefix| then []
    else if prefix[i] in prefix[..i] then InlineFrom(prefix, i + 1)
    else [Inline(prefix[i])] + InlineFrom(prefix, i + 1)
  }

  lemma {:induction false} InlineAllAppend(ss: seq<Schema>, s: Schema)
    ensures InlineAll(ss + [s]) == InlineAll(ss) + [Inline(s)]
  {
    hide Inline;
    if ss == [] {
      assert [] + [s] == [s] && [s][1..] == [];
    } else {
      assert (ss + [s])[1..] == ss[1..] + [s];
      InlineAllAppend(ss[1..], s);
    }
  }

  /** Rewriting the positions with a new schema is rewriting the distinct position schemas. */
  lemma {:induction false} InlineFromIsDedup(prefix: seq<Schema>, i: nat)
    requires i <= |prefix|
    ensures InlineAll(Dedup(prefix[..i])) + InlineFrom(prefix, i) == InlineAll(Dedup(prefix))
    decreases |prefix| - i
  {
    hide Inline;
    if i == |prefix| {
      assert prefix[..i] == prefix;
    } else {
      InlineFromIsDedup(prefix, i + 1);
      assert prefix[..i + 1][..i] == prefix[..i];
      DedupIs(prefix[..i]);
      if prefix[i] !in prefix[..i] {
        InlineAllAppend(Dedup(prefix[..i]), prefix[i]);
      }
    }
  }

  /** So the schema for all elements is the one distinct position schema, or a choice between them, rewritten. */
  lemma ItemsOfDistinct(s: Schema)
    requires s.prefix != []
    ensures Inline(s).items == Some(ItemSchema(InlineAll(Dedup(s.prefix))))
  {
    InlineFromIsDedup(s.prefix, 0);
    assert s.prefix[..0] == [] && Dedup<Schema>([]) == [] && InlineAll([]) == [];
    assert [] + InlineFrom(s.prefix, 0) == InlineFrom(s.prefix, 0);
  }

  /** The one shared position schema, or a choice between the distinct ones. */
  function ItemSchema(options: seq<Schema>): Schema {
    if |options| == 1 then options[0] else Choice(options)
  }

  /** `prefixItems` gives way to `items`, at every depth. */
  function Inline(s: Schema): Schema
    decreases s, 0
  {
    Schema(s.check, s.ref, [],
           if s.prefix != [] then Some(ItemSchema(InlineFrom(s.prefix, 0)))
           else (match s.items case None => None case Some(item) => Some(Inline(item))),
           s.maxItems, InlineAll(s.anyOf), InlineAll(s.allOf), InlineProperties(s.properties))
  }

  function InlineDefs(defs: map<string, Schema>): map<string, Schema> {
    map name | name in defs :: Inline(defs[name])
  }

  // ------------------------------------------------------------------- loosening

  /** Every tuple schema bounds its arrays by its own length. */
  predicate Bounded(s: Schema)
    decreases s, 1
  {
    && (s.prefix != [] ==> s.maxItems.Some? && s.maxItems.value <= |s.prefix|)
    && EachBounded(s.prefix) && EachBounded(s.anyOf) && EachBounded(s.allOf)
    && (s.items.Some? ==> Bounded(s.items.value))
    && forall i | 0 <= i < |s.properties| :: Bounded(s.properties[i].schema)
  }

  predicate EachBounded(ss: seq<Schema>)
    decreases ss, 0
  {
    forall i | 0 <= i < |ss| :: Bounded(ss[i])
  }

  predicate AllBounded(defs: map<string, Schema>) {
    forall name | name in defs :: Bounded(defs[name])
  }

  lemma {:induction false} InlineAllAt(ss: seq<Schema>)
    ensures forall i | 0 <= i < |ss| :: InlineAll(ss)[i] == Inline(ss[i])
  {
    hide Inline;
    if ss != [] {
      InlineAllAt(ss[1..]);
    }
  }

  lemma {:induction false} InlinePropertiesAt(ps: seq<Property>)
    ensures forall i | 0 <= i < |ps| :: InlineProperties(ps)[i] == Property(ps[i].name, Inline(ps[i].schema))
  {
    hide Inline;
    if ps != [] {
      InlinePropertiesAt(ps[1..]);
    }
  }

  /** Each position's rewritten schema is among the options. */
  lemma {:induction false} PositionIsOption(prefix: seq<Schema>, i: nat, k: nat)
    requires i <= |prefix| && i <= k < |prefix| && prefix[k] !in prefix[..i]
    ensures Inline(prefix[k]) in InlineFrom(prefix, i)
    decreases |prefix| - i
  {
    hide Inline;
    if prefix[i] != prefix[k] {
      assert prefix[..i + 1] == prefix[..i] + [prefix[i]];
      PositionIsOption(prefix, i + 1, k);
    }
  }

  lemma OptionValid(checks: Checks, defs: map<string, Schema>, depth: nat, options: seq<Schema>, o: Schema, v: Json)
    requires o in options && Valid(checks, defs, depth, o, v) && forall x :: checks(0, x)
    ensures Valid(checks, defs, depth, ItemSchema(options), v)
  {
    var k :| 0 <= k < |options| && options[k] == o;
    if |options| != 1 {
      var c := Choice(options);
      assert ValidSome(checks, defs, depth, options, v);
      assert ValidRef(checks, defs, depth, c, v) && ValidAll(checks, defs, depth, c.allOf, v);
      assert v.Array? ==> ValidArray(checks, defs, depth, c, v.elements);
      assert v.Object? ==> ValidObject(checks, defs, depth, c.properties, v.fields);
    }
  }

  ghost predicate Unchecked(checks: Checks) {
    forall x :: checks(0, x)
  }

  /** Whatever the schema accepts, the rewritten one accepts: check 0 is no check. */
  lemma {:induction false} InlineLoosens(checks: Checks, defs: map<string, Schema>, depth: nat, s: Schema, v: Json)
    requires Unchecked(checks) && Bounded(s) && AllBounded(defs) && Valid(checks, defs, depth, s, v)
    ensures Valid(checks, InlineDefs(defs), depth, Inline(s), v)
    decreases depth, s, 2
  {
    hide ValidRef, ValidAll, ValidSome, ValidArray, ValidObject, InlineAll, InlineProperties, EachBounded, Unchecked, AllBounded;
    InlineLoosensRef(checks, defs, depth, s, v);
    InlineLoosensAll(checks, defs, depth, s.allOf, v);
    if s.anyOf != [] {
      InlineLoosensSome(checks, defs, depth, s.anyOf, v);
    } else {
      assert InlineAll(s.anyOf) == [];
    }
    if v.Array? {
      InlineLoosensArray(checks, defs, depth, s, v.elements);
    }
    if v.Object? {
      InlineLoosensObject(checks, defs, depth, s.properties, v.fields);
    }
  }

  lemma {:induction false} InlineLoosensRef(checks: Checks, defs: map<string, Schema>, depth: nat, s: Schema, v: Json)
    requires Unchecked(checks) && AllBounded(defs) && ValidRef(checks, defs, depth, s, v)
    ensures ValidRef(checks, InlineDefs(defs), depth, Inline(s), v)
    decreases depth, s, 0
  {
    hide Valid, Bounded;
    if s.ref.Some? && s.ref.value in defs && depth > 0 {
      InlineLoosens(checks, defs, depth - 1, defs[s.ref.value], v);
    }
  }

  lemma {:induction false} InlineLoosensAll(checks: Checks, defs: map<string, Schema>, depth: nat, ss: seq<Schema>, v: Json)
    requires Unchecked(checks) && EachBounded(ss) && AllBounded(defs) && ValidAll(checks, defs, depth, ss, v)
    ensures ValidAll(checks, InlineDefs(defs), depth, InlineAll(ss), v)
    decreases depth, ss, 0
  {
    hide Valid, Bounded, Inline;
    InlineAllAt(ss);
    forall i | 0 <= i < |ss| ensures Valid(checks, InlineDefs(defs), depth, InlineAll(ss)[i], v) {
      InlineLoosens(checks, defs, depth, ss[i], v);
    }
  }

  lemma {:induction false} InlineLoosensSome(checks: Checks, defs: map<string, Schema>, depth: nat, ss: seq<Schema>, v: Json)
    requires Unchecked(checks) && EachBounded(ss) && AllBounded(defs) && ValidSome(checks, defs, depth, ss, v)
    ensures ValidSome(checks, InlineDefs(defs), depth, InlineAll(ss), v)
    decreases depth, ss, 0
  {
    hide Valid, Bounded, Inline;
    InlineAllAt(ss);
    var i :| 0 <= i < |ss| && Valid(checks, defs, depth, ss[i], v);
    InlineLoosens(checks, defs, depth, ss[i], v);
    assert Valid(checks, InlineDefs(defs), depth, InlineAll(ss)[i], v);
  }

  lemma {:induction false} InlineLoosensObject(checks: Checks, defs: map<string, Schema>, depth: nat, ps: seq<Property>, fields: map<string, Json>)
    requires Unchecked(checks) && AllBounded(defs) && ValidObject(checks, defs, depth, ps, fields)
    requires forall i | 0 <= i < |ps| :: Bounded(ps[i].schema)
    ensures ValidObject(checks, InlineDefs(defs), depth, InlineProperties(ps), fields)
    decreases depth, ps, 0
  {
    hide Valid, Bounded, Inline;
    InlinePropertiesAt(ps);
    forall i | 0 <= i < |ps| && ps[i].name in fields
      ensures Valid(checks, InlineDefs(defs), depth, Inline(ps[i].schema), fields[ps[i].name])
    {
      InlineLoosens(checks, defs, depth, ps[i].schema, fields[ps[i].name]);
    }
  }

  lemma {:induction false} InlineLoosensArray(checks: Checks, defs: map<string, Schema>, depth: nat, s: Schema, vs: seq<Json>)
    requires Unchecked(checks) && Bounded(s) && AllBounded(defs) && ValidArray(checks, defs, depth, s, vs)
    ensures ValidArray(checks, InlineDefs(defs), depth, Inline(s), vs)
    decreases depth, s, 0
  {
    hide Valid, InlineAll, InlineProperties, InlineFrom, ItemSchema;
    var after := InlineDefs(defs);
    if s.prefix != [] {
      forall i | 0 <= i < |vs| ensures Valid(checks, after, depth, Inline(s).items.value, vs[i]) {
        var p := s.prefix[i];
        assert p in s.prefix;
        InlineLoosens(checks, defs, depth, p, vs[i]);
        PositionIsOption(s.prefix, 0, i);
        OptionValid(checks, after, depth, InlineFrom(s.prefix, 0), Inline(p), vs[i]);
      }
    } else if s.items.Some? {
      forall i | 0 <= i < |vs| ensures Valid(checks, after, depth, Inline(s.items.value), vs[i]) {
        InlineLoosens(checks, defs, depth, s.items.value, vs[i]);
      }
    }
  }

  /** Without the bound the rewrite can tighten: elements past the tuple were free and are not any more. */
  lemma UnboundedTightens()
    ensures var small := Schema(1, None, [], None, None, [], [], []);
            var pair := Schema(0, None, [small], None, None, [], [], []);
            var checks: Checks := (c, v) => c == 0 || v == Scalar(0);
            var long := Array([Scalar(0), Scalar(1)]);
            Valid(checks, map[], 0, pair, long) && !Valid(checks, map[], 0, Inline(pair), long)
  {
    var small := Schema(1, None, [], None, None, [], [], []);
    var pair := Schema(0, None, [small], None, None, [], [], []);
    var checks: Checks := (c, v) => c == 0 || v == Scalar(0);
    var long := Array([Scalar(0), Scalar(1)]);
    assert InlineFrom([small], 1) == [] && InlineFrom([small], 0) == [Inline(small)];
    assert Inline(small).check == 1;
    var item := Inline(pair).items.value;
    assert item.check == 1 && !Valid(checks, map[], 0, item, long.elements[1]);
    assert !ValidArray(checks, map[], 0, Inline(pair), long.elements);
    assert ValidArray(checks, map[], 0, pair, long.elements);
  }
}
