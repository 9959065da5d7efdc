/** What a schema accepts once its tuples are rewritten, exactly. */
module TupleMeaning {

  import opened Wrappers
  import opened TupleSchema

  /** Validation in which an element of a tuple may be of any of its positions. */
  predicate Loose(checks: Checks, defs: map<string, Schema>, depth: nat, s: Schema, v: Json)
    decreases depth, s, 1
  {
    && checks(s.check, v) && LooseRef(checks, defs, depth, s, v)
    && (forall i | 0 <= i < |s.allOf| :: Loose(checks, defs, depth, s.allOf[i], v))
    && (s.anyOf != [] ==> LooseSome(checks, defs, depth, s.anyOf, v))
    && (v.Array? ==> LooseArray(checks, defs, depth, s, v.elements))
    && (v.Object? ==> LooseObject(checks, defs, depth, s.properties, v.fields))
  }

  predicate LooseRef(checks: Checks, defs: map<string, Schema>, depth: nat, s: Schema, v: Json)
    decreases depth, s, 0
  {
    s.ref.Some? && s.ref.value in defs && depth > 0 ==> Loose(checks, defs, depth - 1, defs[s.ref.value], v)
  }

  predicate LooseSome(checks: Checks, defs: map<string, Schema>, depth: nat, ss: seq<Schema>, v: Json)
    decreases depth, ss, 0
  {
    exists i | 0 <= i < |ss| :: Loose(checks, defs, depth, ss[i], v)
  }

  predicate LooseObject(checks: Checks, defs: map<string, Schema>, depth: nat, ps: seq<Property>, fields: map<string, Json>)
    decreases depth, ps, 0
  {
    forall i | 0 <= i < |ps| && ps[i].name in fields :: Loose(checks, defs, depth, ps[i].schema, fields[ps[i].name])
  }

  /** Every element is of some position of a tuple; otherwise `items` applies. */
  predicate LooseArray(checks: Checks, defs: map<string, Schema>, depth: nat, s: Schema, vs: seq<Json>)
    decreases depth, s, 0
  {
    && (s.maxItems.Some? ==> |vs| <= s.maxItems.value)
    && (s.prefix != [] ==> forall i | 0 <= i < |vs| :: LooseSome(checks, defs, depth, s.prefix, vs[i]))
    && (s.prefix == [] && s.items.Some? ==> forall i | 0 <= i < |vs| :: Loose(checks, defs, depth, s.items.value, vs[i]))
  }

  // ------------------------------------------------------------------- options

  lemma {:induction false} OptionsArePositions(prefix: seq<Schema>, i: nat)
    requires i <= |prefix|
    ensures forall o | o in InlineFrom(prefix, i) :: exists k :: 0 <= k < |prefix| && o == Inline(prefix[k])
    decreases |prefix| - i
  {
    hide Inline;
    if i < |prefix| {
      OptionsArePositions(prefix, i + 1);
    }
  }

  /** One schema for all elements accepts what one of its options accepts. */
  lemma ItemAccepts(checks: Checks, defs: map<string, Schema>, depth: nat, options: seq<Schema>, v: Json)
    requires Unchecked(checks) && options != []
    ensures Valid(checks, defs, depth, ItemSchema(options), v) <==> exists o :: o in options && Valid(checks, defs, depth, o, v)
  {
    if o :| o in options && Valid(checks, defs, depth, o, v) {
      OptionValid(checks, defs, depth, options, o, v);
    }
    if Valid(checks, defs, depth, ItemSchema(options), v) {
      if |options| == 1 {
        assert options[0] in options;
      } else {
        assert ValidSome(checks, defs, depth, options, v);
        var i :| 0 <= i < |options| && Valid(checks, defs, depth, options[i], v);
        assert options[i] in options;
      }
    }
  }

  lemma NoOptionsIff(prefix: seq<Schema>)
    ensures InlineFrom(prefix, 0) == [] <==> prefix == []
  {
  }

  // ----------------------------------------------------------------- the rewrite

  /** What the rewritten schema accepts is exactly what the schema accepts loosely, with or without bounds. */
  lemma {:induction false} InlineIsLoose(checks: Checks, defs: map<string, Schema>, depth: nat, s: Schema, v: Json)
    requires Unchecked(checks)
    ensures Valid(checks, InlineDefs(defs), depth, Inline(s), v) <==> Loose(checks, defs, depth, s, v)
    decreases depth, s, 2
  {
    hide ValidRef, ValidAll, ValidSome, ValidArray, ValidObject, LooseRef, LooseSome, LooseArray, LooseObject, InlineAll, InlineProperties, Unchecked, ItemSchema, InlineFrom;
    RefIsLoose(checks, defs, depth, s, v);
    AllAreLoose(checks, defs, depth, s.allOf, v);
    SomeIsLoose(checks, defs, depth, s.anyOf, v);
    assert |InlineAll(s.anyOf)| == |s.anyOf|;
    if v.Array? {
      ArrayIsLoose(checks, defs, depth, s, v.elements);
    }
    if v.Object? {
      ObjectIsLoose(checks, defs, depth, s.properties, v.fields);
    }
  }

  lemma {:induction false} RefIsLoose(checks: Checks, defs: map<string, Schema>, depth: nat, s: Schema, v: Json)
    requires Unchecked(checks)
    ensures ValidRef(checks, InlineDefs(defs), depth, Inline(s), v) <==> LooseRef(checks, defs, depth, s, v)
    decreases depth, s, 0
  {
    hide Valid, Loose;
    if s.ref.Some? && s.ref.value in defs && depth > 0 {
      InlineIsLoose(checks, defs, depth - 1, defs[s.ref.value], v);
    }
  }

  lemma {:induction false} AllAreLoose(checks: Checks, defs: map<string, Schema>, depth: nat, ss: seq<Schema>, v: Json)
    requires Unchecked(checks)
    ensures ValidAll(checks, InlineDefs(defs), depth, InlineAll(ss), v) <==> forall i | 0 <= i < |ss| :: Loose(checks, defs, depth, ss[i], v)
    decreases depth, ss, 0
  {
    hide Valid, Loose, Inline;
    InlineAllAt(ss);
    forall i | 0 <= i < |ss| ensures Valid(checks, InlineDefs(defs), depth, InlineAll(ss)[i], v) <==> Loose(checks, defs, depth, ss[i], v) {
      InlineIsLoose(checks, defs, depth, ss[i], v);
    }
  }

  lemma {:induction false} SomeIsLoose(checks: Checks, defs: map<string, Schema>, depth: nat, ss: seq<Schema>, v: Json)
    requires Unchecked(checks)
    ensures ValidSome(checks, InlineDefs(defs), depth, InlineAll(ss), v) <==> LooseSome(checks, defs, depth, ss, v)
    decreases depth, ss, 0
  {
    hide Valid, Loose, Inline;
    InlineAllAt(ss);
    forall i | 0 <= i < |ss| ensures Valid(checks, InlineDefs(defs), depth, InlineAll(ss)[i], v) <==> Loose(checks, defs, depth, ss[i], v) {
      InlineIsLoose(checks, defs, depth, ss[i], v);
    }
  }

  lemma {:induction false} ObjectIsLoose(checks: Checks, defs: map<string, Schema>, depth: nat, ps: seq<Property>, fields: map<string, Json>)
    requires Unchecked(checks)
    ensures ValidObject(checks, InlineDefs(defs), depth, InlineProperties(ps), fields) <==> LooseObject(checks, defs, depth, ps, fields)
    decreases depth, ps, 0
  {
    hide Valid, Loose, Inline;
    InlinePropertiesAt(ps);
    forall i | 0 <= i < |ps| && ps[i].name in fields
      ensures Valid(checks, InlineDefs(defs), depth, InlineProperties(ps)[i].schema, fields[ps[i].name]) <==>
              Loose(checks, defs, depth, ps[i].schema, fields[ps[i].name])
    {
      InlineIsLoose(checks, defs, depth, ps[i].schema, fields[ps[i].name]);
    }
  }

  lemma {:induction false} ItemIsLoose(checks: Checks, defs: map<string, Schema>, depth: nat, prefix: seq<Schema>, v: Json)
    requires Unchecked(checks) && prefix != []
    ensures Valid(checks, InlineDefs(defs), depth, ItemSchema(InlineFrom(prefix, 0)), v) <==> LooseSome(checks, defs, depth, prefix, v)
    decreases depth, prefix, 0
  {
    hide Valid, Loose, Inline, ItemSchema, InlineFrom;
    var options := InlineFrom(prefix, 0);
    NoOptionsIff(prefix);
    ItemAccepts(checks, InlineDefs(defs), depth, options, v);
    OptionsArePositions(prefix, 0);
    forall k | 0 <= k < |prefix|
      ensures Inline(prefix[k]) in options && (Valid(checks, InlineDefs(defs), depth, Inline(prefix[k]), v) <==> Loose(checks, defs, depth, prefix[k], v))
    {
      PositionIsOption(prefix, 0, k);
      InlineIsLoose(checks, defs, depth, prefix[k], v);
    }
  }

  lemma {:induction false} ArrayIsLoose(checks: Checks, defs: map<string, Schema>, depth: nat, s: Schema, vs: seq<Json>)
    requires Unchecked(checks)
    ensures ValidArray(checks, InlineDefs(defs), depth, Inline(s), vs) <==> LooseArray(checks, defs, depth, s, vs)
    decreases depth, s, 0
  {
    hide Valid, Loose, LooseSome, InlineAll, InlineProperties, InlineFrom, ItemSchema;
    forall i | 0 <= i < |vs| && s.prefix != []
      ensures Valid(checks, InlineDefs(defs), depth, ItemSchema(InlineFrom(s.prefix, 0)), vs[i]) <==> LooseSome(checks, defs, depth, s.prefix, vs[i])
    {
      ItemIsLoose(checks, defs, depth, s.prefix, vs[i]);
    }
    forall i | 0 <= i < |vs| && s.prefix == [] && s.items.Some?
      ensures Valid(checks, InlineDefs(defs), depth, Inline(s.items.value), vs[i]) <==> Loose(checks, defs, depth, s.items.value, vs[i])
    {
      InlineIsLoose(checks, defs, depth, s.items.value, vs[i]);
    }
  }
}
