/**
 * Properties of the attribute walk shared by both walkers: which keys the
 * output has, where its values come from, and when it fails.
 */
module WalkProperties {
  import opened AtlasModel
  import opened StructFormatConverter
  import KeyOrder

  /**
   * The walk from any point fails exactly when a pending known key's
   * conversion fails, and then with that conversion's error.
   */
  lemma {:induction false} WalkFailure<C>(d: Direction, st: AtlasStructType, attributes: Attributes,
                                          pending: set<string>, acc: Attributes, registry: Registry<C>, ctx: C)
    ensures var r := WalkKeys(d, st, attributes, pending, acc, registry, ctx);
      && (r.Failure? <==> exists k :: k in pending && k in st.attributes
                                      && Converted(d, st, attributes, k, registry, ctx).Failure?)
      && (r.Failure? ==> exists k :: k in pending && k in st.attributes
                                      && Converted(d, st, attributes, k, registry, ctx) == Failure(r.error))
    decreases pending
  {
    if pending != {} {
      var k := KeyOrder.Least(pending);
      var rest := pending - {k};
      if k !in st.attributes {
        WalkFailure(d, st, attributes, rest, acc, registry, ctx);
      } else if Converted(d, st, attributes, k, registry, ctx).Success? {
        var acc' := acc[TargetName(d, st.attributes[k]) := Converted(d, st, attributes, k, registry, ctx).value];
        WalkFailure(d, st, attributes, rest, acc', registry, ctx);
      }
    }
  }

  /** A successful walk adds to `acc` the target name of every pending known key, and nothing else. */
  lemma {:induction false} WalkKeySet<C>(d: Direction, st: AtlasStructType, attributes: Attributes,
                                         pending: set<string>, acc: Attributes, registry: Registry<C>, ctx: C)
    ensures var r := WalkKeys(d, st, attributes, pending, acc, registry, ctx);
      r.Success? ==> r.value.Keys == acc.Keys + Targets(d, st, pending)
    decreases pending
  {
    if pending != {} {
      var k := KeyOrder.Least(pending);
      var rest := pending - {k};
      if k !in st.attributes {
        WalkKeySet(d, st, attributes, rest, acc, registry, ctx);
        assert Targets(d, st, pending) == Targets(d, st, rest);
      } else if Converted(d, st, attributes, k, registry, ctx).Success? {
        var t := TargetName(d, st.attributes[k]);
        var acc' := acc[t := Converted(d, st, attributes, k, registry, ctx).value];
        WalkKeySet(d, st, attributes, rest, acc', registry, ctx);
        assert Targets(d, st, pending) == Targets(d, st, rest) + {t};
      }
    }
  }

  /** In a successful walk, a value not kept from `acc` is one that a pending known key converted to. */
  lemma {:induction false} WalkValues<C>(d: Direction, st: AtlasStructType, attributes: Attributes,
                                         pending: set<string>, acc: Attributes, registry: Registry<C>, ctx: C)
    ensures var r := WalkKeys(d, st, attributes, pending, acc, registry, ctx);
      r.Success? ==> forall o :: o in r.value ==>
        (o in acc && r.value[o] == acc[o])
        || exists k :: k in pending && k in st.attributes && TargetName(d, st.attributes[k]) == o
                       && Converted(d, st, attributes, k, registry, ctx) == Success(r.value[o])
    decreases pending
  {
    if pending != {} {
      var k := KeyOrder.Least(pending);
      var rest := pending - {k};
      if k !in st.attributes {
        WalkValues(d, st, attributes, rest, acc, registry, ctx);
      } else if Converted(d, st, attributes, k, registry, ctx).Success? {
        var acc' := acc[TargetName(d, st.attributes[k]) := Converted(d, st, attributes, k, registry, ctx).value];
        WalkValues(d, st, attributes, rest, acc', registry, ctx);
      }
    }
  }

  /**
   * Every key of a walker's output is the target name of an attribute the
   * struct type resolved for some input key, and every input key it resolves
   * has its target name in the output: keys outside the schema never appear.
   */
  lemma OutputKeysAreResolvedAttributes<C>(d: Direction, st: AtlasStructType, attributes: Option<Attributes>,
                                           registry: Registry<C>, ctx: C)
    ensures var r := ConvertAttributes(d, st, attributes, registry, ctx);
      r.Success? && r.value.Some? ==>
        && IsNotEmpty(attributes)
        && r.value.value.Keys == Targets(d, st, attributes.value.Keys)
        && forall o :: o in r.value.value ==>
             exists k :: k in attributes.value && k in st.attributes && TargetName(d, st.attributes[k]) == o
  {
    if IsNotEmpty(attributes) {
      WalkKeySet(d, st, attributes.value, attributes.value.Keys, map[], registry, ctx);
    }
  }

  /**
   * A non-empty input whose keys the struct type does not know gives a new,
   * empty map, not null, and no error.
   */
  lemma UnknownKeysOnlyGiveEmptyMap<C>(d: Direction, st: AtlasStructType, attributes: Attributes,
                                       registry: Registry<C>, ctx: C)
    requires attributes != map[]
    requires forall k :: k in attributes ==> k !in st.attributes
    ensures ConvertAttributes(d, st, Some(attributes), registry, ctx) == Success(Some(map[]))
  {
    WalkFailure(d, st, attributes, attributes.Keys, map[], registry, ctx);
    WalkKeySet(d, st, attributes, attributes.Keys, map[], registry, ctx);
    assert Targets(d, st, attributes.Keys) == {};
  }

  /**
   * Each value of a walker's output is exactly what the converter of its
   * attribute's category returned for the value stored under the
   * attribute's name.
   */
  lemma OutputValuesComeFromConverters<C>(d: Direction, st: AtlasStructType, attributes: Option<Attributes>,
                                          registry: Registry<C>, ctx: C)
    ensures var r := ConvertAttributes(d, st, attributes, registry, ctx);
      r.Success? && r.value.Some? ==>
        forall o :: o in r.value.value ==>
          exists k :: k in attributes.value && k in st.attributes && TargetName(d, st.attributes[k]) == o
                      && ConvertValue(d, registry, st.attributes[k], Get(attributes.value, st.attributes[k].name), ctx)
                         == Success(r.value.value[o])
  {
    if IsNotEmpty(attributes) {
      WalkValues(d, st, attributes.value, attributes.value.Keys, map[], registry, ctx);
    }
  }

  /**
   * A walker fails exactly when the converter fails for some input key the
   * struct type knows, and then with that converter's error, unchanged.
   */
  lemma FailsIffAConverterFails<C>(d: Direction, st: AtlasStructType, attributes: Attributes,
                                   registry: Registry<C>, ctx: C)
    ensures var r := ConvertAttributes(d, st, Some(attributes), registry, ctx);
      && (r.Failure? <==> exists k :: k in attributes && k in st.attributes
                                      && Converted(d, st, attributes, k, registry, ctx).Failure?)
      && (r.Failure? ==> exists k :: k in attributes && k in st.attributes
                                      && Converted(d, st, attributes, k, registry, ctx) == Failure(r.error))
  {
    if attributes != map[] {
      WalkFailure(d, st, attributes, attributes.Keys, map[], registry, ctx);
    }
  }

  /**
   * A struct type whose attributes are registered under their own name, with
   * a definition of the same name (getAttribute(n).getName() == n).
   */
  predicate Consistent(st: AtlasStructType)
  {
    forall k :: k in st.attributes ==> st.attributes[k].name == k && st.attributes[k].defName == k
  }

  /**
   * On a consistent struct type the walk converts exactly the known input
   * keys, each under its own name, and fails exactly when one of them does.
   */
  lemma ConsistentTypeConvertsKnownKeys<C>(d: Direction, st: AtlasStructType, attributes: Attributes,
                                           registry: Registry<C>, ctx: C)
    requires Consistent(st)
    requires attributes != map[]
    ensures var r := ConvertAttributes(d, st, Some(attributes), registry, ctx);
      && (r.Failure? <==> exists k :: k in attributes && k in st.attributes
                                      && ConvertValue(d, registry, st.attributes[k], attributes[k], ctx).Failure?)
      && (r.Success? ==> r.value.Some? && r.value.value.Keys == attributes.Keys * st.attributes.Keys)
      && (r.Success? ==> forall k :: k in r.value.value ==>
            ConvertValue(d, registry, st.attributes[k], attributes[k], ctx) == Success(r.value.value[k]))
  {
    var r := ConvertAttributes(d, st, Some(attributes), registry, ctx);
    WalkFailure(d, st, attributes, attributes.Keys, map[], registry, ctx);
    WalkKeySet(d, st, attributes, attributes.Keys, map[], registry, ctx);
    WalkValues(d, st, attributes, attributes.Keys, map[], registry, ctx);
    assert Targets(d, st, attributes.Keys) == attributes.Keys * st.attributes.Keys;
    forall k | k in attributes && k in st.attributes
      ensures Converted(d, st, attributes, k, registry, ctx)
           == ConvertValue(d, registry, st.attributes[k], attributes[k], ctx)
    {
    }
  }

  function Opposite(d: Direction): Direction
  {
    if d == V1ToV2 then V2ToV1 else V1ToV2
  }

  /**
   * For every input key, converting its value in direction `d` and converting
   * the outcome back gives the value again.
   */
  predicate InverseOn<C>(d: Direction, st: AtlasStructType, attributes: Attributes, registry: Registry<C>, ctx: C)
  {
    forall k :: k in attributes && k in st.attributes ==>
      var there := ConvertValue(d, registry, st.attributes[k], attributes[k], ctx);
      there.Success? ==> ConvertValue(Opposite(d), registry, st.attributes[k], there.value, ctx) == Success(attributes[k])
  }

  /**
   * On a consistent struct type that knows every input key, walking there and
   * back gives the input map again when the category converters are inverse
   * on its values.
   */
  lemma WalkRoundTrip<C>(d: Direction, st: AtlasStructType, attributes: Attributes, registry: Registry<C>, ctx: C)
    requires Consistent(st)
    requires attributes != map[]
    requires attributes.Keys <= st.attributes.Keys
    requires InverseOn(d, st, attributes, registry, ctx)
    ensures var r := ConvertAttributes(d, st, Some(attributes), registry, ctx);
      r.Success? ==> ConvertAttributes(Opposite(d), st, r.value, registry, ctx) == Success(Some(attributes))
  {
    var r := ConvertAttributes(d, st, Some(attributes), registry, ctx);
    ConsistentTypeConvertsKnownKeys(d, st, attributes, registry, ctx);
    if r.Success? {
      var there := r.value.value;
      assert there.Keys == attributes.Keys;
      assert there != map[] by {
        var k :| k in attributes;
        assert k in there;
      }
      ConsistentTypeConvertsKnownKeys(Opposite(d), st, there, registry, ctx);
      var back := ConvertAttributes(Opposite(d), st, Some(there), registry, ctx);
      assert back.Success? by {
        forall k | k in there && k in st.attributes
          ensures ConvertValue(Opposite(d), registry, st.attributes[k], there[k], ctx) == Success(attributes[k])
        {
          assert ConvertValue(d, registry, st.attributes[k], attributes[k], ctx) == Success(there[k]);
        }
      }
      var m := back.value.value;
      assert m.Keys == attributes.Keys;
      forall k | k in m ensures m[k] == attributes[k] {
        assert ConvertValue(d, registry, st.attributes[k], attributes[k], ctx) == Success(there[k]);
      }
      assert m == attributes;
    }
  }
}
