/**
 * Properties of the two top-level conversions: how each direction finds the
 * attribute source, that outputs stay inside the schema, where errors come
 * from, and when converting there and back is the identity.
 */
module ConversionProperties {
  import opened AtlasModel
  import opened StructFormatConverter
  import opened WalkProperties

  /**
   * A V1 map is read only through its "attributes" entry: its other keys are
   * ignored, an absent, null or empty entry gives a struct without
   * attributes, a nested map converts like an `IStruct` holding that map, and
   * any other entry fails the `(Map)` cast.
   */
  lemma V1MapReadsOnlyReservedKey<C>(m: Attributes, legacyName: string, st: AtlasStructType,
                                     registry: Registry<C>, ctx: C)
    ensures var r := FromV1ToV2(Mapping(m), st, registry, ctx);
      && (ATTRIBUTES_PROPERTY_KEY !in m ==> r == Success(AtlasStruct(st.typeName, None)))
      && (ATTRIBUTES_PROPERTY_KEY in m ==>
            r == FromV1ToV2(Mapping(map[ATTRIBUTES_PROPERTY_KEY := m[ATTRIBUTES_PROPERTY_KEY]]), st, registry, ctx))
      && (ATTRIBUTES_PROPERTY_KEY in m && m[ATTRIBUTES_PROPERTY_KEY] in {Null, Mapping(map[])} ==>
            r == Success(AtlasStruct(st.typeName, None)))
      && (ATTRIBUTES_PROPERTY_KEY in m && m[ATTRIBUTES_PROPERTY_KEY].Mapping? ==>
            r == FromV1ToV2(IStruct(legacyName, Returns(Some(m[ATTRIBUTES_PROPERTY_KEY].entries))), st, registry, ctx))
      && (ATTRIBUTES_PROPERTY_KEY in m && !(m[ATTRIBUTES_PROPERTY_KEY].Null? || m[ATTRIBUTES_PROPERTY_KEY].Mapping?) ==>
            r == Failure(ClassCast(ClassName(m[ATTRIBUTES_PROPERTY_KEY]))))
  {
  }

  /**
   * A V2 map with an "attributes" entry is read through that entry; one
   * without it is itself the attribute source, exactly as if it were the
   * attribute map of an `AtlasStruct`.
   */
  lemma V2MapAttributeSource<C>(m: Attributes, v2Name: string, st: AtlasStructType, registry: Registry<C>, ctx: C)
    ensures var r := FromV2ToV1(Mapping(m), st, registry, ctx);
      && (ATTRIBUTES_PROPERTY_KEY !in m ==> r == FromV2ToV1(AtlasStruct(v2Name, Some(m)), st, registry, ctx))
      && (ATTRIBUTES_PROPERTY_KEY in m && m[ATTRIBUTES_PROPERTY_KEY].Mapping? ==>
            r == FromV2ToV1(AtlasStruct(v2Name, Some(m[ATTRIBUTES_PROPERTY_KEY].entries)), st, registry, ctx))
      && (ATTRIBUTES_PROPERTY_KEY in m && m[ATTRIBUTES_PROPERTY_KEY].Null? ==>
            r == Success(IStruct(st.typeName, Returns(None))))
      && (ATTRIBUTES_PROPERTY_KEY in m && !(m[ATTRIBUTES_PROPERTY_KEY].Null? || m[ATTRIBUTES_PROPERTY_KEY].Mapping?) ==>
            r == Failure(ClassCast(ClassName(m[ATTRIBUTES_PROPERTY_KEY]))))
  {
  }

  /**
   * The same bare map (no "attributes" key) read as V1 gives a struct with no
   * attributes, read as V2 gives one whose attributes are those of its keys
   * the struct type knows.
   */
  lemma ReservedKeyAsymmetry<C>(m: Attributes, st: AtlasStructType, registry: Registry<C>, ctx: C)
    requires m != map[]
    requires ATTRIBUTES_PROPERTY_KEY !in m
    ensures FromV1ToV2(Mapping(m), st, registry, ctx) == Success(AtlasStruct(st.typeName, None))
    ensures var r := FromV2ToV1(Mapping(m), st, registry, ctx);
      r.Success? ==> r.value.valuesMap.values.Some? && r.value.valuesMap.values.value.Keys == Targets(V2ToV1, st, m.Keys)
  {
    OutputKeysAreResolvedAttributes(V2ToV1, st, Some(m), registry, ctx);
  }

  /** Every attribute of a converted `AtlasStruct` is the definition name of an attribute of the struct type. */
  lemma V2OutputStaysInSchema<C>(v1Obj: Value, st: AtlasStructType, registry: Registry<C>, ctx: C)
    ensures var r := FromV1ToV2(v1Obj, st, registry, ctx);
      r.Success? && r.value.AtlasStruct? && r.value.attributes.Some? ==>
        forall o :: o in r.value.attributes.value ==>
          exists k :: k in st.attributes && st.attributes[k].defName == o
  {
    match v1Obj
    case Mapping(v1Map) =>
      var entry := CastToMap(Get(v1Map, ATTRIBUTES_PROPERTY_KEY));
      if entry.Success? {
        OutputKeysAreResolvedAttributes(V1ToV2, st, entry.value, registry, ctx);
      }
    case IStruct(_, valuesMap) =>
      OutputKeysAreResolvedAttributes(V1ToV2, st, if valuesMap.Returns? then valuesMap.values else None, registry, ctx);
    case _ =>
  }

  /** Every attribute of a converted legacy `Struct` is the name of an attribute of the struct type. */
  lemma V1OutputStaysInSchema<C>(v2Obj: Value, st: AtlasStructType, registry: Registry<C>, ctx: C)
    ensures var r := FromV2ToV1(v2Obj, st, registry, ctx);
      r.Success? && r.value.IStruct? && r.value.valuesMap.Returns? && r.value.valuesMap.values.Some? ==>
        forall o :: o in r.value.valuesMap.values.value ==>
          exists k :: k in st.attributes && st.attributes[k].name == o
  {
    match v2Obj
    case Mapping(v2Map) =>
      var entry := if ATTRIBUTES_PROPERTY_KEY in v2Map then CastToMap(v2Map[ATTRIBUTES_PROPERTY_KEY])
                   else Success(Some(v2Map));
      if entry.Success? {
        OutputKeysAreResolvedAttributes(V2ToV1, st, entry.value, registry, ctx);
      }
    case AtlasStruct(_, attributes) =>
      OutputKeysAreResolvedAttributes(V2ToV1, st, attributes, registry, ctx);
    case _ =>
  }

  /**
   * The attribute map a V1-to-V2 conversion walks: the `"attributes"` entry
   * of a map (when it is a map), or what `getValuesMap()` returned for an
   * `IStruct` (null when it threw).
   */
  function V1AttributeSource(v1Obj: Value): Option<Attributes>
  {
    match v1Obj
    case Mapping(v1Map) =>
      var entry := CastToMap(Get(v1Map, ATTRIBUTES_PROPERTY_KEY));
      if entry.Success? then entry.value else None
    case IStruct(_, valuesMap) => if valuesMap.Returns? then valuesMap.values else None
    case _ => None
  }

  /**
   * The attribute map a V2-to-V1 conversion walks: the `"attributes"` entry
   * of a map that has one (when it is a map), the whole map otherwise, or an
   * `AtlasStruct`'s attribute map.
   */
  function V2AttributeSource(v2Obj: Value): Option<Attributes>
  {
    match v2Obj
    case Mapping(v2Map) =>
      if ATTRIBUTES_PROPERTY_KEY in v2Map then
        var entry := CastToMap(v2Map[ATTRIBUTES_PROPERTY_KEY]);
        if entry.Success? then entry.value else None
      else Some(v2Map)
    case AtlasStruct(_, attributes) => attributes
    case _ => None
  }

  /**
   * The category converter of an attribute the struct type knows failed with
   * `e` on the value stored under that attribute's name in `source`.
   */
  ghost predicate RaisedOnAttribute<C>(d: Direction, st: AtlasStructType, source: Option<Attributes>,
                                       registry: Registry<C>, ctx: C, e: AtlasError)
  {
    source.Some? &&
    exists k :: k in source.value && k in st.attributes
                && Converted(d, st, source.value, k, registry, ctx) == Failure(e)
  }

  /**
   * A failed V1-to-V2 conversion failed for one of three reasons: the input
   * has neither accepted shape, the "attributes" entry of a map is not a
   * map, or the category converter of one of the input's known attributes
   * failed on that attribute's value (its error passed on unchanged).
   */
  lemma V1ToV2FailureOrigin<C>(v1Obj: Value, st: AtlasStructType, registry: Registry<C>, ctx: C)
    ensures var r := FromV1ToV2(v1Obj, st, registry, ctx);
      r.Failure? ==>
        || (!(v1Obj.Mapping? || v1Obj.IStruct?) && r.error == UnexpectedType("Map or IStruct", ClassName(v1Obj)))
        || (v1Obj.Mapping? && r.error == ClassCast(ClassName(Get(v1Obj.entries, ATTRIBUTES_PROPERTY_KEY))))
        || RaisedOnAttribute(V1ToV2, st, V1AttributeSource(v1Obj), registry, ctx, r.error)
  {
    var source := V1AttributeSource(v1Obj);
    if source.Some? {
      FailsIffAConverterFails(V1ToV2, st, source.value, registry, ctx);
    }
  }

  /**
   * A failed V2-to-V1 conversion failed for one of three reasons: the input
   * has neither accepted shape, the "attributes" entry of a map is not a
   * map, or the category converter of one of the input's known attributes
   * failed on that attribute's value (its error passed on unchanged).
   */
  lemma V2ToV1FailureOrigin<C>(v2Obj: Value, st: AtlasStructType, registry: Registry<C>, ctx: C)
    ensures var r := FromV2ToV1(v2Obj, st, registry, ctx);
      r.Failure? ==>
        || (!(v2Obj.Mapping? || v2Obj.AtlasStruct?) && r.error == UnexpectedType("Map or AtlasStruct", ClassName(v2Obj)))
        || (v2Obj.Mapping? && r.error == ClassCast(ClassName(Get(v2Obj.entries, ATTRIBUTES_PROPERTY_KEY))))
        || RaisedOnAttribute(V2ToV1, st, V2AttributeSource(v2Obj), registry, ctx, r.error)
  {
    var source := V2AttributeSource(v2Obj);
    if source.Some? {
      FailsIffAConverterFails(V2ToV1, st, source.value, registry, ctx);
    }
  }

  /**
   * A legacy struct whose every attribute the (consistent) struct type knows
   * comes back unchanged from V1 to V2 and back, when the category
   * converters are inverse on its values.
   */
  lemma LegacyStructRoundTrip<C>(legacyName: string, m: Attributes, st: AtlasStructType,
                                 registry: Registry<C>, ctx: C)
    requires Consistent(st)
    requires m != map[]
    requires m.Keys <= st.attributes.Keys
    requires InverseOn(V1ToV2, st, m, registry, ctx)
    ensures var v2 := FromV1ToV2(IStruct(legacyName, Returns(Some(m))), st, registry, ctx);
      v2.Success? ==> FromV2ToV1(v2.value, st, registry, ctx) == Success(IStruct(st.typeName, Returns(Some(m))))
  {
    WalkRoundTrip(V1ToV2, st, m, registry, ctx);
  }

  /**
   * An `AtlasStruct` whose every attribute the (consistent) struct type knows
   * comes back unchanged from V2 to V1 and back, when the category
   * converters are inverse on its values.
   */
  lemma AtlasStructRoundTrip<C>(v2Name: string, m: Attributes, st: AtlasStructType,
                                registry: Registry<C>, ctx: C)
    requires Consistent(st)
    requires m != map[]
    requires m.Keys <= st.attributes.Keys
    requires InverseOn(V2ToV1, st, m, registry, ctx)
    ensures var v1 := FromV2ToV1(AtlasStruct(v2Name, Some(m)), st, registry, ctx);
      v1.Success? ==> FromV1ToV2(v1.value, st, registry, ctx) == Success(AtlasStruct(st.typeName, Some(m)))
  {
    WalkRoundTrip(V2ToV1, st, m, registry, ctx);
  }

  /** A registry whose every converter passes values through unchanged. */
  function PassThrough(): Registry<()>
  {
    category => FormatConverter((v, t, ctx) => Success(v), (v, t, ctx) => Success(v))
  }

  /** A struct type `Address` with two string attributes, `street` and `zip`. */
  function Address(): AtlasStructType
  {
    AtlasStructType("Address", map[
      "street" := AtlasAttribute("street", "street", AtlasType("string", Primitive)),
      "zip" := AtlasAttribute("zip", "zip", AtlasType("string", Primitive))])
  }

  /**
   * V1 `{"attributes": {"street": "Main St", "zip": "90210", "country": "US"}}`
   * as an `Address` gives `Address{street: "Main St", zip: "90210"}`: the
   * unknown `country` is dropped without error.
   */
  lemma AddressDropsUnknownCountry()
    ensures FromV1ToV2(Mapping(map[ATTRIBUTES_PROPERTY_KEY := Mapping(map[
              "street" := Str("Main St"), "zip" := Str("90210"), "country" := Str("US")])]),
              Address(), PassThrough(), ())
         == Success(AtlasStruct("Address", Some(map["street" := Str("Main St"), "zip" := Str("90210")])))
  {
    var attrs := map["street" := Str("Main St"), "zip" := Str("90210"), "country" := Str("US")];
    var st := Address();
    assert "street" in attrs;
    ConsistentTypeConvertsKnownKeys(V1ToV2, st, attrs, PassThrough(), ());
    var r := ConvertAttributes(V1ToV2, st, Some(attrs), PassThrough(), ());
    assert r.Success?;
    var out := r.value.value;
    assert out.Keys == {"street", "zip"};
    assert out == map["street" := Str("Main St"), "zip" := Str("90210")];
  }
}
