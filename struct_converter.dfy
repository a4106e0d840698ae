/**
 * AtlasStructFormatConverter: converts one struct-typed value between the
 * legacy V1 shape (maps and `IStruct`) and the V2 shape (`AtlasStruct`),
 * attribute by attribute, delegating each attribute value to the converter
 * registered for the attribute's type category.
 */
module StructFormatConverter {
  import opened AtlasModel
  import KeyOrder

  /** The direction of a conversion. */
  datatype Direction = V1ToV2 | V2ToV1

  /**
   * The key a converted attribute is stored under: `attr.getName()` going to
   * V1, `attr.getAttributeDef().getName()` going to V2.
   */
  function TargetName(d: Direction, attr: AtlasAttribute): string
  {
    if d == V2ToV1 then attr.name else attr.defName
  }

  /** Delegates one value to the converter of the attribute's category, in direction `d`. */
  function ConvertValue<C>(d: Direction, registry: Registry<C>, attr: AtlasAttribute, v: Value, ctx: C): Result<Value>
  {
    var converter := registry(attr.attributeType.category);
    if d == V1ToV2 then converter.fromV1ToV2(v, attr.attributeType, ctx)
    else converter.fromV2ToV1(v, attr.attributeType, ctx)
  }

  /**
   * What the walk computes for an input key the struct type knows: the value
   * is read back under the attribute's own name, not under the key.
   */
  function Converted<C>(d: Direction, st: AtlasStructType, attributes: Attributes, k: string,
                        registry: Registry<C>, ctx: C): Result<Value>
    requires k in st.attributes
  {
    var attr := st.attributes[k];
    ConvertValue(d, registry, attr, Get(attributes, attr.name), ctx)
  }

  /** The target names of those keys in `keys` that the struct type resolves. */
  function Targets(d: Direction, st: AtlasStructType, keys: set<string>): set<string>
  {
    set k | k in keys && k in st.attributes :: TargetName(d, st.attributes[k])
  }

  /**
   * The loop of the attribute walkers, as a function: visits the keys still
   * `pending` in key order, skips the ones the struct type does not know,
   * stops at the first converter failure, and otherwise adds each converted
   * value to `acc` under its target name.
   */
  function WalkKeys<C>(d: Direction, st: AtlasStructType, attributes: Attributes, pending: set<string>,
                       acc: Attributes, registry: Registry<C>, ctx: C): Result<Attributes>
    decreases pending
  {
    if pending == {} then Success(acc)
    else
      var attrName := KeyOrder.Least(pending);
      if attrName !in st.attributes then
        WalkKeys(d, st, attributes, pending - {attrName}, acc, registry, ctx)
      else
        match Converted(d, st, attributes, attrName, registry, ctx)
        case Failure(e) => Failure(e)
        case Success(v) =>
          WalkKeys(d, st, attributes, pending - {attrName},
                   acc[TargetName(d, st.attributes[attrName]) := v], registry, ctx)
  }

  /**
   * The attribute walkers' result: null for a null or empty input, otherwise
   * a new map built by the walk over all input keys.
   */
  function ConvertAttributes<C>(d: Direction, st: AtlasStructType, attributes: Option<Attributes>,
                                registry: Registry<C>, ctx: C): (r: Result<Option<Attributes>>)
    ensures r == Success(None) <==> !IsNotEmpty(attributes)
  {
    if !IsNotEmpty(attributes) then Success(None)
    else
      match WalkKeys(d, st, attributes.value, attributes.value.Keys, map[], registry, ctx)
      case Failure(e) => Failure(e)
      case Success(m) => Success(Some(m))
  }

  /** `fromV2ToV1(AtlasStructType, Map, ConverterContext)`: the V2-to-V1 attribute walker. */
  method AttributesFromV2ToV1<C>(structType: AtlasStructType, attributes: Option<Attributes>,
                                 registry: Registry<C>, context: C)
    returns (ret: Result<Option<Attributes>>)
    ensures ret == ConvertAttributes(V2ToV1, structType, attributes, registry, context)
  {
    if !IsNotEmpty(attributes) {
      return Success(None);
    }
    var m := attributes.value;
    var out: Attributes := map[];
    var pending := m.Keys;
    while pending != {}
      invariant WalkKeys(V2ToV1, structType, m, pending, out, registry, context)
             == WalkKeys(V2ToV1, structType, m, m.Keys, map[], registry, context)
      decreases pending
    {
      var attrName := KeyOrder.Least(pending);
      pending := pending - {attrName};
      if attrName !in structType.attributes {
        continue;  // ignored unknown attribute
      }
      var attr := structType.attributes[attrName];
      var attrType := attr.attributeType;
      var v2Value := Get(m, attr.name);
      var attrConverter := registry(attrType.category);
      var v1Value := attrConverter.fromV2ToV1(v2Value, attrType, context);
      if v1Value.Failure? {
        return Failure(v1Value.error);
      }
      out := out[attr.name := v1Value.value];
    }
    return Success(Some(out));
  }

  /** `fromV1ToV2(AtlasStructType, Map, ConverterContext)`: the V1-to-V2 attribute walker. */
  method AttributesFromV1ToV2<C>(structType: AtlasStructType, attributes: Option<Attributes>,
                                 registry: Registry<C>, context: C)
    returns (ret: Result<Option<Attributes>>)
    ensures ret == ConvertAttributes(V1ToV2, structType, attributes, registry, context)
  {
    if !IsNotEmpty(attributes) {
      return Success(None);
    }
    var m := attributes.value;
    var out: Attributes := map[];
    var pending := m.Keys;
    while pending != {}
      invariant WalkKeys(V1ToV2, structType, m, pending, out, registry, context)
             == WalkKeys(V1ToV2, structType, m, m.Keys, map[], registry, context)
      decreases pending
    {
      var attrName := KeyOrder.Least(pending);
      pending := pending - {attrName};
      if attrName !in structType.attributes {
        continue;  // ignored unknown attribute
      }
      var attr := structType.attributes[attrName];
      var attrType := attr.attributeType;
      var attrConverter := registry(attrType.category);
      var v1Value := Get(m, attr.name);
      var v2Value := attrConverter.fromV1ToV2(v1Value, attrType, context);
      if v2Value.Failure? {
        return Failure(v2Value.error);
      }
      out := out[attr.defName := v2Value.value];
    }
    return Success(Some(out));
  }

  /** `fromV1ToV2(Object, AtlasType, ConverterContext)`: a V1 struct value to an `AtlasStruct`. */
  function FromV1ToV2<C>(v1Obj: Value, structType: AtlasStructType, registry: Registry<C>, context: C): (r: Result<Value>)
    ensures v1Obj.Null? ==> r == Success(Null)
    ensures !v1Obj.Null? && r.Success? ==> r.value.AtlasStruct? && r.value.typeName == structType.typeName
    ensures !(v1Obj.Null? || v1Obj.Mapping? || v1Obj.IStruct?)
            ==> r == Failure(UnexpectedType("Map or IStruct", ClassName(v1Obj)))
    ensures v1Obj.IStruct? && v1Obj.valuesMap.Throws? ==> r == Success(AtlasStruct(structType.typeName, None))
  {
    match v1Obj
    case Null => Success(Null)
    case Mapping(v1Map) =>
      (match CastToMap(Get(v1Map, ATTRIBUTES_PROPERTY_KEY))
       case Failure(e) => Failure(e)
       case Success(v1Attribs) =>
         if IsNotEmpty(v1Attribs) then
           Wrap(V1ToV2, structType, ConvertAttributes(V1ToV2, structType, v1Attribs, registry, context))
         else
           Success(AtlasStruct(structType.typeName, None)))
    case IStruct(_, valuesMap) =>
      // a failing getValuesMap() is logged and converted as a null map
      var v1Attribs := if valuesMap.Returns? then valuesMap.values else None;
      Wrap(V1ToV2, structType, ConvertAttributes(V1ToV2, structType, v1Attribs, registry, context))
    case _ => Failure(UnexpectedType("Map or IStruct", ClassName(v1Obj)))
  }

  /** `fromV2ToV1(Object, AtlasType, ConverterContext)`: a V2 struct value to a legacy `Struct`. */
  function FromV2ToV1<C>(v2Obj: Value, structType: AtlasStructType, registry: Registry<C>, context: C): (r: Result<Value>)
    ensures v2Obj.Null? ==> r == Success(Null)
    ensures !v2Obj.Null? && r.Success? ==> r.value.IStruct? && r.value.typeName == structType.typeName
                                           && r.value.valuesMap.Returns?
    ensures !(v2Obj.Null? || v2Obj.Mapping? || v2Obj.AtlasStruct?)
            ==> r == Failure(UnexpectedType("Map or AtlasStruct", ClassName(v2Obj)))
  {
    match v2Obj
    case Null => Success(Null)
    case Mapping(v2Map) =>
      var v2Attribs := if ATTRIBUTES_PROPERTY_KEY in v2Map then CastToMap(v2Map[ATTRIBUTES_PROPERTY_KEY])
                       else Success(Some(v2Map));
      (match v2Attribs
       case Failure(e) => Failure(e)
       case Success(attribs) =>
         if IsNotEmpty(attribs) then
           Wrap(V2ToV1, structType, ConvertAttributes(V2ToV1, structType, attribs, registry, context))
         else
           Success(IStruct(structType.typeName, Returns(None))))
    case AtlasStruct(_, attributes) =>
      Wrap(V2ToV1, structType, ConvertAttributes(V2ToV1, structType, attributes, registry, context))
    case _ => Failure(UnexpectedType("Map or AtlasStruct", ClassName(v2Obj)))
  }

  /**
   * `new AtlasStruct(typeName, attrs)` going to V2, `new Struct(typeName, attrs)`
   * going to V1; a walker failure propagates.
   */
  function Wrap(d: Direction, structType: AtlasStructType, attrs: Result<Option<Attributes>>): Result<Value>
  {
    match attrs
    case Failure(e) => Failure(e)
    case Success(a) =>
      if d == V1ToV2 then Success(AtlasStruct(structType.typeName, a))
      else Success(IStruct(structType.typeName, Returns(a)))
  }
}
