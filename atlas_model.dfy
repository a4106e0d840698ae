/**
 * The values, type descriptors and errors that the struct format converter
 * works on.
 */
module AtlasModel {

  /** `None` plays the part of a Java null reference. */
  datatype Option<+T> = None | Some(value: T)

  /** An attribute-name-to-value map, such as a struct's attribute map. */
  type Attributes = map<string, Value>

  /**
   * A Java object as the converter sees it: null, a `java.util.Map`, a legacy
   * `IStruct`, an `AtlasStruct`, or some other object (a string, a list, ...).
   */
  datatype Value =
    | Null
    | Str(s: string)
    | Mapping(entries: Attributes)
    | IStruct(typeName: string, valuesMap: ValuesMapRead)
    | AtlasStruct(typeName: string, attributes: Option<Attributes>)
    | Other(className: string)

  /**
   * What `IStruct.getValuesMap()` does when called: return a map (possibly
   * null) or throw an `AtlasException`.
   */
  datatype ValuesMapRead = Returns(values: Option<Attributes>) | Throws

  /** The closed set of type categories (org.apache.atlas.model.TypeCategory). */
  datatype TypeCategory =
    | Primitive | ObjectIdType | Enum | Struct | Classification | Entity | Array | Map

  /** The declared type of an attribute: its name and its category. */
  datatype AtlasType = AtlasType(typeName: string, category: TypeCategory)

  /**
   * An attribute of a struct type: `name` is `getName()`, `defName` is
   * `getAttributeDef().getName()`.
   */
  datatype AtlasAttribute = AtlasAttribute(name: string, defName: string, attributeType: AtlasType)

  /** A struct type: its name and `getAttribute(name)` as a map. */
  datatype AtlasStructType = AtlasStructType(typeName: string, attributes: map<string, AtlasAttribute>)

  /** The exceptions that reach the caller of a conversion. */
  datatype AtlasError =
    | UnexpectedType(expected: string, actual: string)   // AtlasErrorCode.UNEXPECTED_TYPE
    | ClassCast(actual: string)                           // a `(Map)` cast of a non-map object
    | OtherError(code: string, params: seq<string>)       // any other code, raised by a nested converter

  /** The outcome of a call that may throw: `Failure` carries the exception. */
  datatype Result<+T> = Success(value: T) | Failure(error: AtlasError)

  /** The reserved key under which a map carries a struct's attributes. */
  const ATTRIBUTES_PROPERTY_KEY: string := "attributes"

  /** `getClass().getCanonicalName()` of a non-null object. */
  function ClassName(v: Value): string
  {
    match v
    case Null => "null"
    case Str(_) => "java.lang.String"
    case Mapping(_) => "java.util.HashMap"
    case IStruct(_, _) => "org.apache.atlas.typesystem.Struct"
    case AtlasStruct(_, _) => "org.apache.atlas.model.instance.AtlasStruct"
    case Other(c) => c
  }

  /** `Map.get`: the value under `key`, or null when the key is absent. */
  function Get(m: Attributes, key: string): Value
  {
    if key in m then m[key] else Null
  }

  /** The cast `(Map) v`: null passes as null, a map as itself, anything else throws. */
  function CastToMap(v: Value): (r: Result<Option<Attributes>>)
    ensures r.Success? <==> v.Null? || v.Mapping?
    ensures r.Success? && r.value.Some? ==> v == Mapping(r.value.value)
    ensures r.Failure? ==> r.error == ClassCast(ClassName(v))
  {
    match v
    case Null => Success(None)
    case Mapping(m) => Success(Some(m))
    case _ => Failure(ClassCast(ClassName(v)))
  }

  /** `MapUtils.isNotEmpty`: neither null nor empty. */
  predicate IsNotEmpty(m: Option<Attributes>)
  {
    m.Some? && m.value != map[]
  }

  /**
   * One category's converter (`AtlasFormatConverter`): both directions, each
   * given the value, the attribute's declared type and the conversion context,
   * and each able to fail.
   */
  datatype FormatConverter<!C> = FormatConverter(
    fromV1ToV2: (Value, AtlasType, C) -> Result<Value>,
    fromV2ToV1: (Value, AtlasType, C) -> Result<Value>)

  /** `AtlasFormatConverters.getConverter`: total over the categories. */
  type Registry<!C> = TypeCategory -> FormatConverter<C>
}
