# AtlasStructFormatConverter, modelled in Dafny

Apache Atlas converts instances between two representations. The legacy V1 representation uses untyped maps and `IStruct` objects. The V2 representation uses `AtlasStruct` objects that carry an explicit attribute map. `AtlasStructFormatConverter` converts one struct-typed value in either direction, under the control of its `AtlasStructType`:

- Top-level dispatch (`FromV1ToV2`, `FromV2ToV1`) returns null for null. Otherwise it classifies the input as a map, an `IStruct` or an `AtlasStruct`, finds the attribute source (the reserved `"attributes"` entry, or for V2 the bare map), and wraps the converted attributes in a struct named by the type. Any other shape raises `UNEXPECTED_TYPE`.
- Attribute walkers (`AttributesFromV2ToV1`, `AttributesFromV1ToV2`) loop over the input keys and skip keys the struct type does not know. Each remaining value is handed to the converter registered for the attribute's type category, and the result goes into a fresh map.

Files:

- `atlas_model.dfy` (module `AtlasModel`): values, struct types, attributes, type categories, errors, and the converter registry as a function parameter.
- `key_order.dfy` (module `KeyOrder`): a total order on key names. It fixes the order in which a walk visits a map's keys.
- `struct_converter.dfy` (module `StructFormatConverter`): the two walkers, each a method with a loop, proved equal to the specification function `ConvertAttributes`; and the two top-level conversions as functions.
- `walk_properties.dfy` (module `WalkProperties`): properties of the walk.
- `conversion_properties.dfy` (module `ConversionProperties`): properties of the top-level conversions.

The category converters are a parameter `registry: TypeCategory -> FormatConverter<C>`. Each of its two directions may fail. The conversion context is an opaque type parameter `C` that is only passed through.

A walker given a non-empty map whose keys are all unknown returns a fresh empty map, not null (lines 123-124 and 146 of `AtlasStructFormatConverter.java`); `UnknownKeysOnlyGiveEmptyMap` states this.

## Model

| member | source | states |
|---|---|---|
| `StructFormatConverter.FromV1ToV2` | repository/src/main/java/org/apache/atlas/repository/converters/AtlasStructFormatConverter.java:52-84 | null gives null; success on a non-null input is an `AtlasStruct` named by the struct type; an input that is neither a map nor an `IStruct` fails with `UNEXPECTED_TYPE("Map or IStruct", class name)`; an `IStruct` whose `getValuesMap()` throws gives a struct with a null attribute map, with no error |
| `StructFormatConverter.FromV2ToV1` | repository/src/main/java/org/apache/atlas/repository/converters/AtlasStructFormatConverter.java:87-118 | null gives null; success on a non-null input is a legacy `Struct` named by the struct type; an input that is neither a map nor an `AtlasStruct` fails with `UNEXPECTED_TYPE("Map or AtlasStruct", class name)` |
| `StructFormatConverter.ConvertAttributes` | repository/src/main/java/org/apache/atlas/repository/converters/AtlasStructFormatConverter.java:120-176 | a walker returns null exactly when its input map is null or empty; any other input gives a map or an error |
| `StructFormatConverter.AttributesFromV2ToV1` | repository/src/main/java/org/apache/atlas/repository/converters/AtlasStructFormatConverter.java:120-147 | the loop, which skips unknown names, reads each value under `attr.getName()`, stores the V2-to-V1 converter's result under `attr.getName()` and stops at the first converter error, computes exactly `ConvertAttributes(V2ToV1, …)` |
| `StructFormatConverter.AttributesFromV1ToV2` | repository/src/main/java/org/apache/atlas/repository/converters/AtlasStructFormatConverter.java:149-176 | the same loop for the other direction, storing under `attr.getAttributeDef().getName()`, computes exactly `ConvertAttributes(V1ToV2, …)` |
| `WalkProperties.OutputKeysAreResolvedAttributes` | repository/src/main/java/org/apache/atlas/repository/converters/AtlasStructFormatConverter.java:127-171 | the output's keys are exactly the target names of the input keys that the struct type resolves; every output key names an attribute of the type |
| `WalkProperties.UnknownKeysOnlyGiveEmptyMap` | repository/src/main/java/org/apache/atlas/repository/converters/AtlasStructFormatConverter.java:123-133 | a non-empty input whose keys are all unknown gives a fresh empty map (not null) and no error |
| `WalkProperties.OutputValuesComeFromConverters` | repository/src/main/java/org/apache/atlas/repository/converters/AtlasStructFormatConverter.java:135-171 | each output value is exactly what the attribute category's converter returned for the value stored under the attribute's name |
| `WalkProperties.FailsIffAConverterFails` | repository/src/main/java/org/apache/atlas/repository/converters/AtlasStructFormatConverter.java:140-169 | for every input map, a walk fails if and only if the converter fails for some known input key, and it then fails with that converter's error, unchanged |
| `WalkProperties.ConsistentTypeConvertsKnownKeys` | repository/src/main/java/org/apache/atlas/repository/converters/AtlasStructFormatConverter.java:127-171 | when every attribute is registered under its own name and definition name, the output holds exactly the known input keys, each mapped to its converted value, and the walk fails exactly when one of their conversions fails |
| `WalkProperties.WalkRoundTrip` | repository/src/main/java/org/apache/atlas/repository/converters/AtlasStructFormatConverter.java:137-171 | on such a type, with every input key known and category converters that are inverse on the values, walking in one direction and back gives the input map again |
| `ConversionProperties.V1MapReadsOnlyReservedKey` | repository/src/main/java/org/apache/atlas/repository/converters/AtlasStructFormatConverter.java:58-66 | a V1 map is read only through its `"attributes"` entry. Other keys are ignored, and so is a non-empty map without that key. An absent, null or empty entry gives a struct with no attributes. A nested map converts like an `IStruct` holding it. A non-map entry fails the `(Map)` cast |
| `ConversionProperties.V2MapAttributeSource` | repository/src/main/java/org/apache/atlas/repository/converters/AtlasStructFormatConverter.java:93-111 | a V2 map with an `"attributes"` entry converts like an `AtlasStruct` holding that entry. A map without it converts like an `AtlasStruct` holding the whole map. A null entry gives no attributes, and a non-map entry fails the cast |
| `ConversionProperties.ReservedKeyAsymmetry` | repository/src/main/java/org/apache/atlas/repository/converters/AtlasStructFormatConverter.java:58-107 | one non-empty bare map (no `"attributes"` key) gives no attributes as V1 input, and as V2 input gives the target names of its known keys |
| `ConversionProperties.V2OutputStaysInSchema` | repository/src/main/java/org/apache/atlas/repository/converters/AtlasStructFormatConverter.java:156-171 | every attribute of a converted `AtlasStruct` is the definition name of an attribute of the struct type |
| `ConversionProperties.V1OutputStaysInSchema` | repository/src/main/java/org/apache/atlas/repository/converters/AtlasStructFormatConverter.java:127-142 | every attribute of a converted legacy `Struct` is the name of an attribute of the struct type |
| `ConversionProperties.V1ToV2FailureOrigin` | repository/src/main/java/org/apache/atlas/repository/converters/AtlasStructFormatConverter.java:58-79 | a V1-to-V2 failure is one of three things: `UNEXPECTED_TYPE` for a rejected shape, the cast failure of a map's `"attributes"` entry, or the unchanged error of the category converter of a known attribute of the input's own attribute map (the `"attributes"` entry or `getValuesMap()`), raised on the value stored under that attribute's name |
| `ConversionProperties.V2ToV1FailureOrigin` | repository/src/main/java/org/apache/atlas/repository/converters/AtlasStructFormatConverter.java:93-113 | the same three-way split for V2 to V1, where the attribute map walked is the `"attributes"` entry, the whole bare map, or the `AtlasStruct`'s attributes |
| `ConversionProperties.LegacyStructRoundTrip` | repository/src/main/java/org/apache/atlas/repository/converters/AtlasStructFormatConverter.java:67-111 | on a consistent type that knows every attribute, with inverse category converters, an `IStruct` converted to V2 and back gives a `Struct` with the same attributes |
| `ConversionProperties.AtlasStructRoundTrip` | repository/src/main/java/org/apache/atlas/repository/converters/AtlasStructFormatConverter.java:67-111 | under the same conditions, an `AtlasStruct` converted to V1 and back gives an `AtlasStruct` with the same attributes |
| `ConversionProperties.AddressDropsUnknownCountry` | repository/src/main/java/org/apache/atlas/repository/converters/AtlasStructFormatConverter.java:58-63 | V1 `{"attributes": {"street", "zip", "country"}}` as type `Address{street, zip}` gives `Address{street, zip}`; `country` is dropped without error |

## Left out

- Logging through `LOG.warn` and `LOG.error` (lines 74, 131 and 161) is not modelled. It has no observable result.
- `AtlasTypeRegistry`, `AtlasFormatConverters` and the converters of the other categories are not part of this model. The registry is a parameter that gives, per category, two conversion functions that may fail.
- `ConverterContext` is an opaque type parameter. Converters are pure functions, so a converter that records cross-references in the context is not captured.
- `keySet()` iteration order: `HashMap` leaves it unspecified, and the model visits keys in ascending lexicographic order. The order matters only when several converters fail (which error is reported) or when two input keys resolve to attributes with the same target name (which value is kept). The properties above are stated independently of the order.
- Java runtime type tests are datatype constructors. An `IStruct` is reported under the class name `org.apache.atlas.typesystem.Struct`, and an `AtlasStruct` under its own class name. Subclasses such as `Referenceable` or `AtlasEntity` are not distinguished.
- The `(AtlasStructType) type` cast (lines 56 and 91) is not modelled. The struct type is given directly, so a non-struct type cannot be passed.
- `attribKey.toString()` (line 157) is not modelled: map keys are strings. Non-string and null keys are left out.
- `new AtlasStruct(name)` and `new Struct(name)` are modelled as a struct without an attribute map, the same as passing a null map. Whatever those classes' constructors do with the map they receive is not part of this model.
- `ClassCastException` from the `(Map)` casts (lines 60 and 98) is modelled as the error `ClassCast`. Other runtime exceptions are not modelled.
- The constructors (lines 43-49), including the protected constructor's `TypeCategory` parameter, are subclass plumbing and are left out.
- A round trip in general is not promised by `AtlasStructFormatConverter.java`. It is proved only under stated conditions: a consistent type, every key known, and inverse category converters.
