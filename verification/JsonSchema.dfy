/** JSON values, the schema keywords that the derive macros emit, and what those keywords assert
    (JSON Schema Core and Validation, draft 2020-12). A schema object is a record with one field
    per keyword. */
module JsonSchema {
  import opened Sequences

  datatype Json =
    | Null
    | Bool(b: bool)
    | Number(n: real)
    | Str(s: string)
    | Array(items: seq<Json>)
    | Object(members: map<string, Json>)

  /** The `type` keyword: absent, a string, or an array of strings. */
  datatype TypeKeyword = NoType | OneType(name: string) | TypeUnion(names: seq<string>)

  datatype Properties = NoProperties | Properties(members: map<string, Schema>)

  datatype Items = NoItems | Items(schema: Schema)

  datatype SchemaList = NoList | List(schemas: seq<Schema>)

  /** `required` is absent when the list is empty. */
  datatype Schema = Schema(
    typ: TypeKeyword,
    enumValues: Option<seq<Json>>,
    oneOf: SchemaList,
    anyOf: SchemaList,
    properties: Properties,
    required: seq<string>,
    items: Items,
    bounds: Bounds,
    notes: Notes)

  /** The keywords that bound lengths, counts and numbers. */
  datatype Bounds = Bounds(
    minLength: Option<nat>, maxLength: Option<nat>,
    minItems: Option<nat>, maxItems: Option<nat>,
    minimum: Option<int>, maximum: Option<int>)

  /** The keywords that assert nothing. */
  datatype Notes = Notes(
    title: Option<string>, description: Option<string>, format: Option<string>, default: Option<Json>)

  const NO_BOUNDS := Bounds(None, None, None, None, None, None)
  const NO_NOTES := Notes(None, None, None, None)
  const EMPTY := Schema(NoType, None, NoList, NoList, NoProperties, [], NoItems, NO_BOUNDS, NO_NOTES)

  predicate IsInteger(n: real) {
    n.Floor as real == n
  }

  /** Section 6.1.1 of JSON Schema Validation; any other name matches nothing. */
  predicate HasType(name: string, j: Json) {
    match j
    case Null => name == "null"
    case Bool(_) => name == "boolean"
    case Number(n) => name == "number" || (name == "integer" && IsInteger(n))
    case Str(_) => name == "string"
    case Array(_) => name == "array"
    case Object(_) => name == "object"
  }

  predicate TypeOk(typ: TypeKeyword, j: Json) {
    match typ
    case NoType => true
    case OneType(name) => HasType(name, j)
    case TypeUnion(names) => exists i :: 0 <= i < |names| && HasType(names[i], j)
  }

  predicate CountOk(n: nat, min: Option<nat>, max: Option<nat>) {
    (min.Some? ==> min.value <= n) && (max.Some? ==> n <= max.value)
  }

  predicate SizeOk(n: real, min: Option<int>, max: Option<int>) {
    (min.Some? ==> min.value as real <= n) && (max.Some? ==> n <= max.value as real)
  }

  /** Sections 6.2 to 6.4 of JSON Schema Validation: each bound asserts only against its own kind of value. */
  predicate BoundsOk(b: Bounds, j: Json) {
    match j
    case Str(s) => CountOk(|s|, b.minLength, b.maxLength)
    case Array(items) => CountOk(|items|, b.minItems, b.maxItems)
    case Number(n) => SizeOk(n, b.minimum, b.maximum)
    case _ => true
  }

  /** Section 6.1.2. */
  predicate EnumOk(values: Option<seq<Json>>, j: Json) {
    values.Some? ==> j in values.value
  }

  /** Section 6.5.3. */
  predicate RequiredOk(required: seq<string>, j: Json) {
    j.Object? ==> forall k :: k in required ==> k in j.members
  }

  /** Keywords in one schema object are conjunctive; sections 10.2.1.2, 10.2.1.3, 10.3.1.2 and
      10.3.2.1 of JSON Schema Core give the applicators. */
  predicate Validates(s: Schema, j: Json)
    decreases s, 1
  {
    && TypeOk(s.typ, j)
    && EnumOk(s.enumValues, j)
    && BoundsOk(s.bounds, j)
    && RequiredOk(s.required, j)
    && (match s.oneOf case NoList => true case List(alternatives) => ExactlyOne(alternatives, j))
    && (match s.anyOf case NoList => true case List(alternatives) => AtLeastOne(alternatives, j))
    && PropertiesOk(s.properties, j)
    && (match s.items case NoItems => true case Items(item) => ItemsOk(item, j))
  }

  predicate AtLeastOne(alternatives: seq<Schema>, j: Json)
    decreases alternatives, 0
  {
    exists i :: 0 <= i < |alternatives| && Validates(alternatives[i], j)
  }

  predicate ExactlyOne(alternatives: seq<Schema>, j: Json)
    decreases alternatives, 0
  {
    exists i :: 0 <= i < |alternatives| && Validates(alternatives[i], j) &&
                forall k :: 0 <= k < |alternatives| && Validates(alternatives[k], j) ==> k == i
  }

  predicate PropertiesOk(properties: Properties, j: Json)
    decreases properties, 0
  {
    properties.Properties? && j.Object? ==>
      forall k :: k in properties.members && k in j.members ==> Validates(properties.members[k], j.members[k])
  }

  predicate ItemsOk(item: Schema, j: Json)
    decreases item, 2
  {
    j.Array? ==> forall i :: 0 <= i < |j.items| ==> Validates(item, j.items[i])
  }
}
