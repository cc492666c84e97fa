/** The compiler from Rust types to JSON Schema: `type_to_json_schema` and the `JsonSchema` derive.
    Struct and enum names are already resolved: a type that mentions a struct holds its fields. */
module SchemaDerive {
  import opened Sequences
  import opened JsonSchema

  /** The range of an integer type; `Any` is the range a schema can express. */
  datatype Range = Any | Between(lo: int, hi: int)

  datatype Ty =
    | TString
    | TBool
    | TInt(range: Range)
    | TNumber
    | TVec(elem: Ty)
    | TOption(inner: Ty)
    | TStruct(fields: seq<Field>)
    | TEnum(variants: seq<string>)

  /** A named field: its key after renaming, its type and its `json_schema` attributes. */
  datatype Field = Field(key: string, ty: Ty, attrs: Attrs)

  datatype Attrs = Attrs(
    title: Option<string>, description: Option<string>, format: Option<string>, default: Option<Json>,
    minLength: Option<nat>, maxLength: Option<nat>, minimum: Option<int>, maximum: Option<int>)

  const NO_ATTRS := Attrs(None, None, None, None, None, None, None, None)

  /** No two fields of a struct share a key, no two variants of an enum share a name. */
  ghost predicate WellFormed(t: Ty) {
    match t
    case TVec(elem) => WellFormed(elem)
    case TOption(inner) => WellFormed(inner)
    case TStruct(fields) =>
      && (forall i, k :: 0 <= i < k < |fields| ==> fields[i].key != fields[k].key)
      && (forall i :: 0 <= i < |fields| ==> WellFormed(fields[i].ty))
    case TEnum(variants) => forall i, k :: 0 <= i < k < |variants| ==> variants[i] != variants[k]
    case _ => true
  }

  // ---------- The compiler ----------

  function Or<T>(new_: Option<T>, old_: Option<T>): Option<T> {
    if new_.Some? then new_ else old_
  }

  /** `map.insert` of description, title and default, where given. */
  function Annotate(s: Schema, a: Attrs): Schema {
    s.(notes := s.notes.(title := Or(a.title, s.notes.title),
                         description := Or(a.description, s.notes.description),
                         default := Or(a.default, s.notes.default)))
  }

  function AddFormat(s: Schema, a: Attrs): Schema {
    s.(notes := s.notes.(format := Or(a.format, s.notes.format)))
  }

  function AddLengths(s: Schema, a: Attrs): Schema {
    s.(bounds := s.bounds.(minLength := Or(a.minLength, s.bounds.minLength),
                           maxLength := Or(a.maxLength, s.bounds.maxLength)))
  }

  function AddNumeric(s: Schema, a: Attrs): Schema {
    s.(bounds := s.bounds.(minimum := Or(a.minimum, s.bounds.minimum),
                           maximum := Or(a.maximum, s.bounds.maximum)))
  }

  function AddCounts(s: Schema, a: Attrs): Schema {
    s.(bounds := s.bounds.(minItems := Or(a.minLength, s.bounds.minItems),
                           maxItems := Or(a.maxLength, s.bounds.maxItems)))
  }

  const NULL_SCHEMA := EMPTY.(typ := OneType("null"))

  /** The nullability step of `Option<T>`: widen the `type` when there is one, else wrap in `anyOf`. */
  function Nullable(s: Schema): Schema {
    match s.typ
    case OneType(name) =>
      if name != "null" then s.(typ := TypeUnion([name, "null"])) else EMPTY.(anyOf := List([s, NULL_SCHEMA]))
    case TypeUnion(names) => if "null" in names then s else s.(typ := TypeUnion(names + ["null"]))
    case NoType => EMPTY.(anyOf := List([s, NULL_SCHEMA]))
  }

  /** Everything the `Option<T>` branch inserts after the nullability step. */
  function AddAll(s: Schema, a: Attrs): Schema {
    AddNumeric(AddLengths(AddFormat(Annotate(s, a), a), a), a)
  }

  function ToSchema(t: Ty, a: Attrs): Schema
    decreases t, 1
  {
    match t
    case TString => AddLengths(AddFormat(Annotate(EMPTY.(typ := OneType("string")), a), a), a)
    case TBool => Annotate(EMPTY.(typ := OneType("boolean")), a)
    case TInt(_) => AddNumeric(Annotate(EMPTY.(typ := OneType("integer")), a), a)
    case TNumber => AddNumeric(Annotate(EMPTY.(typ := OneType("number")), a), a)
    case TVec(elem) =>
      AddCounts(Annotate(EMPTY.(typ := OneType("array"), items := Items(ToSchema(elem, NO_ATTRS))), a), a)
    case TOption(inner) => AddAll(Nullable(ToSchema(inner, a)), a)
    case TStruct(fields) =>
      Annotate(EMPTY.(typ := OneType("object"), properties := Properties(PropertiesOf(fields)),
                      required := RequiredOf(fields)), a)
    case TEnum(variants) => Annotate(EMPTY.(oneOf := List(VariantSchemas(variants))), a)
  }

  /** One property per field; a later field with the same key replaces an earlier one. */
  function PropertiesOf(fields: seq<Field>): map<string, Schema>
    decreases fields, 0
  {
    if fields == [] then map[]
    else map[fields[0].key := ToSchema(fields[0].ty, fields[0].attrs)] + PropertiesOf(fields[1..])
  }

  function RequiredOf(fields: seq<Field>): seq<string> {
    if fields == [] then []
    else (if fields[0].ty.TOption? then [] else [fields[0].key]) + RequiredOf(fields[1..])
  }

  function VariantSchemas(variants: seq<string>): seq<Schema> {
    seq(|variants|, i requires 0 <= i < |variants| => EMPTY.(enumValues := Some([Str(variants[i])])))
  }

  /** The code the derive emits for a struct: insert every property, push every required key. */
  method DeriveStruct(fields: seq<Field>) returns (schema: Schema)
    ensures schema == ToSchema(TStruct(fields), NO_ATTRS)
  {
    hide ToSchema, PropertiesOf, RequiredOf;
    var properties := InsertProperties(fields);
    var required := PushRequired(fields);
    schema := EMPTY.(typ := OneType("object"), properties := Properties(properties), required := required);
    StructSchema(fields);
  }

  method InsertProperties(fields: seq<Field>) returns (properties: map<string, Schema>)
    ensures properties == PropertiesOf(fields)
  {
    hide ToSchema;
    properties := map[];
    for i := 0 to |fields|
      invariant PropertiesOf(fields) == properties + PropertiesOf(fields[i..])
    {
      ghost var later := PropertiesOf(fields[i + 1..]);
      assert fields[i..][1..] == fields[i + 1..];
      var entry := map[fields[i].key := ToSchema(fields[i].ty, fields[i].attrs)];
      assert properties + (entry + later) == (properties + entry) + later;
      properties := properties + entry;
    }
    assert fields[|fields|..] == [] && properties + map[] == properties;
  }

  method PushRequired(fields: seq<Field>) returns (required: seq<string>)
    ensures required == RequiredOf(fields)
  {
    required := [];
    for i := 0 to |fields|
      invariant RequiredOf(fields) == required + RequiredOf(fields[i..])
    {
      RequiredFrom(fields, i, required);
      hide RequiredOf;
      var key := if fields[i].ty.TOption? then [] else [fields[i].key];
      required := required + key;
    }
    assert fields[|fields|..] == [] && required + [] == required;
  }

  lemma RequiredFrom(fields: seq<Field>, i: nat, required: seq<string>)
    requires i < |fields|
    ensures var key := if fields[i].ty.TOption? then [] else [fields[i].key];
            required + RequiredOf(fields[i..]) == (required + key) + RequiredOf(fields[i + 1..])
  {
    assert fields[i..][1..] == fields[i + 1..];
    var key := if fields[i].ty.TOption? then [] else [fields[i].key];
    assert RequiredOf(fields[i..]) == key + RequiredOf(fields[i + 1..]);
    hide RequiredOf;
    assert required + (key + RequiredOf(fields[i + 1..])) == (required + key) + RequiredOf(fields[i + 1..]);
  }

  lemma StructSchema(fields: seq<Field>)
    ensures ToSchema(TStruct(fields), NO_ATTRS) ==
            EMPTY.(typ := OneType("object"), properties := Properties(PropertiesOf(fields)),
                   required := RequiredOf(fields))
  {
  }

  // ---------- What a schema should accept ----------

  /** No limit that the attributes set on lengths is broken. */
  predicate LengthWithin(n: nat, a: Attrs) {
    !(a.minLength.Some? && n < a.minLength.value) && !(a.maxLength.Some? && a.maxLength.value < n)
  }

  predicate NumberWithin(x: real, a: Attrs) {
    !(a.minimum.Some? && x < a.minimum.value as real) && !(a.maximum.Some? && a.maximum.value as real < x)
  }

  function RealOf(n: int): real {
    n as real
  }

  ghost predicate Whole(x: real) {
    exists n :: x == RealOf(n)
  }

  lemma WholeIsInteger(x: real)
    ensures Whole(x) <==> IsInteger(x)
  {
    if IsInteger(x) {
      assert x == RealOf(x.Floor);
    }
    if n :| x == RealOf(n) {
      assert RealOf(n).Floor == n;
    }
  }

  /** `j` is the JSON form of a value of type `t`, integer ranges aside, within the limits that the
      attributes `a` set. Written without reference to any schema. */
  ghost predicate Meets(t: Ty, a: Attrs, j: Json) {
    match t
    case TString => j.Str? && LengthWithin(|j.s|, a)
    case TBool => j.Bool?
    case TInt(_) => j.Number? && Whole(j.n) && NumberWithin(j.n, a)
    case TNumber => j.Number? && NumberWithin(j.n, a)
    case TVec(elem) =>
      && j.Array? && LengthWithin(|j.items|, a)
      && forall i :: 0 <= i < |j.items| ==> Meets(elem, NO_ATTRS, j.items[i])
    case TOption(inner) =>
      // On an optional enum the length attributes also bound the variant's name.
      j.Null? || (Meets(inner, a, j) && (inner.TEnum? ==> LengthWithin(|j.s|, a)))
    case TStruct(fields) =>
      && j.Object?
      && (forall i :: 0 <= i < |fields| && fields[i].key in j.members ==>
            Meets(fields[i].ty, fields[i].attrs, j.members[fields[i].key]))
      && (forall i :: 0 <= i < |fields| && !fields[i].ty.TOption? ==> fields[i].key in j.members)
    case TEnum(variants) => j.Str? && j.s in variants
  }

  // ---------- The schema accepts exactly that ----------

  /** The name under `type`, for the types that have one. */
  function NameOf(t: Ty): string
    requires !t.TOption? && !t.TEnum?
  {
    match t
    case TString => "string"
    case TBool => "boolean"
    case TInt(_) => "integer"
    case TNumber => "number"
    case TVec(_) => "array"
    case TStruct(_) => "object"
  }

  /** The type under all `Option`s. */
  function Core(t: Ty): (c: Ty)
    ensures !c.TOption?
  {
    if t.TOption? then Core(t.inner) else t
  }

  /** No schema with a `type` also carries `enum`, `oneOf` or `anyOf`; exactly the enums and the
      options of enums have no `type`. */
  lemma {:induction false} TypeExcludesAlternatives(t: Ty, a: Attrs)
    ensures var s := ToSchema(t, a);
            && s.enumValues.None?
            && (s.typ.NoType? <==> Core(t).TEnum?)
            && (!s.typ.NoType? ==> s.oneOf.NoList? && s.anyOf.NoList?)
            && (!Core(t).TEnum? ==>
                  s.typ == if t.TOption? then TypeUnion([NameOf(Core(t)), "null"]) else OneType(NameOf(Core(t))))
  {
    if t.TOption? {
      TypeExcludesAlternatives(t.inner, a);
    }
  }

  /** Exactly one variant has the name. */
  ghost predicate NamedOnce(variants: seq<string>, name: string) {
    exists i :: 0 <= i < |variants| && variants[i] == name && name !in variants[..i] && name !in variants[i + 1..]
  }

  /** A schema of an enum accepts exactly the strings that name one variant and no other. */
  lemma EnumAcceptsNamedOnce(variants: seq<string>, a: Attrs, j: Json)
    ensures Validates(ToSchema(TEnum(variants), a), j) <==> j.Str? && NamedOnce(variants, j.s)
  {
    hide ToSchema, Validates, ExactlyOne, NamedOnce;
    OnlyOneOf(variants, a, j);
    if ExactlyOne(VariantSchemas(variants), j) {
      OneVariant(variants, j);
    }
    if j.Str? && NamedOnce(variants, j.s) {
      ThisVariant(variants, j);
    }
  }

  /** With distinct names, those that name a variant. */
  lemma EnumExact(variants: seq<string>, a: Attrs, j: Json)
    requires WellFormed(TEnum(variants))
    ensures Validates(ToSchema(TEnum(variants), a), j) <==> Meets(TEnum(variants), a, j)
  {
    hide ToSchema, Validates;
    EnumAcceptsNamedOnce(variants, a, j);
    if j.Str? && j.s in variants {
      var i :| 0 <= i < |variants| && variants[i] == j.s;
      assert j.s !in variants[..i] && j.s !in variants[i + 1..];
    }
  }

  lemma OneVariant(variants: seq<string>, j: Json)
    requires ExactlyOne(VariantSchemas(variants), j)
    ensures j.Str? && NamedOnce(variants, j.s)
  {
    var alternatives := VariantSchemas(variants);
    assert |alternatives| == |variants|;
    hide Validates, VariantSchemas;
    forall k | 0 <= k < |variants| ensures Validates(alternatives[k], j) <==> j == Str(variants[k]) {
      VariantAt(variants, k, j);
    }
    var i :| 0 <= i < |alternatives| && Validates(alternatives[i], j) &&
             forall k :: 0 <= k < |alternatives| && Validates(alternatives[k], j) ==> k == i;
    assert forall k :: 0 <= k < |variants| && k != i ==> variants[k] != j.s;
  }

  lemma ThisVariant(variants: seq<string>, j: Json)
    requires j.Str? && NamedOnce(variants, j.s)
    ensures ExactlyOne(VariantSchemas(variants), j)
  {
    var i :| 0 <= i < |variants| && variants[i] == j.s && j.s !in variants[..i] && j.s !in variants[i + 1..];
    var alternatives := VariantSchemas(variants);
    assert |alternatives| == |variants|;
    hide Validates, VariantSchemas, ExactlyOne;
    VariantAt(variants, i, j);
    forall k: nat | k < |alternatives| && k != i ensures !Validates(alternatives[k], j) {
      VariantAt(variants, k, j);
      assert if k < i then variants[..i][k] != j.s else variants[i + 1..][k - i - 1] != j.s;
    }
    ExactlyThisOne(alternatives, i, j);
  }

  lemma ExactlyThisOne(alternatives: seq<Schema>, i: nat, j: Json)
    requires i < |alternatives| && Validates(alternatives[i], j)
    requires forall k: nat :: k < |alternatives| && k != i ==> !Validates(alternatives[k], j)
    ensures ExactlyOne(alternatives, j)
  {
    hide Validates;
  }

  lemma VariantAt(variants: seq<string>, i: nat, j: Json)
    requires i < |variants|
    ensures Validates(VariantSchemas(variants)[i], j) <==> j == Str(variants[i])
  {
    hide Validates;
    VariantExact(variants[i], j);
  }

  lemma VariantExact(name: string, j: Json)
    ensures Validates(EMPTY.(enumValues := Some([Str(name)])), j) <==> j == Str(name)
  {
    assert j in [Str(name)] <==> j == Str(name);
  }

  lemma OnlyOneOf(variants: seq<string>, a: Attrs, j: Json)
    ensures Validates(ToSchema(TEnum(variants), a), j) <==> ExactlyOne(VariantSchemas(variants), j)
  {
    hide ExactlyOne;
  }

  /** Without the distinctness of variants, an enum schema still accepts only strings. */
  lemma EnumAcceptsStrings(variants: seq<string>, a: Attrs, j: Json)
    requires Validates(ToSchema(TEnum(variants), a), j)
    ensures j.Str?
  {
    OnlyOneOf(variants, a, j);
    var alternatives := VariantSchemas(variants);
    var i :| 0 <= i < |alternatives| && Validates(alternatives[i], j);
    assert j in [Str(variants[i])];
  }

  /** Validation of the wrapper that `Option` puts around a schema without a `type`. */
  lemma WrapperExact(s: Schema, a: Attrs, j: Json)
    ensures Validates(AddAll(EMPTY.(anyOf := List([s, NULL_SCHEMA])), a), j) <==>
            j.Null? || (Validates(s, j) && BoundsOk(AddAll(EMPTY, a).bounds, j))
  {
    var alternatives := [s, NULL_SCHEMA];
    assert Validates(NULL_SCHEMA, j) <==> j.Null?;
    assert AtLeastOne(alternatives, j) <==> Validates(s, j) || j.Null? by {
      assert alternatives[0] == s && alternatives[1] == NULL_SCHEMA;
    }
    hide AtLeastOne;
  }

  /** The nullability step, on any schema whose `type`, if it has one, stands alone: what it accepted
      before, and `null`. */
  lemma NullableMeansNullOr(s: Schema, j: Json)
    requires !s.typ.NoType? ==> s.enumValues.None? && s.oneOf.NoList? && s.anyOf.NoList?
    ensures Validates(Nullable(s), j) <==> j.Null? || Validates(s, j)
  {
    match s.typ
    case OneType(name) =>
      if name != "null" {
        WidenExact(s, name, j);
      } else {
        WrapperAlone(s, j);
      }
    case TypeUnion(names) =>
      UnionExact(s, names, j);
    case NoType =>
      WrapperAlone(s, j);
  }

  lemma WrapperAlone(s: Schema, j: Json)
    ensures Validates(EMPTY.(anyOf := List([s, NULL_SCHEMA])), j) <==> j.Null? || Validates(s, j)
  {
    var alternatives := [s, NULL_SCHEMA];
    assert Validates(NULL_SCHEMA, j) <==> j.Null?;
    assert AtLeastOne(alternatives, j) <==> Validates(s, j) || j.Null? by {
      assert alternatives[0] == s && alternatives[1] == NULL_SCHEMA;
    }
    hide AtLeastOne;
  }

  lemma UnionExact(s: Schema, names: seq<string>, j: Json)
    requires s.typ == TypeUnion(names) && s.enumValues.None? && s.oneOf.NoList? && s.anyOf.NoList?
    ensures Validates(if "null" in names then s else s.(typ := TypeUnion(names + ["null"])), j) <==>
            j.Null? || Validates(s, j)
  {
    var wider := names + ["null"];
    assert TypeOk(TypeUnion(wider), j) <==> j.Null? || TypeOk(TypeUnion(names), j) by {
      assert wider[|names|] == "null" && forall i :: 0 <= i < |names| ==> wider[i] == names[i];
    }
    if "null" in names {
      var i :| 0 <= i < |names| && names[i] == "null";
      assert j.Null? ==> HasType(names[i], j);
    }
    hide TypeOk;
  }

  /** Widening a `type` admits `null` and nothing else. */
  lemma WidenExact(s: Schema, name: string, j: Json)
    requires s.typ == OneType(name) && s.enumValues.None? && s.oneOf.NoList? && s.anyOf.NoList?
    ensures Validates(s.(typ := TypeUnion([name, "null"])), j) <==> j.Null? || Validates(s, j)
  {
    var names := [name, "null"];
    assert TypeOk(TypeUnion(names), j) <==> HasType(name, j) || HasType("null", j) by {
      assert names[0] == name && names[1] == "null";
    }
    hide TypeOk;
    assert TypeOk(OneType(name), j) == HasType(name, j) by { TypeOkOne(name, j); }
  }

  lemma TypeOkOne(name: string, j: Json)
    ensures TypeOk(OneType(name), j) == HasType(name, j)
  {
  }

  /** On a plain type, what `Option` inserts again or besides never changes a verdict. */
  lemma AddAllIsHarmless(t: Ty, a: Attrs, j: Json)
    requires !t.TOption? && !t.TEnum?
    ensures var s := ToSchema(t, a).(typ := TypeUnion([NameOf(t), "null"]));
            Validates(AddAll(s, a), j) <==> Validates(s, j)
  {
    var s := ToSchema(t, a).(typ := TypeUnion([NameOf(t), "null"]));
    var s' := AddAll(s, a);
    if TypeOk(s.typ, j) {
      assert HasType(NameOf(t), j) || j.Null?;
      assert BoundsOk(s'.bounds, j) <==> BoundsOk(s.bounds, j);
    }
    assert s' == s.(bounds := s'.bounds, notes := s'.notes);
    hide ToSchema, AddAll, BoundsOk, TypeOk;
  }

  /** Making an option of an option changes nothing when the core type has a `type`. */
  lemma NestedOption(u: Ty, a: Attrs)
    requires !Core(u).TEnum?
    ensures ToSchema(TOption(TOption(u)), a) == ToSchema(TOption(u), a)
  {
    TypeExcludesAlternatives(TOption(u), a);
  }

  /** The length attributes, read against a string; anything else passes. */
  predicate LengthFits(a: Attrs, j: Json) {
    j.Str? ==> LengthWithin(|j.s|, a)
  }

  /** The schema of `Option<T>` against the schema of `T`, for every type and all attributes: it
      accepts `null` and whatever `T`'s accepts, except that length attributes on a directly
      optional enum, which `T`'s own schema ignores, are asserted. */
  lemma {:induction false} OptionLaw(t: Ty, a: Attrs, j: Json)
    ensures Validates(ToSchema(TOption(t), a), j) <==>
            j.Null? || (Validates(ToSchema(t, a), j) && (t.TEnum? ==> LengthFits(a, j)))
  {
    TypeExcludesAlternatives(t, a);
    var s := ToSchema(t, a);
    if Core(t).TEnum? {
      WrapperExact(s, a, j);
      if Validates(s, j) {
        if t.TEnum? {
          EnumAcceptsStrings(t.variants, a, j);
        } else {
          assert s.bounds == AddAll(EMPTY, a).bounds;
          assert BoundsOk(s.bounds, j);
        }
      }
    } else if t.TOption? {
      NestedOption(t.inner, a);
      if j.Null? {
        OptionLaw(t.inner, a, j);
      }
    } else {
      WidenExact(s, NameOf(t), j);
      AddAllIsHarmless(t, a, j);
    }
  }

  /** `Option<T>` means "null or T" for every JSON value iff `T` is not an enum some variant of
      which breaks the length attributes. */
  lemma OptionMeansNullOr(t: Ty, a: Attrs)
    requires WellFormed(t)
    ensures (forall j :: Validates(ToSchema(TOption(t), a), j) <==> j.Null? || Validates(ToSchema(t, a), j)) <==>
            (t.TEnum? ==> forall i :: 0 <= i < |t.variants| ==> LengthFits(a, Str(t.variants[i])))
  {
    hide Validates, ToSchema, LengthFits;
    forall j ensures Validates(ToSchema(TOption(t), a), j) <==>
                     j.Null? || (Validates(ToSchema(t, a), j) && (t.TEnum? ==> LengthFits(a, j)))
    {
      OptionLaw(t, a, j);
    }
    if t.TEnum? {
      forall j ensures Validates(ToSchema(t, a), j) <==> j.Str? && j.s in t.variants {
        EnumExact(t.variants, a, j);
      }
      forall i | 0 <= i < |t.variants| ensures Validates(ToSchema(t, a), Str(t.variants[i])) {
        assert Str(t.variants[i]).s in t.variants;
      }
    }
  }

  /** The schema carries exactly the title, description and default given, and the format where the
      type is a string or an option. */
  lemma {:induction false} NotesAreTheAttributes(t: Ty, a: Attrs)
    ensures ToSchema(t, a).notes ==
            Notes(a.title, a.description, if t.TString? || t.TOption? then a.format else None, a.default)
  {
    if t.TOption? {
      NotesAreTheAttributes(t.inner, a);
    }
  }

  // ---------- Structs ----------

  ghost predicate DistinctKeys(fields: seq<Field>) {
    forall i, k :: 0 <= i < k < |fields| ==> fields[i].key != fields[k].key
  }

  lemma {:induction false} PropertyKeys(fields: seq<Field>, key: string)
    ensures key in PropertiesOf(fields) <==> exists i :: 0 <= i < |fields| && fields[i].key == key
  {
    hide ToSchema;
    if fields != [] {
      PropertyKeys(fields[1..], key);
      if key in PropertiesOf(fields[1..]) {
        var i :| 0 <= i < |fields[1..]| && fields[1..][i].key == key;
        assert fields[i + 1].key == key;
      }
      if i :| 0 <= i < |fields| && fields[i].key == key {
        assert i > 0 ==> fields[1..][i - 1].key == key;
      }
    }
  }

  lemma {:induction false} PropertyOfField(fields: seq<Field>, i: nat)
    requires DistinctKeys(fields) && i < |fields|
    ensures fields[i].key in PropertiesOf(fields)
    ensures PropertiesOf(fields)[fields[i].key] == ToSchema(fields[i].ty, fields[i].attrs)
  {
    hide ToSchema;
    if i == 0 {
      PropertyKeys(fields[1..], fields[0].key);
    } else {
      PropertyOfField(fields[1..], i - 1);
    }
  }

  lemma {:induction false} RequiredKeys(fields: seq<Field>, key: string)
    ensures key in RequiredOf(fields) <==>
            exists i :: 0 <= i < |fields| && !fields[i].ty.TOption? && fields[i].key == key
  {
    if fields != [] {
      RequiredKeys(fields[1..], key);
      if key in RequiredOf(fields[1..]) {
        var i :| 0 <= i < |fields[1..]| && !fields[1..][i].ty.TOption? && fields[1..][i].key == key;
        assert fields[i + 1].key == key;
      }
      if i :| 0 <= i < |fields| && !fields[i].ty.TOption? && fields[i].key == key {
        assert i > 0 ==> fields[1..][i - 1].key == key;
      }
    }
  }

  lemma StructParts(fields: seq<Field>, a: Attrs, j: Json)
    ensures Validates(ToSchema(TStruct(fields), a), j) <==>
            && j.Object? && RequiredOk(RequiredOf(fields), j) && PropertiesOk(Properties(PropertiesOf(fields)), j)
  {
    hide PropertiesOk, RequiredOk, PropertiesOf, RequiredOf;
  }

  lemma RequiredExact(fields: seq<Field>, j: Json)
    requires j.Object?
    ensures RequiredOk(RequiredOf(fields), j) <==>
            forall i :: 0 <= i < |fields| && !fields[i].ty.TOption? ==> fields[i].key in j.members
  {
    hide RequiredOf;
    forall key
      ensures key in RequiredOf(fields) <==>
              exists i :: 0 <= i < |fields| && !fields[i].ty.TOption? && fields[i].key == key
    {
      RequiredKeys(fields, key);
    }
  }

  lemma PropertiesExact(fields: seq<Field>, j: Json)
    requires DistinctKeys(fields) && j.Object?
    ensures PropertiesOk(Properties(PropertiesOf(fields)), j) <==>
            forall i :: 0 <= i < |fields| && fields[i].key in j.members ==>
                          Validates(ToSchema(fields[i].ty, fields[i].attrs), j.members[fields[i].key])
  {
    hide ToSchema, PropertiesOf, Validates;
    forall i | 0 <= i < |fields|
      ensures fields[i].key in PropertiesOf(fields)
      ensures PropertiesOf(fields)[fields[i].key] == ToSchema(fields[i].ty, fields[i].attrs)
    {
      PropertyOfField(fields, i);
    }
    forall key | key in PropertiesOf(fields)
      ensures exists i :: 0 <= i < |fields| && fields[i].key == key
    {
      PropertyKeys(fields, key);
    }
  }

  // ---------- The main theorem ----------

  lemma ScalarExact(t: Ty, a: Attrs, j: Json)
    requires t.TString? || t.TBool? || t.TInt? || t.TNumber?
    ensures Validates(ToSchema(t, a), j) <==> Meets(t, a, j)
  {
    if j.Number? {
      WholeIsInteger(j.n);
    }
    hide Whole, IsInteger;
  }

  lemma VecExact(elem: Ty, a: Attrs, j: Json)
    ensures Validates(ToSchema(TVec(elem), a), j) <==>
            && j.Array? && LengthWithin(|j.items|, a)
            && forall i :: 0 <= i < |j.items| ==> Validates(ToSchema(elem, NO_ATTRS), j.items[i])
  {
  }

  /** For every type, all attributes and every JSON value: the emitted schema accepts the value
      exactly when the value is the JSON form of the type, within the attributes' limits. */
  lemma {:induction false} SchemaIsExact(t: Ty, a: Attrs, j: Json)
    requires WellFormed(t)
    ensures Validates(ToSchema(t, a), j) <==> Meets(t, a, j)
    decreases t
  {
    hide ToSchema, Validates, LengthFits;
    match t
    case TVec(elem) =>
      VecExact(elem, a, j);
      if j.Array? {
        forall i | 0 <= i < |j.items|
          ensures Validates(ToSchema(elem, NO_ATTRS), j.items[i]) <==> Meets(elem, NO_ATTRS, j.items[i])
        {
          SchemaIsExact(elem, NO_ATTRS, j.items[i]);
        }
      }
    case TOption(inner) =>
      OptionLaw(inner, a, j);
      SchemaIsExact(inner, a, j);
      OptionalLength(inner, a, j);
    case TStruct(fields) =>
      StructParts(fields, a, j);
      if j.Object? {
        RequiredExact(fields, j);
        PropertiesExact(fields, j);
        forall i | 0 <= i < |fields| && fields[i].key in j.members
          ensures Validates(ToSchema(fields[i].ty, fields[i].attrs), j.members[fields[i].key]) <==>
                  Meets(fields[i].ty, fields[i].attrs, j.members[fields[i].key])
        {
          SchemaIsExact(fields[i].ty, fields[i].attrs, j.members[fields[i].key]);
        }
      }
    case TEnum(variants) =>
      EnumExact(variants, a, j);
    case _ =>
      ScalarExact(t, a, j);
  }

  lemma OptionalLength(inner: Ty, a: Attrs, j: Json)
    ensures Meets(TOption(inner), a, j) <==> j.Null? || (Meets(inner, a, j) && (inner.TEnum? ==> LengthFits(a, j)))
  {
  }
}
