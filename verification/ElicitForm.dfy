/** Form elicitation (`elicit/generator.rs`): decoding the content map a user sent back into the
    struct, and projecting an optional field's schema to a single type. */
module ElicitForm {
  import opened Sequences
  import opened JsonSchema
  import opened SchemaDerive
  import V = SchemaValues

  type i64 = n: int | -0x8000_0000_0000_0000 <= n < 0x8000_0000_0000_0000

  predicate IsI32(n: int) {
    -0x8000_0000 <= n < 0x8000_0000
  }

  /** One entry of the content map; also a decoded field value. */
  datatype Content = CString(s: string) | CBool(b: bool) | CInt(n: i64) | CStrings(items: seq<string>)

  /** The field types `match_type` supports. */
  datatype FormTy = FString | FBool | FI32 | FI64 | FStrings

  datatype FormField = FormField(key: string, ty: FormTy, optional: bool)

  datatype FormError = Missing(key: string) | Mismatch(key: string) | Overflow(key: string)

  type FormValue = seq<Option<Content>>

  // ---------- Decoding ----------

  /** `match_type`: the variant a type expects, and the conversion it applies. */
  function Convert(f: FormField, c: Content): Result<Content, FormError> {
    match (f.ty, c)
    case (FString, CString(_)) => Ok(c)
    case (FBool, CBool(_)) => Ok(c)
    case (FI32, CInt(n)) => if IsI32(n) then Ok(c) else Err(Overflow(f.key))
    case (FI64, CInt(_)) => Ok(c)
    case (FStrings, CStrings(_)) => Ok(c)
    case _ => Err(Mismatch(f.key))
  }

  /** The block emitted for one field, applied to what `map.remove` returned. */
  function DecodeEntry(f: FormField, entry: Option<Content>): Result<Option<Content>, FormError> {
    match entry
    case None => if f.optional then Ok(None) else Err(Missing(f.key))
    case Some(c) => (match Convert(f, c) case Ok(v) => Ok(Some(v)) case Err(e) => Err(e))
  }

  function Lookup(content: map<string, Content>, key: string): Option<Content> {
    if key in content then Some(content[key]) else None
  }

  /** What field `i` finds: nothing, if an earlier field took its key. */
  function Entry(fields: seq<FormField>, content: map<string, Content>, i: nat): Option<Content>
    requires i < |fields|
  {
    if exists k :: 0 <= k < i && fields[k].key == fields[i].key then None else Lookup(content, fields[i].key)
  }

  /** `from_elicit_result_content`: on success every field holds what its own entry decodes to; on
      failure the error is that of the first field that fails. */
  method FromContent(fields: seq<FormField>, content: Option<map<string, Content>>)
    returns (r: Result<FormValue, FormError>)
    ensures var c := if content.Some? then content.value else map[];
            match r
            case Ok(vs) => Decodes(fields, c, vs)
            case Err(e) =>
              exists i :: 0 <= i < |fields| && DecodeEntry(fields[i], Entry(fields, c, i)) == Err(e) &&
                          forall k :: 0 <= k < i ==> DecodeEntry(fields[k], Entry(fields, c, k)).Ok?
  {
    hide DecodeEntry;
    var m := if content.Some? then content.value else map[];
    ghost var c := m;
    var vs: FormValue := [];
    for i := 0 to |fields|
      invariant |vs| == i
      invariant forall key :: Lookup(m, key) ==
                              if exists k :: 0 <= k < i && fields[k].key == key then None else Lookup(c, key)
      invariant forall k :: 0 <= k < i ==> DecodeEntry(fields[k], Entry(fields, c, k)) == Ok(vs[k])
    {
      var entry := Lookup(m, fields[i].key);
      m := m - {fields[i].key};
      assert entry == Entry(fields, c, i);
      var v := DecodeEntry(fields[i], entry);
      if v.Err? {
        return Err(v.error);
      }
      vs := vs + [v.value];
    }
    r := Ok(vs);
  }

  ghost predicate Distinct(fields: seq<FormField>) {
    forall i, k :: 0 <= i < k < |fields| ==> fields[i].key != fields[k].key
  }

  /** The decoded form, as a relation between a content map and a struct. */
  ghost predicate Decodes(fields: seq<FormField>, content: map<string, Content>, vs: FormValue) {
    |vs| == |fields| && forall i :: 0 <= i < |fields| ==> DecodeEntry(fields[i], Entry(fields, content, i)) == Ok(vs[i])
  }

  /** The values of a Rust type. */
  predicate OfType(c: Content, ty: FormTy) {
    match ty
    case FString => c.CString?
    case FBool => c.CBool?
    case FI32 => c.CInt? && -0x8000_0000 <= c.n <= 0x7FFF_FFFF
    case FI64 => c.CInt?
    case FStrings => c.CStrings?
  }

  /** A struct value: every field holds a value of its type, or is absent and optional. */
  ghost predicate WellTyped(fields: seq<FormField>, vs: FormValue) {
    && |vs| == |fields|
    && forall i :: 0 <= i < |fields| ==>
         if vs[i].Some? then OfType(vs[i].value, fields[i].ty) else fields[i].optional
  }

  /** The decoder hands on the entry itself, and does so iff it is of the field's type, or absent and
      optional. */
  lemma DecodesToItself(f: FormField, entry: Option<Content>, v: Option<Content>)
    ensures DecodeEntry(f, entry) == Ok(v) <==>
            v == entry && if entry.Some? then OfType(entry.value, f.ty) else f.optional
  {
  }

  /** A content map decodes to a struct iff the struct is well typed and holds exactly the entries of
      the map under its fields' keys. */
  lemma DecodesExactly(fields: seq<FormField>, content: map<string, Content>, vs: FormValue)
    requires Distinct(fields)
    ensures Decodes(fields, content, vs) <==>
            && WellTyped(fields, vs)
            && forall i :: 0 <= i < |fields| ==>
                 vs[i] == if fields[i].key in content then Some(content[fields[i].key]) else None
  {
    hide DecodeEntry, OfType;
    if |vs| == |fields| {
      forall i | 0 <= i < |fields|
        ensures DecodeEntry(fields[i], Entry(fields, content, i)) == Ok(vs[i]) <==>
                && (if vs[i].Some? then OfType(vs[i].value, fields[i].ty) else fields[i].optional)
                && vs[i] == if fields[i].key in content then Some(content[fields[i].key]) else None
      {
        DecodesToItself(fields[i], Entry(fields, content, i), vs[i]);
      }
    }
  }

  /** The kind of value that a type expects, whatever its range. */
  predicate SameKind(c: Content, ty: FormTy) {
    OfType(c, ty) || (ty.FI32? && c.CInt?)
  }

  /** When a field fails, and with which error: it is required and absent, holds another kind of value,
      or holds an integer beyond its range. */
  lemma FailsWith(f: FormField, entry: Option<Content>, e: FormError)
    ensures DecodeEntry(f, entry) == Err(e) <==>
            match e
            case Missing(key) => key == f.key && entry.None? && !f.optional
            case Mismatch(key) => key == f.key && entry.Some? && !SameKind(entry.value, f.ty)
            case Overflow(key) =>
              key == f.key && entry.Some? && SameKind(entry.value, f.ty) && !OfType(entry.value, f.ty)
  {
  }

  /** The content map of a struct: an entry for every field that is present. */
  function ToContent(fields: seq<FormField>, vs: FormValue): map<string, Content>
    requires |vs| == |fields|
  {
    if fields == [] then map[]
    else
      (match vs[0] case Some(c) => map[fields[0].key := c] case None => map[]) + ToContent(fields[1..], vs[1..])
  }

  lemma {:induction false} ContentKeys(fields: seq<FormField>, vs: FormValue, key: string)
    requires |vs| == |fields|
    requires forall i :: 0 <= i < |fields| ==> fields[i].key != key
    ensures key !in ToContent(fields, vs)
  {
    if fields != [] {
      ContentKeys(fields[1..], vs[1..], key);
    }
  }

  lemma {:induction false} ContentAt(fields: seq<FormField>, vs: FormValue, i: nat)
    requires |vs| == |fields| && i < |fields| && Distinct(fields)
    ensures Lookup(ToContent(fields, vs), fields[i].key) == vs[i]
  {
    if i == 0 {
      ContentKeys(fields[1..], vs[1..], fields[0].key);
    } else {
      ContentAt(fields[1..], vs[1..], i - 1);
    }
  }

  /** Decoding the content map of a struct returns that struct, whatever unknown entries come with it. */
  lemma ContentRoundTrip(fields: seq<FormField>, vs: FormValue, extra: map<string, Content>)
    requires Distinct(fields) && WellTyped(fields, vs)
    requires forall i :: 0 <= i < |fields| ==> fields[i].key !in extra
    ensures Decodes(fields, extra + ToContent(fields, vs), vs)
  {
    hide DecodeEntry, ToContent, OfType;
    var content := extra + ToContent(fields, vs);
    forall i | 0 <= i < |fields|
      ensures vs[i] == if fields[i].key in content then Some(content[fields[i].key]) else None
    {
      ContentAt(fields, vs, i);
    }
    DecodesExactly(fields, content, vs);
  }

  /** A content map decodes to at most one struct, and that struct is well typed. */
  lemma DecodesIsAFunction(fields: seq<FormField>, content: map<string, Content>, vs: FormValue, ws: FormValue)
    requires Decodes(fields, content, vs) && Decodes(fields, content, ws)
    ensures vs == ws && WellTyped(fields, vs)
  {
    forall i | 0 <= i < |fields|
      ensures vs[i] == ws[i] && if vs[i].Some? then OfType(vs[i].value, fields[i].ty) else fields[i].optional
    {
      DecodesToItself(fields[i], Entry(fields, content, i), vs[i]);
    }
  }

  // ---------- The decoder and the derived schema ----------

  function TypeOf(f: FormField): Ty {
    var t := match f.ty
      case FString => TString
      case FBool => TBool
      case FI32 => TInt(Between(-0x8000_0000, 0x7FFF_FFFF))
      case FI64 => TInt(Between(-0x8000_0000_0000_0000, 0x7FFF_FFFF_FFFF_FFFF))
      case FStrings => TVec(TString);
    if f.optional then TOption(t) else t
  }

  function StructOf(fields: seq<FormField>): Ty {
    TStruct(seq(|fields|, i requires 0 <= i < |fields| => Field(fields[i].key, TypeOf(fields[i]), NO_ATTRS)))
  }

  function ContentJson(c: Content): Json {
    match c
    case CString(s) => Str(s)
    case CBool(b) => Bool(b)
    case CInt(n) => Number(n as real)
    case CStrings(items) => Array(seq(|items|, i requires 0 <= i < |items| => Str(items[i])))
  }

  function ContentObject(content: map<string, Content>): Json {
    Object(map k | k in content :: ContentJson(content[k]))
  }

  /** No entry for an `i32` field is an integer out of its range. */
  predicate I32sFit(fields: seq<FormField>, content: map<string, Content>) {
    forall i :: 0 <= i < |fields| && fields[i].ty.FI32? && fields[i].key in content && content[fields[i].key].CInt? ==>
                  IsI32(content[fields[i].key].n)
  }

  lemma ConvertVersusMeets(f: FormField, c: Content)
    ensures Convert(f, c).Ok? <==>
            Meets(TypeOf(f), NO_ATTRS, ContentJson(c)) && (f.ty.FI32? && c.CInt? ==> IsI32(c.n))
  {
    if c.CInt? {
      assert (c.n as real).Floor == c.n;
      WholeIsInteger(c.n as real);
    }
    if c.CStrings? {
      assert forall i :: 0 <= i < |c.items| ==> Meets(TString, NO_ATTRS, Str(c.items[i]));
    }
  }

  /** What the decoder takes for a field is what serde's derived code takes for its type. */
  lemma DecodesLikeSerde(f: FormField, c: Content)
    ensures Convert(f, c).Ok? <==> V.Decode(TypeOf(f), ContentJson(c)).Some?
  {
    match c
    case CInt(n) =>
      assert (n as real).Floor == n;
    case CStrings(items) =>
      var js := ContentJson(c).items;
      V.ItemsDecode(TString, js);
      assert forall i :: 0 <= i < |js| ==> V.Decode(TString, js[i]).Some?;
    case _ =>
  }

  lemma StructOfWellFormed(fields: seq<FormField>)
    requires Distinct(fields)
    ensures WellFormed(StructOf(fields))
  {
  }

  /** The decoder succeeds exactly when the derived schema accepts the content and no `i32` field
      holds an integer beyond its range: both generators agree on keys, types and what is required. */
  lemma DecodableIffSchemaAccepts(fields: seq<FormField>, content: map<string, Content>)
    requires Distinct(fields)
    ensures (exists vs :: Decodes(fields, content, vs)) <==>
            Validates(ToSchema(StructOf(fields), NO_ATTRS), ContentObject(content)) && I32sFit(fields, content)
  {
    hide ToSchema, Validates, DecodeEntry, TypeOf, Convert, ContentJson;
    StructOfWellFormed(fields);
    var j := ContentObject(content);
    SchemaIsExact(StructOf(fields), NO_ATTRS, j);
    forall i | 0 <= i < |fields|
      ensures DecodeEntry(fields[i], Entry(fields, content, i)).Ok? <==> EntryFits(fields[i], content)
    {
      EntryOk(fields[i], content);
    }
    if forall i :: 0 <= i < |fields| ==> EntryFits(fields[i], content) {
      var vs := seq(|fields|, i requires 0 <= i < |fields| => DecodeEntry(fields[i], Entry(fields, content, i)).value);
      assert Decodes(fields, content, vs);
    }
    AllFit(fields, content);
  }

  ghost predicate EntryFits(f: FormField, content: map<string, Content>) {
    if f.key in content then
      Meets(TypeOf(f), NO_ATTRS, ContentJson(content[f.key])) &&
      (f.ty.FI32? && content[f.key].CInt? ==> IsI32(content[f.key].n))
    else f.optional
  }

  lemma EntryOk(f: FormField, content: map<string, Content>)
    ensures DecodeEntry(f, Lookup(content, f.key)).Ok? <==> EntryFits(f, content)
  {
    if f.key in content {
      hide Meets, TypeOf;
      ConvertVersusMeets(f, content[f.key]);
    }
  }

  lemma AllFit(fields: seq<FormField>, content: map<string, Content>)
    ensures (forall i :: 0 <= i < |fields| ==> EntryFits(fields[i], content)) <==>
            Meets(StructOf(fields), NO_ATTRS, ContentObject(content)) && I32sFit(fields, content)
  {
    var fs := StructOf(fields).fields;
    var members := ContentObject(content).members;
    forall i | 0 <= i < |fields|
      ensures fs[i] == Field(fields[i].key, TypeOf(fields[i]), NO_ATTRS) && (fs[i].ty.TOption? <==> fields[i].optional)
    {
    }
    assert forall k :: k in members <==> k in content;
    hide StructOf, TypeOf, ContentJson;
    if Meets(StructOf(fields), NO_ATTRS, ContentObject(content)) && I32sFit(fields, content) {
      forall i | 0 <= i < |fields| ensures EntryFits(fields[i], content) {
        assert fs[i].key == fields[i].key;
      }
    }
    if forall i :: 0 <= i < |fields| ==> EntryFits(fields[i], content) {
      forall i | 0 <= i < |fs|
        ensures fs[i].key in members ==> Meets(fs[i].ty, fs[i].attrs, members[fs[i].key])
        ensures !fs[i].ty.TOption? ==> fs[i].key in members
      {
        assert EntryFits(fields[i], content);
      }
    }
  }

  // ---------- Projecting an optional field's schema ----------

  function NonNull(names: seq<string>): seq<string> {
    if names == [] then [] else (if names[0] == "null" then [] else [names[0]]) + NonNull(names[1..])
  }

  /** `__mcp_strip_null_from_type`: collapses only a two-member union with exactly one `"null"`. */
  function StripNull(s: Schema): Schema {
    match s.typ
    case TypeUnion(names) =>
      var rest := NonNull(names);
      if |names| == 2 && |names| - |rest| == 1 && |rest| == 1 then s.(typ := OneType(rest[0])) else s
    case _ => s
  }

  lemma StripUnion(s: Schema, name: string)
    requires s.typ == TypeUnion([name, "null"]) && name != "null"
    ensures StripNull(s) == s.(typ := OneType(name))
  {
    assert [name, "null"][1..] == ["null"] && ["null"][1..] == [];
    assert NonNull(["null"]) == [] && NonNull([name, "null"]) == [name];
  }

  /** No attribute makes `Option` insert more than the schema of `t` has: formats and lengths come on a
      string only, limits on a number only. (A vector turns lengths into item counts; its option adds
      string lengths beside them.) */
  predicate Applicable(t: Ty, a: Attrs) {
    && (t.TString? || (a.format.None? && a.minLength.None? && a.maxLength.None?))
    && (t.TInt? || t.TNumber? || (a.minimum.None? && a.maximum.None?))
  }

  /** For a type with a `type` keyword of its own: stripping is exact on the emitted union. */
  lemma StripOfOption(t: Ty, a: Attrs)
    requires !t.TOption? && !t.TEnum?
    ensures StripNull(ToSchema(TOption(t), a)) == AddAll(ToSchema(t, a), a)
  {
    TypeExcludesAlternatives(t, a);
    var s := ToSchema(TOption(t), a);
    assert s == AddAll(ToSchema(t, a).(typ := TypeUnion([NameOf(t), "null"])), a);
    StripUnion(s, NameOf(t));
  }

  /** Stripping `null` from the schema of `Option<T>` gives back the schema of `T` iff `T` is
      neither an enum nor an option and every given attribute applies to `T`. */
  lemma StripGivesInnerIff(t: Ty, a: Attrs)
    ensures StripNull(ToSchema(TOption(t), a)) == ToSchema(t, a) <==>
            !t.TOption? && !t.TEnum? && Applicable(t, a)
  {
    if t.TOption? {
      StripOfNested(t.inner, a);
    } else if t.TEnum? {
      assert ToSchema(TOption(t), a).typ.NoType? && ToSchema(TOption(t), a).anyOf.List?;
    } else {
      StripOfOption(t, a);
      NothingAddedIff(t, a);
      hide StripNull, ToSchema, AddAll, Applicable;
    }
  }

  lemma NothingAddedIff(t: Ty, a: Attrs)
    requires !t.TOption? && !t.TEnum?
    ensures AddAll(ToSchema(t, a), a) == ToSchema(t, a) <==> Applicable(t, a)
  {
  }

  lemma StripOfNested(u: Ty, a: Attrs)
    ensures StripNull(ToSchema(TOption(TOption(u)), a)) != ToSchema(TOption(u), a)
  {
    var s, s' := ToSchema(TOption(u), a), ToSchema(TOption(TOption(u)), a);
    TypeExcludesAlternatives(TOption(u), a);
    if Core(u).TEnum? {
      assert s'.anyOf == List([s, NULL_SCHEMA]);
      assert s'.anyOf.schemas[0] == s;
      assert StripNull(s') == s';
      assert s < s'.anyOf;
    } else {
      NestedOption(u, a);
      StripUnion(s', NameOf(Core(u)));
    }
  }

  /** Whatever the attributes, the projected schema accepts exactly what the schema of `T` accepts. */
  lemma StrippedAcceptsTheSame(t: Ty, a: Attrs, j: Json)
    requires !t.TOption? && !t.TEnum?
    ensures Validates(StripNull(ToSchema(TOption(t), a)), j) <==> Validates(ToSchema(t, a), j)
  {
    StripOfOption(t, a);
    var s := ToSchema(t, a);
    var s' := AddAll(s, a);
    if TypeOk(s.typ, j) {
      assert HasType(NameOf(t), j);
      assert BoundsOk(s'.bounds, j) <==> BoundsOk(s.bounds, j);
    }
    assert s' == s.(bounds := s'.bounds, notes := s'.notes);
    hide ToSchema, AddAll, BoundsOk, TypeOk, StripNull;
  }
}
