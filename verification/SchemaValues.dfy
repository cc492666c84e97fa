/** The values behind the schemas: what serde's derived code writes for a value of a type and what
    it reads back, and how the derived schema relates to both. */
module SchemaValues {
  import opened Sequences
  import opened JsonSchema
  import opened SchemaDerive

  datatype Val =
    | VStr(s: string)
    | VBool(b: bool)
    | VInt(n: int)
    | VNum(r: real)
    | VVec(items: seq<Val>)
    | VNone
    | VSome(v: Val)
    | VStruct(fields: seq<Val>)
    | VUnit(name: string)

  predicate InRange(n: int, r: Range) {
    r.Between? ==> r.lo <= n <= r.hi
  }

  ghost predicate HasTy(v: Val, t: Ty)
    decreases t
  {
    match t
    case TString => v.VStr?
    case TBool => v.VBool?
    case TInt(range) => v.VInt? && InRange(v.n, range)
    case TNumber => v.VNum?
    case TVec(elem) => v.VVec? && forall i :: 0 <= i < |v.items| ==> HasTy(v.items[i], elem)
    case TOption(inner) => v.VNone? || (v.VSome? && HasTy(v.v, inner))
    case TStruct(fields) =>
      v.VStruct? && |v.fields| == |fields| && forall i :: 0 <= i < |fields| ==> HasTy(v.fields[i], fields[i].ty)
    case TEnum(variants) => v.VUnit? && v.name in variants
  }

  // ---------- Serialising and deserialising ----------

  /** `Serialize`: an absent option is written as `null`. */
  ghost function Encode(t: Ty, v: Val): Json
    requires HasTy(v, t)
    decreases t, 1
  {
    match t
    case TString => Str(v.s)
    case TBool => Bool(v.b)
    case TInt(_) => Number(v.n as real)
    case TNumber => Number(v.r)
    case TVec(elem) => Array(seq(|v.items|, i requires 0 <= i < |v.items| => Encode(elem, v.items[i])))
    case TOption(inner) => if v.VNone? then Null else Encode(inner, v.v)
    case TStruct(fields) => Object(EncodeFields(fields, v.fields))
    case TEnum(_) => Str(v.name)
  }

  ghost function EncodeFields(fields: seq<Field>, vs: seq<Val>): map<string, Json>
    requires |vs| == |fields| && forall i :: 0 <= i < |fields| ==> HasTy(vs[i], fields[i].ty)
    decreases fields, 0
  {
    if fields == [] then map[]
    else map[fields[0].key := Encode(fields[0].ty, vs[0])] + EncodeFields(fields[1..], vs[1..])
  }

  /** `Deserialize`: an optional field may be missing, unknown members are ignored. */
  function Decode(t: Ty, j: Json): Option<Val>
    decreases t, 2
  {
    match t
    case TString => if j.Str? then Some(VStr(j.s)) else None
    case TBool => if j.Bool? then Some(VBool(j.b)) else None
    case TInt(range) =>
      if j.Number? && IsInteger(j.n) && InRange(j.n.Floor, range) then Some(VInt(j.n.Floor)) else None
    case TNumber => if j.Number? then Some(VNum(j.n)) else None
    case TVec(elem) =>
      if j.Array? then (match DecodeItems(elem, j.items) case Some(vs) => Some(VVec(vs)) case None => None) else None
    case TOption(inner) =>
      if j.Null? then Some(VNone) else (match Decode(inner, j) case Some(v) => Some(VSome(v)) case None => None)
    case TStruct(fields) =>
      if j.Object? then (match DecodeFields(fields, j.members) case Some(vs) => Some(VStruct(vs)) case None => None)
      else None
    case TEnum(variants) => if j.Str? && j.s in variants then Some(VUnit(j.s)) else None
  }

  function DecodeItems(elem: Ty, items: seq<Json>): Option<seq<Val>>
    decreases elem, 3, |items|
  {
    if items == [] then Some([])
    else
      match (Decode(elem, items[0]), DecodeItems(elem, items[1..]))
      case (Some(v), Some(vs)) => Some([v] + vs)
      case _ => None
  }

  function DecodeField(f: Field, members: map<string, Json>): Option<Val>
    decreases f, 0
  {
    if f.key in members then Decode(f.ty, members[f.key])
    else if f.ty.TOption? then Some(VNone)
    else None
  }

  function DecodeFields(fields: seq<Field>, members: map<string, Json>): Option<seq<Val>>
    decreases fields, 1
  {
    if fields == [] then Some([])
    else
      match (DecodeField(fields[0], members), DecodeFields(fields[1..], members))
      case (Some(v), Some(vs)) => Some([v] + vs)
      case _ => None
  }

  lemma {:induction false} ItemsDecode(elem: Ty, items: seq<Json>)
    ensures DecodeItems(elem, items).Some? <==> forall i :: 0 <= i < |items| ==> Decode(elem, items[i]).Some?
    ensures DecodeItems(elem, items).Some? ==>
              var vs := DecodeItems(elem, items).value;
              |vs| == |items| && forall i :: 0 <= i < |items| ==> Decode(elem, items[i]) == Some(vs[i])
    decreases |items|
  {
    hide Decode;
    if items != [] {
      ItemsDecode(elem, items[1..]);
      assert forall i :: 0 < i < |items| ==> items[i] == items[1..][i - 1];
    }
  }

  lemma {:induction false} FieldsDecode(fields: seq<Field>, members: map<string, Json>)
    ensures DecodeFields(fields, members).Some? <==>
            forall i :: 0 <= i < |fields| ==> DecodeField(fields[i], members).Some?
    ensures DecodeFields(fields, members).Some? ==>
              var vs := DecodeFields(fields, members).value;
              |vs| == |fields| && forall i :: 0 <= i < |fields| ==> DecodeField(fields[i], members) == Some(vs[i])
  {
    hide DecodeField;
    if fields != [] {
      FieldsDecode(fields[1..], members);
      assert forall i :: 0 < i < |fields| ==> fields[i] == fields[1..][i - 1];
    }
  }

  // ---------- Reading back what was written ----------

  /** Nested options share one `null`: `Some(None)` is read back as `None`. */
  ghost function Collapse(t: Ty, v: Val): Val
    requires HasTy(v, t)
    decreases t
  {
    match t
    case TVec(elem) => VVec(seq(|v.items|, i requires 0 <= i < |v.items| => Collapse(elem, v.items[i])))
    case TOption(inner) =>
      if v.VNone? then VNone
      else
        var w := Collapse(inner, v.v);
        if inner.TOption? && w.VNone? then VNone else VSome(w)
    case TStruct(fields) =>
      VStruct(seq(|fields|, i requires 0 <= i < |fields| => Collapse(fields[i].ty, v.fields[i])))
    case _ => v
  }

  lemma {:induction false} NullIsNone(t: Ty, v: Val)
    requires HasTy(v, t)
    ensures Encode(t, v).Null? <==> t.TOption? && Collapse(t, v).VNone?
  {
    if t.TOption? && v.VSome? {
      NullIsNone(t.inner, v.v);
    }
  }

  lemma {:induction false} EncodedMember(fields: seq<Field>, vs: seq<Val>, i: nat)
    requires DistinctKeys(fields) && i < |fields| == |vs|
    requires forall k :: 0 <= k < |fields| ==> HasTy(vs[k], fields[k].ty)
    ensures fields[i].key in EncodeFields(fields, vs)
    ensures EncodeFields(fields, vs)[fields[i].key] == Encode(fields[i].ty, vs[i])
  {
    hide Encode, HasTy;
    if i == 0 {
      EncodedKeys(fields[1..], vs[1..]);
    } else {
      EncodedMember(fields[1..], vs[1..], i - 1);
    }
  }

  lemma {:induction false} EncodedKeys(fields: seq<Field>, vs: seq<Val>)
    requires |vs| == |fields| && forall i :: 0 <= i < |fields| ==> HasTy(vs[i], fields[i].ty)
    ensures forall key :: key in EncodeFields(fields, vs) ==> exists i :: 0 <= i < |fields| && fields[i].key == key
  {
    hide Encode, HasTy;
    if fields != [] {
      EncodedKeys(fields[1..], vs[1..]);
      assert forall i :: 0 < i < |fields| ==> fields[i] == fields[1..][i - 1];
      assert fields[0].key == fields[0].key;
    }
  }

  /** Serialising and deserialising returns the value, up to nested options. */
  lemma {:induction false} DecodeEncode(t: Ty, v: Val)
    requires WellFormed(t) && HasTy(v, t)
    ensures Decode(t, Encode(t, v)) == Some(Collapse(t, v))
    decreases t
  {
    match t
    case TVec(elem) =>
      var items := Encode(t, v).items;
      forall i | 0 <= i < |items|
        ensures Decode(elem, items[i]) == Some(Collapse(elem, v.items[i]))
      {
        DecodeEncode(elem, v.items[i]);
      }
      hide Decode, Encode, Collapse;
      DecodedVec(elem, v, items);
    case TOption(inner) =>
      if v.VSome? {
        DecodeEncode(inner, v.v);
        NullIsNone(inner, v.v);
      }
    case TStruct(fields) =>
      var members := Encode(t, v).members;
      forall i | 0 <= i < |fields|
        ensures DecodeField(fields[i], members) == Some(Collapse(fields[i].ty, v.fields[i]))
      {
        DecodeEncode(fields[i].ty, v.fields[i]);
        EncodedMember(fields, v.fields, i);
      }
      hide Decode, Encode, Collapse, DecodeField;
      DecodedStruct(fields, v, members);
    case _ =>
  }

  lemma DecodedVec(elem: Ty, v: Val, items: seq<Json>)
    requires HasTy(v, TVec(elem)) && |items| == |v.items|
    requires forall i :: 0 <= i < |items| ==> Decode(elem, items[i]) == Some(Collapse(elem, v.items[i]))
    ensures Decode(TVec(elem), Array(items)) == Some(Collapse(TVec(elem), v))
  {
    ItemsDecode(elem, items);
    assert DecodeItems(elem, items).value == Collapse(TVec(elem), v).items;
  }

  lemma DecodedStruct(fields: seq<Field>, v: Val, members: map<string, Json>)
    requires HasTy(v, TStruct(fields))
    requires forall i :: 0 <= i < |fields| ==>
                           DecodeField(fields[i], members) == Some(Collapse(fields[i].ty, v.fields[i]))
    ensures Decode(TStruct(fields), Object(members)) == Some(Collapse(TStruct(fields), v))
  {
    FieldsDecode(fields, members);
    assert DecodeFields(fields, members).value == Collapse(TStruct(fields), v).fields;
  }

  // ---------- Schemas and deserialising ----------

  predicate Unconstrained(a: Attrs) {
    a.minLength.None? && a.maxLength.None? && a.minimum.None? && a.maximum.None?
  }

  /** No field anywhere carries a limiting attribute. */
  ghost predicate Plain(t: Ty) {
    match t
    case TVec(elem) => Plain(elem)
    case TOption(inner) => Plain(inner)
    case TStruct(fields) =>
      forall i :: 0 <= i < |fields| ==> Unconstrained(fields[i].attrs) && Plain(fields[i].ty)
    case _ => true
  }

  /** No integer in the type has a fixed width. */
  predicate Unranged(t: Ty) {
    match t
    case TInt(range) => range.Any?
    case TVec(elem) => Unranged(elem)
    case TOption(inner) => Unranged(inner)
    case TStruct(fields) => forall i :: 0 <= i < |fields| ==> Unranged(fields[i].ty)
    case _ => true
  }

  /** What can be deserialised is what the type describes, and conversely when no integer has a
      fixed width. */
  lemma {:induction false} DecodeVersusMeets(t: Ty, a: Attrs, j: Json)
    requires Plain(t) && Unconstrained(a)
    ensures Decode(t, j).Some? ==> Meets(t, a, j)
    ensures Unranged(t) && Meets(t, a, j) ==> Decode(t, j).Some?
    decreases t
  {
    match t
    case TVec(elem) =>
      if j.Array? {
        ItemsDecode(elem, j.items);
        forall i | 0 <= i < |j.items|
          ensures Decode(elem, j.items[i]).Some? ==> Meets(elem, NO_ATTRS, j.items[i])
          ensures Unranged(elem) && Meets(elem, NO_ATTRS, j.items[i]) ==> Decode(elem, j.items[i]).Some?
        {
          DecodeVersusMeets(elem, NO_ATTRS, j.items[i]);
        }
      }
    case TOption(inner) =>
      DecodeVersusMeets(inner, a, j);
    case TStruct(fields) =>
      if j.Object? {
        FieldsDecode(fields, j.members);
        forall i | 0 <= i < |fields| && fields[i].key in j.members
          ensures Decode(fields[i].ty, j.members[fields[i].key]).Some? ==>
                    Meets(fields[i].ty, fields[i].attrs, j.members[fields[i].key])
          ensures Unranged(fields[i].ty) && Meets(fields[i].ty, fields[i].attrs, j.members[fields[i].key]) ==>
                    Decode(fields[i].ty, j.members[fields[i].key]).Some?
        {
          DecodeVersusMeets(fields[i].ty, fields[i].attrs, j.members[fields[i].key]);
        }
        StructDecodeVersusMeets(fields, j.members, a);
      }
    case TInt(_) =>
      if j.Number? {
        WholeIsInteger(j.n);
      }
    case _ =>
  }

  lemma StructDecodeVersusMeets(fields: seq<Field>, members: map<string, Json>, a: Attrs)
    requires forall i :: 0 <= i < |fields| && fields[i].key in members ==>
               && (Decode(fields[i].ty, members[fields[i].key]).Some? ==>
                     Meets(fields[i].ty, fields[i].attrs, members[fields[i].key]))
               && (Unranged(fields[i].ty) && Meets(fields[i].ty, fields[i].attrs, members[fields[i].key]) ==>
                     Decode(fields[i].ty, members[fields[i].key]).Some?)
    ensures Decode(TStruct(fields), Object(members)).Some? ==> Meets(TStruct(fields), a, Object(members))
    ensures Unranged(TStruct(fields)) && Meets(TStruct(fields), a, Object(members)) ==>
              Decode(TStruct(fields), Object(members)).Some?
  {
    FieldsDecode(fields, members);
  }

  /** Every deserialisable value passes the schema; in particular every serialised one does. */
  lemma DecodableValidates(t: Ty, a: Attrs, j: Json)
    requires WellFormed(t) && Plain(t) && Unconstrained(a)
    requires Decode(t, j).Some?
    ensures Validates(ToSchema(t, a), j)
  {
    DecodeVersusMeets(t, a, j);
    SchemaIsExact(t, a, j);
  }

  lemma EncodedValidates(t: Ty, a: Attrs, v: Val)
    requires WellFormed(t) && Plain(t) && Unconstrained(a) && HasTy(v, t)
    ensures Validates(ToSchema(t, a), Encode(t, v))
  {
    DecodeEncode(t, v);
    DecodableValidates(t, a, Encode(t, v));
  }

  /** What is deserialised at a type is a value of that type. */
  lemma {:induction false} DecodedHasTy(t: Ty, j: Json)
    requires Decode(t, j).Some?
    ensures HasTy(Decode(t, j).value, t)
    decreases t
  {
    match t
    case TVec(elem) =>
      ItemsDecode(elem, j.items);
      forall i | 0 <= i < |j.items| ensures HasTy(Decode(elem, j.items[i]).value, elem) {
        DecodedHasTy(elem, j.items[i]);
      }
    case TOption(inner) =>
      if !j.Null? {
        DecodedHasTy(inner, j);
      }
    case TStruct(fields) =>
      FieldsDecode(fields, j.members);
      forall i | 0 <= i < |fields| ensures HasTy(DecodeField(fields[i], j.members).value, fields[i].ty) {
        if fields[i].key in j.members {
          DecodedHasTy(fields[i].ty, j.members[fields[i].key]);
        }
      }
    case _ =>
  }

  // ---------- When the schema accepts nothing else ----------

  /** Every enum in the type has a variant and every integer type a value. */
  ghost predicate Inhabited(t: Ty) {
    match t
    case TInt(range) => range.Between? ==> range.lo <= range.hi
    case TVec(elem) => Inhabited(elem)
    case TOption(inner) => Inhabited(inner)
    case TStruct(fields) => forall i :: 0 <= i < |fields| ==> Inhabited(fields[i].ty)
    case TEnum(variants) => variants != []
    case _ => true
  }

  /** A value of the type or, with `over`, one that leaves every reachable integer range. */
  function Witness(t: Ty, over: bool): Json
    decreases t, 1
  {
    match t
    case TString => Str("")
    case TBool => Bool(true)
    case TInt(range) =>
      Number((if range.Any? then 0 else if over then range.hi + 1 else range.lo) as real)
    case TNumber => Number(0.0)
    case TVec(elem) => if over && !Unranged(elem) then Array([Witness(elem, true)]) else Array([])
    case TOption(inner) => if over && !Unranged(inner) then Witness(inner, true) else Null
    case TStruct(fields) => Object(WitnessMembers(fields, over))
    case TEnum(variants) => Str(if variants == [] then "" else variants[0])
  }

  function WitnessMembers(fields: seq<Field>, over: bool): map<string, Json>
    decreases fields, 0
  {
    if fields == [] then map[]
    else map[fields[0].key := Witness(fields[0].ty, over)] + WitnessMembers(fields[1..], over)
  }

  lemma {:induction false} WitnessKeys(fields: seq<Field>, over: bool)
    ensures forall key :: key in WitnessMembers(fields, over) ==> exists i :: 0 <= i < |fields| && fields[i].key == key
  {
    hide Witness;
    if fields != [] {
      WitnessKeys(fields[1..], over);
      assert forall i :: 0 < i < |fields| ==> fields[i] == fields[1..][i - 1];
      assert fields[0].key == fields[0].key;
    }
  }

  lemma {:induction false} WitnessMember(fields: seq<Field>, over: bool, i: nat)
    requires DistinctKeys(fields) && i < |fields|
    ensures fields[i].key in WitnessMembers(fields, over)
    ensures WitnessMembers(fields, over)[fields[i].key] == Witness(fields[i].ty, over)
  {
    hide Witness;
    if i == 0 {
      WitnessKeys(fields[1..], over);
    } else {
      WitnessMember(fields[1..], over, i - 1);
    }
  }

  lemma {:induction false} WitnessMeets(t: Ty, a: Attrs, over: bool)
    requires WellFormed(t) && Plain(t) && Unconstrained(a) && Inhabited(t)
    ensures Meets(t, a, Witness(t, over))
    decreases t
  {
    match t
    case TVec(elem) =>
      WitnessMeets(elem, NO_ATTRS, true);
    case TOption(inner) =>
      WitnessMeets(inner, a, true);
    case TStruct(fields) =>
      forall i | 0 <= i < |fields|
        ensures fields[i].key in WitnessMembers(fields, over)
        ensures Meets(fields[i].ty, fields[i].attrs, WitnessMembers(fields, over)[fields[i].key])
      {
        WitnessMember(fields, over, i);
        WitnessMeets(fields[i].ty, fields[i].attrs, over);
      }
    case TInt(_) =>
      WholeIsInteger(Witness(t, over).n);
    case _ =>
  }

  lemma {:induction false} OverflowIsUndecodable(t: Ty)
    requires WellFormed(t) && !Unranged(t)
    ensures Decode(t, Witness(t, true)).None?
    decreases t
  {
    match t
    case TInt(range) =>
      assert ((range.hi + 1) as real).Floor == range.hi + 1;
    case TVec(elem) =>
      OverflowIsUndecodable(elem);
      ItemsDecode(elem, [Witness(elem, true)]);
    case TOption(inner) =>
      OverflowIsUndecodable(inner);
      OverflowIsNotNull(inner);
    case TStruct(fields) =>
      var i :| 0 <= i < |fields| && !Unranged(fields[i].ty);
      OverflowIsUndecodable(fields[i].ty);
      WitnessMember(fields, true, i);
      FieldsDecode(fields, WitnessMembers(fields, true));
      assert DecodeField(fields[i], WitnessMembers(fields, true)).None?;
    case _ =>
  }

  lemma {:induction false} OverflowIsNotNull(t: Ty)
    requires !Unranged(t)
    ensures !Witness(t, true).Null?
  {
    if t.TOption? {
      OverflowIsNotNull(t.inner);
    }
  }

  /** The schema accepts exactly the values that can be deserialised iff the type holds no
      fixed-width integer, whose range the emitted `"integer"` does not express. */
  lemma SchemaMatchesDecodingIff(t: Ty, a: Attrs)
    requires WellFormed(t) && Plain(t) && Unconstrained(a) && Inhabited(t)
    ensures (forall j :: Validates(ToSchema(t, a), j) <==> Decode(t, j).Some?) <==> Unranged(t)
  {
    hide Validates, ToSchema, Decode, Meets, Unranged, Witness;
    forall j
      ensures Validates(ToSchema(t, a), j) <==> Meets(t, a, j)
      ensures Decode(t, j).Some? ==> Meets(t, a, j)
      ensures Unranged(t) && Meets(t, a, j) ==> Decode(t, j).Some?
    {
      SchemaIsExact(t, a, j);
      DecodeVersusMeets(t, a, j);
    }
    if !Unranged(t) {
      WitnessMeets(t, a, true);
      OverflowIsUndecodable(t);
    }
  }
}
