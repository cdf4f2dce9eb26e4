/** The codec combinators as a syntax tree with Encode and Decode as its interpreters. */
module Codecs {
  import opened Wire

  /** Go values. A struct is one slot per declared field, so getters and setters obey their laws;
      nil and empty slices or maps are not told apart. */
  datatype Value =
    | Num(n: int)
    | Text(s: string)
    | Rec(fields: seq<Value>)
    | Slice(elems: seq<Value>)
    | Dict(entries: map<string, Value>)
    | Table(rows: map<Value, Value>)
    | Nil | Ptr(target: Value)
    | Left(left: Value) | Right(right: Value)
    | Nothing | Just(just: Value)

  datatype Error =
    | IllTyped | Missing | TypeMismatch | NotAString | UnknownVariant(name: string) | BadIndex
    | ConstraintFailed | Custom(code: int)
    | Element(index: int, cause: Error)
    | Entry(key: string, cause: Error)
    | EntryFailed
    | Variant(name: string, cause: Error)
    | AllFailed(causes: seq<Error>)
    | Invalid(fields: seq<(string, Error)>, unknown: set<string>)

  type Result<+T> = Fallible<T, Error>

  /** How a field behaves when its key is absent or its value is empty. MaybeField is OmitEmpty
      over MaybeOf, with "not set" as its emptiness. */
  datatype Kind =
    | Required | Optional | Default(def: Value)
    | OmitEmpty(isEmpty: Value -> bool) | OmitDefault(def: Value)

  /** zero is Go's zero value of the field's type. */
  datatype Field = Field(name: string, codec: Codec, kind: Kind, zero: Value)

  datatype PartialField = PartialField(name: string, codec: Codec)

  datatype Codec =
    | Leaf(enc: Value -> Result<Json>, dec: Json -> Result<Value>)
    | SliceOf(elem: Codec)
    | StringMap(val: Codec)
    | MapOf(key: Codec, val: Codec)
    | Nullable(inner: Codec)
    | MaybeOf(inner: Codec, zero: Value)
    | Either2(l: Codec, r: Codec)
    | Struct(fields: seq<Field>, strict: bool)
    | PartialStruct(partials: seq<PartialField>)
    | TaggedUnion(tag: string, variants: map<string, Codec>, select: Value -> Result<string>)
    | UntaggedUnion(which: Value -> int, branches: seq<Codec>)
    | Refine(inner: Codec, check: Value -> bool)
    | MapSafe(inner: Codec, to: Value -> Value, from: Value -> Result<Value>)
    | MapValidated(ca: Codec, cb: Codec, toV: Value -> Result<Value>, from: Value -> Result<Value>)

  // ---- Collecting results ----

  /** The values of results that are all there, or the first error with its index. */
  ghost function AllOk<T>(rs: seq<Result<T>>): Result<seq<T>> {
    if forall i | 0 <= i < |rs| :: rs[i].Ok? then
      Ok(seq(|rs|, i requires 0 <= i < |rs| && rs[i].Ok? => rs[i].value))
    else
      Err(FirstError(rs, 0))
  }

  ghost function FirstError<T>(rs: seq<Result<T>>, i: int): Error
    requires 0 <= i <= |rs| && exists j :: i <= j < |rs| && rs[j].Err?
    decreases |rs| - i
  {
    if rs[i].Err? then Element(i, rs[i].error) else FirstError(rs, i + 1)
  }

  /** The failing fields with their errors, in declaration order. */
  ghost function Failures<T>(names: seq<string>, rs: seq<Result<T>>): seq<(string, Error)>
    requires |names| == |rs|
  {
    if rs == [] then []
    else
      var n := |rs| - 1;
      Failures(names[..n], rs[..n]) + if rs[n].Err? then [(names[n], rs[n].error)] else []
  }

  /** Whether a field contributes a key to the encoded object. */
  datatype Slot = Absent | Present(j: Json)

  /** The object built by visiting the fields in order. */
  ghost function Collect(names: seq<string>, slots: seq<Slot>): map<string, Json>
    requires |names| == |slots|
  {
    if slots == [] then map[]
    else
      var n := |slots| - 1;
      var obj := Collect(names[..n], slots[..n]);
      if slots[n].Present? then obj[names[n] := slots[n].j] else obj
  }

  function FieldNames(fields: seq<Field>): (names: seq<string>)
    ensures |names| == |fields|
  {
    seq(|fields|, i requires 0 <= i < |fields| => fields[i].name)
  }

  function PartialNames(fields: seq<PartialField>): (names: seq<string>)
    ensures |names| == |fields|
  {
    seq(|fields|, i requires 0 <= i < |fields| => fields[i].name)
  }

  /** The first branch that decodes, or every branch's error in order. */
  ghost function FirstSuccess(rs: seq<Result<Value>>): Result<Value> {
    if i :| 0 <= i < |rs| && rs[i].Ok? && forall k | 0 <= k < i :: rs[k].Err? then rs[i]
    else Err(AllFailed(seq(|rs|, i requires 0 <= i < |rs| => if rs[i].Err? then rs[i].error else BadIndex)))
  }

  /** The values of a map of results that are all there, or one of the errors, whichever the
      map iteration meets first. */
  ghost function AllEntries<T>(rs: map<string, Result<T>>): Result<map<string, T>> {
    if k :| k in rs && rs[k].Err? then Err(Entry(k, rs[k].error))
    else Ok(map k | k in rs :: rs[k].value)
  }

  /** The map filled by out[newKey] = value over the entries of m. When two entries claim one
      key, the one the map iteration meets last stays. */
  ghost function Rekey<A, B, C>(m: map<A, (B, C)>): map<B, C> {
    map b | b in NewKeys(m) :: var a :| a in m && m[a].0 == b; m[a].1
  }

  ghost function NewKeys<A, B, C>(m: map<A, (B, C)>): set<B> {
    set a | a in m :: m[a].0
  }

  /** Every key must encode, to a string, and every value must encode. */
  ghost function ObjectOfRows(rs: map<Value, (Result<Json>, Result<Json>)>): Result<Json> {
    if forall k | k in rs :: rs[k].0.Ok? && rs[k].0.value.Str? && rs[k].1.Ok? then
      Ok(Obj(Rekey(map k | k in rs :: (rs[k].0.value.s, rs[k].1.value))))
    else Err(EntryFailed)
  }

  ghost function TableOf(rs: map<string, (Result<Value>, Result<Value>)>): Result<Value> {
    if forall s | s in rs :: rs[s].0.Ok? && rs[s].1.Ok? then
      Ok(Table(Rekey(map s | s in rs :: (rs[s].0.value, rs[s].1.value))))
    else Err(EntryFailed)
  }

  // ---- Encode ----

  ghost function Encode(c: Codec, v: Value): Result<Json>
    decreases c, 1
  {
    match c
    case Leaf(enc, _) => enc(v)
    case SliceOf(elem) =>
      if !v.Slice? then Err(IllTyped)
      else
        (match AllOk(seq(|v.elems|, i requires 0 <= i < |v.elems| => Encode(elem, v.elems[i])))
         case Ok(js) => Ok(Arr(js))
         case Err(e) => Err(e))
    case StringMap(val) =>
      if !v.Dict? then Err(IllTyped)
      else
        (match AllEntries(map k | k in v.entries :: Encode(val, v.entries[k]))
         case Ok(m) => Ok(Obj(m))
         case Err(e) => Err(e))
    case MapOf(key, val) =>
      if !v.Table? then Err(IllTyped)
      else ObjectOfRows(EncodedRows(key, val, v.rows))
    case Nullable(inner) =>
      if v.Nil? then Ok(Null) else if v.Ptr? then Encode(inner, v.target) else Err(IllTyped)
    case MaybeOf(inner, zero) =>
      if v.Nothing? then Encode(inner, zero) else if v.Just? then Encode(inner, v.just) else Err(IllTyped)
    case Either2(l, r) =>
      if v.Left? then Encode(l, v.left) else if v.Right? then Encode(r, v.right) else Err(IllTyped)
    case Struct(fields, _) =>
      if !v.Rec? || |v.fields| != |fields| then Err(IllTyped)
      else
        var rs := seq(|fields|, i requires 0 <= i < |fields| => EncodeSlot(fields[i], v.fields[i]));
        ObjectOf(FieldNames(fields), rs)
    case PartialStruct(partials) =>
      if !v.Rec? || |v.fields| != |partials| then Err(IllTyped)
      else
        var rs := seq(|partials|, i requires 0 <= i < |partials| => EncodePartial(partials[i], v.fields[i]));
        ObjectOf(PartialNames(partials), rs)
    case TaggedUnion(tag, variants, select) =>
      (match select(v)
       case Err(e) => Err(e)
       case Ok(name) =>
         if name !in variants then Err(UnknownVariant(name))
         else
           match Encode(variants[name], v)
           case Err(e) => Err(Variant(name, e))
           case Ok(j) => if j.Obj? then Ok(Obj(j.m[tag := Str(name)])) else Err(TypeMismatch))
    case UntaggedUnion(which, branches) =>
      if 0 <= which(v) < |branches| then Encode(branches[which(v)], v) else Err(BadIndex)
    case Refine(inner, check) =>
      var r := Encode(inner, v);
      if r.Err? then r else if check(v) then r else Err(ConstraintFailed)
    case MapSafe(inner, _, from) =>
      (match from(v) case Err(e) => Err(e) case Ok(a) => Encode(inner, a))
    case MapValidated(ca, cb, _, from) =>
      var valid := Encode(cb, v);
      if valid.Err? then valid
      else
        match Decode(cb, valid.value)
        case Err(e) => Err(e)
        case Ok(_) => match from(v) case Err(e) => Err(e) case Ok(a) => Encode(ca, a)
  }

  ghost function EncodedRows(key: Codec, val: Codec, rows: map<Value, Value>): map<Value, (Result<Json>, Result<Json>)>
    decreases MapOf(key, val), 0
  {
    map k | k in rows :: (Encode(key, k), Encode(val, rows[k]))
  }

  ghost function ObjectOf(names: seq<string>, rs: seq<Result<Slot>>): Result<Json>
    requires |names| == |rs|
  {
    if forall i | 0 <= i < |rs| :: rs[i].Ok? then
      Ok(Obj(Collect(names, seq(|rs|, i requires 0 <= i < |rs| && rs[i].Ok? => rs[i].value))))
    else Err(Invalid(Failures(names, rs), {}))
  }

  /** encodeSparse for the omitting kinds, encode for the others. */
  ghost function EncodeSlot(f: Field, v: Value): Result<Slot>
    decreases f
  {
    if (f.kind.OmitEmpty? && f.kind.isEmpty(v)) || (f.kind.OmitDefault? && v == f.kind.def) then Ok(Absent)
    else
      match Encode(f.codec, v) case Ok(j) => Ok(Present(j)) case Err(e) => Err(e)
  }

  ghost function EncodePartial(f: PartialField, v: Value): Result<Slot>
    decreases f
  {
    if v.Nil? then Ok(Absent)
    else if !v.Ptr? then Err(IllTyped)
    else
      match Encode(f.codec, v.target) case Ok(j) => Ok(Present(j)) case Err(e) => Err(e)
  }

  // ---- Decode ----

  ghost function Decode(c: Codec, j: Json): Result<Value>
    decreases c, 1
  {
    match c
    case Leaf(_, dec) => dec(j)
    case SliceOf(elem) =>
      if !j.Arr? then Err(TypeMismatch)
      else
        (match AllOk(seq(|j.elems|, i requires 0 <= i < |j.elems| => Decode(elem, j.elems[i])))
         case Ok(vs) => Ok(Slice(vs))
         case Err(e) => Err(e))
    case StringMap(val) =>
      if !j.Obj? then Err(TypeMismatch)
      else
        (match AllEntries(map k | k in j.m :: Decode(val, j.m[k]))
         case Ok(m) => Ok(Dict(m))
         case Err(e) => Err(e))
    case MapOf(key, val) =>
      if !j.Obj? then Err(TypeMismatch)
      else TableOf(DecodedRows(key, val, j.m))
    case Nullable(inner) =>
      if j.Null? then Ok(Nil)
      else (match Decode(inner, j) case Ok(v) => Ok(Ptr(v)) case Err(e) => Err(e))
    case MaybeOf(inner, _) =>
      (match Decode(inner, j) case Ok(v) => Ok(Just(v)) case Err(e) => Err(e))
    case Either2(l, r) =>
      (match Decode(l, j)
       case Ok(a) => Ok(Left(a))
       case Err(e1) => match Decode(r, j) case Ok(b) => Ok(Right(b)) case Err(e2) => Err(AllFailed([e1, e2])))
    case Struct(fields, strict) =>
      if !j.Obj? then Err(TypeMismatch)
      else
        var rs := seq(|fields|, i requires 0 <= i < |fields| => DecodeSlot(fields[i], j.m));
        RecordOf(FieldNames(fields), rs, if strict then UnknownKeys(fields, j.m) else {})
    case PartialStruct(partials) =>
      if !j.Obj? then Err(TypeMismatch)
      else
        var rs := seq(|partials|, i requires 0 <= i < |partials| => DecodePartial(partials[i], j.m));
        RecordOf(PartialNames(partials), rs, {})
    case TaggedUnion(tag, variants, _) =>
      if !j.Obj? then Err(TypeMismatch)
      else
        var name := if tag in j.m && j.m[tag].Str? then j.m[tag].s else "";
        if name !in variants then Err(UnknownVariant(name))
        else (match Decode(variants[name], j) case Ok(v) => Ok(v) case Err(e) => Err(Variant(name, e)))
    case UntaggedUnion(_, branches) =>
      FirstSuccess(seq(|branches|, i requires 0 <= i < |branches| => Decode(branches[i], j)))
    case Refine(inner, check) =>
      var r := Decode(inner, j);
      if r.Err? then r else if check(r.value) then r else Err(ConstraintFailed)
    case MapSafe(inner, to, _) =>
      (match Decode(inner, j) case Err(e) => Err(e) case Ok(a) => Ok(to(a)))
    case MapValidated(ca, cb, toV, _) =>
      (match Decode(ca, j)
       case Err(e) => Err(e)
       case Ok(a) =>
         match toV(a)
         case Err(e) => Err(e)
         case Ok(b) =>
           match Encode(cb, b)
           case Err(e) => Err(e)
           case Ok(jb) => match Decode(cb, jb) case Err(e) => Err(e) case Ok(_) => Ok(b))
  }

  ghost function DecodedRows(key: Codec, val: Codec, m: map<string, Json>): map<string, (Result<Value>, Result<Value>)>
    decreases MapOf(key, val), 0
  {
    map s | s in m :: (Decode(key, Str(s)), Decode(val, m[s]))
  }

  ghost function RecordOf(names: seq<string>, rs: seq<Result<Value>>, unknown: set<string>): Result<Value>
    requires |names| == |rs|
  {
    if (forall i | 0 <= i < |rs| :: rs[i].Ok?) && unknown == {} then
      Ok(Rec(seq(|rs|, i requires 0 <= i < |rs| && rs[i].Ok? => rs[i].value)))
    else Err(Invalid(Failures(names, rs), unknown))
  }

  ghost function UnknownKeys(fields: seq<Field>, obj: map<string, Json>): set<string> {
    set k | k in obj && k !in FieldNames(fields)
  }

  ghost function DecodeSlot(f: Field, obj: map<string, Json>): Result<Value>
    decreases f
  {
    if f.name in obj then Decode(f.codec, obj[f.name])
    else
      match f.kind
      case Required => Err(Missing)
      case Default(def) => Ok(def)
      case OmitDefault(def) => Ok(def)
      case _ => Ok(f.zero)
  }

  ghost function DecodePartial(f: PartialField, obj: map<string, Json>): Result<Value>
    decreases f
  {
    if f.name !in obj then Ok(Nil)
    else match Decode(f.codec, obj[f.name]) case Ok(v) => Ok(Ptr(v)) case Err(e) => Err(e)
  }

  /** Codec.Validate: encode and decode back. */
  ghost predicate Valid(c: Codec, v: Value) {
    Encode(c, v).Ok? && Decode(c, Encode(c, v).value).Ok?
  }
}
