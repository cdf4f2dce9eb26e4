/** Which nestings of codec combinators decode what they encode. */
module CodecRoundTrip {
  import opened Wire
  import opened Codecs
  import opened Logs

  /** Whenever v encodes, decoding the result gives v back. */
  ghost predicate Trips(c: Codec, v: Value) {
    Encode(c, v).Ok? ==> Decode(c, Encode(c, v).value) == Ok(v)
  }

  ghost predicate TripsAll(c: Codec) {
    forall v: Value :: Trips(c, v)
  }

  /** No encoding of accepted is accepted by decoder. */
  ghost predicate Rejects(decoder: Codec, accepted: Codec) {
    forall v: Value :: Encode(accepted, v).Ok? ==> Decode(decoder, Encode(accepted, v).value).Err?
  }

  /** Writing the tag key into an object does not change what c decodes from it. */
  ghost predicate IgnoresKey(c: Codec, tag: string) {
    forall m: map<string, Json>, x: Json :: Decode(c, WithKey(m, tag, x)) == Decode(c, Obj(m))
  }

  ghost function WithKey(m: map<string, Json>, key: string, x: Json): Json {
    Obj(m[key := x])
  }

  /** Every value encoded as this variant already carries its tag. */
  ghost predicate WritesTag(c: Codec, tag: string, name: string, select: Value -> Result<string>) {
    forall v: Value :: select(v) == Ok(name) && Encode(c, v).Ok? && Encode(c, v).value.Obj? ==>
      At(Encode(c, v).value.m, tag) == Str(name)
  }

  /** A field may vanish on encode only at the value an absent key restores. */
  ghost predicate VanishesSafely(f: Field) {
    f.kind.OmitEmpty? ==> forall v: Value :: f.kind.isEmpty(v) ==> v == f.zero
  }

  // ---- The side conditions, node by node ----

  /** A Maybe field carries MaybeOf over a sound codec and is omitted exactly when not set;
      any other field carries a sound codec. */
  ghost predicate SoundField(f: Field)
    decreases f, 0
  {
    && VanishesSafely(f)
    && if f.codec.MaybeOf? && f.kind.OmitEmpty? then
         Sound(f.codec.inner) && f.zero == Nothing && f.kind.isEmpty(Nothing)
       else Sound(f.codec)
  }

  ghost predicate Sound(c: Codec)
    decreases c, 1
  {
    match c
    case Leaf(_, _) => TripsAll(c)
    case SliceOf(elem) => Sound(elem)
    case StringMap(val) => Sound(val)
    case MapOf(key, val) => Sound(key) && Sound(val)
    case Nullable(inner) => Sound(inner) && forall v: Value :: Encode(inner, v) != Ok(Null)
    case MaybeOf(inner, zero) => Sound(inner) && Encode(inner, zero).Err?
    case Either2(l, r) => Sound(l) && Sound(r) && Rejects(l, r)
    case Struct(fields, _) =>
      Distinct(FieldNames(fields)) && forall i | 0 <= i < |fields| :: SoundField(fields[i])
    case PartialStruct(partials) =>
      Distinct(PartialNames(partials)) && forall i | 0 <= i < |partials| :: Sound(partials[i].codec)
    case TaggedUnion(tag, variants, select) =>
      forall name | name in variants ::
        Sound(variants[name]) &&
        (IgnoresKey(variants[name], tag) || WritesTag(variants[name], tag, name, select))
    case UntaggedUnion(_, branches) =>
      (forall i | 0 <= i < |branches| :: Sound(branches[i])) &&
      forall i, k | 0 <= i < k < |branches| :: Rejects(branches[i], branches[k])
    case Refine(inner, _) => Sound(inner)
    case MapSafe(inner, to, from) => Sound(inner) && forall v: Value :: from(v).Ok? ==> to(from(v).value) == v
    case MapValidated(ca, _, toV, from) =>
      Sound(ca) && forall v: Value :: from(v).Ok? ==> toV(from(v).value) == Ok(v)
  }

  // ---- Records ----

  /** With distinct names the object holds each present field under its own name, and nothing else. */
  lemma {:induction false} CollectLookup(names: seq<string>, slots: seq<Slot>)
    requires |names| == |slots| && Distinct(names)
    ensures forall k :: k in Collect(names, slots) ==> k in names
    ensures forall i :: 0 <= i < |names| ==> (names[i] in Collect(names, slots) <==> slots[i].Present?)
    ensures forall i :: 0 <= i < |names| && slots[i].Present? ==> Collect(names, slots)[names[i]] == slots[i].j
  {
    if slots == [] {
    } else {
      var n := |slots| - 1;
      CollectLookup(names[..n], slots[..n]);
      assert names[n] !in names[..n];
      forall k | k in Collect(names, slots) ensures k in names {
        if k != names[n] { assert k in names[..n]; }
      }
      forall i | 0 <= i < n ensures names[..n][i] == names[i] && names[i] != names[n] {}
    }
  }

  ghost function SlotOf(f: Field, obj: map<string, Json>): Slot {
    if f.name in obj then Present(obj[f.name]) else Absent
  }

  /** One field decodes from the object to the value it was encoded from. */
  lemma SlotTrips(f: Field, v: Value, obj: map<string, Json>)
    requires VanishesSafely(f)
    requires Trips(f.codec, v) || (f.kind.OmitEmpty? && f.kind.isEmpty(v))
    requires EncodeSlot(f, v) == Ok(SlotOf(f, obj))
    ensures DecodeSlot(f, obj) == Ok(v)
  {
  }

  lemma StructTrips(c: Codec, v: Value)
    requires c.Struct? && Distinct(FieldNames(c.fields))
    requires forall i :: 0 <= i < |c.fields| ==> VanishesSafely(c.fields[i])
    requires v.Rec? && |v.fields| == |c.fields| ==>
      forall i :: 0 <= i < |c.fields| ==>
        Trips(c.fields[i].codec, v.fields[i]) || (c.fields[i].kind.OmitEmpty? && c.fields[i].kind.isEmpty(v.fields[i]))
    ensures Trips(c, v)
  {
    if Encode(c, v).Ok? {
      var fs := c.fields;
      var names := FieldNames(fs);
      var rs := seq(|fs|, i requires 0 <= i < |fs| => EncodeSlot(fs[i], v.fields[i]));
      var slots := seq(|rs|, i requires 0 <= i < |rs| && rs[i].Ok? => rs[i].value);
      var obj := Encode(c, v).value.m;
      CollectLookup(names, slots);
      forall i | 0 <= i < |fs| ensures DecodeSlot(fs[i], obj) == Ok(v.fields[i]) {
        assert names[i] == fs[i].name && rs[i] == EncodeSlot(fs[i], v.fields[i]);
        SlotTrips(fs[i], v.fields[i], obj);
      }
      var ds := seq(|fs|, i requires 0 <= i < |fs| => DecodeSlot(fs[i], obj));
      assert UnknownKeys(fs, obj) == {};
      RecordOfOk(names, ds, v.fields);
    }
  }

  lemma RecordOfOk(names: seq<string>, ds: seq<Result<Value>>, vs: seq<Value>)
    requires |names| == |ds| == |vs| && forall i :: 0 <= i < |ds| ==> ds[i] == Ok(vs[i])
    ensures RecordOf(names, ds, {}) == Ok(Rec(vs))
  {
    assert seq(|ds|, i requires 0 <= i < |ds| && ds[i].Ok? => ds[i].value) == vs;
  }

  /** What an encoded record holds under each field's name. */
  lemma EncodedStruct(c: Codec, v: Value)
    requires c.Struct? && Distinct(FieldNames(c.fields)) && Encode(c, v).Ok?
    ensures v.Rec? && |v.fields| == |c.fields| && Encode(c, v).value.Obj?
    ensures forall k :: k in Encode(c, v).value.m ==> k in FieldNames(c.fields)
    ensures forall i :: 0 <= i < |c.fields| ==>
      EncodeSlot(c.fields[i], v.fields[i]) == Ok(SlotOf(c.fields[i], Encode(c, v).value.m))
  {
    var fs := c.fields;
    var rs := seq(|fs|, i requires 0 <= i < |fs| => EncodeSlot(fs[i], v.fields[i]));
    CollectLookup(FieldNames(fs), seq(|rs|, i requires 0 <= i < |rs| && rs[i].Ok? => rs[i].value));
    forall i | 0 <= i < |fs| ensures EncodeSlot(fs[i], v.fields[i]) == Ok(SlotOf(fs[i], Encode(c, v).value.m)) {
      assert rs[i].Ok? && FieldNames(fs)[i] == fs[i].name;
    }
  }

  lemma SameNameSameField(fields: seq<Field>, i: int, k: int)
    requires Distinct(FieldNames(fields)) && 0 <= i < |fields| && 0 <= k < |fields| && fields[i].name == fields[k].name
    ensures i == k
  {
    assert FieldNames(fields)[i] == FieldNames(fields)[k];
  }

  lemma NoUnknownKeys(fields: seq<Field>, m: map<string, Json>)
    ensures UnknownKeys(fields, m) == {} <==> forall k :: k in m ==> k in FieldNames(fields)
  {
    forall k | k in m && k !in FieldNames(fields) ensures UnknownKeys(fields, m) != {} {
      assert k in UnknownKeys(fields, m);
    }
  }

  lemma StructDecodes(c: Codec, m: map<string, Json>, vs: seq<Value>)
    requires c.Struct? && |vs| == |c.fields|
    requires c.strict ==> forall k :: k in m ==> k in FieldNames(c.fields)
    requires forall i :: 0 <= i < |vs| ==> DecodeSlot(c.fields[i], m) == Ok(vs[i])
    ensures Decode(c, Obj(m)) == Ok(Rec(vs))
  {
    NoUnknownKeys(c.fields, m);
    RecordOfOk(FieldNames(c.fields), seq(|vs|, i requires 0 <= i < |vs| => DecodeSlot(c.fields[i], m)), vs);
  }

  lemma RecordDecodes(c: Codec, m: map<string, Json>, vs: seq<Value>, i: nat)
    requires c.Struct? && Decode(c, Obj(m)) == Ok(Rec(vs)) && i < |c.fields|
    ensures |vs| == |c.fields| && DecodeSlot(c.fields[i], m) == Ok(vs[i])
  {
    var rs := seq(|c.fields|, i requires 0 <= i < |c.fields| => DecodeSlot(c.fields[i], m));
    assert rs[i].Ok?;
  }

  lemma PartialTrips(c: Codec, v: Value)
    requires c.PartialStruct? && Distinct(PartialNames(c.partials))
    requires forall i :: 0 <= i < |c.partials| ==> TripsAll(c.partials[i].codec)
    ensures Trips(c, v)
  {
    if Encode(c, v).Ok? {
      var fs := c.partials;
      var names := PartialNames(fs);
      var rs := seq(|fs|, i requires 0 <= i < |fs| => EncodePartial(fs[i], v.fields[i]));
      var slots := seq(|rs|, i requires 0 <= i < |rs| && rs[i].Ok? => rs[i].value);
      var obj := Encode(c, v).value.m;
      CollectLookup(names, slots);
      forall i | 0 <= i < |fs| ensures DecodePartial(fs[i], obj) == Ok(v.fields[i]) {
        assert names[i] == fs[i].name && rs[i] == EncodePartial(fs[i], v.fields[i]);
        if v.fields[i].Ptr? { assert Trips(fs[i].codec, v.fields[i].target); }
      }
      var ds := seq(|fs|, i requires 0 <= i < |fs| => DecodePartial(fs[i], obj));
      RecordOfOk(names, ds, v.fields);
    }
  }

  // ---- Slices and maps ----

  lemma AllOkOk<T>(rs: seq<Result<T>>, xs: seq<T>)
    requires |rs| == |xs| && forall i :: 0 <= i < |rs| ==> rs[i] == Ok(xs[i])
    ensures AllOk(rs) == Ok(xs)
  {
    assert seq(|rs|, i requires 0 <= i < |rs| && rs[i].Ok? => rs[i].value) == xs;
  }

  lemma SliceTrips(c: Codec, v: Value)
    requires c.SliceOf? && TripsAll(c.elem)
    ensures Trips(c, v)
  {
    if Encode(c, v).Ok? {
      var rs := seq(|v.elems|, i requires 0 <= i < |v.elems| => Encode(c.elem, v.elems[i]));
      var js := Encode(c, v).value.elems;
      var ds := seq(|js|, i requires 0 <= i < |js| => Decode(c.elem, js[i]));
      forall i | 0 <= i < |js| ensures ds[i] == Ok(v.elems[i]) {
        assert rs[i].Ok? && js[i] == rs[i].value;
        assert Trips(c.elem, v.elems[i]);
      }
      AllOkOk(ds, v.elems);
    }
  }

  lemma StringMapDecodes(val: Codec, m: map<string, Json>, entries: map<string, Value>)
    requires m.Keys == entries.Keys && forall k :: k in m ==> Decode(val, m[k]) == Ok(entries[k])
    ensures Decode(StringMap(val), Obj(m)) == Ok(Dict(entries))
  {
    hide AllEntries;
    AllEntriesOk(map k | k in m :: Decode(val, m[k]), entries);
  }

  lemma AllEntriesOk<T>(rs: map<string, Result<T>>, xs: map<string, T>)
    requires rs.Keys == xs.Keys && forall k :: k in rs ==> rs[k] == Ok(xs[k])
    ensures AllEntries(rs) == Ok(xs)
  {
    assert (map k | k in rs :: rs[k].value) == xs;
  }

  lemma StringMapTrips(c: Codec, v: Value)
    requires c.StringMap? && TripsAll(c.val)
    ensures Trips(c, v)
  {
    if Encode(c, v).Ok? {
      var rs := map k | k in v.entries :: Encode(c.val, v.entries[k]);
      var m := Encode(c, v).value.m;
      forall k | k in m ensures Decode(c.val, m[k]) == Ok(v.entries[k]) {
        assert rs[k].Ok? && m[k] == rs[k].value;
        assert Trips(c.val, v.entries[k]);
      }
      StringMapDecodes(c.val, m, v.entries);
    }
  }

  /** Re-keying by distinct keys loses nothing. */
  lemma RekeyLookup<A, B, C>(m: map<A, (B, C)>, a: A)
    requires forall x, y :: x in m && y in m && m[x].0 == m[y].0 ==> x == y
    requires a in m
    ensures m[a].0 in Rekey(m) && Rekey(m)[m[a].0] == m[a].1
  {
    assert m[a].0 in NewKeys(m);
  }

  lemma RekeyOrigin<A, B, C>(m: map<A, (B, C)>, b: B)
    requires b in Rekey(m)
    ensures exists a :: a in m && m[a].0 == b && m[a].1 == Rekey(m)[b]
  {
    assert b in NewKeys(m);
  }

  /** Re-keying there (e) and back (d) restores the rows when d undoes e entry by entry. */
  lemma RekeyBack<A, B, C, D>(rows: map<A, D>, e: map<A, (B, C)>, d: map<B, (A, D)>)
    requires e.Keys == rows.Keys && d.Keys == Rekey(e).Keys
    requires forall a :: a in e && e[a].0 in d ==>
      d[e[a].0].0 == a && (Rekey(e)[e[a].0] == e[a].1 ==> d[e[a].0].1 == rows[a])
    ensures Rekey(d) == rows
  {
    forall a | a in e ensures e[a].0 in d { assert e[a].0 in NewKeys(e); }
    forall a | a in rows ensures a in Rekey(d) && Rekey(d)[a] == rows[a] {
      RekeyLookup(e, a);
      forall s, t | s in d && t in d && d[s].0 == d[t].0 ensures s == t {
        RekeyOrigin(e, s);
        RekeyOrigin(e, t);
      }
      RekeyLookup(d, e[a].0);
    }
    forall a | a in Rekey(d) ensures a in rows {
      RekeyOrigin(d, a);
      var s :| s in d && d[s].0 == a;
      RekeyOrigin(e, s);
    }
  }

  lemma TableOfOk(rs: map<string, (Result<Value>, Result<Value>)>, d: map<string, (Value, Value)>)
    requires rs.Keys == d.Keys && forall s :: s in rs ==> rs[s] == (Ok(d[s].0), Ok(d[s].1))
    ensures TableOf(rs) == Ok(Table(Rekey(d)))
  {
    assert d == map s | s in rs :: (rs[s].0.value, rs[s].1.value);
  }

  lemma ObjectOfRowsOk(rs: map<Value, (Result<Json>, Result<Json>)>) returns (e: map<Value, (string, Json)>)
    requires ObjectOfRows(rs).Ok?
    ensures e.Keys == rs.Keys && forall k :: k in rs ==> rs[k] == (Ok(Str(e[k].0)), Ok(e[k].1))
    ensures ObjectOfRows(rs) == Ok(Obj(Rekey(e)))
  {
    e := map k | k in rs :: (rs[k].0.value.s, rs[k].1.value);
  }

  lemma MapOfTrips(c: Codec, v: Value)
    requires c.MapOf? && TripsAll(c.key) && TripsAll(c.val)
    ensures Trips(c, v)
  {
    if Encode(c, v).Ok? {
      var rows := v.rows;
      var rs := EncodedRows(c.key, c.val, rows);
      var e := ObjectOfRowsOk(rs);
      forall k | k in rows ensures Undoes(c.key, c.val, e[k], k, rows[k]) {
        assert rs[k] == (Ok(Str(e[k].0)), Ok(e[k].1));
        RowTrips(c.key, c.val, k, rows[k], e[k]);
      }
      RowsTrip(c.key, c.val, rows, e);
    }
  }

  /** The encoded entry e decodes to the row it came from. */
  ghost predicate Undoes(key: Codec, val: Codec, e: (string, Json), k: Value, v: Value) {
    Decode(key, Str(e.0)) == Ok(k) && Decode(val, e.1) == Ok(v)
  }

  lemma RowTrips(key: Codec, val: Codec, k: Value, v: Value, e: (string, Json))
    requires TripsAll(key) && TripsAll(val)
    requires Encode(key, k) == Ok(Str(e.0)) && Encode(val, v) == Ok(e.1)
    ensures Undoes(key, val, e, k, v)
  {
    assert Trips(key, k) && Trips(val, v);
  }

  lemma DecodedAt(key: Codec, val: Codec, m: map<string, Json>, e: (string, Json), k: Value, v: Value)
    requires e.0 in m && Undoes(key, val, e, k, v)
    ensures DecodedRows(key, val, m)[e.0].0 == Ok(k)
    ensures m[e.0] == e.1 ==> DecodedRows(key, val, m)[e.0].1 == Ok(v)
  {
  }

  lemma RowsTrip(key: Codec, val: Codec, rows: map<Value, Value>, e: map<Value, (string, Json)>)
    requires e.Keys == rows.Keys
    requires forall k :: k in rows ==> Undoes(key, val, e[k], k, rows[k])
    ensures TableOf(DecodedRows(key, val, Rekey(e))) == Ok(Table(rows))
  {
    hide Decode, TableOf, Undoes;
    var rs := DecodedRows(key, val, Rekey(e));
    forall k | k in e && e[k].0 in rs
      ensures rs[e[k].0].0 == Ok(k) && (Rekey(e)[e[k].0] == e[k].1 ==> rs[e[k].0].1 == Ok(rows[k]))
    {
      DecodedAt(key, val, Rekey(e), e[k], k, rows[k]);
    }
    RowsBack(rows, e, rs);
  }

  ghost function Values(rs: map<string, (Result<Value>, Result<Value>)>): map<string, (Value, Value)>
    requires forall s :: s in rs ==> rs[s].0.Ok? && rs[s].1.Ok?
  {
    map s | s in rs :: (rs[s].0.value, rs[s].1.value)
  }

  lemma RowsBack(rows: map<Value, Value>, e: map<Value, (string, Json)>, rs: map<string, (Result<Value>, Result<Value>)>)
    requires e.Keys == rows.Keys && rs.Keys == Rekey(e).Keys
    requires forall k :: k in e && e[k].0 in rs ==>
      rs[e[k].0].0 == Ok(k) && (Rekey(e)[e[k].0] == e[k].1 ==> rs[e[k].0].1 == Ok(rows[k]))
    ensures TableOf(rs) == Ok(Table(rows))
  {
    RowsOk(rows, e, rs);
    RekeyBack(rows, e, Values(rs));
    TableOfOk(rs, Values(rs));
  }

  lemma RowsOk(rows: map<Value, Value>, e: map<Value, (string, Json)>, rs: map<string, (Result<Value>, Result<Value>)>)
    requires e.Keys == rows.Keys && rs.Keys == Rekey(e).Keys
    requires forall k :: k in e && e[k].0 in rs ==>
      rs[e[k].0].0 == Ok(k) && (Rekey(e)[e[k].0] == e[k].1 ==> rs[e[k].0].1 == Ok(rows[k]))
    ensures forall s :: s in rs ==> rs[s].0.Ok? && rs[s].1.Ok?
  {
    forall s | s in rs ensures rs[s].0.Ok? && rs[s].1.Ok? {
      RekeyOrigin(e, s);
      var k :| k in e && e[k].0 == s && e[k].1 == Rekey(e)[s];
      assert rs[s].0 == Ok(k) && rs[s].1 == Ok(rows[k]);
    }
  }

  // ---- Sums ----

  lemma TaggedTrips(c: Codec, v: Value)
    requires c.TaggedUnion? && forall name | name in c.variants :: TripsAll(c.variants[name])
    requires forall name | name in c.variants ::
      IgnoresKey(c.variants[name], c.tag) || WritesTag(c.variants[name], c.tag, name, c.select)
    ensures Trips(c, v)
  {
    if Encode(c, v).Ok? {
      var name := c.select(v).value;
      var variant := c.variants[name];
      var m := Encode(variant, v).value.m;
      assert Trips(variant, v);
      assert Encode(c, v).value == WithKey(m, c.tag, Str(name));
      if !IgnoresKey(variant, c.tag) {
        assert m[c.tag := Str(name)] == m;
      }
    }
  }

  lemma UntaggedTrips(c: Codec, v: Value)
    requires c.UntaggedUnion? && forall i | 0 <= i < |c.branches| :: TripsAll(c.branches[i])
    requires forall i, k | 0 <= i < k < |c.branches| :: Rejects(c.branches[i], c.branches[k])
    ensures Trips(c, v)
  {
    if Encode(c, v).Ok? {
      var n := c.which(v);
      var j := Encode(c, v).value;
      assert Trips(c.branches[n], v);
      forall i | 0 <= i < n ensures Decode(c.branches[i], j).Err? { assert Rejects(c.branches[i], c.branches[n]); }
      var ds := seq(|c.branches|, i requires 0 <= i < |c.branches| => Decode(c.branches[i], j));
      assert ds[n] == Ok(v);
      assert FirstSuccess(ds) == Ok(v);
    }
  }

  lemma WrapperTrips(c: Codec, v: Value)
    requires c.Nullable? || c.MaybeOf? || c.Either2? || c.Refine? || c.MapSafe?
    requires c.Either2? ==> TripsAll(c.l) && TripsAll(c.r) && Rejects(c.l, c.r)
    requires !c.Either2? ==> TripsAll(c.inner)
    requires c.Nullable? ==> forall x: Value :: Encode(c.inner, x) != Ok(Null)
    requires c.MaybeOf? && v == Nothing ==> Encode(c.inner, c.zero).Err?
    requires c.MapSafe? ==> forall x: Value :: c.from(x).Ok? ==> c.to(c.from(x).value) == x
    ensures Trips(c, v)
  {
    if c.Either2? {
      if v.Left? { assert Trips(c.l, v.left); }
      if v.Right? { assert Trips(c.r, v.right); }
    } else if c.Nullable? {
      if v.Ptr? { assert Trips(c.inner, v.target); }
    } else if c.MaybeOf? {
      if v.Just? { assert Trips(c.inner, v.just); }
    } else if c.Refine? {
      assert Trips(c.inner, v);
    } else if c.from(v).Ok? {
      assert Trips(c.inner, c.from(v).value);
    }
  }

  lemma ValidatedTrips(c: Codec, v: Value)
    requires c.MapValidated? && TripsAll(c.ca)
    requires forall x: Value :: c.from(x).Ok? ==> c.toV(c.from(x).value) == Ok(x)
    ensures Trips(c, v)
  {
    if c.from(v).Ok? { assert Trips(c.ca, c.from(v).value); }
  }

  // ---- The main theorem ----

  lemma {:induction false} FieldTrips(f: Field, v: Value)
    requires SoundField(f)
    ensures Trips(f.codec, v) || (f.kind.OmitEmpty? && f.kind.isEmpty(v))
    decreases f, 0
  {
    if f.codec.MaybeOf? && f.kind.OmitEmpty? {
      if v != Nothing {
        RoundTrip(f.codec.inner);
        WrapperTrips(f.codec, v);
      }
    } else {
      RoundTrip(f.codec);
    }
  }

  /** Every nesting of the combinators whose side conditions hold decodes each value it encodes
      to that value. */
  lemma {:induction false} RoundTrip(c: Codec)
    requires Sound(c)
    ensures TripsAll(c)
    decreases c, 1
  {
    hide Decode, Encode;
    forall v: Value ensures Trips(c, v) {
      match c
      case Leaf(_, _) =>
      case SliceOf(elem) => RoundTrip(elem); SliceTrips(c, v);
      case StringMap(val) => RoundTrip(val); StringMapTrips(c, v);
      case MapOf(key, val) => RoundTrip(key); RoundTrip(val); MapOfTrips(c, v);
      case Nullable(inner) => RoundTrip(inner); WrapperTrips(c, v);
      case MaybeOf(inner, _) => RoundTrip(inner); WrapperTrips(c, v);
      case Either2(l, r) => RoundTrip(l); RoundTrip(r); WrapperTrips(c, v);
      case Struct(fields, _) =>
        if v.Rec? && |v.fields| == |fields| {
          forall i | 0 <= i < |fields|
            ensures Trips(fields[i].codec, v.fields[i]) || (fields[i].kind.OmitEmpty? && fields[i].kind.isEmpty(v.fields[i]))
          {
            FieldTrips(fields[i], v.fields[i]);
          }
        }
        StructTrips(c, v);
      case PartialStruct(partials) =>
        forall i | 0 <= i < |partials| ensures TripsAll(partials[i].codec) { RoundTrip(partials[i].codec); }
        PartialTrips(c, v);
      case TaggedUnion(_, variants, _) =>
        forall name | name in variants ensures TripsAll(variants[name]) { RoundTrip(variants[name]); }
        TaggedTrips(c, v);
      case UntaggedUnion(_, branches) =>
        forall i | 0 <= i < |branches| ensures TripsAll(branches[i]) { RoundTrip(branches[i]); }
        UntaggedTrips(c, v);
      case Refine(inner, _) => RoundTrip(inner); WrapperTrips(c, v);
      case MapSafe(inner, _, _) => RoundTrip(inner); WrapperTrips(c, v);
      case MapValidated(ca, _, _, _) => RoundTrip(ca); ValidatedTrips(c, v);
    }
  }

  /** A sound field, a Maybe field included, decodes from whatever object it was encoded into to the
      value it was encoded from. */
  lemma FieldRoundTrips(f: Field, v: Value, obj: map<string, Json>)
    requires SoundField(f) && EncodeSlot(f, v) == Ok(SlotOf(f, obj))
    ensures DecodeSlot(f, obj) == Ok(v)
  {
    FieldTrips(f, v);
    SlotTrips(f, v, obj);
  }
}
