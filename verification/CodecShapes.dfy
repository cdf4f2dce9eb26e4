/** What each combinator puts on the wire and what it takes from it, in terms of its parts' Encode and
    Decode alone. */
module CodecShapes {
  import opened Wire
  import opened Codecs
  import opened CodecRoundTrip
  import opened CodecLaws

  // ---- Structs, decoding ----

  /** An object is decoded exactly when no required key is absent, every present field decodes and,
      strictly, no other key is there. */
  lemma StructDecodesIff(c: Codec, m: map<string, Json>)
    requires c.Struct?
    ensures Decode(c, Obj(m)).Ok? <==>
              && (forall i :: 0 <= i < |c.fields| && c.fields[i].kind.Required? ==> c.fields[i].name in m)
              && (forall i :: 0 <= i < |c.fields| && c.fields[i].name in m ==>
                    Decode(c.fields[i].codec, m[c.fields[i].name]).Ok?)
              && (c.strict ==> forall k :: k in m ==> exists i :: 0 <= i < |c.fields| && c.fields[i].name == k)
  {
    var at := StructReportsEverything(c, m);
    DeclaredKeys(c.fields, m);
  }

  lemma DeclaredKeys(fields: seq<Field>, m: map<string, Json>)
    ensures forall k :: k in FieldNames(fields) <==> exists i :: 0 <= i < |fields| && fields[i].name == k
    ensures UnknownKeys(fields, m) == set k | k in m && forall i :: 0 <= i < |fields| ==> fields[i].name != k
  {
    forall k | k in FieldNames(fields) ensures exists i :: 0 <= i < |fields| && fields[i].name == k {
      var i :| 0 <= i < |fields| && FieldNames(fields)[i] == k;
      assert fields[i].name == k;
    }
    forall i | 0 <= i < |fields| ensures fields[i].name in FieldNames(fields) {
      assert FieldNames(fields)[i] == fields[i].name;
    }
  }

  /** The record has one slot per declared field: what a present key decodes to, and for an absent one
      the declared default, or the zero value if the field has none. */
  lemma StructDecodesTo(c: Codec, m: map<string, Json>, i: nat)
    requires c.Struct? && Decode(c, Obj(m)).Ok? && i < |c.fields|
    ensures var f := c.fields[i];
            var r := Decode(c, Obj(m)).value;
            && r.Rec? && |r.fields| == |c.fields|
            && (f.name in m ==> Decode(f.codec, m[f.name]) == Ok(r.fields[i]))
            && (f.name !in m && (f.kind.Default? || f.kind.OmitDefault?) ==> r.fields[i] == f.kind.def)
            && (f.name !in m && (f.kind.Optional? || f.kind.OmitEmpty?) ==> r.fields[i] == f.zero)
  {
    StructDecodesIff(c, m);
    RecordDecodes(c, m, Decode(c, Obj(m)).value.fields, i);
  }

  /** Entry e is what decoding reports about field f: a required key is absent, or what is under the key
      does not decode. */
  ghost predicate Reported(e: (string, Error), f: Field, m: map<string, Json>) {
    && e.0 == f.name
    && (f.name !in m ==> f.kind.Required? && e.1 == Missing)
    && (f.name in m ==> Decode(f.codec, m[f.name]) == Err(e.1))
  }

  /** A rejected object's error names every absent required key and every field that does not decode,
      with its own error, in declaration order and nothing else; strictly, it lists every other key. */
  lemma StructErrors(c: Codec, m: map<string, Json>) returns (at: seq<int>)
    requires c.Struct? && Decode(c, Obj(m)).Err?
    ensures Decode(c, Obj(m)).error.Invalid?
    ensures var es := Decode(c, Obj(m)).error.fields;
            && (forall i :: 0 <= i < |c.fields| && c.fields[i].kind.Required? && c.fields[i].name !in m ==>
                  (c.fields[i].name, Missing) in es)
            && (forall i | 0 <= i < |c.fields| && c.fields[i].name in m ::
                  Decode(c.fields[i].codec, m[c.fields[i].name]).Err? ==>
                    (c.fields[i].name, Decode(c.fields[i].codec, m[c.fields[i].name]).error) in es)
            && |es| == |at|
            && (forall p :: 0 <= p < |at| ==> 0 <= at[p] < |c.fields| && Reported(es[p], c.fields[at[p]], m))
            && (forall p, q :: 0 <= p < q < |at| ==> at[p] < at[q])
    ensures Decode(c, Obj(m)).error.unknown ==
              if c.strict then set k | k in m && forall i :: 0 <= i < |c.fields| ==> c.fields[i].name != k else {}
  {
    at := StructReportsEverything(c, m);
    DeclaredKeys(c.fields, m);
    var es := Decode(c, Obj(m)).error.fields;
    forall i | 0 <= i < |c.fields| && DecodeSlot(c.fields[i], m).Err?
      ensures (c.fields[i].name, DecodeSlot(c.fields[i], m).error) in es
    {
      var p :| 0 <= p < |at| && at[p] == i;
      assert Reports(es[p], c.fields[at[p]], m);
    }
    forall p | 0 <= p < |at| ensures Reported(es[p], c.fields[at[p]], m) {
      assert Reports(es[p], c.fields[at[p]], m);
    }
  }

  // ---- Structs, encoding ----

  /** The value of an omitting field that leaves no key. */
  ghost predicate Omitted(f: Field, v: Value) {
    (f.kind.OmitEmpty? && f.kind.isEmpty(v)) || (f.kind.OmitDefault? && v == f.kind.def)
  }

  /** A field writes its key unless its value is empty or the default and the field omits those; the
      object has no other key. */
  lemma StructEncodesTo(c: Codec, v: Value, i: nat)
    requires c.Struct? && Encode(c, v).Ok? && i < |c.fields|
    requires forall j, k :: 0 <= j < k < |c.fields| ==> c.fields[j].name != c.fields[k].name
    ensures v.Rec? && |v.fields| == |c.fields| && Encode(c, v).value.Obj?
    ensures var m := Encode(c, v).value.m;
            var f := c.fields[i];
            && (f.kind.OmitEmpty? && f.kind.isEmpty(v.fields[i]) ==> f.name !in m)
            && (f.kind.OmitDefault? && v.fields[i] == f.kind.def ==> f.name !in m)
            && (!Omitted(f, v.fields[i]) ==> f.name in m && Encode(f.codec, v.fields[i]) == Ok(m[f.name]))
            && (forall k :: k in m ==> exists j :: 0 <= j < |c.fields| && c.fields[j].name == k)
  {
    NamesDistinct(c.fields);
    EncodedStruct(c, v);
    DeclaredKeys(c.fields, Encode(c, v).value.m);
  }

  lemma NamesDistinct(fields: seq<Field>)
    requires forall j, k :: 0 <= j < k < |fields| ==> fields[j].name != fields[k].name
    ensures Logs.Distinct(FieldNames(fields))
  {}

  /** Encoding a record fails exactly when a field that is not omitted does not encode; the error names
      every such field with its own error, in declaration order. */
  lemma StructEncodesIff(c: Codec, v: Value) returns (at: seq<int>)
    requires c.Struct? && v.Rec? && |v.fields| == |c.fields|
    ensures Encode(c, v).Err? <==>
              exists i ::
                0 <= i < |c.fields| && !Omitted(c.fields[i], v.fields[i]) && Encode(c.fields[i].codec, v.fields[i]).Err?
    ensures Encode(c, v).Err? ==>
              && Encode(c, v).error.Invalid? && |Encode(c, v).error.fields| == |at|
              && (forall p :: 0 <= p < |at| ==>
                    && 0 <= at[p] < |c.fields| && Encode(c.fields[at[p]].codec, v.fields[at[p]]).Err?
                    && Encode(c, v).error.fields[p] ==
                         (c.fields[at[p]].name, Encode(c.fields[at[p]].codec, v.fields[at[p]]).error))
              && (forall p, q :: 0 <= p < q < |at| ==> at[p] < at[q])
              && (forall i | 0 <= i < |c.fields| && !Omitted(c.fields[i], v.fields[i]) ::
                    Encode(c.fields[i].codec, v.fields[i]).Err? ==> i in at)
  {
    hide Decode, Failures;
    var fs := c.fields;
    var rs := seq(|fs|, i requires 0 <= i < |fs| => EncodeSlot(fs[i], v.fields[i]));
    at := FailuresExact(FieldNames(fs), rs);
    assert forall i :: 0 <= i < |fs| ==> rs[i] == EncodeSlot(fs[i], v.fields[i]);
  }

  // ---- Partial structs ----

  /** A partial struct writes exactly the fields that are set, and reads a present key as set and an
      absent one as not set. */
  lemma PartialEncodesTo(c: Codec, v: Value, i: nat)
    requires c.PartialStruct? && Encode(c, v).Ok? && i < |c.partials|
    requires forall j, k :: 0 <= j < k < |c.partials| ==> c.partials[j].name != c.partials[k].name
    ensures v.Rec? && |v.fields| == |c.partials| && Encode(c, v).value.Obj?
    ensures var m := Encode(c, v).value.m;
            var f := c.partials[i];
            && (f.name in m <==> v.fields[i].Ptr?)
            && (v.fields[i].Ptr? ==> Encode(f.codec, v.fields[i].target) == Ok(m[f.name]))
            && (forall k :: k in m ==> exists j :: 0 <= j < |c.partials| && c.partials[j].name == k)
  {
    assert Logs.Distinct(PartialNames(c.partials));
    PartialEncoded(c, v, i);
    forall k | k in Encode(c, v).value.m ensures exists j :: 0 <= j < |c.partials| && c.partials[j].name == k {
      var j :| 0 <= j < |c.partials| && PartialNames(c.partials)[j] == k;
      assert c.partials[j].name == k;
    }
  }

  lemma PartialEncoded(c: Codec, v: Value, i: nat)
    requires c.PartialStruct? && Encode(c, v).Ok? && i < |c.partials| && Logs.Distinct(PartialNames(c.partials))
    ensures v.Rec? && |v.fields| == |c.partials| && Encode(c, v).value.Obj?
    ensures forall k :: k in Encode(c, v).value.m ==> k in PartialNames(c.partials)
    ensures var m := Encode(c, v).value.m;
            EncodePartial(c.partials[i], v.fields[i]) ==
              Ok(if c.partials[i].name in m then Present(m[c.partials[i].name]) else Absent)
  {
    var fs := c.partials;
    var rs := seq(|fs|, k requires 0 <= k < |fs| => EncodePartial(fs[k], v.fields[k]));
    CollectLookup(PartialNames(fs), seq(|rs|, k requires 0 <= k < |rs| && rs[k].Ok? => rs[k].value));
    assert rs[i].Ok? && PartialNames(fs)[i] == fs[i].name;
  }

  lemma PartialDecodesTo(c: Codec, m: map<string, Json>, i: nat)
    requires c.PartialStruct? && Decode(c, Obj(m)).Ok? && i < |c.partials|
    ensures var f := c.partials[i];
            var r := Decode(c, Obj(m)).value;
            && r.Rec? && |r.fields| == |c.partials|
            && (f.name !in m ==> r.fields[i] == Nil)
            && (f.name in m ==> r.fields[i].Ptr? && Decode(f.codec, m[f.name]) == Ok(r.fields[i].target))
  {
    var rs := seq(|c.partials|, k requires 0 <= k < |c.partials| => DecodePartial(c.partials[k], m));
    assert rs[i].Ok?;
  }

  /** It rejects an object exactly when what is under one of its keys does not decode, and names every
      such field. */
  lemma PartialDecodesIff(c: Codec, m: map<string, Json>) returns (at: seq<int>)
    requires c.PartialStruct?
    ensures Decode(c, Obj(m)).Err? <==>
              exists i ::
                0 <= i < |c.partials| && c.partials[i].name in m && Decode(c.partials[i].codec, m[c.partials[i].name]).Err?
    ensures Decode(c, Obj(m)).Err? ==>
              && Decode(c, Obj(m)).error.Invalid? && |Decode(c, Obj(m)).error.fields| == |at|
              && (forall p :: 0 <= p < |at| ==>
                    && 0 <= at[p] < |c.partials| && c.partials[at[p]].name in m
                    && Decode(c.partials[at[p]].codec, m[c.partials[at[p]].name]).Err?
                    && Decode(c, Obj(m)).error.fields[p] ==
                         (c.partials[at[p]].name, Decode(c.partials[at[p]].codec, m[c.partials[at[p]].name]).error))
              && (forall p, q :: 0 <= p < q < |at| ==> at[p] < at[q])
              && (forall i | 0 <= i < |c.partials| && c.partials[i].name in m ::
                    Decode(c.partials[i].codec, m[c.partials[i].name]).Err? ==> i in at)
  {
    hide Encode, Failures;
    var fs := c.partials;
    var rs := seq(|fs|, i requires 0 <= i < |fs| => DecodePartial(fs[i], m));
    at := FailuresExact(PartialNames(fs), rs);
    assert forall i :: 0 <= i < |fs| ==> rs[i] == DecodePartial(fs[i], m);
  }

  // ---- Shapes ----

  /** A wire value of another shape than the combinator's is a type mismatch, whatever its parts. */
  lemma OtherShapesRejected(c: Codec, j: Json)
    requires c.SliceOf? || c.StringMap? || c.MapOf? || c.Struct? || c.PartialStruct? || c.TaggedUnion?
    ensures !(if c.SliceOf? then j.Arr? else j.Obj?) ==> Decode(c, j) == Err(TypeMismatch)
    ensures Decode(c, j).Ok? ==> if c.SliceOf? then j.Arr? else j.Obj?
  {}

  /** And on the wire each combinator writes only its own shape. */
  lemma OwnShapeWritten(c: Codec, v: Value)
    requires c.SliceOf? || c.StringMap? || c.MapOf? || c.Struct? || c.PartialStruct? || c.TaggedUnion?
    requires Encode(c, v).Ok?
    ensures if c.SliceOf? then Encode(c, v).value.Arr? else Encode(c, v).value.Obj?
  {}

  /** Slices go elementwise both ways; the error is that of the first element that fails. */
  lemma SliceElementwise(c: Codec, v: Value, js: seq<Json>)
    requires c.SliceOf?
    ensures v.Slice? && Encode(c, v).Ok? ==>
              && Encode(c, v).value.Arr? && |Encode(c, v).value.elems| == |v.elems|
              && forall i :: 0 <= i < |v.elems| ==> Encode(c.elem, v.elems[i]) == Ok(Encode(c, v).value.elems[i])
    ensures v.Slice? && Encode(c, v).Err? ==>
              exists i :: 0 <= i < |v.elems| && Encode(c.elem, v.elems[i]).Err?
                          && Encode(c, v) == Err(Element(i, Encode(c.elem, v.elems[i]).error))
                          && forall k :: 0 <= k < i ==> Encode(c.elem, v.elems[k]).Ok?
    ensures Decode(c, Arr(js)).Ok? ==>
              && Decode(c, Arr(js)).value.Slice? && |Decode(c, Arr(js)).value.elems| == |js|
              && forall i :: 0 <= i < |js| ==> Decode(c.elem, js[i]) == Ok(Decode(c, Arr(js)).value.elems[i])
    ensures Decode(c, Arr(js)).Err? ==>
              exists i :: 0 <= i < |js| && Decode(c.elem, js[i]).Err?
                          && Decode(c, Arr(js)) == Err(Element(i, Decode(c.elem, js[i]).error))
                          && forall k :: 0 <= k < i ==> Decode(c.elem, js[k]).Ok?
  {
    if v.Slice? {
      var rs := seq(|v.elems|, i requires 0 <= i < |v.elems| => Encode(c.elem, v.elems[i]));
      AllOkIs(rs);
      assert forall i :: 0 <= i < |rs| ==> rs[i] == Encode(c.elem, v.elems[i]);
    }
    var ds := seq(|js|, i requires 0 <= i < |js| => Decode(c.elem, js[i]));
    AllOkIs(ds);
    assert forall i :: 0 <= i < |ds| ==> ds[i] == Decode(c.elem, js[i]);
  }

  lemma AllOkIs<T>(rs: seq<Result<T>>)
    ensures AllOk(rs).Ok? ==> |AllOk(rs).value| == |rs| && forall i :: 0 <= i < |rs| ==> rs[i] == Ok(AllOk(rs).value[i])
    ensures AllOk(rs).Err? ==>
      exists i ::
        0 <= i < |rs| && rs[i].Err? && AllOk(rs) == Err(Element(i, rs[i].error)) && forall k :: 0 <= k < i ==> rs[k].Ok?
  {
    if AllOk(rs).Err? { var i := FirstErrorIs(rs, 0); }
  }

  lemma {:induction false} FirstErrorIs<T>(rs: seq<Result<T>>, from: int) returns (i: int)
    requires 0 <= from <= |rs| && exists j :: from <= j < |rs| && rs[j].Err?
    ensures from <= i < |rs| && rs[i].Err? && FirstError(rs, from) == Element(i, rs[i].error)
    ensures forall k :: from <= k < i ==> rs[k].Ok?
    decreases |rs| - from
  {
    if rs[from].Err? { i := from; } else { i := FirstErrorIs(rs, from + 1); }
  }

  /** String maps go entrywise both ways; the error is that of an entry that fails. */
  lemma StringMapEncodesTo(c: Codec, v: Value)
    requires c.StringMap? && v.Dict?
    ensures Encode(c, v).Ok? ==>
              && Encode(c, v).value.Obj? && Encode(c, v).value.m.Keys == v.entries.Keys
              && forall k :: k in v.entries ==> Encode(c.val, v.entries[k]) == Ok(Encode(c, v).value.m[k])
    ensures Encode(c, v).Err? ==>
              exists k :: k in v.entries && Encode(c.val, v.entries[k]).Err?
                          && Encode(c, v) == Err(Entry(k, Encode(c.val, v.entries[k]).error))
  {
    hide Decode;
    AllEntriesIs(map k | k in v.entries :: Encode(c.val, v.entries[k]));
  }

  lemma StringMapDecodesTo(c: Codec, m: map<string, Json>)
    requires c.StringMap?
    ensures Decode(c, Obj(m)).Ok? ==>
              && Decode(c, Obj(m)).value.Dict? && Decode(c, Obj(m)).value.entries.Keys == m.Keys
              && forall k :: k in m ==> Decode(c.val, m[k]) == Ok(Decode(c, Obj(m)).value.entries[k])
    ensures Decode(c, Obj(m)).Err? ==>
              exists k :: k in m && Decode(c.val, m[k]).Err? && Decode(c, Obj(m)) == Err(Entry(k, Decode(c.val, m[k]).error))
  {
    hide Encode;
    AllEntriesIs(map k | k in m :: Decode(c.val, m[k]));
  }

  lemma AllEntriesIs<T>(rs: map<string, Result<T>>)
    ensures AllEntries(rs).Ok? ==>
      AllEntries(rs).value.Keys == rs.Keys && forall k :: k in rs ==> rs[k] == Ok(AllEntries(rs).value[k])
    ensures AllEntries(rs).Err? ==> exists k :: k in rs && rs[k].Err? && AllEntries(rs) == Err(Entry(k, rs[k].error))
  {}

  /** Re-keying: every new key is there, and what is under it comes from an entry that claims it. */
  lemma RekeyIs<A, B, C>(m: map<A, (B, C)>)
    ensures forall a :: a in m ==> m[a].0 in Rekey(m)
    ensures forall b :: b in Rekey(m) ==> exists a :: a in m && m[a] == (b, Rekey(m)[b])
  {
    forall a | a in m ensures m[a].0 in Rekey(m) { assert m[a].0 in NewKeys(m); }
    forall b | b in Rekey(m) ensures exists a :: a in m && m[a] == (b, Rekey(m)[b]) { RekeyOrigin(m, b); }
  }

  lemma ObjectOfRowsIs(rs: map<Value, (Result<Json>, Result<Json>)>)
    ensures ObjectOfRows(rs).Ok? <==> forall k :: k in rs ==> rs[k].0.Ok? && rs[k].0.value.Str? && rs[k].1.Ok?
    ensures ObjectOfRows(rs).Ok? ==>
              && ObjectOfRows(rs).value.Obj?
              && (forall k :: k in rs ==> rs[k].0.value.s in ObjectOfRows(rs).value.m)
              && (forall s :: s in ObjectOfRows(rs).value.m ==>
                    exists k :: k in rs && rs[k] == (Ok(Str(s)), Ok(ObjectOfRows(rs).value.m[s])))
  {
    if ObjectOfRows(rs).Ok? {
      var e := ObjectOfRowsOk(rs);
      RekeyIs(e);
      forall s | s in Rekey(e) ensures exists k :: k in rs && rs[k] == (Ok(Str(s)), Ok(Rekey(e)[s])) {
        var k :| k in e && e[k] == (s, Rekey(e)[s]);
        assert k in rs;
      }
    }
  }

  lemma TableOfIs(rs: map<string, (Result<Value>, Result<Value>)>)
    ensures TableOf(rs).Ok? <==> forall s :: s in rs ==> rs[s].0.Ok? && rs[s].1.Ok?
    ensures TableOf(rs).Ok? ==>
              && TableOf(rs).value.Table?
              && (forall s :: s in rs ==> rs[s].0.value in TableOf(rs).value.rows)
              && (forall k :: k in TableOf(rs).value.rows ==>
                    exists s :: s in rs && rs[s] == (Ok(k), Ok(TableOf(rs).value.rows[k])))
  {
    if TableOf(rs).Ok? {
      var d := map s | s in rs :: (rs[s].0.value, rs[s].1.value);
      RekeyIs(d);
      forall s | s in rs ensures rs[s].0.value in Rekey(d) { assert s in d; }
      forall k | k in Rekey(d) ensures exists s :: s in rs && rs[s] == (Ok(k), Ok(Rekey(d)[k])) {
        var s :| s in d && d[s] == (k, Rekey(d)[k]);
        assert s in rs;
      }
    }
  }

  lemma TableEncodes(c: Codec, rows: map<Value, Value>)
    requires c.MapOf?
    ensures Encode(c, Table(rows)) == ObjectOfRows(EncodedRows(c.key, c.val, rows))
  {}

  lemma ObjectDecodes(c: Codec, m: map<string, Json>)
    requires c.MapOf?
    ensures Decode(c, Obj(m)) == TableOf(DecodedRows(c.key, c.val, m))
  {}

  lemma RowsAre(key: Codec, val: Codec, rows: map<Value, Value>, m: map<string, Json>)
    ensures var rs := EncodedRows(key, val, rows);
            rs.Keys == rows.Keys && forall k :: k in rows ==> rs[k] == (Encode(key, k), Encode(val, rows[k]))
    ensures var rs := DecodedRows(key, val, m);
            rs.Keys == m.Keys && forall s :: s in m ==> rs[s] == (Decode(key, Str(s)), Decode(val, m[s]))
  {
    hide Encode, Decode;
  }

  /** Keyed maps encode exactly when every key encodes to a string and every value encodes. */
  lemma KeyedMapEncodesIff(c: Codec, rows: map<Value, Value>)
    requires c.MapOf?
    ensures Encode(c, Table(rows)).Ok? <==>
              forall k :: k in rows ==> Encode(c.key, k).Ok? && Encode(c.key, k).value.Str? && Encode(c.val, rows[k]).Ok?
  {
    hide Encode, Decode, ObjectOfRows, EncodedRows;
    TableEncodes(c, rows);
    RowsAre(c.key, c.val, rows, map[]);
    ObjectOfRowsIs(EncodedRows(c.key, c.val, rows));
  }

  /** The object's entries are the encoded rows, and no row's key is missing. */
  lemma KeyedMapEncodesTo(c: Codec, rows: map<Value, Value>, m: map<string, Json>)
    requires c.MapOf? && Encode(c, Table(rows)) == Ok(Obj(m))
    ensures forall k :: k in rows ==> exists s :: s in m && Encode(c.key, k) == Ok(Str(s))
    ensures forall s :: s in m ==>
      exists k :: k in rows && Encode(c.key, k) == Ok(Str(s)) && Encode(c.val, rows[k]) == Ok(m[s])
  {
    hide Encode, Decode, ObjectOfRows, EncodedRows;
    var rs := EncodedRows(c.key, c.val, rows);
    TableEncodes(c, rows);
    RowsAre(c.key, c.val, rows, map[]);
    ObjectOfRowsIs(rs);
    forall s | s in m ensures exists k :: k in rows && Encode(c.key, k) == Ok(Str(s)) && Encode(c.val, rows[k]) == Ok(m[s]) {
      var k :| k in rs && rs[k] == (Ok(Str(s)), Ok(m[s]));
    }
  }

  /** They decode exactly when every key and every value does. */
  lemma KeyedMapDecodesIff(c: Codec, m: map<string, Json>)
    requires c.MapOf?
    ensures Decode(c, Obj(m)).Ok? <==> forall s :: s in m ==> Decode(c.key, Str(s)).Ok? && Decode(c.val, m[s]).Ok?
  {
    hide Encode, Decode, TableOf, DecodedRows;
    ObjectDecodes(c, m);
    RowsAre(c.key, c.val, map[], m);
    TableOfIs(DecodedRows(c.key, c.val, m));
  }

  /** The rows are the decoded entries. */
  lemma KeyedMapDecodesTo(c: Codec, m: map<string, Json>, rows: map<Value, Value>)
    requires c.MapOf? && Decode(c, Obj(m)) == Ok(Table(rows))
    ensures forall s :: s in m ==> exists k :: k in rows && Decode(c.key, Str(s)) == Ok(k)
    ensures forall k :: k in rows ==>
      exists s :: s in m && Decode(c.key, Str(s)) == Ok(k) && Decode(c.val, m[s]) == Ok(rows[k])
  {
    hide Encode, Decode, TableOf, DecodedRows;
    var rs := DecodedRows(c.key, c.val, m);
    ObjectDecodes(c, m);
    RowsAre(c.key, c.val, map[], m);
    TableOfIs(rs);
    forall k | k in rows ensures exists s :: s in m && Decode(c.key, Str(s)) == Ok(k) && Decode(c.val, m[s]) == Ok(rows[k]) {
      var s :| s in rs && rs[s] == (Ok(k), Ok(rows[k]));
    }
  }

  /** Null is the encoding of nil and decodes to nil; anything else is the inner codec's business. */
  lemma NullIsNil(c: Codec, j: Json)
    requires c.Nullable?
    ensures Encode(c, Nil) == Ok(Null) && Decode(c, Null) == Ok(Nil)
    ensures j != Null ==> Decode(c, j).Ok? == Decode(c.inner, j).Ok?
    ensures j != Null && Decode(c.inner, j).Ok? ==> Decode(c, j) == Ok(Ptr(Decode(c.inner, j).value))
  {}

  /** A refused inner value is refused with the inner codec's own error, by Either with both sides' errors;
      a refinement adds only its own refusal. */
  lemma DecodeErrors(c: Codec, j: Json)
    requires c.Nullable? || c.MaybeOf? || c.Either2? || c.Refine? || c.MapSafe?
    ensures !c.Either2? && !(c.Nullable? && j.Null?) && Decode(c.inner, j).Err? ==>
              Decode(c, j) == Err(Decode(c.inner, j).error)
    ensures c.Refine? && Decode(c.inner, j).Ok? && !c.check(Decode(c.inner, j).value) ==>
              Decode(c, j) == Err(ConstraintFailed)
    ensures c.Either2? && Decode(c.l, j).Err? && Decode(c.r, j).Err? ==>
              Decode(c, j) == Err(AllFailed([Decode(c.l, j).error, Decode(c.r, j).error]))
  {}

  /** What the wrappers put on the wire: Nullable and Maybe their inner value's encoding (Maybe's Nothing
      that of the zero value), Either that of the side taken. */
  lemma WrappersEncode(c: Codec, v: Value)
    requires c.Nullable? || c.MaybeOf? || c.Either2?
    ensures c.Nullable? && v.Ptr? ==> Encode(c, v) == Encode(c.inner, v.target)
    ensures c.MaybeOf? && v.Just? ==> Encode(c, v) == Encode(c.inner, v.just)
    ensures c.MaybeOf? && v.Nothing? ==> Encode(c, v) == Encode(c.inner, c.zero)
    ensures c.Either2? && v.Left? ==> Encode(c, v) == Encode(c.l, v.left)
    ensures c.Either2? && v.Right? ==> Encode(c, v) == Encode(c.r, v.right)
  {}

  /** What they take from it: Maybe what its inner codec takes, Either what the left one takes, or else what
      the right one takes. */
  lemma WrappersDecode(c: Codec, j: Json)
    requires c.MaybeOf? || c.Either2?
    ensures c.MaybeOf? && Decode(c.inner, j).Ok? ==> Decode(c, j) == Ok(Just(Decode(c.inner, j).value))
    ensures c.Either2? && Decode(c.l, j).Ok? ==> Decode(c, j) == Ok(Left(Decode(c.l, j).value))
    ensures c.Either2? && Decode(c.l, j).Err? && Decode(c.r, j).Ok? ==> Decode(c, j) == Ok(Right(Decode(c.r, j).value))
  {}

  /** MapCodecValidated lets through, in either direction, exactly what both mappings and both codecs accept:
      the second codec has to accept the value, and what it encodes it to. */
  lemma ValidatedIff(c: Codec, v: Value, j: Json)
    requires c.MapValidated?
    ensures Encode(c, v) == Ok(j) <==> Valid(c.cb, v) && c.from(v).Ok? && Encode(c.ca, c.from(v).value) == Ok(j)
    ensures Decode(c, j) == Ok(v) <==> Decode(c.ca, j).Ok? && c.toV(Decode(c.ca, j).value) == Ok(v) && Valid(c.cb, v)
  {}

  // ---- Unions ----

  lemma FirstSuccessIs(rs: seq<Result<Value>>, i: nat)
    requires i < |rs|
    ensures rs[i].Ok? && (forall k :: 0 <= k < i ==> rs[k].Err?) ==> FirstSuccess(rs) == rs[i]
    ensures (forall k :: 0 <= k < |rs| ==> rs[k].Err?) ==>
              && FirstSuccess(rs).Err? && FirstSuccess(rs).error.AllFailed? && |FirstSuccess(rs).error.causes| == |rs|
              && rs[i] == Err(FirstSuccess(rs).error.causes[i])
  {}

  lemma BranchesTried(c: Codec, j: Json)
    requires c.UntaggedUnion?
    ensures Decode(c, j) ==
              FirstSuccess(seq(|c.branches|, k requires 0 <= k < |c.branches| => Decode(c.branches[k], j)))
  {}

  /** An untagged union decodes with the first branch that accepts, and if none does its error lists
      every branch's error in order. */
  lemma UntaggedDecodes(c: Codec, j: Json, i: nat)
    requires c.UntaggedUnion? && i < |c.branches|
    ensures Decode(c.branches[i], j).Ok? && (forall k :: 0 <= k < i ==> Decode(c.branches[k], j).Err?) ==>
              Decode(c, j) == Decode(c.branches[i], j)
    ensures (forall k :: 0 <= k < |c.branches| ==> Decode(c.branches[k], j).Err?) ==>
              && Decode(c, j).Err? && Decode(c, j).error.AllFailed? && |Decode(c, j).error.causes| == |c.branches|
              && Decode(c.branches[i], j) == Err(Decode(c, j).error.causes[i])
  {
    hide Encode, Decode, FirstSuccess;
    var rs := seq(|c.branches|, k requires 0 <= k < |c.branches| => Decode(c.branches[k], j));
    BranchesTried(c, j);
    FirstSuccessIs(rs, i);
    assert forall k :: 0 <= k < |rs| ==> rs[k] == Decode(c.branches[k], j);
  }

  /** A union writes its variant's object with the variant's name under the tag, and nothing else
      changed; it fails without a name, without a variant of that name, and when the variant does not
      encode or not to an object. */
  lemma TaggedEncodes(c: Codec, v: Value)
    requires c.TaggedUnion?
    ensures c.select(v).Err? ==> Encode(c, v) == Err(c.select(v).error)
    ensures c.select(v).Ok? && c.select(v).value !in c.variants ==> Encode(c, v) == Err(UnknownVariant(c.select(v).value))
    ensures c.select(v).Ok? && c.select(v).value in c.variants ==>
              var part := Encode(c.variants[c.select(v).value], v);
              && (part.Err? ==> Encode(c, v) == Err(Variant(c.select(v).value, part.error)))
              && (part.Ok? && !part.value.Obj? ==> Encode(c, v) == Err(TypeMismatch))
              && (part.Ok? && part.value.Obj? ==>
                    && Encode(c, v).Ok? && Encode(c, v).value.Obj?
                    && Get(Encode(c, v).value, [c.tag]) == Some(Str(c.select(v).value))
                    && forall k :: k != c.tag ==> Get(Encode(c, v).value, [k]) == Get(part.value, [k]))
  {}

  /** An object whose tag names no variant is rejected, and so is one without a tag or with one that is
      not a string unless a variant has the empty name; otherwise the named variant decides. */
  lemma TaggedDecodes(c: Codec, m: map<string, Json>, name: string)
    requires c.TaggedUnion?
    requires name == if c.tag in m && m[c.tag].Str? then m[c.tag].s else ""
    ensures name !in c.variants ==> Decode(c, Obj(m)) == Err(UnknownVariant(name))
    ensures name in c.variants ==>
              var part := Decode(c.variants[name], Obj(m));
              Decode(c, Obj(m)) == if part.Ok? then part else Err(Variant(name, part.error))
  {}
}
