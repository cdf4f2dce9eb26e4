/** When round trips fail, what validation means, and which errors are reported. */
module CodecLaws {
  import opened Wire
  import opened Codecs
  import opened CodecRoundTrip

  // ---- The side conditions are needed ----

  /** On its own MaybeOf brings back everything except Nothing, which comes back as Just(zero). */
  lemma MaybeTripsIff(c: Codec, v: Value)
    requires c.MaybeOf? && TripsAll(c.inner) && Encode(c, v).Ok?
    ensures Trips(c, v) <==> v != Nothing
    ensures v == Nothing ==> Decode(c, Encode(c, v).value) == Ok(Just(c.zero))
  {
    assert Trips(c.inner, if v == Nothing then c.zero else v.just);
  }

  /** Nullable loses exactly the non-nil references to values whose own encoding is null. */
  lemma NullableTripsIff(c: Codec, v: Value)
    requires c.Nullable? && TripsAll(c.inner) && Encode(c, v).Ok?
    ensures Trips(c, v) <==> !(v.Ptr? && Encode(c.inner, v.target) == Ok(Null))
  {
    if v.Ptr? { assert Trips(c.inner, v.target); }
  }

  /** A Right value comes back as Right exactly when the left codec rejects its encoding. */
  lemma EitherTripsIff(c: Codec, v: Value)
    requires c.Either2? && TripsAll(c.l) && TripsAll(c.r) && Encode(c, v).Ok?
    ensures Trips(c, v) <==> (v.Right? ==> Decode(c.l, Encode(c, v).value).Err?)
  {
    if v.Left? { assert Trips(c.l, v.left); }
    if v.Right? { assert Trips(c.r, v.right); }
  }

  /** An omitted field comes back exactly when its value is the one an absent key restores. */
  lemma OmittedTripsIff(f: Field, v: Value, obj: map<string, Json>)
    requires f.kind.OmitEmpty? && TripsAll(f.codec) && EncodeSlot(f, v) == Ok(SlotOf(f, obj))
    ensures DecodeSlot(f, obj) == Ok(v) <==> (f.kind.isEmpty(v) ==> v == f.zero)
  {
    assert Trips(f.codec, v);
  }

  /** MapSafe loses exactly the values its two mappings do not lead back to. */
  lemma MapSafeTripsIff(c: Codec, v: Value)
    requires c.MapSafe? && TripsAll(c.inner) && Encode(c, v).Ok?
    ensures Trips(c, v) <==> c.from(v).Ok? && c.to(c.from(v).value) == v
  {
    assert Trips(c.inner, c.from(v).value);
  }

  /** MapValidated, too, whatever its second codec accepts. */
  lemma MapValidatedTripsIff(c: Codec, v: Value)
    requires c.MapValidated? && TripsAll(c.ca) && Encode(c, v).Ok?
    ensures Trips(c, v) <==> c.from(v).Ok? && c.toV(c.from(v).value) == Ok(v)
  {
    assert Trips(c.ca, c.from(v).value);
  }

  /** Two fields under one name: the later one overwrites the earlier one's value. */
  lemma SharedNameLoses(x: string, y: string)
    ensures var f := Field("n", StringCodec(), Required, Text(""));
            var c := Struct([f, f], true);
            && Encode(c, Rec([Text(x), Text(y)])) == Ok(Obj(map["n" := Str(y)]))
            && Decode(c, Obj(map["n" := Str(y)])) == Ok(Rec([Text(y), Text(y)]))
  {
    SharedNameEncodes(x, y);
    var f, m := Field("n", StringCodec(), Required, Text("")), map["n" := Str(y)];
    assert FieldNames([f, f]) == ["n", "n"];
    StructDecodes(Struct([f, f], true), m, [Text(y), Text(y)]);
  }

  lemma SharedNameEncodes(x: string, y: string)
    ensures var f := Field("n", StringCodec(), Required, Text(""));
            Encode(Struct([f, f], true), Rec([Text(x), Text(y)])) == Ok(Obj(map["n" := Str(y)]))
  {
    hide Decode;
    var f := Field("n", StringCodec(), Required, Text(""));
    var fs, v := [f, f], Rec([Text(x), Text(y)]);
    var rs := seq(2, i requires 0 <= i < 2 => EncodeSlot(fs[i], v.fields[i]));
    assert EncodeSlot(f, Text(x)) == Ok(Present(Str(x))) && EncodeSlot(f, Text(y)) == Ok(Present(Str(y)));
    LastSlotStays("n", Str(x), Str(y));
    assert seq(2, i requires 0 <= i < 2 && rs[i].Ok? => rs[i].value) == [Present(Str(x)), Present(Str(y))];
    assert FieldNames(fs) == ["n", "n"];
  }

  lemma LastSlotStays(name: string, x: Json, y: Json)
    ensures Collect([name, name], [Present(x), Present(y)]) == map[name := y]
  {
    assert [name, name][..1] == [name] && [Present(x), Present(y)][..1] == [Present(x)];
    assert Collect([name], [Present(x)]) == map[][name := x];
  }

  // ---- Validation ----

  /** For a sound codec Validate accepts exactly the values that encode. */
  lemma ValidIffEncodes(c: Codec, v: Value)
    requires Sound(c)
    ensures Valid(c, v) <==> Encode(c, v).Ok?
  {
    RoundTrip(c);
    ValidWhenTrips(c, v);
  }

  lemma ValidWhenTrips(c: Codec, v: Value)
    requires Trips(c, v)
    ensures Valid(c, v) <==> Encode(c, v).Ok?
  {
  }

  // ---- Error accumulation ----

  /** The indices of the failing results, in order. */
  ghost function FailingAt<T>(rs: seq<Result<T>>): seq<int> {
    if rs == [] then []
    else FailingAt(rs[..|rs| - 1]) + if rs[|rs| - 1].Err? then [|rs| - 1] else []
  }

  lemma {:induction false} FailingAtAre<T>(rs: seq<Result<T>>)
    ensures var at := FailingAt(rs);
            && (forall p :: 0 <= p < |at| ==> 0 <= at[p] < |rs| && rs[at[p]].Err?)
            && (forall p, q :: 0 <= p < q < |at| ==> at[p] < at[q])
            && (forall i :: 0 <= i < |rs| && rs[i].Err? ==> i in at)
  {
    if rs == [] {
    } else {
      var n := |rs| - 1;
      var before, at := FailingAt(rs[..n]), FailingAt(rs);
      FailingAtAre(rs[..n]);
      assert before <= at;
      forall i | 0 <= i < |rs| && rs[i].Err? ensures i in at {
        if i < n { assert rs[..n][i].Err? && i in before; } else { assert at[|at| - 1] == n; }
      }
    }
  }

  lemma {:induction false} FailuresAt<T>(names: seq<string>, rs: seq<Result<T>>)
    requires |names| == |rs|
    ensures |Failures(names, rs)| == |FailingAt(rs)|
    ensures forall p :: 0 <= p < |FailingAt(rs)| ==>
      0 <= FailingAt(rs)[p] < |rs| && rs[FailingAt(rs)[p]].Err? &&
      Failures(names, rs)[p] == (names[FailingAt(rs)[p]], rs[FailingAt(rs)[p]].error)
  {
    if rs == [] {
    } else {
      FailuresAt(names[..|rs| - 1], rs[..|rs| - 1]);
    }
  }

  /** The reported failures are exactly the failing fields, each once, in declaration order. */
  lemma FailuresExact<T>(names: seq<string>, rs: seq<Result<T>>) returns (at: seq<int>)
    requires |names| == |rs|
    ensures |at| == |Failures(names, rs)|
    ensures forall p :: 0 <= p < |at| ==> 0 <= at[p] < |rs| && rs[at[p]].Err?
    ensures forall p :: 0 <= p < |at| ==> Failures(names, rs)[p] == (names[at[p]], rs[at[p]].error)
    ensures forall p, q :: 0 <= p < q < |at| ==> at[p] < at[q]
    ensures forall i :: 0 <= i < |rs| && rs[i].Err? ==> i in at
  {
    at := FailingAt(rs);
    FailingAtAre(rs);
    FailuresAt(names, rs);
  }

  ghost predicate Reports(entry: (string, Error), f: Field, m: map<string, Json>) {
    entry.0 == f.name && DecodeSlot(f, m) == Err(entry.1)
  }

  /** Decoding a struct reports every failing field at once, and for the strict form every
      undeclared key as well; it succeeds exactly when there is nothing to report. */
  lemma StructReportsEverything(c: Codec, m: map<string, Json>) returns (at: seq<int>)
    requires c.Struct?
    ensures Decode(c, Obj(m)).Ok? <==>
              (forall i :: 0 <= i < |c.fields| ==> DecodeSlot(c.fields[i], m).Ok?) &&
              (c.strict ==> forall k :: k in m ==> k in FieldNames(c.fields))
    ensures Decode(c, Obj(m)).Err? ==>
              && Decode(c, Obj(m)).error.Invalid?
              && Decode(c, Obj(m)).error.unknown == (if c.strict then UnknownKeys(c.fields, m) else {})
              && |Decode(c, Obj(m)).error.fields| == |at|
              && (forall p :: 0 <= p < |at| ==> 0 <= at[p] < |c.fields| && DecodeSlot(c.fields[at[p]], m).Err?)
              && (forall p :: 0 <= p < |at| ==> Reports(Decode(c, Obj(m)).error.fields[p], c.fields[at[p]], m))
              && (forall p, q :: 0 <= p < q < |at| ==> at[p] < at[q])
              && (forall i :: 0 <= i < |c.fields| && DecodeSlot(c.fields[i], m).Err? ==> i in at)
  {
    var fs := c.fields;
    var rs := seq(|fs|, i requires 0 <= i < |fs| => DecodeSlot(fs[i], m));
    at := FailuresExact(FieldNames(fs), rs);
    NoUnknownKeys(fs, m);
    assert forall i :: 0 <= i < |fs| ==> rs[i] == DecodeSlot(fs[i], m);
  }

  // ---- Prefixed keys ----

  function StringCodec(): Codec {
    Leaf((v: Value) => if v.Text? then Ok(Str(v.s)) else Err(IllTyped),
         (j: Json) => if j.Str? then Ok(Text(j.s)) else Err(TypeMismatch))
  }

  function TrimPrefix(s: string, prefix: string): string {
    if prefix <= s then s[|prefix|..] else s
  }

  /** PrefixedKeyCodec: the wire side checks the full key, the domain side the name after it. */
  function PrefixedKey(prefix: string, accepts: string -> bool): Codec {
    MapValidated(
      Refine(StringCodec(), (v: Value) => v.Text? && prefix <= v.s && |TrimPrefix(v.s, prefix)| > 0),
      MapSafe(Refine(StringCodec(), (v: Value) => v.Text? && accepts(v.s)), (v: Value) => v, (v: Value) => Ok(v)),
      (v: Value) => if v.Text? then Ok(Text(TrimPrefix(v.s, prefix))) else Err(IllTyped),
      (v: Value) => if v.Text? then Ok(Text(prefix + v.s)) else Err(IllTyped))
  }

  lemma PrefixedKeyOfName(prefix: string, accepts: string -> bool, name: string, key: string)
    ensures Encode(PrefixedKey(prefix, accepts), Text(name)) == Ok(Str(key)) <==>
              name != "" && accepts(name) && key == prefix + name
  {
    assert prefix <= prefix + name && (prefix + name)[|prefix|..] == name;
  }

  lemma TrimmedKey(prefix: string, name: string, key: string)
    ensures prefix <= key && TrimPrefix(key, prefix) == name <==> key == prefix + name
  {
    if prefix <= key { assert key == prefix + key[|prefix|..]; }
  }

  lemma NameOfPrefixedKey(prefix: string, accepts: string -> bool, name: string, key: string)
    ensures Decode(PrefixedKey(prefix, accepts), Str(key)) == Ok(Text(name)) <==>
              name != "" && accepts(name) && key == prefix + name
  {
    TrimmedKey(prefix, name, key);
  }

  /** Names and keys correspond one to one: a name is a key exactly when it is non-empty and
      accepted, and its key is the prefix followed by it. */
  lemma PrefixedKeysAreNames(prefix: string, accepts: string -> bool, name: string, key: string)
    ensures Encode(PrefixedKey(prefix, accepts), Text(name)) == Ok(Str(key)) <==>
              name != "" && accepts(name) && key == prefix + name
    ensures Decode(PrefixedKey(prefix, accepts), Str(key)) == Ok(Text(name)) <==>
              name != "" && accepts(name) && key == prefix + name
  {
    PrefixedKeyOfName(prefix, accepts, name, key);
    NameOfPrefixedKey(prefix, accepts, name, key);
  }
}
