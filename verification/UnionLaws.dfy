/** Which values of a union come back: tagged unions over structs, and untagged unions. */
module UnionLaws {
  import opened Wire
  import opened Codecs
  import opened CodecRoundTrip
  import CodecLaws
  import opened Logs

  // ---- Struct variants of a tagged union ----

  /** A strict variant that does not declare the tag as a field never decodes: the tag it was
      encoded with is itself an unknown key. */
  lemma StrictVariantNeverDecodes(c: Codec, name: string, m: map<string, Json>)
    requires c.TaggedUnion? && name in c.variants && c.variants[name].Struct? && c.variants[name].strict
    requires c.tag !in FieldNames(c.variants[name].fields)
    ensures Decode(c, Obj(m[c.tag := Str(name)])).Err?
  {
    var variant, obj := c.variants[name], m[c.tag := Str(name)];
    assert c.tag in UnknownKeys(variant.fields, obj);
    assert Decode(variant, Obj(obj)).Err?;
  }

  /** What the variant reads under the tag is what was written there as the value of its own field, and
      it tolerates the tag if it has no such field. */
  ghost predicate ToleratesTag(variant: Codec, tag: string, name: string, vs: seq<Value>)
    requires variant.Struct? && |vs| == |variant.fields|
  {
    && (tag !in FieldNames(variant.fields) ==> !variant.strict)
    && forall i :: 0 <= i < |vs| && variant.fields[i].name == tag ==>
         Decode(variant.fields[i].codec, Str(name)) == Ok(vs[i])
  }

  ghost predicate Selects(c: Codec, v: Value, name: string) {
    c.TaggedUnion? && c.select(v) == Ok(name) && name in c.variants
  }

  /** A field that is not the tag decodes from the tagged object as from its own. */
  lemma TaggedSlot(f: Field, v: Value, m: map<string, Json>, tag: string, name: string)
    requires SoundField(f) && EncodeSlot(f, v) == Ok(SlotOf(f, m))
    ensures DecodeSlot(f, m[tag := Str(name)]) == if f.name == tag then Decode(f.codec, Str(name)) else Ok(v)
  {
    FieldRoundTrips(f, v, m);
  }

  /** A value of a struct variant always encodes; it comes back exactly when the variant is lenient or
      declares the tag, and a declared tag field has the value that the variant's name decodes to. */
  lemma StructVariantTripsIff(c: Codec, v: Value, name: string)
    requires Selects(c, v, name) && c.variants[name].Struct? && Sound(c.variants[name])
    requires Encode(c.variants[name], v).Ok?
    ensures Encode(c, v).Ok? && v.Rec? && |v.fields| == |c.variants[name].fields|
    ensures Trips(c, v) <==> ToleratesTag(c.variants[name], c.tag, name, v.fields)
  {
    var variant := c.variants[name];
    EncodedStruct(variant, v);
    var m := Encode(variant, v).value.m;
    var tagged := m[c.tag := Str(name)];
    assert Encode(c, v) == Ok(Obj(tagged));
    forall i | 0 <= i < |v.fields|
      ensures DecodeSlot(variant.fields[i], tagged) ==
                if variant.fields[i].name == c.tag then Decode(variant.fields[i].codec, Str(name)) else Ok(v.fields[i])
    {
      TaggedSlot(variant.fields[i], v.fields[i], m, c.tag, name);
    }
    VariantDecodes(c, name, tagged);
    TaggedStructDecodes(variant, m, c.tag, name, v.fields);
  }

  lemma VariantDecodes(c: Codec, name: string, m: map<string, Json>)
    requires c.TaggedUnion? && name in c.variants && c.tag in m && m[c.tag] == Str(name)
    ensures forall v :: Decode(c, Obj(m)) == Ok(v) <==> Decode(c.variants[name], Obj(m)) == Ok(v)
  {
  }

  /** A strict struct declares every key of what it decodes. */
  lemma StrictDeclares(c: Codec, m: map<string, Json>, key: string)
    requires c.Struct? && Decode(c, Obj(m)).Ok? && key in m
    ensures c.strict ==> key in FieldNames(c.fields)
  {
    NoUnknownKeys(c.fields, m);
  }

  lemma TaggedStructDecodes(variant: Codec, m: map<string, Json>, tag: string, name: string, vs: seq<Value>)
    requires variant.Struct? && |vs| == |variant.fields|
    requires forall k :: k in m ==> k in FieldNames(variant.fields)
    requires forall i :: 0 <= i < |vs| ==>
      DecodeSlot(variant.fields[i], m[tag := Str(name)]) ==
        if variant.fields[i].name == tag then Decode(variant.fields[i].codec, Str(name)) else Ok(vs[i])
    ensures Decode(variant, WithKey(m, tag, Str(name))) == Ok(Rec(vs)) <==> ToleratesTag(variant, tag, name, vs)
  {
    var tagged := m[tag := Str(name)];
    if ToleratesTag(variant, tag, name, vs) {
      StructDecodes(variant, tagged, vs);
    }
    if Decode(variant, Obj(tagged)) == Ok(Rec(vs)) {
      forall i | 0 <= i < |vs| ensures DecodeSlot(variant.fields[i], tagged) == Ok(vs[i]) {
        RecordDecodes(variant, tagged, vs, i);
      }
      StrictDeclares(variant, tagged, tag);
    }
  }

  /** A union of one strict variant with the single field text, which does not declare the tag. */
  function StrictUnion(): Codec {
    TaggedUnion("kind", map["note" := Struct([Field("text", CodecLaws.StringCodec(), Required, Text(""))], true)],
                (v: Value) => Ok("note"))
  }

  /** It encodes every note and decodes none of them. */
  lemma StrictVariantIsLost(text: string)
    ensures Encode(StrictUnion(), Rec([Text(text)])) == Ok(Obj(map["text" := Str(text), "kind" := Str("note")]))
    ensures Decode(StrictUnion(), Obj(map["text" := Str(text), "kind" := Str("note")])).Err?
  {
    var c, v := StrictUnion(), Rec([Text(text)]);
    var variant := c.variants["note"];
    var f := variant.fields[0];
    assert EncodeSlot(f, Text(text)) == Ok(Present(Str(text)));
    EncodedStruct(variant, v);
    assert FieldNames(variant.fields)[0] == "text";
    assert Encode(variant, v).value.m == map["text" := Str(text)];
    StrictVariantNeverDecodes(c, "note", map["text" := Str(text)]);
    assert map["text" := Str(text)]["kind" := Str("note")] == map["text" := Str(text), "kind" := Str("note")];
  }

  // ---- Variants that never look at the tag ----

  /** Codecs built from lenient structs that never mention the key. */
  ghost predicate NeverReads(c: Codec, key: string)
    decreases c
  {
    match c
    case Struct(fields, strict) => !strict && forall i | 0 <= i < |fields| :: fields[i].name != key
    case PartialStruct(partials) => forall i | 0 <= i < |partials| :: partials[i].name != key
    case Refine(inner, _) => NeverReads(inner, key)
    case MapSafe(inner, _, _) => NeverReads(inner, key)
    case MapValidated(ca, _, _, _) => NeverReads(ca, key)
    case Nullable(inner) => NeverReads(inner, key)
    case MaybeOf(inner, _) => NeverReads(inner, key)
    case Either2(l, r) => NeverReads(l, key) && NeverReads(r, key)
    case UntaggedUnion(_, branches) => forall i | 0 <= i < |branches| :: NeverReads(branches[i], key)
    case TaggedUnion(tag, variants, _) => tag != key && forall name | name in variants :: NeverReads(variants[name], key)
    case SliceOf(_) => true
    case _ => false
  }

  lemma StructIgnores(c: Codec, key: string, m: map<string, Json>, x: Json)
    requires c.Struct? && NeverReads(c, key)
    ensures Decode(c, WithKey(m, key, x)) == Decode(c, Obj(m))
  {
    var fs, m' := c.fields, m[key := x];
    assert seq(|fs|, i requires 0 <= i < |fs| => DecodeSlot(fs[i], m')) ==
           seq(|fs|, i requires 0 <= i < |fs| => DecodeSlot(fs[i], m));
  }

  lemma PartialIgnores(c: Codec, key: string, m: map<string, Json>, x: Json)
    requires c.PartialStruct? && NeverReads(c, key)
    ensures Decode(c, WithKey(m, key, x)) == Decode(c, Obj(m))
  {
    var fs, m' := c.partials, m[key := x];
    assert seq(|fs|, i requires 0 <= i < |fs| => DecodePartial(fs[i], m')) ==
           seq(|fs|, i requires 0 <= i < |fs| => DecodePartial(fs[i], m));
  }

  lemma BranchesIgnore(bs: seq<Codec>, j: Json, j': Json)
    requires forall i :: 0 <= i < |bs| ==> Decode(bs[i], j) == Decode(bs[i], j')
    ensures seq(|bs|, i requires 0 <= i < |bs| => Decode(bs[i], j)) ==
            seq(|bs|, i requires 0 <= i < |bs| => Decode(bs[i], j'))
  {
  }

  /** Such codecs are safe as variants of a union tagged with that key. */
  lemma {:induction false} NeverReadsIgnores(c: Codec, key: string, m: map<string, Json>, x: Json)
    requires NeverReads(c, key)
    ensures Decode(c, WithKey(m, key, x)) == Decode(c, Obj(m))
    decreases c
  {
    match c
    case Struct(_, _) => StructIgnores(c, key, m, x);
    case PartialStruct(_) => PartialIgnores(c, key, m, x);
    case Refine(inner, _) => NeverReadsIgnores(inner, key, m, x);
    case MapSafe(inner, _, _) => NeverReadsIgnores(inner, key, m, x);
    case MapValidated(ca, _, _, _) => NeverReadsIgnores(ca, key, m, x);
    case Nullable(inner) => NeverReadsIgnores(inner, key, m, x);
    case MaybeOf(inner, _) => NeverReadsIgnores(inner, key, m, x);
    case Either2(l, r) => NeverReadsIgnores(l, key, m, x); NeverReadsIgnores(r, key, m, x);
    case UntaggedUnion(_, branches) =>
      forall i | 0 <= i < |branches| ensures Decode(branches[i], WithKey(m, key, x)) == Decode(branches[i], Obj(m)) {
        NeverReadsIgnores(branches[i], key, m, x);
      }
      BranchesIgnore(branches, WithKey(m, key, x), Obj(m));
    case TaggedUnion(_, variants, _) =>
      forall name | name in variants ensures Decode(variants[name], WithKey(m, key, x)) == Decode(variants[name], Obj(m)) {
        NeverReadsIgnores(variants[name], key, m, x);
      }
    case SliceOf(_) =>
  }

  lemma VariantMayBeLenientStruct(c: Codec, tag: string)
    requires NeverReads(c, tag)
    ensures IgnoresKey(c, tag)
  {
    forall m: map<string, Json>, x: Json ensures Decode(c, WithKey(m, tag, x)) == Decode(c, Obj(m)) {
      NeverReadsIgnores(c, tag, m, x);
    }
  }

  // ---- Untagged unions ----

  /** Branch n accepts and no earlier one does. */
  ghost predicate FirstAccepting(branches: seq<Codec>, j: Json, n: int) {
    0 <= n < |branches| && Decode(branches[n], j).Ok? && forall k :: 0 <= k < n ==> Decode(branches[k], j).Err?
  }

  lemma FirstAcceptingDecides(c: Codec, j: Json, n: int)
    requires c.UntaggedUnion? && FirstAccepting(c.branches, j, n)
    ensures Decode(c, j) == Decode(c.branches[n], j)
  {
    var ds := seq(|c.branches|, i requires 0 <= i < |c.branches| => Decode(c.branches[i], j));
    assert ds[n].Ok? && forall k | 0 <= k < n :: ds[k].Err?;
  }

  /** The branch that encoded a value accepts the encoding, so some branch is the first to accept it;
      the value comes back exactly when that one, which need not be the encoding branch, decodes to it. */
  lemma UntaggedTripsIff(c: Codec, v: Value) returns (n: int)
    requires c.UntaggedUnion? && (forall i | 0 <= i < |c.branches| :: TripsAll(c.branches[i])) && Encode(c, v).Ok?
    ensures 0 <= n <= c.which(v) < |c.branches| && FirstAccepting(c.branches, Encode(c, v).value, n)
    ensures Trips(c, v) <==> Decode(c.branches[n], Encode(c, v).value) == Ok(v)
  {
    var j := Encode(c, v).value;
    assert Trips(c.branches[c.which(v)], v);
    n := 0;
    while Decode(c.branches[n], j).Err?
      invariant 0 <= n <= c.which(v)
      invariant forall k :: 0 <= k < n ==> Decode(c.branches[k], j).Err?
      decreases c.which(v) - n
    {
      n := n + 1;
    }
    FirstAcceptingDecides(c, j, n);
  }
}
